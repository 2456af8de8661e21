/** The memory of a process's heap: what SYS_MEM grants, as the allocator sees it, are the pages that the
    kernel adds to the address space. */
module UserMemory {
  import opened Bits
  import opened Common
  import opened PageTables
  import opened Mappings
  import opened PageCosts
  import opened PageWords
  import opened MemoryViews
  import AddressSpaces
  import opened MemoryServices
  import opened UserHeap

  // ---------- how many pages SYS_MEM can add ----------

  /** The largest number of pages, up to `k`, that SYS_MEM would grant from `virt` on. */
  ghost function GrantsUpTo(w: World, root: nat, virt: nat, k: nat): (n: nat)
    ensures n <= k && Granted(w, root, virt, n)
    ensures forall j :: n < j <= k ==> !Granted(w, root, virt, j)
  {
    if k == 0 || Granted(w, root, virt, k) then k else GrantsUpTo(w, root, virt, k - 1)
  }

  /** How many pages SYS_MEM can still add to a heap that ends at `virt`: the allocator's grants. */
  ghost function GrantsOf(w: World, root: nat, virt: nat): nat {
    GrantsUpTo(w, root, virt, FreeCount(w.used))
  }

  lemma {:induction false} DemandCovers(w: World, root: nat, virt: nat, n: nat)
    ensures n <= Demand(w, root, virt, n)
  {
    hide Demand;
    if n > 0 {
      DemandCovers(w, root, virt, n - 1);
      FramesGrow(w, root, virt, n - 1, n);
    }
  }

  /** A request is granted exactly if it asks for no more than that. */
  lemma GrantedUpTo(w: World, root: nat, virt: nat, n: nat)
    ensures Granted(w, root, virt, n) <==> n <= GrantsOf(w, root, virt)
  {
    hide Demand, FreeCount;
    var g := GrantsOf(w, root, virt);
    if n > 0 && Granted(w, root, virt, n) {
      DemandCovers(w, root, virt, n - 1);
    }
    if 0 < n < g {
      FramesGrow(w, root, virt, n - 1, g - 1);
    }
  }

  /** After `n` granted pages, as many fewer are left. */
  lemma GrantsAfter(w: World, m: Memory, w': World, m': Memory, root: nat, virt: nat, n: nat)
    requires PagesAdded(w, m, w', m', root, virt, Zeroed(n)) && n <= GrantsOf(w, root, virt)
    ensures GrantsOf(w', root, virt + n * PAGE) == GrantsOf(w, root, virt) - n
  {
    hide GrantsOf, Granted, PagesAdded;
    var g, g' := GrantsOf(w, root, virt), GrantsOf(w', root, virt + n * PAGE);
    GrantsShift(w, m, w', m', root, virt, n, g');
    GrantsShift(w, m, w', m', root, virt, n, g' + 1);
    GrantsShift(w, m, w', m', root, virt, n, g - n);
    GrantedUpTo(w', root, virt + n * PAGE, g');
    GrantedUpTo(w', root, virt + n * PAGE, g' + 1);
    GrantedUpTo(w', root, virt + n * PAGE, g - n);
    GrantedUpTo(w, root, virt, n + g');
    GrantedUpTo(w, root, virt, n + (g' + 1));
    GrantedUpTo(w, root, virt, g);
  }

  lemma GrantsShift(w: World, m: Memory, w': World, m': Memory, root: nat, virt: nat, n: nat, j: nat)
    requires PagesAdded(w, m, w', m', root, virt, Zeroed(n)) && n <= GrantsOf(w, root, virt)
    ensures Granted(w', root, virt + n * PAGE, j) <==> Granted(w, root, virt, n + j)
  {
    GrantedUpTo(w, root, virt, n);
    hide GrantsOf, KeepsOthers, PageResult, Needed, AllPrefixes, FreeCount, TablesOf, PathOf;
    if j > 0 {
      PathsJoin(virt, n, j - 1);
      var there := TablesOf(w, root);
      NeededSplit(there, Paths(virt, n), Paths(virt + n * PAGE, j - 1));
      NeededDecides(StockOf(w, root), Paths(virt, n));
      if j > 1 {
        FramesGrow(w, root, virt, n, n + (j - 1));
      }
    }
  }

  lemma PathsJoin(virt: nat, n: nat, k: nat)
    ensures Paths(virt, n) + Paths(virt + n * PAGE, k) == Paths(virt, n + k)
  {
    hide PathOf;
    var a, b := Paths(virt, n) + Paths(virt + n * PAGE, k), Paths(virt, n + k);
    forall i: nat | i < n + k ensures a[i] == b[i] {
      if i >= n {
        assert virt + n * PAGE + (i - n) * PAGE == virt + i * PAGE;
      }
    }
  }

  // ---------- the pages behind the heap ----------

  ghost function PageOf(bytes: seq<UInt8>, k: nat): Page
    requires (k + 1) * PAGE <= |bytes|
  {
    bytes[k * PAGE..(k + 1) * PAGE]
  }

  lemma PageEnds(n: nat, k: nat)
    requires n % PAGE == 0 && k < n / PAGE
    ensures (k + 1) * PAGE <= n
  {
  }

  /** The process may read and write these bytes at `base`, in whole pages. */
  ghost predicate Backed(w: World, m: Memory, root: nat, base: nat, bytes: seq<UInt8>) {
    && base % PAGE == 0 && |bytes| % PAGE == 0
    && forall k: nat :: k < |bytes| / PAGE ==> PageBacked(w, m, root, base, bytes, k)
  }

  ghost predicate PageBacked(w: World, m: Memory, root: nat, base: nat, bytes: seq<UInt8>, k: nat) {
    (k + 1) * PAGE <= |bytes| && UserPage(w, m, root, PathOf(base + k * PAGE), PageOf(bytes, k))
  }

  /** The old bytes are where they were. */
  lemma OldPageBacked(w: World, m: Memory, w': World, m': Memory, root: nat, base: nat, bytes: seq<UInt8>, n: nat, z: seq<UInt8>, k: nat)
    requires IsRoot(w, root) && Backed(w, m, root, base, bytes) && k < |bytes| / PAGE
    requires KeepsOthers(w, m, w', m', Range(root, base + |bytes|, n)) && base + |bytes| + n * PAGE <= LOW_LIMIT
    ensures PageBacked(w', m', root, base, bytes + z, k)
  {
    hide PathOf, Resolve, KeepsPage;
    PageEnds(|bytes|, k);
    var p := PathOf(base + k * PAGE);
    LowAddress(base + k * PAGE);
    forall i: nat | i < n ensures PathOf(base + |bytes| + i * PAGE) != p {
      PathsDiffer(base + |bytes| + i * PAGE, base + k * PAGE);
    }
    assert (root, p) !in Range(root, base + |bytes|, n);
    assert PageBacked(w, m, root, base, bytes, k) && KeepsPage(w, m, w', m', root, p);
    KeepsPageTwice(w, m, w, m, w', m', root, p, PageOf(bytes, k));
    assert PageOf(bytes + z, k) == PageOf(bytes, k);
  }

  /** The new bytes are the zeroed pages. */
  lemma NewPageBacked(w: World, m: Memory, root: nat, base: nat, bytes: seq<UInt8>, n: nat, i: nat)
    requires |bytes| % PAGE == 0 && i < n
    ensures PageBacked(w, m, root, base, bytes + Zeros(n * PAGE), |bytes| / PAGE + i) <==>
      UserPage(w, m, root, PathOf(base + |bytes| + i * PAGE), ZeroPage())
  {
    hide UserPage, PathOf;
    var k := |bytes| / PAGE + i;
    assert k * PAGE == |bytes| + i * PAGE && (k + 1) * PAGE <= |bytes| + n * PAGE;
    var page, zero := PageOf(bytes + Zeros(n * PAGE), k), ZeroPage();
    forall j | 0 <= j < PAGE ensures page[j] == zero[j] {
      assert page[j] == (bytes + Zeros(n * PAGE))[k * PAGE + j];
    }
    assert page == zero;
  }

  /** The heap of the allocator, longer by what SYS_MEM added, is in the process's memory, if the frames
      reached for the tables of the last page as well; and where that page was not mapped before, only
      then. */
  lemma GrowthIsBacked(w: World, m: Memory, w': World, m': Memory, root: nat, base: nat, bytes: seq<UInt8>, n: nat)
    requires IsRoot(w, root) && Backed(w, m, root, base, bytes) && base + |bytes| + n * PAGE <= LOW_LIMIT
    requires PagesAdded(w, m, w', m', root, base + |bytes|, Zeroed(n)) && Granted(w, root, base + |bytes|, n)
    ensures Enough(w, root, base + |bytes|, n) ==> Backed(w', m', root, base, bytes + Zeros(n * PAGE))
    ensures n > 0 && Resolve(w.tables, root, PathOf(base + |bytes| + (n - 1) * PAGE)).None? ==>
      && (Backed(w', m', root, base, bytes + Zeros(n * PAGE)) <==> Enough(w, root, base + |bytes|, n))
      && Backed(w', m', root, base, bytes + Zeros((n - 1) * PAGE))
  {
    hide Resolve, PathOf, UserPage, Enough, Granted, PageResult, Demand, PageBacked, StockOf, After, Needed, AllPrefixes;
    hide TablesOf, FreeCount;
    var end, z := base + |bytes|, Zeros(n * PAGE);
    if Enough(w, root, end, n) {
      AddedPages(w, m, w', m', root, end, Zeroed(n));
      ZeroPagesBacked(w, m, w', m', root, base, bytes, n, n);
    }
    if n > 0 && Resolve(w.tables, root, PathOf(end + (n - 1) * PAGE)).None? {
      GrantIsBacked(w, m, w', m', root, end, n);
      ZeroPagesBacked(w, m, w', m', root, base, bytes, n, n - 1);
      if Backed(w', m', root, base, bytes + z) {
        forall i: nat | i < n ensures UserPage(w', m', root, PathOf(end + i * PAGE), ZeroPage()) {
          NewPageBacked(w', m', root, base, bytes, n, i);
          PagesTogether(|bytes|, n, i);
          assert PageBacked(w', m', root, base, bytes + z, |bytes| / PAGE + i);
        }
      }
    }
  }

  lemma PagesTogether(b: nat, n: nat, i: nat)
    requires b % PAGE == 0
    ensures (b + n * PAGE) % PAGE == 0 && (b + n * PAGE) / PAGE == b / PAGE + n
  {
    RemainderIs(b + n * PAGE, PAGE, b / PAGE + n, 0);
  }

  lemma ZeroPagesBacked(w: World, m: Memory, w': World, m': Memory, root: nat, base: nat, bytes: seq<UInt8>, n: nat, k: nat)
    requires IsRoot(w, root) && Backed(w, m, root, base, bytes) && base + |bytes| + n * PAGE <= LOW_LIMIT && k <= n
    requires KeepsOthers(w, m, w', m', Range(root, base + |bytes|, n)) && UserPages(w', m', root, base + |bytes|, Zeroed(k))
    ensures Backed(w', m', root, base, bytes + Zeros(k * PAGE))
  {
    hide Resolve, PathOf, UserPage, PageBacked, KeepsOthers;
    var z := Zeros(k * PAGE);
    PagesTogether(|bytes|, k, 0);
    forall j: nat | j < |bytes + z| / PAGE ensures PageBacked(w', m', root, base, bytes + z, j) {
      if j < |bytes| / PAGE {
        OldPageBacked(w, m, w', m', root, base, bytes, n, z, j);
      } else {
        var i := j - |bytes| / PAGE;
        assert UserPage(w', m', root, PathOf(base + |bytes| + i * PAGE), Zeroed(k)[i]);
        NewPageBacked(w', m', root, base, bytes, k, i);
      }
    }
  }

  // ---------- the system call ----------

  /** SYS_MEM for whole pages, in the allocator's terms: it adds the pages that the allocator is told it
      adds, at the address that it is told, and leaves as many fewer to add. */
  method ServiceMemory(spaces: AddressSpaces.AddressSpaces, process: Process, size: nat) returns (address: nat)
    requires spaces.Valid() && IsRoot(spaces.world, process.root) && size < WORD_LIMIT && size % PAGE == 0
    requires process.heapCurrent > 0
    requires process.heapCurrent + Fewer(PagesFor(size), FreeCount(spaces.world.used)) * PAGE < LOW_LIMIT
    modifies spaces`memory, spaces`world, spaces.frames.bitmap, process
    ensures spaces.Valid() && spaces.frames.bitmap == old(spaces.frames.bitmap)
    ensures var g := GrantsOf(old(spaces.world), process.root, old(process.heapCurrent)); var k := PagesGranted(size, g);
      && address == GrantAddress(size, g, old(process.heapCurrent))
      && process.heapCurrent == old(process.heapCurrent) + k * PAGE
      && GrantsOf(spaces.world, process.root, process.heapCurrent) == g - k
      && PagesAdded(old(spaces.world), old(spaces.memory), spaces.world, spaces.memory, process.root, old(process.heapCurrent), Zeroed(k))
      && Granted(old(spaces.world), process.root, old(process.heapCurrent), k)
  {
    hide Inv, PagesAdded, View, FreeCount, PagesFor, Granted, GrantsOf, Demand, PathOf, TablesOf, Needed;
    ghost var w, m := spaces.world, spaces.memory;
    ghost var end := process.heapCurrent;
    address := ServiceMemoryAllocate(spaces, process, size);
    ghost var n := (process.heapCurrent - end) / PAGE;
    PagesTogether(0, n, 0);
    WholePages(size);
    GrantedUpTo(w, process.root, end, size / PAGE);
    GrantedUpTo(w, process.root, end, n);
    if address == 0 && size > 0 {
      FoundIsLeft(w, m, spaces.world, spaces.memory, process.root, end, Zeroed(n));
      GrantedUpTo(w, process.root, end, n + 1);
      LeftIsGranted(w, process.root, end, n);
    }
    GrantsAfter(w, m, spaces.world, spaces.memory, process.root, end, n);
  }

  lemma WholePages(size: nat)
    requires size < WORD_LIMIT && size % PAGE == 0
    ensures PagesFor(size) == size / PAGE
  {
  }

  lemma LeftIsGranted(w: World, root: nat, virt: nat, n: nat)
    ensures Granted(w, root, virt, n + 1) <==> Demand(w, root, virt, n) < FreeCount(w.used)
  {
  }
}
