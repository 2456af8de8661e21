/** The kernel's own half: VMVirtualMemoryInitialize and its mapping loops. */
module KernelMap {
  import Bits
  import opened Common
  import opened FrameBitmap
  import opened PageTables
  import opened Mappings
  import Isolation
  import opened PageCosts
  import opened PageWords
  import opened MemoryViews
  import AddressSpaces

  const KERNEL_FLAGS: nat := 3
  const KERNEL_BASE: nat := 0xFFFF_FFFF_8000_0000
  const DIRECT_MAP: nat := 0xFFFF_8880_0000_0000
  const FRAMEBUFFER: nat := 0xFFFF_FFFF_FC00_0000
  const HIGH: nat := 0xFFFF_8000_0000_0000

  /** The walk the hardware makes in the kernel's space. */
  ghost function Translation(w: World, p: seq<nat>): Option<Access>
    requires |p| > 0
  {
    Resolve(w.tables, w.kernel, p)
  }

  ghost predicate Mapped(w: World, virt: nat, frame: nat) {
    Translation(w, PathOf(virt)) == Some(Access(frame, true, false))
  }

  /** The pages that a loop over `size` bytes visits. */
  function PagesIn(size: nat): nat {
    (size + (PAGE - 1)) / PAGE
  }

  lemma HighAddress(virt: nat)
    requires HIGH <= virt < WORD_LIMIT
    ensures Isolation.HighPage(PathOf(virt))
  {
    hide PathOf;
    PathHalf(virt);
    Bits.RemainderIs(virt, VIRTUAL_LIMIT, 0xFFFF, virt - 0xFFFF * VIRTUAL_LIMIT);
  }

  lemma HighPages(a: nat, b: nat)
    requires HIGH <= a < WORD_LIMIT && HIGH <= b < WORD_LIMIT
    ensures PathOf(a) == PathOf(b) <==> a / PAGE == b / PAGE
  {
    hide PathOf;
    PathOfPage(a, b);
    HighNumber(a);
    HighNumber(b);
  }

  lemma HighNumber(a: nat)
    requires HIGH <= a < WORD_LIMIT
    ensures a / PAGE % 0x10_0000_0000 == a / PAGE - 0xFFFF * 0x10_0000_0000
  {
    Bits.RemainderIs(a / PAGE, 0x10_0000_0000, 0xFFFF, a / PAGE - 0xFFFF * 0x10_0000_0000);
  }

  /** Page `p` is none of the `n` pages from `virt` on. */
  ghost predicate Outside(p: seq<nat>, virt: nat, n: nat) {
    forall k: nat :: k < n ==> PathOf(virt + k * PAGE) != p
  }

  ghost predicate RangeMapped(w: World, phys: nat, virt: nat, n: nat) {
    forall k: nat :: k < n ==> Mapped(w, virt + k * PAGE, phys / PAGE + k)
  }

  ghost predicate AbsentAt(w: World, virt: nat) {
    Translation(w, PathOf(virt)) == None
  }

  ghost predicate SomeAbsent(w: World, virt: nat, n: nat) {
    exists k: nat :: k < n && AbsentAt(w, virt + k * PAGE)
  }

  /** The tables and the free frames after the tables for the pages `pages` were made: as many as are
      missing, or, when the frames do not reach, none left. */
  ghost predicate TablesMade(w: World, w': World, pages: seq<seq<nat>>)
    requires ArePages(pages)
  {
    var there, need := TablesOf(w, w.kernel), TablesNeeded(TablesOf(w, w.kernel), pages);
    if need <= FreeCount(w.used) then
      TablesOf(w', w.kernel) == there + AllPrefixes(pages) && FreeCount(w'.used) == FreeCount(w.used) - need
    else FreeCount(w'.used) == 0
  }

  ghost predicate Suffices(w: World, pages: seq<seq<nat>>)
    requires ArePages(pages)
  {
    TablesNeeded(TablesOf(w, w.kernel), pages) <= FreeCount(w.used)
  }

  /** What mapping `n` pages has done: nothing outside them, and inside all of them, or some not at all,
      exactly as the free frames suffice for the missing tables or not. */
  ghost predicate RangeDone(w: World, w': World, phys: nat, virt: nat, n: nat) {
    && w'.kernel == w.kernel && TablesMade(w, w', Paths(virt, n))
    && (forall p :: |p| == 4 && IsPath(p) && Outside(p, virt, n) ==> Translation(w', p) == Translation(w, p))
    && if Suffices(w, Paths(virt, n)) then RangeMapped(w', phys, virt, n) else SomeAbsent(w', virt, n)
  }

  lemma NothingDone(w: World, phys: nat, virt: nat)
    ensures RangeDone(w, w, phys, virt, 0)
  {
    assert Paths(virt, 0) == [];
    assert TablesOf(w, w.kernel) + {} == TablesOf(w, w.kernel);
  }

  lemma AbsentIsUnmapped(w: World, phys: nat, virt: nat, n: nat)
    requires SomeAbsent(w, virt, n)
    ensures !RangeMapped(w, phys, virt, n)
  {
    hide PathOf, Resolve;
    var k: nat :| k < n && AbsentAt(w, virt + k * PAGE);
    assert !Mapped(w, virt + k * PAGE, phys / PAGE + k);
  }

  /** So the range is mapped if and only if the frames suffice. */
  lemma MappedIfSuffices(w: World, w': World, phys: nat, virt: nat, n: nat)
    requires RangeDone(w, w', phys, virt, n)
    ensures RangeMapped(w', phys, virt, n) <==> Suffices(w, Paths(virt, n))
  {
    hide RangeMapped, SomeAbsent, Suffices;
    if SomeAbsent(w', virt, n) { AbsentIsUnmapped(w', phys, virt, n); }
  }

  lemma KernelLeafEntry(phys: nat)
    ensures LeafEntry(phys, KERNEL_FLAGS) == Entry(phys / PAGE, true, true, false)
  {
  }

  /** One kernel map: it changes its own page only, succeeds exactly if the free frames suffice for the
      missing tables, and then takes just those; otherwise it leaves none, and its page as absent as it was. */
  lemma OneMap(w: World, p: seq<nat>, leaf: Entry, q: seq<nat>)
    requires Inv(w) && Isolation.HighPage(p) && !leaf.user && |q| == 4 && IsPath(q)
    ensures CanMap(w, w.kernel, p, leaf)
    ensures var (w', ok) := Map(w, w.kernel, p, leaf);
      && Inv(w') && w'.kernel == w.kernel
      && (ok <==> Absent(TablesOf(w, w.kernel), p, 1) <= FreeCount(w.used))
      && FreeCount(w'.used) == (if ok then FreeCount(w.used) - Absent(TablesOf(w, w.kernel), p, 1) else 0)
      && (ok ==> TablesOf(w', w.kernel) == TablesOf(w, w.kernel) + Prefixes(p))
      && (!ok ==> Translation(w, p) == None)
      && Translation(w', q) == if ok && q == p then RightsOf(leaf) else Translation(w, q)
  {
    hide Resolve, Missing, FreeCount, Map, TablesOf, Absent, Prefixes;
    hide Inv, CanMap;
    Isolation.KernelMapAllowed(w, p, leaf);
    KernelMissing(w, p);
    if Map(w, w.kernel, p, leaf).1 {
      KernelMapReaches(w, p, leaf);
    }
    KernelIsRoot(w, p);
    KernelIsRoot(w, q);
    MapKeepsInv(w, w.kernel, p, leaf);
    MapUpdatesOneKey(w, w.kernel, p, leaf, w.kernel, q);
    MapTakesMissing(w, w.kernel, p, leaf);
    if !Map(w, w.kernel, p, leaf).1 {
      MissingIsNone(w.tables, w.kernel, p);
    }
  }

  lemma KernelIsRoot(w: World, p: seq<nat>)
    requires Inv(w)
    ensures IsRoot(w, w.kernel) && w.owner[w.kernel].path + p == p
  {
    assert w.owner[w.kernel].path == [];
  }

  /** One more page: the tables and the frames. */
  lemma TablesStep(w: World, w1: World, phys: nat, virt: nat, n: nat, p: seq<nat>, leaf: Entry)
    requires w1.kernel == w.kernel && TablesMade(w, w1, Paths(virt, n)) && Inv(w1)
    requires Isolation.HighPage(p) && p == PathOf(virt + n * PAGE) && !leaf.user
    ensures CanMap(w1, w1.kernel, p, leaf)
    ensures var (w2, ok) := Map(w1, w1.kernel, p, leaf);
      && w2.kernel == w.kernel && TablesMade(w, w2, Paths(virt, n + 1))
      && (Suffices(w, Paths(virt, n + 1)) ==> Suffices(w, Paths(virt, n)) && ok)
      && (Suffices(w, Paths(virt, n)) && !Suffices(w, Paths(virt, n + 1)) ==> !ok)
  {
    hide TablesOf, TablesNeeded, AllPrefixes, Absent, Prefixes, FreeCount, Map, CanMap, PathOf, Resolve, Inv;
    hide Paths;
    var there := TablesOf(w, w.kernel);
    OneMap(w1, p, leaf, p);
    PathsStart(virt, n, n);
    TablesOne(there, Paths(virt, n), p);
    assert there + AllPrefixes(Paths(virt, n)) + Prefixes(p) == there + (AllPrefixes(Paths(virt, n)) + Prefixes(p));
  }

  /** One more page of the range. */
  lemma RangeStep(w: World, w1: World, phys: nat, virt: nat, n: nat)
    requires RangeDone(w, w1, phys, virt, n) && Inv(w1)
    requires HIGH <= virt && virt + (n + 1) * PAGE <= WORD_LIMIT + PAGE - 1 && virt + n * PAGE < WORD_LIMIT && phys % PAGE == 0
    ensures var leaf := Entry(phys / PAGE + n, true, true, false); var p := PathOf(virt + n * PAGE);
      && CanMap(w1, w1.kernel, p, leaf)
      && RangeDone(w, Map(w1, w1.kernel, p, leaf).0, phys, virt, n + 1)
  {
    hide Resolve, FreeCount, Map, CanMap, PathOf, Inv, TablesMade, Suffices, Paths, TablesOf, Absent, Prefixes;
    var leaf, p := Entry(phys / PAGE + n, true, true, false), PathOf(virt + n * PAGE);
    HighAddress(virt + n * PAGE);
    OneMap(w1, p, leaf, p);
    TablesStep(w, w1, phys, virt, n, p, leaf);
    var (w2, ok) := Map(w1, w1.kernel, p, leaf);
    forall q | |q| == 4 && IsPath(q) && Outside(q, virt, n + 1) ensures Translation(w2, q) == Translation(w, q) {
      OneMap(w1, p, leaf, q);
      assert q != p;
      assert Outside(q, virt, n);
    }
    if Suffices(w, Paths(virt, n + 1)) {
      StepMapped(w1, leaf, phys, virt, n);
    } else if Suffices(w, Paths(virt, n)) {
      assert AbsentAt(w2, virt + n * PAGE);
    } else {
      var k: nat :| k < n && AbsentAt(w1, virt + k * PAGE);
      StepElsewhere(w1, leaf, virt, n, k);
      assert AbsentAt(w2, virt + k * PAGE);
    }
  }

  /** The page does not disturb the pages before it. */
  lemma StepElsewhere(w: World, leaf: Entry, virt: nat, n: nat, k: nat)
    requires Inv(w) && HIGH <= virt && virt + n * PAGE < WORD_LIMIT && !leaf.user && k < n
    ensures var p, q := PathOf(virt + n * PAGE), PathOf(virt + k * PAGE);
      CanMap(w, w.kernel, p, leaf) && Translation(Map(w, w.kernel, p, leaf).0, q) == Translation(w, q)
  {
    hide Resolve, FreeCount, Map, CanMap, PathOf, Inv;
    hide TablesOf, Absent, Prefixes;
    HighAddress(virt + n * PAGE);
    HighAddress(virt + k * PAGE);
    HighPages(virt + k * PAGE, virt + n * PAGE);
    OneMap(w, PathOf(virt + n * PAGE), leaf, PathOf(virt + k * PAGE));
  }

  lemma StepMapped(w: World, leaf: Entry, phys: nat, virt: nat, n: nat)
    requires Inv(w) && HIGH <= virt && virt + n * PAGE < WORD_LIMIT && leaf == Entry(phys / PAGE + n, true, true, false)
    requires RangeMapped(w, phys, virt, n)
    ensures CanMap(w, w.kernel, PathOf(virt + n * PAGE), leaf)
    ensures var (w', ok) := Map(w, w.kernel, PathOf(virt + n * PAGE), leaf); ok ==> RangeMapped(w', phys, virt, n + 1)
  {
    hide Resolve, FreeCount, Map, CanMap, PathOf, Inv;
    hide TablesOf, Absent, Prefixes;
    var p := PathOf(virt + n * PAGE);
    HighAddress(virt + n * PAGE);
    OneMap(w, p, leaf, p);
    var (w', ok) := Map(w, w.kernel, p, leaf);
    if ok {
      forall k: nat | k < n + 1 ensures Mapped(w', virt + k * PAGE, phys / PAGE + k) {
        if k < n {
          StepElsewhere(w, leaf, virt, n, k);
          assert Mapped(w, virt + k * PAGE, phys / PAGE + k);
        }
      }
    }
  }

  /** Each of the three loops: one kernel page after another; a map that finds no frame is ignored. */
  method MapRange(spaces: AddressSpaces.AddressSpaces, phys: nat, virt: nat, size: nat)
    requires spaces.Valid() && phys % PAGE == 0 && phys + size <= FRAME_LIMIT * PAGE
    requires HIGH <= virt && virt + size <= WORD_LIMIT
    modifies spaces`memory, spaces`world, spaces.frames.bitmap
    ensures spaces.Valid() && spaces.frames.bitmap == old(spaces.frames.bitmap)
    ensures RangeDone(old(spaces.world), spaces.world, phys, virt, PagesIn(size))
  {
    hide Inv, Map, CanMap, PathOf, View, RangeDone;
    hide LeafEntry, KeepsData, FreeCount;
    ghost var w := spaces.world;
    NothingDone(w, phys, virt);
    var i := 0;
    ghost var n := 0;
    while i < size
      invariant spaces.Valid() && spaces.frames.bitmap == old(spaces.frames.bitmap)
      invariant i == n * PAGE && i < size + PAGE
      invariant RangeDone(w, spaces.world, phys, virt, n)
      decreases size + PAGE - i
    {
      RangeStep(w, spaces.world, phys, virt, n);
      PagesOf(phys, n);
      KernelLeafEntry(phys + i);
      KernelIsRoot(spaces.world, []);
      var ok := spaces.MapPage(spaces.kernelRoot, phys + i, virt + i, KERNEL_FLAGS);
      i := i + PAGE;
      n := n + 1;
    }
    CountOf(size, n);
  }

  lemma PagesOf(phys: nat, n: nat)
    requires phys % PAGE == 0
    ensures (phys + n * PAGE) % PAGE == 0 && (phys + n * PAGE) / PAGE == phys / PAGE + n
  {
    Bits.RemainderIs(phys + n * PAGE, PAGE, phys / PAGE + n, 0);
  }

  lemma CountOf(size: nat, n: nat)
    requires size <= n * PAGE < size + PAGE
    ensures n == PagesIn(size)
  {
    Bits.RemainderIs(size + (PAGE - 1), PAGE, n, size + (PAGE - 1) - n * PAGE);
  }

  // ---------- initialization ----------

  /** How much memory there is, and where the kernel image and the framebuffer are: the three ranges of the kernel half lie in this
      order and do not meet. */
  datatype Layout = Layout(memory: nat, kernelStart: nat, kernelEnd: nat, guard: nat, screen: nat, screenSize: nat)

  ghost predicate IsLayout(l: Layout) {
    && l.memory <= FRAME_LIMIT * PAGE && DIRECT_MAP + l.memory + PAGE <= KERNEL_BASE
    && KERNEL_BASE <= l.kernelStart && l.kernelStart % PAGE == 0 && l.kernelStart <= l.guard < l.kernelEnd <= FRAMEBUFFER
    && l.screen % PAGE == 0 && l.screen + l.screenSize <= FRAME_LIMIT * PAGE && FRAMEBUFFER + l.screenSize <= WORD_LIMIT
  }

  /** Page `p` is in none of the three ranges. */
  ghost predicate Elsewhere(l: Layout, p: seq<nat>)
    requires IsLayout(l)
  {
    && |p| == 4 && IsPath(p)
    && Outside(p, DIRECT_MAP, PagesIn(l.memory))
    && Outside(p, l.kernelStart, PagesIn(l.kernelEnd - l.kernelStart))
    && Outside(p, FRAMEBUFFER, PagesIn(l.screenSize))
  }

  /** The pages of the three ranges, in the order in which they are mapped. */
  function KernelPages(l: Layout): (s: seq<seq<nat>>)
    requires IsLayout(l)
    ensures ArePages(s)
  {
    Paths(DIRECT_MAP, PagesIn(l.memory))
    + Paths(l.kernelStart, PagesIn(l.kernelEnd - l.kernelStart))
    + Paths(FRAMEBUFFER, PagesIn(l.screenSize))
  }

  /** All memory at the direct map, the image at its link address, and the framebuffer. */
  ghost predicate AllMapped(w: World, l: Layout)
    requires IsLayout(l)
  {
    && RangeMapped(w, 0, DIRECT_MAP, PagesIn(l.memory))
    && RangeMapped(w, l.kernelStart - KERNEL_BASE, l.kernelStart, PagesIn(l.kernelEnd - l.kernelStart))
    && RangeMapped(w, l.screen, FRAMEBUFFER, PagesIn(l.screenSize))
  }

  /** The kernel's half after initialization with `free` frames behind the empty root: nothing outside the
      three ranges and no guard page under the stack. If the frames suffice for the tables of the three
      ranges, just those are taken, and all memory is at the direct map, the rest of the kernel image at
      its link address, and the framebuffer behind it; otherwise no frame is left. */
  ghost predicate KernelHalf(w: World, l: Layout, free: nat)
    requires IsLayout(l)
  {
    var need := TablesNeeded({}, KernelPages(l));
    && (forall p :: Elsewhere(l, p) ==> Translation(w, p) == None)
    && Translation(w, PathOf(l.guard)) == None
    && FreeCount(w.used) == (if need <= free then free - need else 0)
    && (need <= free ==>
      && RangeMapped(w, 0, DIRECT_MAP, PagesIn(l.memory))
      && ImageMapped(w, l)
      && RangeMapped(w, l.screen, FRAMEBUFFER, PagesIn(l.screenSize)))
  }

  ghost predicate ImageMapped(w: World, l: Layout)
    requires IsLayout(l)
  {
    forall k: nat :: k < PagesIn(l.kernelEnd - l.kernelStart) && k != (l.guard - l.kernelStart) / PAGE ==>
      Mapped(w, l.kernelStart + k * PAGE, (l.kernelStart - KERNEL_BASE) / PAGE + k)
  }

  /** Ranges of pages that do not meet. */
  ghost predicate Disjoint(virt: nat, n: nat, virt': nat, n': nat) {
    forall k: nat, k': nat :: k < n && k' < n' ==> PathOf(virt + k * PAGE) != PathOf(virt' + k' * PAGE)
  }

  lemma DisjointRanges(virt: nat, size: nat, virt': nat, size': nat)
    requires HIGH <= virt && virt + size <= virt' && virt % PAGE == 0 && virt' % PAGE == 0 && virt' + size' <= WORD_LIMIT
    ensures Disjoint(virt, PagesIn(size), virt', PagesIn(size')) && Disjoint(virt', PagesIn(size'), virt, PagesIn(size))
  {
    hide PathOf;
    forall k: nat, k': nat | k < PagesIn(size) && k' < PagesIn(size')
      ensures PathOf(virt + k * PAGE) != PathOf(virt' + k' * PAGE)
    {
      PagesOf(virt, k);
      PagesOf(virt', k');
      HighPages(virt + k * PAGE, virt' + k' * PAGE);
    }
  }

  lemma RangeKept(w: World, w': World, phys: nat, virt: nat, n: nat, phys': nat, virt': nat, n': nat)
    requires RangeMapped(w, phys, virt, n) && RangeDone(w, w', phys', virt', n') && Disjoint(virt, n, virt', n')
    requires HIGH <= virt && (n == 0 || virt + (n - 1) * PAGE < WORD_LIMIT)
    ensures RangeMapped(w', phys, virt, n)
  {
    hide PathOf, Resolve, TablesMade, Suffices, Paths;
    forall k: nat | k < n ensures Mapped(w', virt + k * PAGE, phys / PAGE + k) {
      HighAddress(virt + k * PAGE);
      assert Outside(PathOf(virt + k * PAGE), virt', n');
      assert Mapped(w, virt + k * PAGE, phys / PAGE + k);
    }
  }

  lemma AbsentKept(w: World, w': World, virt: nat, n: nat, phys': nat, virt': nat, n': nat)
    requires SomeAbsent(w, virt, n) && RangeDone(w, w', phys', virt', n') && Disjoint(virt, n, virt', n')
    requires HIGH <= virt && (n == 0 || virt + (n - 1) * PAGE < WORD_LIMIT)
    ensures SomeAbsent(w', virt, n)
  {
    hide PathOf, Resolve, TablesMade, Suffices, Paths;
    var k: nat :| k < n && AbsentAt(w, virt + k * PAGE);
    HighAddress(virt + k * PAGE);
    assert Outside(PathOf(virt + k * PAGE), virt', n');
    assert AbsentAt(w', virt + k * PAGE);
  }

  /** A range stays mapped, or some page of it absent, while another range is mapped. */
  lemma RangeStays(w: World, w': World, phys: nat, virt: nat, n: nat, phys': nat, virt': nat, n': nat, all: bool)
    requires if all then RangeMapped(w, phys, virt, n) else SomeAbsent(w, virt, n)
    requires RangeDone(w, w', phys', virt', n') && Disjoint(virt, n, virt', n')
    requires HIGH <= virt && (n == 0 || virt + (n - 1) * PAGE < WORD_LIMIT)
    ensures if all then RangeMapped(w', phys, virt, n) else SomeAbsent(w', virt, n)
  {
    hide RangeMapped, RangeDone, Disjoint, SomeAbsent;
    if all {
      RangeKept(w, w', phys, virt, n, phys', virt', n');
    } else {
      AbsentKept(w, w', virt, n, phys', virt', n');
    }
  }

  /** The tables for two lists of pages, one after the other. */
  lemma TablesTwice(w: World, w1: World, w2: World, a: seq<seq<nat>>, b: seq<seq<nat>>)
    requires ArePages(a) && ArePages(b) && w1.kernel == w.kernel && w2.kernel == w.kernel
    requires TablesMade(w, w1, a) && TablesMade(w1, w2, b)
    ensures ArePages(a + b) && TablesMade(w, w2, a + b)
    ensures Suffices(w, a + b) <==> Suffices(w, a) && Suffices(w1, b)
  {
    hide TablesOf, TablesNeeded, AllPrefixes, FreeCount;
    var there := TablesOf(w, w.kernel);
    TablesSplit(there, a, b);
    assert there + (AllPrefixes(a) + AllPrefixes(b)) == there + AllPrefixes(a) + AllPrefixes(b);
  }

  /** The guard page's entry cleared. */
  lemma GuardUnmapped(w: World, guard: nat, q: seq<nat>)
    requires Inv(w) && HIGH <= guard < WORD_LIMIT && |q| == 4 && IsPath(q)
    ensures CanUnmap(w, w.kernel, PathOf(guard))
    ensures var w' := Unmap(w, w.kernel, PathOf(guard));
      && Inv(w') && w'.kernel == w.kernel && w'.used == w.used
      && Translation(w', q) == if q == PathOf(guard) then None else Translation(w, q)
  {
    hide PathOf, Resolve, Unmap;
    HighAddress(guard);
    Isolation.KernelMapAllowed(w, PathOf(guard), ABSENT);
    KernelIsRoot(w, PathOf(guard));
    KernelIsRoot(w, q);
    UnmapKeepsInv(w, w.kernel, PathOf(guard));
    UnmapRemovesOneKey(w, w.kernel, PathOf(guard), w.kernel, q);
  }

  /** The three ranges one after the other: all mapped if and only if the frames suffice. */
  lemma RangesDone(w0: World, w1: World, w2: World, w3: World, l: Layout)
    requires IsLayout(l)
    requires RangeDone(w0, w1, 0, DIRECT_MAP, PagesIn(l.memory))
    requires RangeDone(w1, w2, l.kernelStart - KERNEL_BASE, l.kernelStart, PagesIn(l.kernelEnd - l.kernelStart))
    requires RangeDone(w2, w3, l.screen, FRAMEBUFFER, PagesIn(l.screenSize))
    ensures TablesMade(w0, w3, KernelPages(l)) && w3.kernel == w0.kernel
    ensures AllMapped(w3, l) <==> Suffices(w0, KernelPages(l))
  {
    hide PathOf, Resolve, RangeMapped, SomeAbsent, FreeCount, Suffices, TablesMade, Paths, Outside, Disjoint, PagesIn;
    var a, b, c := PagesIn(l.memory), PagesIn(l.kernelEnd - l.kernelStart), PagesIn(l.screenSize);
    var k := l.kernelStart;
    LastPage(DIRECT_MAP, l.memory);
    LastPage(k, l.kernelEnd - k);
    DisjointRanges(DIRECT_MAP, l.memory, k, l.kernelEnd - k);
    DisjointRanges(DIRECT_MAP, l.memory, FRAMEBUFFER, l.screenSize);
    DisjointRanges(k, l.kernelEnd - k, FRAMEBUFFER, l.screenSize);
    var direct, image, screen := Paths(DIRECT_MAP, a), Paths(k, b), Paths(FRAMEBUFFER, c);
    TablesTwice(w0, w1, w2, direct, image);
    TablesTwice(w0, w2, w3, direct + image, screen);
    RangeStays(w1, w2, 0, DIRECT_MAP, a, k - KERNEL_BASE, k, b, Suffices(w0, direct));
    RangeStays(w2, w3, 0, DIRECT_MAP, a, l.screen, FRAMEBUFFER, c, Suffices(w0, direct));
    RangeStays(w2, w3, k - KERNEL_BASE, k, b, l.screen, FRAMEBUFFER, c, Suffices(w1, image));
    if !Suffices(w0, direct) { AbsentIsUnmapped(w3, 0, DIRECT_MAP, a); }
    if !Suffices(w1, image) { AbsentIsUnmapped(w3, k - KERNEL_BASE, k, b); }
    if !Suffices(w2, screen) { AbsentIsUnmapped(w3, l.screen, FRAMEBUFFER, c); }
  }

  /** The last page of a range begins inside it. */
  lemma LastPage(virt: nat, size: nat)
    ensures PagesIn(size) == 0 || virt + (PagesIn(size) - 1) * PAGE < virt + size
  {
  }

  lemma NothingElse(w0: World, w1: World, w2: World, w3: World, l: Layout, p: seq<nat>)
    requires IsLayout(l) && Elsewhere(l, p)
    requires RangeDone(w0, w1, 0, DIRECT_MAP, PagesIn(l.memory))
    requires RangeDone(w1, w2, l.kernelStart - KERNEL_BASE, l.kernelStart, PagesIn(l.kernelEnd - l.kernelStart))
    requires RangeDone(w2, w3, l.screen, FRAMEBUFFER, PagesIn(l.screenSize))
    ensures Translation(w3, p) == Translation(w0, p)
  {
    hide PathOf, Resolve, RangeMapped, FreeCount, Outside, TablesMade, Suffices, Paths, SomeAbsent, PagesIn;
  }

  /** Taking the guard page away leaves the rest. */
  lemma AllDone(w0: World, w1: World, w2: World, w3: World, l: Layout)
    requires IsLayout(l) && Inv(w3) && TablesOf(w0, w0.kernel) == {} && forall p :: |p| == 4 ==> Translation(w0, p) == None
    requires RangeDone(w0, w1, 0, DIRECT_MAP, PagesIn(l.memory))
    requires RangeDone(w1, w2, l.kernelStart - KERNEL_BASE, l.kernelStart, PagesIn(l.kernelEnd - l.kernelStart))
    requires RangeDone(w2, w3, l.screen, FRAMEBUFFER, PagesIn(l.screenSize))
    ensures CanUnmap(w3, w3.kernel, PathOf(l.guard))
    ensures KernelHalf(Unmap(w3, w3.kernel, PathOf(l.guard)), l, FreeCount(w0.used))
  {
    hide PathOf, Resolve, FreeCount, Unmap, RangeDone, CanUnmap, Inv;
    hide KernelPages, TablesNeeded, TablesOf, AllPrefixes, RangeMapped, ImageMapped, PagesIn;
    var guard := PathOf(l.guard);
    HighAddress(l.guard);
    GuardUnmapped(w3, l.guard, guard);
    var w := Unmap(w3, w3.kernel, guard);
    RangesDone(w0, w1, w2, w3, l);
    forall p | Elsewhere(l, p) ensures Translation(w, p) == None {
      GuardUnmapped(w3, l.guard, p);
      NothingElse(w0, w1, w2, w3, l, p);
    }
    if Suffices(w0, KernelPages(l)) {
      RangeUnguarded(w3, l.guard, 0, DIRECT_MAP, l.memory);
      ImageUnguarded(w3, l);
      RangeUnguarded(w3, l.guard, l.screen, FRAMEBUFFER, l.screenSize);
    }
  }

  lemma RangeUnguarded(w: World, guard: nat, phys: nat, virt: nat, size: nat)
    requires Inv(w) && HIGH <= guard < WORD_LIMIT && RangeMapped(w, phys, virt, PagesIn(size))
    requires HIGH <= virt && virt + size <= WORD_LIMIT && virt % PAGE == 0
    requires guard < virt || virt + size + PAGE <= guard
    ensures CanUnmap(w, w.kernel, PathOf(guard))
    ensures RangeMapped(Unmap(w, w.kernel, PathOf(guard)), phys, virt, PagesIn(size))
  {
    hide PathOf, Resolve, Unmap, Inv, CanUnmap;
    GuardUnmapped(w, guard, [0, 0, 0, 0]);
    forall k: nat | k < PagesIn(size) ensures Mapped(Unmap(w, w.kernel, PathOf(guard)), virt + k * PAGE, phys / PAGE + k) {
      HighAddress(virt + k * PAGE);
      GuardUnmapped(w, guard, PathOf(virt + k * PAGE));
      PagesOf(virt, k);
      HighPages(virt + k * PAGE, guard);
      assert Mapped(w, virt + k * PAGE, phys / PAGE + k);
    }
  }

  lemma ImageUnguarded(w: World, l: Layout)
    requires Inv(w) && IsLayout(l)
    requires RangeMapped(w, l.kernelStart - KERNEL_BASE, l.kernelStart, PagesIn(l.kernelEnd - l.kernelStart))
    ensures CanUnmap(w, w.kernel, PathOf(l.guard))
    ensures ImageMapped(Unmap(w, w.kernel, PathOf(l.guard)), l)
  {
    hide PathOf, Resolve, Unmap, Inv, CanUnmap;
    GuardUnmapped(w, l.guard, [0, 0, 0, 0]);
    forall k: nat | k < PagesIn(l.kernelEnd - l.kernelStart) && k != (l.guard - l.kernelStart) / PAGE
      ensures Mapped(Unmap(w, w.kernel, PathOf(l.guard)), l.kernelStart + k * PAGE, (l.kernelStart - KERNEL_BASE) / PAGE + k)
    {
      HighAddress(l.kernelStart + k * PAGE);
      GuardUnmapped(w, l.guard, PathOf(l.kernelStart + k * PAGE));
      PagesOf(l.kernelStart, k);
      HighPages(l.kernelStart + k * PAGE, l.guard);
      GuardIndex(l.kernelStart, l.guard);
      assert Mapped(w, l.kernelStart + k * PAGE, (l.kernelStart - KERNEL_BASE) / PAGE + k);
    }
  }

  lemma GuardIndex(start: nat, guard: nat)
    requires start % PAGE == 0 && start <= guard
    ensures guard / PAGE == start / PAGE + (guard - start) / PAGE
  {
    Bits.RemainderIs(guard, PAGE, start / PAGE + (guard - start) / PAGE, (guard - start) % PAGE);
  }

  /** The root table, zeroed: nothing is translated. */
  method EmptyRoot(frames: FrameAllocator, memory: Memory) returns (spaces: AddressSpaces.AddressSpaces)
    requires frames.Valid() && FirstFree(frames.Used()).Some? && |frames.Used()| <= FRAME_LIMIT
    requires forall f :: 0 <= f < |frames.Used()| ==> f in memory
    modifies frames.bitmap
    ensures fresh(spaces) && spaces.Valid() && spaces.frames == frames && frames.bitmap == old(frames.bitmap)
    ensures forall p :: |p| == 4 ==> Translation(spaces.world, p) == None
    ensures TablesOf(spaces.world, spaces.world.kernel) == {}
    ensures FreeCount(spaces.world.used) == FreeCount(old(frames.Used())) - 1
  {
    hide Resolve, BitsOf, TableOf, Inv;
    BootKeepsInv(frames.Used(), View(memory), FirstFree(frames.Used()).value);
    TakeOne(frames.Used(), FirstFree(frames.Used()).value);
    spaces := new AddressSpaces.AddressSpaces(frames, memory);
  }

  /** VMVirtualMemoryInitialize, for the memory size that the frame allocator found, up to the load of CR3. */
  method Initialize(frames: FrameAllocator, memory: Memory, l: Layout) returns (spaces: AddressSpaces.AddressSpaces)
    requires frames.Valid() && FirstFree(frames.Used()).Some? && |frames.Used()| <= FRAME_LIMIT
    requires forall f :: 0 <= f < |frames.Used()| ==> f in memory
    requires IsLayout(l) && l.memory == frames.totalMemory
    modifies frames.bitmap
    ensures fresh(spaces) && spaces.Valid() && spaces.frames == frames && frames.bitmap == old(frames.bitmap)
    ensures FreeCount(old(frames.Used())) > 0 && KernelHalf(spaces.world, l, FreeCount(old(frames.Used())) - 1)
  {
    hide Resolve, PathOf, BitsOf, FreeCount, TableOf;
    hide Inv, RangeDone, Unmap, CanUnmap, KernelHalf, RangeMapped, ImageMapped, Outside, TablesOf;
    hide View;
    spaces := EmptyRoot(frames, memory);
    ghost var w0 := spaces.world;
    MapRange(spaces, 0, DIRECT_MAP, l.memory);
    ghost var w1 := spaces.world;
    MapRange(spaces, l.kernelStart - KERNEL_BASE, l.kernelStart, l.kernelEnd - l.kernelStart);
    ghost var w2 := spaces.world;
    MapRange(spaces, l.screen, FRAMEBUFFER, l.screenSize);
    AllDone(w0, w1, w2, spaces.world, l);
    spaces.UnmapPage(spaces.kernelRoot, l.guard);
  }
}
