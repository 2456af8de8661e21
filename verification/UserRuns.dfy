/** Whole runs of a process's heap: any calls of the user library and any writes into what it handed out,
    while the heap grows by SYS_MEM, or fails to. */
module UserRuns {
  import opened Bits
  import opened Common
  import opened HeapBlocks
  import opened HeapHeaders
  import opened BlockHeap
  import opened HeapRuns
  import opened UserHeap
  import opened UserResize

  /** The block list, where the memory of the heap ends, and how many pages SYS_MEM can still add. */
  datatype Arena = Arena(blocks: seq<Block>, end: nat, pages: nat)

  ghost function ArenaOf(heap: BlockHeap, grants: Grants): Arena
    reads heap, grants
  {
    Arena(heap.blocks, heap.base + |heap.memory|, grants.pages)
  }

  /** Frees, resizes and writes are of live payloads; a resize also of none. */
  ghost predicate Allowed(b: seq<Block>, q: Request) {
    match q
    case Allocate(size) => size <= REQUEST_LIMIT
    case Free(p) => IsLive(b, p)
    case Resize(p, newSize) => (p == 0 || IsLive(b, p)) && newSize <= REQUEST_LIMIT
    case Store(p, bytes) => HandsOut(b, p, |bytes|)
  }

  lemma LiveIsThere(b: seq<Block>, p: nat)
    requires IsLive(b, p)
    ensures exists x :: x in b && x.Payload() == p
  {
    var x :| x in Live(b) && x.Payload() == p;
    assert x in b;
  }

  ghost function AfterAllocation(a: Arena, size: nat): Arena {
    var k := Grown(a.blocks, size, a.pages);
    Arena(AllocatedList(a.blocks, size, a.end, a.pages).0, a.end + k * PAGE, a.pages - k)
  }

  /** The list after the live block `i` was resized. */
  ghost function ResizedList(a: Arena, i: nat, newSize: nat): seq<Block>
    requires i < |a.blocks|
  {
    var b := a.blocks;
    if newSize == 0 then Release(b, i)
    else if b[i].size >= newSize then b
    else if CanGrow(b, i, newSize) then Combine(b, i)
    else if AllocatedList(b, newSize, a.end, a.pages).1 == 0 then b
    else MovedList(b, newSize, a.end, i)
  }

  /** One block carved for the new place, the old one released. */
  ghost function MovedList(b: seq<Block>, newSize: nat, end: nat, i: nat): seq<Block> {
    var d, k, n := Ground(b, newSize, end), Chosen(b, newSize), Aligned(newSize);
    if Carves(b, d, k, n, i) then CarvesAt(b, d, k, n, i); Release(Carve(d, k, n), Shifted(d, k, n, i)) else b
  }

  /** The heap after the call. */
  ghost function Next(a: Arena, q: Request): Arena
    requires Allowed(a.blocks, q)
  {
    match q
    case Allocate(size) => AfterAllocation(a, size)
    case Free(p) => LiveIsThere(a.blocks, p); Arena(Release(a.blocks, IndexOf(a.blocks, p)), a.end, a.pages)
    case Resize(p, newSize) =>
      if p == 0 then AfterAllocation(a, newSize)
      else
        LiveIsThere(a.blocks, p);
        var i := IndexOf(a.blocks, p);
        var k := Taken(a.blocks, p, newSize, i, a.pages);
        Arena(ResizedList(a, i, newSize), a.end + k * PAGE, a.pages - k)
    case Store(_, _) => a
  }

  /** The calls are allowed one after the other and lead from `a` to `a'`. */
  ghost predicate RunsTo(a: Arena, qs: seq<Request>, a': Arena)
    decreases |qs|
  {
    if qs == [] then a' == a else Allowed(a.blocks, qs[0]) && RunsTo(Next(a, qs[0]), qs[1..], a')
  }

  // ---------- what stays live ----------

  /** An allocation takes no block away. */
  lemma AllocationKeepsLive(b: seq<Block>, size: nat, lo: nat, end: nat, pages: nat)
    requires Sorted(b, lo, end) && lo <= end && size <= REQUEST_LIMIT
    ensures Live(b) <= Live(AllocatedList(b, size, end, pages).0)
  {
    hide Carve, Live, Sorted, Carved, Aligned, GrowSize;
    if AllocatedList(b, size, end, pages).0 != b {
      AllocationCarves(b, size, end, pages);
      GroundSorted(b, size, lo, end);
      CarveAddsOne(Ground(b, size, end), Chosen(b, size), Aligned(size), lo, end + GrowSize(size));
    }
  }

  lemma AllocationCarves(b: seq<Block>, size: nat, end: nat, pages: nat)
    requires size <= REQUEST_LIMIT && AllocatedList(b, size, end, pages).0 != b
    ensures var d, k, n := Ground(b, size, end), Chosen(b, size), Aligned(size);
      k < |d| && Fits(d[k], n) && AllocatedList(b, size, end, pages).0 == Carve(d, k, n)
  {
    hide Carve;
    GrownBlockFits(size);
  }

  /** A move takes away the moved block only. */
  lemma MoveKeepsLive(b: seq<Block>, size: nat, lo: nat, end: nat, i: nat)
    requires Sorted(b, lo, end) && lo <= end
    requires Carves(b, Ground(b, size, end), Chosen(b, size), Aligned(size), i)
    ensures Live(b) - {b[i]} <= Live(MovedList(b, size, end, i))
  {
    hide Carve, Live, Sorted, Carved, Aligned, GrowSize, Ground, Chosen, Shifted, Release;
    var d, k, n := Ground(b, size, end), Chosen(b, size), Aligned(size);
    var hi := end + GrowSize(size);
    GroundSorted(b, size, lo, end);
    CarvesAt(b, d, k, n, i);
    CarveAddsOne(d, k, n, lo, hi);
    CarveKeeps(d, k, n, lo, hi);
    ReleaseRemovesOne(Carve(d, k, n), Shifted(d, k, n, i), lo, hi);
  }

  lemma ResizeKeepsLive(a: Arena, i: nat, newSize: nat, lo: nat)
    requires Sorted(a.blocks, lo, a.end) && lo <= a.end && i < |a.blocks| && !a.blocks[i].free
    ensures Live(a.blocks) - {a.blocks[i]} <= Live(ResizedList(a, i, newSize))
  {
    hide Carve, Live, Sorted, Carved, Aligned, GrowSize, Ground, Chosen, Shifted, Release, Combine, AllocatedList;
    var b := a.blocks;
    if newSize == 0 {
      ReleaseRemovesOne(b, i, lo, a.end);
    } else if b[i].size >= newSize {
    } else if CanGrow(b, i, newSize) {
      GrowChangesOne(b, i, newSize, lo, a.end);
    } else if Carves(b, Ground(b, newSize, a.end), Chosen(b, newSize), Aligned(newSize), i) {
      MoveKeepsLive(b, newSize, lo, a.end, i);
    }
  }

  /** Only the block that a call is about can leave the live blocks, whether the heap grows or not. */
  lemma NextKeepsLive(a: Arena, q: Request, lo: nat)
    requires Sorted(a.blocks, lo, a.end) && lo <= a.end && lo > 0 && Allowed(a.blocks, q)
    ensures Live(a.blocks) - Targeted(a.blocks, q) <= Live(Next(a, q).blocks)
  {
    hide Live, Sorted, Targeted, AllocatedList, Release, ResizedList, Taken, Grown;
    var b := a.blocks;
    match q
    case Allocate(size) =>
      AllocationKeepsLive(b, size, lo, a.end, a.pages);
    case Free(p) =>
      LiveIndex(b, p, lo, a.end);
      TargetedIs(b, q, IndexOf(b, p), lo, a.end);
      ReleaseRemovesOne(b, IndexOf(b, p), lo, a.end);
    case Resize(p, newSize) =>
      if p == 0 {
        AllocationKeepsLive(b, newSize, lo, a.end, a.pages);
      } else {
        LiveIndex(b, p, lo, a.end);
        TargetedIs(b, q, IndexOf(b, p), lo, a.end);
        ResizeKeepsLive(a, IndexOf(b, p), newSize, lo);
      }
    case Store(_, _) =>
  }

  // ---------- the bytes ----------

  lemma NextAllocates(a: Arena, size: nat)
    requires size <= REQUEST_LIMIT
    ensures Next(a, Allocate(size)) == AfterAllocation(a, size) && Next(a, Resize(0, size)) == AfterAllocation(a, size)
  {
  }

  lemma NextFrees(a: Arena, p: nat)
    requires IsLive(a.blocks, p)
    ensures exists x :: x in a.blocks && x.Payload() == p
    ensures Next(a, Free(p)) == Arena(Release(a.blocks, IndexOf(a.blocks, p)), a.end, a.pages)
  {
    LiveIsThere(a.blocks, p);
  }

  lemma NextStores(a: Arena, p: nat, bytes: seq<UInt8>)
    requires HandsOut(a.blocks, p, |bytes|)
    ensures Next(a, Store(p, bytes)) == a
  {
  }

  /** The list and the bytes after MemoryReallocate of the live block `i` are those of the specification. */
  lemma NextResizes(m: seq<UInt8>, a: Arena, m': seq<UInt8>, b': seq<Block>, base: nat, p: nat, newSize: nat, r: nat)
    requires p != 0 && IsLive(a.blocks, p) && 0 < newSize <= REQUEST_LIMIT && |m| <= |m'| && a.end == base + |m|
    requires Sorted(a.blocks, base, a.end)
    requires exists x :: x in a.blocks && x.Payload() == p
    requires Reallocated(m, a.blocks, m', b', base, a.pages, p, newSize, IndexOf(a.blocks, p), r)
    ensures var i := IndexOf(a.blocks, p); var k := Taken(a.blocks, p, newSize, i, a.pages);
      Next(a, Resize(p, newSize)) == Arena(b', a.end + k * PAGE, a.pages - k)
    ensures BytesKept(m, m', base, Live(a.blocks) - {a.blocks[IndexOf(a.blocks, p)]})
  {
    hide Carve, Release, Combine, Live, AllocatedList, Ground, Chosen, Aligned, Shifted, Taken, Grown, LiveKept, PayloadKept, BytesKept;
    hide Flagged, CanGrow;
    var i := IndexOf(a.blocks, p);
    LiveIndex(a.blocks, p, base, a.end);
    LiveKeptSelf(m, base, a.blocks);
    if LiveKept(m, m', base, a.blocks) {
      LiveBytes(m, m', base, a.blocks);
      FewerBytes(m, m', base, Live(a.blocks), Live(a.blocks) - {a.blocks[i]});
    } else {
      OtherBytes(m, m', base, a.blocks, i);
    }
  }

  /** The call carried out by the user library's own code, with the memory that SYS_MEM adds. It changes
      the heap as specified, and every live block that it is not about is still live, with its bytes. */
  method Perform(heap: BlockHeap, grants: Grants, q: Request) returns (r: nat)
    requires heap.Valid() && Allowed(heap.blocks, q)
    requires heap.base + |heap.memory| + grants.pages * PAGE <= WORD_LIMIT
    modifies heap, grants
    ensures heap.Valid()
    ensures |heap.memory| + grants.pages * PAGE == |old(heap.memory)| + old(grants.pages) * PAGE
    ensures ArenaOf(heap, grants) == Next(old(ArenaOf(heap, grants)), q)
    ensures Live(old(heap.blocks)) - Targeted(old(heap.blocks), q) <= Live(heap.blocks)
    ensures BytesKept(old(heap.memory), heap.memory, heap.base, Live(old(heap.blocks)) - Targeted(old(heap.blocks), q))
    ensures q.Allocate? && r != 0 ==>
      HandsOut(heap.blocks, r, q.size) && AddsGrown(old(heap.blocks), heap.blocks, r, q.size, heap.base + |old(heap.memory)|)
    ensures q.Resize? && r != 0 ==> HandsOut(heap.blocks, r, q.newSize)
    ensures q.Store? ==>
      r == q.payload >= heap.base && r + |q.bytes| <= heap.base + |heap.memory|
      && heap.memory[r - heap.base..r - heap.base + |q.bytes|] == q.bytes
  {
    hide Sorted, Holds, Live, Targeted, LiveKept, BytesKept, HandsOut, NoFreeNeighbours, IsLive, FirstFit;
    hide Carve, Release, Combine, Flagged, CanGrow, Shifted, Aligned, Reallocated, Next, AllocatedList, Grown, Taken;
    hide AddsGrown;
    ghost var b, m := heap.blocks, heap.memory;
    ghost var lo, hi := heap.base, heap.base + |heap.memory|;
    ghost var a := ArenaOf(heap, grants);
    HoldsSorted(m, lo, heap.magic, b);
    NextKeepsLive(a, q, lo);
    match q
    case Allocate(size) =>
      ApartIsNearly(b, Aligned(size));
      r := MemoryAllocate(heap, grants, size);
      NextAllocates(a, size);
      LiveBytes(m, heap.memory, lo, b);
      FewerBytes(m, heap.memory, lo, Live(b), Live(b) - Targeted(b, q));
    case Free(p) =>
      LiveIndex(b, p, lo, hi);
      ghost var i := IndexOf(b, p);
      TargetedIs(b, q, i, lo, hi);
      NextFrees(a, p);
      heap.FreeInternal(p, i);
      OtherBytes(m, heap.memory, lo, b, i);
      r := 0;
    case Resize(p, newSize) =>
      r := PerformResize(heap, grants, p, newSize);
    case Store(p, bytes) =>
      IsHandedOut(b, p, |bytes|, lo, hi);
      ghost var i := IndexOf(b, p);
      TargetedIs(b, q, i, lo, hi);
      heap.CopyInto(p, bytes, i);
      OtherBytes(m, heap.memory, lo, b, i);
      NextStores(a, p, bytes);
      r := p;
  }

  lemma ApartIsNearly(b: seq<Block>, n: nat)
    requires NoFreeNeighbours(b)
    ensures NearlyApart(b, n)
  {
  }

  method PerformResize(heap: BlockHeap, grants: Grants, p: nat, newSize: nat) returns (r: nat)
    requires heap.Valid() && (p == 0 || IsLive(heap.blocks, p)) && newSize <= REQUEST_LIMIT
    requires heap.base + |heap.memory| + grants.pages * PAGE <= WORD_LIMIT
    modifies heap, grants
    ensures heap.Valid()
    ensures |heap.memory| + grants.pages * PAGE == |old(heap.memory)| + old(grants.pages) * PAGE
    ensures ArenaOf(heap, grants) == Next(old(ArenaOf(heap, grants)), Resize(p, newSize))
    ensures BytesKept(old(heap.memory), heap.memory, heap.base, Live(old(heap.blocks)) - Targeted(old(heap.blocks), Resize(p, newSize)))
    ensures r != 0 ==> HandsOut(heap.blocks, r, newSize)
  {
    hide Sorted, Holds, Live, Targeted, LiveKept, BytesKept, HandsOut, NoFreeNeighbours, IsLive, FirstFit;
    hide Carve, Release, Combine, Flagged, CanGrow, Shifted, Aligned, Reallocated, AllocatedList, Grown, Taken, ResizedList;
    ghost var b, m := heap.blocks, heap.memory;
    ghost var lo, hi := heap.base, heap.base + |heap.memory|;
    ghost var a := ArenaOf(heap, grants);
    HoldsSorted(m, lo, heap.magic, b);
    ghost var i := 0;
    if p != 0 {
      LiveIndex(b, p, lo, hi);
      i := IndexOf(b, p);
      TargetedIs(b, Resize(p, newSize), i, lo, hi);
    }
    r := MemoryReallocate(heap, grants, p, newSize, i);
    if p == 0 {
      NoneTaken(b, newSize, i, a.pages);
      LiveBytes(m, heap.memory, lo, b);
      FewerBytes(m, heap.memory, lo, Live(b), Live(b) - Targeted(b, Resize(p, newSize)));
    } else if newSize == 0 {
      NothingTaken(b, p, i, a.pages);
      NextResizesToNothing(a, p);
      OtherBytes(m, heap.memory, lo, b, i);
    } else {
      NextResizes(m, a, heap.memory, heap.blocks, lo, p, newSize, r);
    }
  }

  lemma NoneTaken(b: seq<Block>, newSize: nat, i: nat, pages: nat)
    ensures Taken(b, 0, newSize, i, pages) == Grown(b, newSize, pages)
  {
  }

  lemma NothingTaken(b: seq<Block>, p: nat, i: nat, pages: nat)
    requires p != 0 && i < |b|
    ensures Taken(b, p, 0, i, pages) == 0
  {
  }

  lemma NextResizesToNothing(a: Arena, p: nat)
    requires p != 0 && IsLive(a.blocks, p)
    ensures exists x :: x in a.blocks && x.Payload() == p
    ensures Next(a, Resize(p, 0)) == Arena(Release(a.blocks, IndexOf(a.blocks, p)), a.end, a.pages)
  {
    LiveIsThere(a.blocks, p);
  }

  /** Any allowed list of calls carried out by the user library's own code: the heap is that of the run, and
      every live block that no call is about is still live, with the bytes it had, however often the heap
      grew or could not grow in between. */
  method PerformAll(heap: BlockHeap, grants: Grants, qs: seq<Request>, ghost a': Arena)
    requires heap.Valid() && RunsTo(ArenaOf(heap, grants), qs, a')
    requires heap.base + |heap.memory| + grants.pages * PAGE <= WORD_LIMIT
    modifies heap, grants
    ensures heap.Valid() && ArenaOf(heap, grants) == a'
    ensures |heap.memory| + grants.pages * PAGE == |old(heap.memory)| + old(grants.pages) * PAGE
    ensures Untouched(old(heap.blocks), qs) <= Live(heap.blocks)
    ensures BytesKept(old(heap.memory), heap.memory, heap.base, Untouched(old(heap.blocks), qs))
    decreases |qs|
  {
    hide Sorted, Holds, Live, Targeted, LiveKept, BytesKept, HandsOut, NoFreeNeighbours, IsLive, Untouched, Next;
    ghost var b, m := heap.blocks, heap.memory;
    if qs == [] {
      NothingTouched(b, m, heap.base);
      return;
    }
    var r := Perform(heap, grants, qs[0]);
    ghost var b1, m1 := heap.blocks, heap.memory;
    PerformAll(heap, grants, qs[1..], a');
    UntouchedAfter(m, m1, heap.memory, heap.base, b, b1, qs);
  }
}
