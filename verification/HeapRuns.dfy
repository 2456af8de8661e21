/** Whole runs of the kernel heap: as block lists from its initial single block, and as bytes through
    its own code. */
module HeapRuns {
  import opened Bits
  import opened Common
  import opened HeapBlocks
  import opened BlockHeap
  import opened HeapHeaders

  /** A call on the heap, or a write by the owner of a payload into it; frees, resizes and writes are
      of live payloads. */
  datatype Request =
    | Allocate(size: nat)
    | Free(payload: nat)
    | Resize(payload: nat, newSize: nat)
    | Store(payload: nat, bytes: seq<UInt8>)

  ghost predicate Legal(b: seq<Block>, q: Request) {
    match q
    case Allocate(size) => size < WORD_LIMIT
    case Free(p) => IsLive(b, p)
    case Resize(p, newSize) => IsLive(b, p) && newSize <= WORD_LIMIT - ALIGNMENT
    case Store(p, bytes) => HandsOut(b, p, |bytes|)
  }

  ghost function Place(b: seq<Block>, n: nat): seq<Block> {
    if FirstFit(b, n).None? then b else Carve(b, FirstFit(b, n).value, n)
  }

  /** The list after the call. */
  ghost function Serve(b: seq<Block>, q: Request, lo: nat, hi: nat): seq<Block>
    requires Sorted(b, lo, hi) && Legal(b, q)
  {
    match q
    case Allocate(size) => if size == 0 then b else Place(b, Aligned(size))
    case Free(p) => LiveIndex(b, p, lo, hi); Release(b, IndexOf(b, p))
    case Resize(p, newSize) =>
      LiveIndex(b, p, lo, hi);
      var i := IndexOf(b, p);
      var n := Aligned(newSize);
      if newSize == 0 then Release(b, i)
      else if b[i].size >= newSize then b
      else if CanGrow(b, i, newSize) then Combine(b, i)
      else if FirstFit(b, n).None? then b
      else Release(Carve(b, FirstFit(b, n).value, n), Shifted(b, FirstFit(b, n).value, n, i))
    case Store(_, _) => b
  }

  /** What every reachable list satisfies: it fills the region, keeps free blocks apart and is
      8-aligned. */
  ghost predicate Good(b: seq<Block>, lo: nat, hi: nat) {
    Tiles(b, lo, hi) && NoFreeNeighbours(b) && EightAligned(b)
  }

  lemma CarveGood(b: seq<Block>, i: nat, n: nat, lo: nat, hi: nat)
    requires Good(b, lo, hi) && i < |b| && Fits(b[i], n) && n % ALIGNMENT == 0
    ensures Good(Carve(b, i, n), lo, hi)
  {
    CarveKeeps(b, i, n, lo, hi);
    KeepsAlignment(b, i, n);
  }

  lemma ReleaseGood(b: seq<Block>, i: nat, lo: nat, hi: nat)
    requires Good(b, lo, hi) && i < |b| && !b[i].free
    ensures Good(Release(b, i), lo, hi)
  {
    hide Combine;
    ReleaseKeeps(b, i, lo, hi);
    var c := Flagged(b, i, true);
    assert EightAligned(c);
    KeepsAlignment(c, i, 0);
    ReleaseSteps(b, i);
    if i > 0 && Combine(c, i)[i - 1].free {
      KeepsAlignment(Combine(c, i), i - 1, 0);
    }
  }

  lemma ServeGood(b: seq<Block>, q: Request, lo: nat, hi: nat)
    requires Good(b, lo, hi) && Sorted(b, lo, hi) && Legal(b, q)
    ensures Good(Serve(b, q, lo, hi), lo, hi)
  {
    hide Good, Carve, Release, Combine;
    match q
    case Allocate(size) =>
      if size > 0 && FirstFit(b, Aligned(size)).Some? {
        CarveGood(b, FirstFit(b, Aligned(size)).value, Aligned(size), lo, hi);
      }
    case Free(p) =>
      LiveIndex(b, p, lo, hi);
      ReleaseGood(b, IndexOf(b, p), lo, hi);
    case Resize(p, newSize) =>
      LiveIndex(b, p, lo, hi);
      var i := IndexOf(b, p);
      var n := Aligned(newSize);
      if newSize == 0 {
        ReleaseGood(b, i, lo, hi);
      } else if b[i].size >= newSize {
      } else if CanGrow(b, i, newSize) {
        GrowGood(b, i, lo, hi);
      } else if FirstFit(b, n).Some? {
        var k := FirstFit(b, n).value;
        CarveGood(b, k, n, lo, hi);
        CarveShifts(b, k, n, i);
        ReleaseGood(Carve(b, k, n), Shifted(b, k, n, i), lo, hi);
      }
    case Store(_, _) =>
  }

  lemma GrowGood(b: seq<Block>, i: nat, lo: nat, hi: nat)
    requires Good(b, lo, hi) && i < |b| && !b[i].free
    ensures Good(Combine(b, i), lo, hi)
  {
    CombineTiles(b, i, lo, hi);
    GrowNeighbours(b, i);
    KeepsAlignment(b, i, 0);
  }

  /** The calls are legal one after the other and lead from the good list `b` to `b'`. */
  ghost predicate Runs(b: seq<Block>, qs: seq<Request>, b': seq<Block>, lo: nat, hi: nat)
    decreases |qs|
  {
    Good(b, lo, hi) &&
    if qs == [] then b' == b
    else
      TilesIsSorted(b, lo, hi);
      Legal(b, qs[0]) && Runs(Serve(b, qs[0], lo, hi), qs[1..], b', lo, hi)
  }

  lemma {:induction false} RunGood(b: seq<Block>, qs: seq<Request>, b': seq<Block>, lo: nat, hi: nat)
    requires Runs(b, qs, b', lo, hi)
    ensures Good(b', lo, hi)
    decreases |qs|
  {
    if qs != [] {
      TilesIsSorted(b, lo, hi);
      ServeGood(b, qs[0], lo, hi);
      RunGood(Serve(b, qs[0], lo, hi), qs[1..], b', lo, hi);
    }
  }

  const HEAP_START: nat := 0xFFFF_FFFF_C000_0000
  const HEAP_END: nat := HEAP_START + 1024 * 4096

  const INITIAL: seq<Block> := [Block(HEAP_START, 1024 * 4096 - HEADER, true)]

  /** After any calls on the kernel heap, the blocks tile the 4 MiB region in address order, 8-aligned,
      with no two neighbours both free; and freeing what is then live, in any order, leads back to
      the initial block. */
  lemma KernelHeapRuns(qs: seq<Request>, b: seq<Block>, order: seq<nat>)
    requires Runs(INITIAL, qs, b, HEAP_START, HEAP_END)
    requires forall i, j :: 0 <= i < j < |order| ==> order[i] != order[j]
    requires forall p: nat :: p in order <==> IsLive(b, p)
    ensures Good(b, HEAP_START, HEAP_END) && Sorted(b, HEAP_START, HEAP_END)
    ensures ReleaseAll(b, order, HEAP_START, HEAP_END) == INITIAL
  {
    InitialGood();
    RunGood(INITIAL, qs, b, HEAP_START, HEAP_END);
    FreeAllInAnyOrder(b, order, HEAP_START, HEAP_END);
  }

  lemma InitialGood()
    ensures Good(INITIAL, HEAP_START, HEAP_END)
  {
    assert INITIAL[1..] == [];
  }

  // ---------- the bytes ----------

  /** The request is about this payload. */
  predicate Targets(q: Request, p: nat) {
    match q
    case Allocate(_) => false
    case Free(x) => x == p
    case Resize(x, _) => x == p
    case Store(x, _) => x == p
  }

  /** These blocks have the same bytes in both memories. */
  ghost predicate BytesKept(m: seq<UInt8>, m': seq<UInt8>, base: nat, blocks: set<Block>) {
    |m| <= |m'| && forall x :: x in blocks ==> PayloadKept(m, m', base, x)
  }

  lemma FewerBytes(m: seq<UInt8>, m': seq<UInt8>, base: nat, x: set<Block>, y: set<Block>)
    requires BytesKept(m, m', base, x) && y <= x
    ensures BytesKept(m, m', base, y)
  {
  }

  lemma LiveBytes(m: seq<UInt8>, m': seq<UInt8>, base: nat, b: seq<Block>)
    requires LiveKept(m, m', base, b)
    ensures BytesKept(m, m', base, Live(b))
  {
    hide PayloadKept;
  }

  lemma OtherBytes(m: seq<UInt8>, m': seq<UInt8>, base: nat, b: seq<Block>, i: nat)
    requires i < |b| && LiveKept(m, m', base, Flagged(b, i, true))
    ensures BytesKept(m, m', base, Live(b) - {b[i]})
  {
    hide PayloadKept;
    FlaggedAt(b, i, true);
    forall x | x in Live(b) - {b[i]} ensures PayloadKept(m, m', base, x) {
      var j :| 0 <= j < |b| && b[j] == x;
      assert Flagged(b, i, true)[j] == x;
    }
  }

  lemma ResizedBytes(m: seq<UInt8>, b: seq<Block>, m': seq<UInt8>, b': seq<Block>, base: nat, p: nat, newSize: nat,
                     i: nat, r: nat)
    requires i < |b| && |m'| == |m| && Resized(m, b, m', b', base, p, newSize, i, r)
    ensures BytesKept(m, m', base, Live(b) - {b[i]})
  {
    hide PayloadKept, LiveKept, FirstFit, Carve, Release, Combine, CanGrow, Live;
    LiveKeptSelf(m, base, b);
    if LiveKept(m, m', base, b) {
      LiveBytes(m, m', base, b);
      FewerBytes(m, m', base, Live(b), Live(b) - {b[i]});
    } else if LiveKept(m, m', base, Flagged(b, i, true)) {
      OtherBytes(m, m', base, b, i);
    }
  }

  /** The blocks that a request is about: none, or the one with that payload. */
  ghost function Targeted(b: seq<Block>, q: Request): set<Block> {
    set x | x in Live(b) && Targets(q, x.Payload())
  }

  /** Only the block a request is about can leave the live blocks. */
  lemma ServeKeepsLive(b: seq<Block>, q: Request, lo: nat, hi: nat)
    requires Sorted(b, lo, hi) && Legal(b, q)
    ensures Live(b) - Targeted(b, q) <= Live(Serve(b, q, lo, hi))
  {
    hide Sorted, Carve, Release, Combine, Live, Targeted, Carved;
    match q
    case Allocate(size) =>
      if size > 0 && FirstFit(b, Aligned(size)).Some? {
        CarveAddsOne(b, FirstFit(b, Aligned(size)).value, Aligned(size), lo, hi);
      }
    case Free(p) =>
      LiveIndex(b, p, lo, hi);
      TargetedIs(b, q, IndexOf(b, p), lo, hi);
      ReleaseRemovesOne(b, IndexOf(b, p), lo, hi);
    case Resize(p, newSize) =>
      LiveIndex(b, p, lo, hi);
      var i := IndexOf(b, p);
      var n := Aligned(newSize);
      TargetedIs(b, q, i, lo, hi);
      if newSize == 0 {
        ReleaseRemovesOne(b, i, lo, hi);
      } else if b[i].size >= newSize {
      } else if CanGrow(b, i, newSize) {
        GrowChangesOne(b, i, newSize, lo, hi);
      } else if FirstFit(b, n).Some? {
        var k := FirstFit(b, n).value;
        CarveAddsOne(b, k, n, lo, hi);
        CarveShifts(b, k, n, i);
        CarveKeeps(b, k, n, lo, hi);
        ReleaseRemovesOne(Carve(b, k, n), Shifted(b, k, n, i), lo, hi);
      }
    case Store(_, _) =>
  }

  /** A request about the payload of the live block `i` is about no other block. */
  lemma TargetedIs(b: seq<Block>, q: Request, i: nat, lo: nat, hi: nat)
    requires Sorted(b, lo, hi) && i < |b| && !b[i].free && !q.Allocate? && q.payload == b[i].Payload()
    ensures Targeted(b, q) == {b[i]}
  {
    forall x | x in Live(b) && Targets(q, x.Payload()) ensures x == b[i] {
      var j :| 0 <= j < |b| && b[j] == x;
      SameAddress(b, i, j, lo, hi);
    }
  }

  lemma IsHandedOut(b: seq<Block>, p: nat, size: nat, lo: nat, hi: nat)
    requires Sorted(b, lo, hi) && HandsOut(b, p, size)
    ensures IsLive(b, p) && exists x :: x in b && x.Payload() == p
    ensures b[IndexOf(b, p)].size >= size && !b[IndexOf(b, p)].free
    ensures lo <= p && p + size <= hi
  {
    var x :| x in Live(b) && x.Payload() == p && x.size >= size;
    assert x in b;
    var j :| 0 <= j < |b| && b[j] == x;
    SameAddress(b, IndexOf(b, p), j, lo, hi);
  }

  /** The request carried out by the heap's own code. It changes the list as specified, and every
      live block it is not about is still live, with its bytes. */
  method Perform(heap: BlockHeap, q: Request) returns (r: nat)
    requires heap.Valid() && Legal(heap.blocks, q)
    modifies heap`memory, heap`blocks
    ensures heap.Valid() && |heap.memory| == |old(heap.memory)|
    ensures Sorted(old(heap.blocks), heap.base, heap.base + |heap.memory|)
    ensures heap.blocks == Serve(old(heap.blocks), q, heap.base, heap.base + |heap.memory|)
    ensures Live(old(heap.blocks)) - Targeted(old(heap.blocks), q) <= Live(heap.blocks)
    ensures BytesKept(old(heap.memory), heap.memory, heap.base, Live(old(heap.blocks)) - Targeted(old(heap.blocks), q))
    ensures q.Allocate? && r != 0 ==>
      HandsOut(heap.blocks, r, Aligned(q.size)) && AddsBlock(old(heap.blocks), heap.blocks, r, Aligned(q.size))
    ensures q.Resize? && r != 0 ==> HandsOut(heap.blocks, r, q.newSize)
    ensures q.Store? ==>
      r == q.payload >= heap.base && r + |q.bytes| <= heap.base + |heap.memory|
      && heap.memory[r - heap.base..r - heap.base + |q.bytes|] == q.bytes
  {
    hide Sorted, Holds, Live, Targeted, LiveKept, BytesKept, HandsOut, NoFreeNeighbours, IsLive, FirstFit, Moved;
    hide Carve, Release, Combine, Flagged, CanGrow, Shifted, Aligned, Resized, Serve, AddsBlock;
    ghost var b, m := heap.blocks, heap.memory;
    ghost var lo, hi := heap.base, heap.base + |heap.memory|;
    HoldsSorted(m, lo, heap.magic, b);
    ServeKeepsLive(b, q, lo, hi);
    match q
    case Allocate(size) =>
      r := heap.AllocateInternal(size);
      ServesAllocate(b, size, lo, hi);
      LiveBytes(m, heap.memory, lo, b);
      FewerBytes(m, heap.memory, lo, Live(b), Live(b) - Targeted(b, q));
    case Free(p) =>
      LiveIndex(b, p, lo, hi);
      ghost var i := IndexOf(b, p);
      TargetedIs(b, q, i, lo, hi);
      ServesFree(b, p, lo, hi);
      heap.FreeInternal(p, i);
      OtherBytes(m, heap.memory, lo, b, i);
      r := 0;
    case Resize(p, newSize) =>
      LiveIndex(b, p, lo, hi);
      ghost var i := IndexOf(b, p);
      TargetedIs(b, q, i, lo, hi);
      r := heap.Resize(p, newSize, i);
      if newSize == 0 {
        OtherBytes(m, heap.memory, lo, b, i);
        ServesFree(b, p, lo, hi);
        ServesResizeToNothing(b, p, lo, hi);
      } else {
        ResizedBytes(m, b, heap.memory, heap.blocks, lo, p, newSize, i, r);
        ServesResize(m, b, heap.memory, heap.blocks, p, newSize, r, lo, hi);
      }
    case Store(p, bytes) =>
      IsHandedOut(b, p, |bytes|, lo, hi);
      ghost var i := IndexOf(b, p);
      TargetedIs(b, q, i, lo, hi);
      heap.CopyInto(p, bytes, i);
      OtherBytes(m, heap.memory, lo, b, i);
      ServesStore(b, p, bytes, lo, hi);
      r := p;
  }

  lemma ServesAllocate(b: seq<Block>, size: nat, lo: nat, hi: nat)
    requires Sorted(b, lo, hi) && size < WORD_LIMIT
    ensures var fit := FirstFit(b, Aligned(size));
      Serve(b, Allocate(size), lo, hi) == if size == 0 || fit.None? then b else Carve(b, fit.value, Aligned(size))
  {
  }

  lemma ServesFree(b: seq<Block>, p: nat, lo: nat, hi: nat)
    requires Sorted(b, lo, hi) && IsLive(b, p)
    ensures exists x :: x in b && x.Payload() == p
    ensures Serve(b, Free(p), lo, hi) == Release(b, IndexOf(b, p))
  {
    hide Release;
    LiveIndex(b, p, lo, hi);
  }

  lemma ServesResizeToNothing(b: seq<Block>, p: nat, lo: nat, hi: nat)
    requires Sorted(b, lo, hi) && IsLive(b, p)
    ensures Serve(b, Resize(p, 0), lo, hi) == Serve(b, Free(p), lo, hi)
  {
    hide Release;
    LiveIndex(b, p, lo, hi);
  }

  lemma ServesResize(m: seq<UInt8>, b: seq<Block>, m': seq<UInt8>, b': seq<Block>, p: nat, newSize: nat, r: nat, lo: nat, hi: nat)
    requires Sorted(b, lo, hi) && IsLive(b, p) && 0 < newSize <= WORD_LIMIT - ALIGNMENT && |m'| == |m|
    requires exists x :: x in b && x.Payload() == p
    requires Resized(m, b, m', b', lo, p, newSize, IndexOf(b, p), r)
    ensures b' == Serve(b, Resize(p, newSize), lo, hi)
  {
    hide Carve, Release, Combine, LiveKept, FirstFit, CanGrow, Shifted, Aligned;
    LiveIndex(b, p, lo, hi);
  }

  lemma ServesStore(b: seq<Block>, p: nat, bytes: seq<UInt8>, lo: nat, hi: nat)
    requires Sorted(b, lo, hi) && HandsOut(b, p, |bytes|)
    ensures Serve(b, Store(p, bytes), lo, hi) == b
  {
  }

  /** The live blocks that no request of the list is about. */
  ghost function Untouched(b: seq<Block>, qs: seq<Request>): set<Block> {
    set x | x in Live(b) && forall j :: 0 <= j < |qs| ==> !Targets(qs[j], x.Payload())
  }

  /** Any legal list of requests carried out by the heap's own code: the list is the one of the run,
      and every live block that no request is about is still live, with the bytes it had. */
  method PerformAll(heap: BlockHeap, qs: seq<Request>, ghost b': seq<Block>)
    requires heap.Valid() && Runs(heap.blocks, qs, b', heap.base, heap.base + |heap.memory|)
    modifies heap`memory, heap`blocks
    ensures heap.Valid() && |heap.memory| == |old(heap.memory)| && heap.blocks == b'
    ensures Untouched(old(heap.blocks), qs) <= Live(heap.blocks)
    ensures BytesKept(old(heap.memory), heap.memory, heap.base, Untouched(old(heap.blocks), qs))
    decreases |qs|
  {
    hide Sorted, Holds, Live, Targeted, LiveKept, BytesKept, HandsOut, NoFreeNeighbours, IsLive, Untouched, Serve, Good;
    ghost var b, m := heap.blocks, heap.memory;
    if qs == [] {
      NothingTouched(b, m, heap.base);
      return;
    }
    var r := Perform(heap, qs[0]);
    ghost var b1, m1 := heap.blocks, heap.memory;
    PerformAll(heap, qs[1..], b');
    UntouchedAfter(m, m1, heap.memory, heap.base, b, b1, qs);
  }

  lemma NothingTouched(b: seq<Block>, m: seq<UInt8>, base: nat)
    ensures Untouched(b, []) <= Live(b) && BytesKept(m, m, base, Untouched(b, []))
  {
  }

  lemma UntouchedAfter(m: seq<UInt8>, m1: seq<UInt8>, m2: seq<UInt8>, base: nat, b: seq<Block>, b1: seq<Block>, qs: seq<Request>)
    requires qs != [] && Live(b) - Targeted(b, qs[0]) <= Live(b1)
    requires BytesKept(m, m1, base, Live(b) - Targeted(b, qs[0])) && BytesKept(m1, m2, base, Untouched(b1, qs[1..]))
    ensures Untouched(b, qs) <= Untouched(b1, qs[1..]) && BytesKept(m, m2, base, Untouched(b, qs))
  {
    hide PayloadOf;
    forall x | x in Untouched(b, qs) ensures x in Untouched(b1, qs[1..]) && PayloadKept(m, m2, base, x) {
      assert !Targets(qs[0], x.Payload());
      assert x in Live(b) - Targeted(b, qs[0]);
      assert forall j :: 0 <= j < |qs[1..]| ==> qs[1..][j] == qs[j + 1];
      assert PayloadKept(m, m1, base, x) && PayloadKept(m1, m2, base, x);
    }
  }
}
