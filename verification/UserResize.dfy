/** MemoryReallocate of the user library. */
module UserResize {
  import opened Bits
  import opened Common
  import opened HeapBlocks
  import opened HeapHeaders
  import opened BlockHeap
  import opened UserHeap

  /** The list an allocation of `size` bytes carves from: with the grown block if no block fits. */
  ghost function Ground(b: seq<Block>, size: nat, end: nat): seq<Block> {
    if FirstFit(b, Aligned(size)).Some? || GrowSize(size) < HEADER then b else Appended(b, end, GrowSize(size))
  }

  ghost function Chosen(b: seq<Block>, size: nat): nat {
    match FirstFit(b, Aligned(size))
    case Some(k) => k
    case None => |b|
  }

  /** An allocation that succeeds carves block `k` of `d`, and block `i` of the list is still there. */
  ghost predicate Carves(b: seq<Block>, d: seq<Block>, k: nat, n: nat, i: nat) {
    && i < |b| && !b[i].free && k < |d| && Fits(d[k], n) && k != i
    && |b| <= |d| && d[..|b|] == b && forall j :: |b| <= j < |d| ==> d[j].free
  }

  lemma Allocated(b: seq<Block>, size: nat, end: nat, pages: nat, i: nat)
    requires 0 < size <= REQUEST_LIMIT && i < |b| && !b[i].free
    requires AllocatedList(b, size, end, pages).1 != 0
    ensures var d, k, n := Ground(b, size, end), Chosen(b, size), Aligned(size);
      Carves(b, d, k, n, i) && AllocatedList(b, size, end, pages) == (Carve(d, k, n), d[k].Payload())
  {
    hide Carve;
    GrownBlockFits(size);
  }

  lemma CarvesAt(b: seq<Block>, d: seq<Block>, k: nat, n: nat, i: nat)
    requires Carves(b, d, k, n, i)
    ensures k < |d| && d[k].size >= n && !b[i].free
    ensures i < |d| && d[i] == b[i] && Flagged(d, i, true)[..|b|] == Flagged(b, i, true)
    ensures var c, i' := Carve(d, k, n), Shifted(d, k, n, i);
      k < |c| && i' < |c| && c[i'] == b[i] && i' != k && c[k].Payload() == d[k].Payload() && !c[k].free && c[k].size >= n
  {
    hide Carve, Shifted;
    assert d[i] == d[..|b|][i];
    CarveShifts(d, k, n, i);
  }

  /** Free blocks at the end do not matter to what is kept. */
  lemma LiveKeptLonger(m: seq<UInt8>, m': seq<UInt8>, base: nat, b: seq<Block>, d: seq<Block>)
    requires |b| <= |d| && d[..|b|] == b && forall j :: |b| <= j < |d| ==> d[j].free
    ensures LiveKept(m, m', base, d) <==> LiveKept(m, m', base, b)
  {
    hide PayloadKept;
    assert forall j :: 0 <= j < |b| ==> d[j] == d[..|b|][j];
    if LiveKept(m, m', base, d) {
      forall j | 0 <= j < |b| && !b[j].free ensures PayloadKept(m, m', base, b[j]) {
        assert d[j] == b[j];
      }
    }
  }

  /** What MemoryReallocate of the live block `i` to a positive size does. Its old bytes are at the
      result; on failure the list is as it was; the other live blocks keep their bytes. */
  ghost predicate Reallocated(m: seq<UInt8>, b: seq<Block>, m': seq<UInt8>, b': seq<Block>, base: nat, pages: nat,
                              p: nat, newSize: nat, i: nat, r: nat)
    requires i < |b| && |m| <= |m'|
  {
    if b[i].size >= newSize then r == p && m' == m && b' == b
    else if CanGrow(b, i, newSize) then r == p && b' == Combine(b, i) && LiveKept(m, m', base, b)
    else
      && r == AllocatedList(b, newSize, base + |m|, pages).1
      && (r == 0 ==> b' == b && LiveKept(m, m', base, b))
      && (r != 0 ==> MovedTo(m, b, m', b', base, p, newSize, i, r))
  }

  ghost predicate MovedTo(m: seq<UInt8>, b: seq<Block>, m': seq<UInt8>, b': seq<Block>, base: nat,
                          p: nat, newSize: nat, i: nat, r: nat)
    requires i < |b| && |m| <= |m'|
  {
    var d, k, n := Ground(b, newSize, base + |m|), Chosen(b, newSize), Aligned(newSize);
    && Carves(b, d, k, n, i) && r == d[k].Payload() && b' == Release(Carve(d, k, n), Shifted(d, k, n, i))
    && base <= p <= base + |m| - b[i].size && base <= r <= base + |m'| - b[i].size
    && m'[r - base..r - base + b[i].size] == m[p - base..p - base + b[i].size]
    && LiveKept(m, m', base, Flagged(b, i, true))
  }

  /** The copy to the block just allocated, and the free of the old one. */
  method Move(heap: BlockHeap, ghost m: seq<UInt8>, ghost b: seq<Block>, p: nat, r: nat, size: nat, newSize: nat, ghost i: nat)
    requires heap.Valid() && Holds(m, heap.base, heap.magic, b) && LiveKept(m, heap.memory, heap.base, b)
    requires 0 < newSize <= WORD_LIMIT - ALIGNMENT && i < |b| && p == b[i].Payload() && size == b[i].size < newSize
    requires var d, k, n := Ground(b, newSize, heap.base + |m|), Chosen(b, newSize), Aligned(newSize);
      Carves(b, d, k, n, i) && r == d[k].Payload() && heap.blocks == Carve(d, k, n)
    modifies heap`memory, heap`blocks
    ensures heap.Valid() && |heap.memory| == |old(heap.memory)| && |m| <= |heap.memory|
    ensures MovedTo(m, b, heap.memory, heap.blocks, heap.base, p, newSize, i, r)
    ensures HandsOut(heap.blocks, r, newSize)
  {
    hide Holds, Expected, Sorted, HeaderAt, Carve;
    hide NoFreeNeighbours, LiveKept, Release, Shifted, Flagged, Aligned, Ground, Chosen, Carves, HandsOut;
    ghost var d, k, n := Ground(b, newSize, heap.base + |m|), Chosen(b, newSize), Aligned(newSize);
    ghost var c, m1 := heap.blocks, heap.memory;
    AlignedCovers(newSize);
    CarvesAt(b, d, k, n, i);
    ghost var i' := Shifted(d, k, n, i);
    BlockHeader(m, heap.base, heap.magic, b, i);
    BlockHeader(m1, heap.base, heap.magic, c, k);
    PayloadStays(m, m1, heap.base, b, i);
    heap.CopyInto(r, heap.memory[p - heap.base..p - heap.base + size], k);
    ghost var m2 := heap.memory;
    BlockHeader(m2, heap.base, heap.magic, c, k);
    OtherHandsOut(c, i', k, newSize, heap.base, heap.base + |m2|);
    heap.FreeInternal(p, i');
    FlaggedAt(c, i', true);
    PayloadStays(m2, heap.memory, heap.base, Flagged(c, i', true), k);
    PrefixStays(m2, heap.memory, heap.base, c[k], size);
    OthersKept(m, m1, m2, heap.memory, heap.base, b, d, k, n, i);
  }

  lemma OthersKept(m: seq<UInt8>, m1: seq<UInt8>, m2: seq<UInt8>, m3: seq<UInt8>, base: nat,
                   b: seq<Block>, d: seq<Block>, k: nat, n: nat, i: nat)
    requires Carves(b, d, k, n, i) && LiveKept(m, m1, base, b)
    requires LiveKept(m1, m2, base, Flagged(Carve(d, k, n), k, true))
    requires LiveKept(m2, m3, base, Flagged(Carve(d, k, n), Shifted(d, k, n, i), true))
    ensures LiveKept(m, m3, base, Flagged(b, i, true))
  {
    hide LiveKept, Carve, Shifted, Flagged;
    CarvesAt(b, d, k, n, i);
    LiveKeptLonger(m, m1, base, b, d);
    MovedLive(m, m1, m2, m3, base, d, k, n, i);
    FlaggedAt(d, i, true);
    FlaggedAt(b, i, true);
    LiveKeptLonger(m, m3, base, Flagged(b, i, true), Flagged(d, i, true));
  }

  /** The pages that this adds: those of an allocation, when the block cannot be resized in place. */
  ghost function Taken(b: seq<Block>, p: nat, newSize: nat, i: nat, pages: nat): (k: nat)
    requires p != 0 ==> i < |b|
    ensures k <= pages
  {
    if p != 0 && (newSize == 0 || b[i].size >= newSize || CanGrow(b, i, newSize)) then 0 else Grown(b, newSize, pages)
  }

  /** MemoryReallocate for the live block `i`, or for no block when `p` is 0. */
  method MemoryReallocate(heap: BlockHeap, grants: Grants, p: nat, newSize: nat, ghost i: nat) returns (r: nat)
    requires heap.Valid() && newSize <= REQUEST_LIMIT
    requires heap.base + |heap.memory| + grants.pages * PAGE <= WORD_LIMIT
    requires p != 0 ==> i < |heap.blocks| && p == heap.blocks[i].Payload() && !heap.blocks[i].free
    modifies heap, grants
    ensures heap.Valid() && |old(heap.memory)| <= |heap.memory|
    ensures p == 0 && r != 0 ==> AddsGrown(old(heap.blocks), heap.blocks, r, newSize, heap.base + |old(heap.memory)|)
    ensures p == 0 ==>
      && (heap.blocks, r) == AllocatedList(old(heap.blocks), newSize, heap.base + |old(heap.memory)|, old(grants.pages))
      && LiveKept(old(heap.memory), heap.memory, heap.base, old(heap.blocks))
    ensures p != 0 && newSize == 0 ==>
      && r == 0 && heap.blocks == Release(old(heap.blocks), i)
      && LiveKept(old(heap.memory), heap.memory, heap.base, Flagged(old(heap.blocks), i, true))
    ensures p != 0 && newSize > 0 ==>
      Reallocated(old(heap.memory), old(heap.blocks), heap.memory, heap.blocks, heap.base, old(grants.pages), p, newSize, i, r)
    ensures p != 0 && newSize > 0 ==> ResizesLive(old(heap.blocks), heap.blocks, i, newSize, r)
    ensures r != 0 ==> HandsOut(heap.blocks, r, newSize)
    ensures grants.pages == old(grants.pages) - Taken(old(heap.blocks), p, newSize, i, old(grants.pages))
    ensures |heap.memory| + grants.pages * PAGE == |old(heap.memory)| + old(grants.pages) * PAGE
  {
    hide Expected, Sorted, HeaderAt, Carve, Holds, HandsOut, Grown;
    hide NoFreeNeighbours, LiveKept, Release, Combine, Shifted, Flagged, Aligned, AllocatedList, Ground, Chosen, MovedTo, AddsGrown;
    hide Reallocated, ResizesLive, NoRoom, AddsBlock, GrowSize, FirstFit, Live;
    ghost var b, m := heap.blocks, heap.memory;
    LiveKeptSelf(m, heap.base, b);
    if p == 0 {
      r := MemoryAllocate(heap, grants, newSize);
      KeptIsLonger(m, heap.memory, heap.base, b);
      return;
    }
    if newSize == 0 {
      heap.FreeInternal(p, i);
      return 0;
    }
    var current := p - HEADER;
    BlockHeader(m, heap.base, heap.magic, b, i);
    if i + 1 < |b| { BlockHeader(m, heap.base, heap.magic, b, i + 1); }
    var h := heap.At(current);
    HoldsSorted(m, heap.base, heap.magic, b);
    if h.size >= newSize {
      HandsOutAt(b, i, newSize);
      ReallocatedSame(m, b, heap.base, grants.pages, p, newSize, i);
      ReallocatedIs(m, b, m, b, heap.base, grants.pages, p, newSize, i, p);
      return p;
    }
    if h.next != 0 && heap.At(h.next).isFree && h.size + HEADER + heap.At(h.next).size >= newSize {
      GrowNeighbours(b, i);
      CombineHead(b, i);
      GrownHandsOut(b, i, newSize, heap.base, heap.base + |m|);
      heap.CombineForward(current, i);
      ReallocatedGrown(m, b, heap.memory, heap.base, grants.pages, p, newSize, i);
      ReallocatedIs(m, b, heap.memory, heap.blocks, heap.base, grants.pages, p, newSize, i, p);
      return p;
    }
    r := MemoryAllocate(heap, grants, newSize);
    KeptIsLonger(m, heap.memory, heap.base, b);
    if r == 0 {
      NothingAllocated(b, newSize, heap.base + |m|, old(grants.pages));
    } else {
      Allocated(b, newSize, heap.base + |m|, old(grants.pages), i);
      Move(heap, m, b, p, r, h.size, newSize, i);
    }
    ReallocatedElse(m, b, heap.memory, heap.blocks, heap.base, old(grants.pages), p, newSize, i, r);
    ReallocatedIs(m, b, heap.memory, heap.blocks, heap.base, old(grants.pages), p, newSize, i, r);
  }

  lemma ReallocatedSame(m: seq<UInt8>, b: seq<Block>, base: nat, pages: nat, p: nat, newSize: nat, i: nat)
    requires i < |b| && b[i].size >= newSize
    ensures Reallocated(m, b, m, b, base, pages, p, newSize, i, p)
  {
  }

  lemma ReallocatedGrown(m: seq<UInt8>, b: seq<Block>, m': seq<UInt8>, base: nat, pages: nat, p: nat, newSize: nat, i: nat)
    requires i < |b| && b[i].size < newSize && CanGrow(b, i, newSize) && |m| <= |m'| && LiveKept(m, m', base, b)
    ensures Reallocated(m, b, m', Combine(b, i), base, pages, p, newSize, i, p)
  {
  }

  lemma ReallocatedElse(m: seq<UInt8>, b: seq<Block>, m': seq<UInt8>, b': seq<Block>, base: nat, pages: nat,
                        p: nat, newSize: nat, i: nat, r: nat)
    requires i < |b| && b[i].size < newSize && !CanGrow(b, i, newSize) && |m| <= |m'|
    requires r == AllocatedList(b, newSize, base + |m|, pages).1
    requires r == 0 ==> b' == b && LiveKept(m, m', base, b)
    requires r != 0 ==> MovedTo(m, b, m', b', base, p, newSize, i, r)
    ensures Reallocated(m, b, m', b', base, pages, p, newSize, i, r)
  {
  }

  /** In terms of the live blocks. */
  lemma ReallocatedIs(m: seq<UInt8>, b: seq<Block>, m': seq<UInt8>, b': seq<Block>, base: nat, pages: nat,
                      p: nat, newSize: nat, i: nat, r: nat)
    requires i < |b| && |m| <= |m'| && !b[i].free && p == b[i].Payload() && Sorted(b, base, base + |m|)
    requires Reallocated(m, b, m', b', base, pages, p, newSize, i, r)
    ensures ResizesLive(b, b', i, newSize, r)
  {
    hide LiveKept, Carve, Release, Combine, Live, Sorted, Shifted, Aligned, Flagged, GrowSize, Carves, AllocatedList;
    assert b[i] in Live(b) by { LiveMember(b, i); }
    if b[i].size < newSize {
      if CanGrow(b, i, newSize) {
        GrowChangesOne(b, i, newSize, base, base + |m|);
      } else if r != 0 {
        var d, k, n := Ground(b, newSize, base + |m|), Chosen(b, newSize), Aligned(newSize);
        var hi := base + |m| + GrowSize(newSize);
        GroundSorted(b, newSize, base, base + |m|);
        CarvesAt(b, d, k, n, i);
        CarvesFits(b, d, k, n, i);
        CarveKeeps(d, k, n, base, hi);
        ReleaseRemovesOne(Carve(d, k, n), Shifted(d, k, n, i), base, hi);
        TakenReplaces(d, k, n, base, hi, b[i], b');
        var y :| Replaces(d, b', b[i], y, n) && y.Payload() == r;
        assert Replaces(b, b', b[i], y, n);
      }
    }
  }

  lemma CarvesFits(b: seq<Block>, d: seq<Block>, k: nat, n: nat, i: nat)
    requires Carves(b, d, k, n, i)
    ensures k < |d| && Fits(d[k], n)
  {
  }

  /** Blocks appended free change nothing about the live ones. */
  lemma LiveLonger(b: seq<Block>, d: seq<Block>)
    requires |b| <= |d| && d[..|b|] == b && forall j :: |b| <= j < |d| ==> d[j].free
    ensures Live(d) == Live(b)
  {
    forall x ensures x in Live(d) <==> x in Live(b) {
      if x in Live(d) {
        var j :| 0 <= j < |d| && d[j] == x;
        assert b[j] == d[..|b|][j];
      }
      if x in Live(b) {
        var j :| 0 <= j < |b| && b[j] == x;
        assert d[j] == d[..|b|][j];
      }
    }
  }

  lemma GroundSorted(b: seq<Block>, size: nat, lo: nat, end: nat)
    requires Sorted(b, lo, end) && lo <= end
    ensures Sorted(Ground(b, size, end), lo, end + GrowSize(size))
    ensures Live(Ground(b, size, end)) == Live(b)
  {
    hide GrowSize, Aligned, FirstFit, Live;
    var d := Ground(b, size, end);
    if d != b {
      AppendedSorted(b, lo, end, GrowSize(size));
      assert d[..|b|] == b;
    }
    assert d[..|b|] == b;
    LiveLonger(b, d);
  }

  lemma KeptIsLonger(m: seq<UInt8>, m': seq<UInt8>, base: nat, b: seq<Block>)
    requires LiveKept(m, m', base, b)
    ensures |m| <= |m'|
  {
  }

  lemma NothingAllocated(b: seq<Block>, size: nat, end: nat, pages: nat)
    requires AllocatedList(b, size, end, pages).1 == 0
    ensures AllocatedList(b, size, end, pages).0 == b
  {
    hide Carve;
  }
}
