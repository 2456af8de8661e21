/** The first-fit heap over its own bytes, as the kernel and the user library both have it. */
module BlockHeap {
  import opened Bits
  import opened Common
  import opened HeapBlocks
  import opened HeapHeaders

  class BlockHeap {
    const base: nat
    const magic: nat
    var memory: seq<UInt8>
    var head: nat
    ghost var blocks: seq<Block>

    /** The bytes hold the blocks as a linked list. */
    ghost predicate Linked()
      reads this
    {
      && 0 < base && base + |memory| <= WORD_LIMIT && magic < WORD_LIMIT
      && Holds(memory, base, magic, blocks)
      && head == (if blocks == [] then 0 else blocks[0].addr)
    }

    ghost predicate Valid()
      reads this
    {
      Linked() && NoFreeNeighbours(blocks)
    }

    /** An address at which a header fits. */
    ghost predicate InRange(a: nat)
      reads this
    {
      base <= a && a + HEADER <= base + |memory| && base + |memory| <= WORD_LIMIT
    }

    function At(a: nat): Header
      requires InRange(a)
      reads this
    {
      HeaderAt(memory, a - base)
    }

    /** No list at all, as in the user library before its first allocation. */
    constructor Empty(base: nat, magic: nat)
      requires 0 < base < WORD_LIMIT && magic < WORD_LIMIT
      ensures Valid() && blocks == [] && memory == [] && this.base == base && this.magic == magic
    {
      this.base := base;
      this.magic := magic;
      memory := [];
      head := 0;
      blocks := [];
    }

    /** VMHeapInitialize: the whole region is one free block. */
    constructor Region(base: nat, magic: nat, bytes: seq<UInt8>)
      requires 0 < base && base + |bytes| <= WORD_LIMIT && magic < WORD_LIMIT && |bytes| >= HEADER
      ensures Valid() && blocks == [Block(base, |bytes| - HEADER, true)] && |memory| == |bytes|
      ensures this.base == base && this.magic == magic
    {
      hide HeaderAt, WithWord, WithFlag;
      this.base := base;
      this.magic := magic;
      memory := bytes;
      head := base;
      blocks := [Block(base, |bytes| - HEADER, true)];
      new;
      SetWordAt(base, MAGIC_AT, magic);
      SetWordAt(base, SIZE_AT, |bytes| - HEADER);
      SetFree(base, true);
      SetWordAt(base, NEXT_AT, 0);
      SetWordAt(base, PREVIOUS_AT, 0);
      FirstHeader(bytes, magic);
    }

    // ---------- one field of one header ----------

    method SetWordAt(a: nat, k: nat, x: nat)
      requires InRange(a) && x < WORD_LIMIT
      requires k == MAGIC_AT || k == NEXT_AT || k == PREVIOUS_AT || k == SIZE_AT
      modifies this`memory
      ensures |memory| == |old(memory)| && memory == WithWord(old(memory), a - base, k, x)
    {
      memory := Put64(memory, a - base + k, x);
    }

    method SetFree(a: nat, free: bool)
      requires InRange(a)
      modifies this`memory
      ensures |memory| == |old(memory)| && memory == WithFlag(old(memory), a - base, free)
    {
      memory := memory[a - base + FREE_AT := if free then 1 else 0];
    }

    // ---------- combine ----------

    /** CombineForward on the block at `current`. */
    method CombineForward(current: nat, ghost i: nat)
      requires InRange(current) && 0 < base && magic < WORD_LIMIT && Holds(memory, base, magic, blocks)
      requires i < |blocks| && blocks[i].addr == current
      modifies this`memory, this`blocks
      ensures Holds(memory, base, magic, blocks) && blocks == Combine(old(blocks), i)
      ensures |memory| == |old(memory)| && LiveKept(old(memory), memory, base, old(blocks))
    {
      hide HeaderAt, Combine, Holds, Sorted;
      hide LiveKept, WithWord, OnlyHeader, Expected;
      ghost var b, m := blocks, memory;
      BlockHeader(m, base, magic, b, i);
      if i + 1 < |b| { BlockHeader(m, base, magic, b, i + 1); }
      if i + 2 < |b| { BlockHeader(m, base, magic, b, i + 2); }
      var h := At(current);
      if h.next == 0 || !At(h.next).isFree {
        CombineIdle(b, i);
        LiveKeptSelf(m, base, b);
        return;
      }
      var after := At(h.next).next;
      SetWordAt(current, SIZE_AT, h.size + HEADER + At(h.next).size);
      SetWordAt(current, NEXT_AT, after);
      if after != 0 {
        SetWordAt(after, PREVIOUS_AT, current);
      }
      CombinedHolds(m, base, magic, b, i);
      CombineKeepsLive(m, base, b, i);
      blocks := Combine(b, i);
    }

    // ---------- allocate ----------

    /** The split of the block at `current`: its rest becomes a free block of its own. */
    method Split(current: nat, n: nat, ghost i: nat)
      requires Linked() && i < |blocks| && blocks[i].addr == current && Fits(blocks[i], n) && Splits(blocks[i], n)
      modifies this`memory
      ensures |memory| == |old(memory)| && memory == SplitBytes(old(memory), base, magic, blocks, i, n)
    {
      hide HeaderAt, Holds, Sorted, Expected;
      hide WithWord, WithFlag, NoFreeNeighbours;
      BlockHeader(memory, base, magic, blocks, i);
      if i + 1 < |blocks| { BlockHeader(memory, base, magic, blocks, i + 1); }
      var h := At(current);
      var rest := current + HEADER + n;
      SetWordAt(rest, SIZE_AT, h.size - n - HEADER);
      SetFree(rest, true);
      SetWordAt(rest, NEXT_AT, h.next);
      SetWordAt(rest, PREVIOUS_AT, current);
      SetWordAt(rest, MAGIC_AT, magic);
      if h.next != 0 {
        SetWordAt(h.next, PREVIOUS_AT, rest);
      }
      SetWordAt(current, NEXT_AT, rest);
      SetWordAt(current, SIZE_AT, n);
    }

    /** The block at `current` taken for `n` bytes. */
    method Take(current: nat, n: nat, ghost i: nat)
      requires Linked() && i < |blocks| && blocks[i].addr == current && Fits(blocks[i], n)
      modifies this`memory, this`blocks
      ensures Linked() && blocks == Carve(old(blocks), i, n) && |memory| == |old(memory)|
      ensures AddsBlock(old(blocks), blocks, current + HEADER, n)
      ensures LiveKept(old(memory), memory, base, old(blocks))
    {
      hide HeaderAt, Holds, Sorted, Expected, AddsBlock;
      hide WithWord, WithFlag, LiveKept, SplitBytes, NoFreeNeighbours;
      ghost var b, m := blocks, memory;
      HoldsSorted(m, base, magic, b);
      CarveAddsBlock(b, i, n, base, base + |m|);
      BlockHeader(m, base, magic, b, i);
      CarveKeeps(b, i, n, base, base + |m|);
      if At(current).size > n + HEADER + ALIGNMENT {
        SplitHolds(m, base, magic, b, i, n);
        SplitKeepsLive(m, base, magic, b, i, n);
        Split(current, n, i);
        ghost var m1 := memory;
        SetFree(current, false);
        FlagKeepsLive(m1, base, b, i, false);
        LiveKeptTwice(m, m1, memory, base, b);
      } else {
        FlagHolds(m, base, magic, b, i, false);
        SetFree(current, false);
      }
      blocks := Carve(b, i, n);
      CarveHead(b, i, n);
    }

    /** sVMHeapAllocateInternal: the first free block that is large enough; 0 when there is none. */
    method AllocateInternal(size: nat) returns (p: nat)
      requires Linked() && size < WORD_LIMIT
      modifies this`memory, this`blocks
      ensures Linked() && (old(Valid()) ==> Valid()) && |memory| == |old(memory)|
      ensures LiveKept(old(memory), memory, base, old(blocks))
      ensures p == 0 ==> memory == old(memory) && blocks == old(blocks)
      ensures p == 0 <==> size == 0 || FirstFit(old(blocks), Aligned(size)).None?
      ensures p != 0 ==>
        var i := FirstFit(old(blocks), Aligned(size)).value;
        p == old(blocks)[i].Payload() && blocks == Carve(old(blocks), i, Aligned(size)) && HandsOut(blocks, p, Aligned(size))
      ensures p != 0 ==> AddsBlock(old(blocks), blocks, p, Aligned(size))
    {
      hide HeaderAt, Sorted, Expected, Carve;
      hide NoFreeNeighbours, LiveKept, HandsOut, AddsBlock;
      LiveKeptSelf(memory, base, blocks);
      if size == 0 {
        return 0;
      }
      var n := Aligned(size);
      var current := head;
      ghost var i := 0;
      while current != 0
        invariant Linked() && blocks == old(blocks) && memory == old(memory)
        invariant i <= |blocks| && current == (if i < |blocks| then blocks[i].addr else 0)
        invariant forall k :: 0 <= k < i ==> !Fits(blocks[k], n)
        decreases |blocks| - i
      {
        BlockHeader(memory, base, magic, blocks, i);
        var h := At(current);
        if h.isFree && h.size >= n {
          FirstFitIs(blocks, n, i);
          CarveKeeps(blocks, i, n, base, base + |memory|);
          CarveHandsOut(blocks, i, n);
          CarveAddsBlock(blocks, i, n, base, base + |memory|);
          Take(current, n, i);
          return current + HEADER;
        }
        if i + 1 < |blocks| { BlockHeader(memory, base, magic, blocks, i + 1); }
        current := h.next;
        i := i + 1;
      }
      if i < |blocks| { BlockHeader(memory, base, magic, blocks, i); }
      NoFit(blocks, n);
      return 0;
    }

    // ---------- free ----------

    /** The list is on the heap, though two neighbours may both be free. */
    ghost predicate Stands()
      reads this
    {
      0 < base && base + |memory| <= WORD_LIMIT && magic < WORD_LIMIT && Holds(memory, base, magic, blocks)
    }

    /** The first coalescing step of a free: with the next block, if that is free. */
    method CombineRight(current: nat, ghost i: nat)
      requires Stands() && i < |blocks| && blocks[i].addr == current
      modifies this`memory, this`blocks
      ensures Stands() && blocks == Combine(old(blocks), i)
      ensures |memory| == |old(memory)| && LiveKept(old(memory), memory, base, old(blocks))
    {
      hide HeaderAt, Holds, Sorted, Expected, LiveKept, Combine;
      BlockHeader(memory, base, magic, blocks, i);
      if i + 1 < |blocks| { BlockHeader(memory, base, magic, blocks, i + 1); }
      CombineSteps(blocks, i);
      LiveKeptSelf(memory, base, blocks);
      if At(current).next != 0 && At(At(current).next).isFree {
        CombineForward(current, i);
      }
    }

    /** The second step: with the previous block, if that is free. */
    method CombineLeft(current: nat, ghost i: nat)
      requires Stands() && i < |blocks| && blocks[i].addr == current
      modifies this`memory, this`blocks
      ensures Stands() && blocks == if i > 0 && old(blocks)[i - 1].free then Combine(old(blocks), i - 1) else old(blocks)
      ensures |memory| == |old(memory)| && LiveKept(old(memory), memory, base, old(blocks))
    {
      hide HeaderAt, Holds, Sorted, Expected, LiveKept, Combine;
      BlockHeader(memory, base, magic, blocks, i);
      if i > 0 { BlockHeader(memory, base, magic, blocks, i - 1); }
      LiveKeptSelf(memory, base, blocks);
      if At(current).previous != 0 && At(At(current).previous).isFree {
        CombineForward(At(current).previous, i - 1);
      }
    }

    /** The free flag of block `i` set. */
    method MarkFree(current: nat, ghost i: nat)
      requires Stands() && i < |blocks| && blocks[i].addr == current
      modifies this`memory, this`blocks
      ensures Stands() && blocks == Flagged(old(blocks), i, true) && blocks[i].addr == current
      ensures |memory| == |old(memory)| && LiveKept(old(memory), memory, base, blocks)
    {
      hide HeaderAt, Holds, Sorted, Expected, LiveKept, Flagged, WithFlag;
      BlockHeader(memory, base, magic, blocks, i);
      FlagHolds(memory, base, magic, blocks, i, true);
      FlaggedAt(blocks, i, true);
      SetFree(current, true);
      LiveKeptFlagged(old(memory), memory, base, blocks, i);
      blocks := Flagged(blocks, i, true);
    }

    /** The address is the payload of block `i`. */
    ghost predicate Names(p: nat, i: nat)
      reads this
    {
      i < |blocks| && p == blocks[i].Payload()
    }

    /** No magic stands where the header of this payload would be. */
    ghost predicate Unmarked(p: nat)
      reads this
    {
      p >= HEADER && InRange(p - HEADER) && At(p - HEADER).magic != magic
    }

    /** sVMHeapFreeInternal on the payload address of block `i`, live or free already, on null, or on an
        address without the magic. */
    method FreeInternal(p: nat, ghost i: nat)
      requires Valid() && (p == 0 || Names(p, i) || Unmarked(p))
      modifies this`memory, this`blocks
      ensures Valid() && |memory| == |old(memory)|
      ensures old(!Names(p, i)) ==> memory == old(memory) && blocks == old(blocks)
      ensures old(Names(p, i)) ==>
        && blocks == Release(old(blocks), i) && LiveKept(old(memory), memory, base, Flagged(old(blocks), i, true))
        && (old(blocks)[i].free ==> blocks == old(blocks))
    {
      hide HeaderAt, Holds, Sorted, Expected;
      hide LiveKept, NoFreeNeighbours, Flagged, Combine, Release;
      if p == 0 {
        return;
      }
      ghost var b, m := blocks, memory;
      var current := p - HEADER;
      if Names(p, i) { BlockHeader(m, base, magic, b, i); }
      if At(current).magic != magic {
        return;
      }
      ReleaseKeeps(b, i, base, base + |m|);
      ReleaseSteps(b, i);
      FlaggedAt(b, i, true);
      if b[i].free { ReleaseFree(b, i); }
      MarkFree(current, i);
      ghost var b1, m1 := blocks, memory;
      CombineRight(current, i);
      ghost var m2 := memory;
      LiveKeptTwice(m, m1, m2, base, b1);
      CombineLeft(current, i);
      CombinedLive(m2, memory, base, b1, Combine(b1, i), i);
      LiveKeptTwice(m, m2, memory, base, b1);
    }

    // ---------- resize ----------

    /** A copy into the payload of the live block `k`. */
    method CopyInto(p: nat, bytes: seq<UInt8>, ghost k: nat)
      requires Valid() && k < |blocks| && p == blocks[k].Payload() && |bytes| <= blocks[k].size
      modifies this`memory
      ensures Valid() && |memory| == |old(memory)|
      ensures memory[p - base..p - base + |bytes|] == bytes
      ensures LiveKept(old(memory), memory, base, Flagged(blocks, k, true))
    {
      hide Expected, Sorted, HeaderAt, LiveKept;
      hide NoFreeNeighbours, Flagged;
      BlockHeader(memory, base, magic, blocks, k);
      PayloadWrite(memory, base, magic, blocks, k, bytes);
      memory := Splice(memory, p - base, bytes);
    }

    /** VMHeapResize for the live block `i`, or for no block when `p` is 0. */
    method Resize(p: nat, newSize: nat, ghost i: nat) returns (r: nat)
      requires Valid() && newSize <= WORD_LIMIT - ALIGNMENT
      requires p != 0 ==> i < |blocks| && p == blocks[i].Payload() && !blocks[i].free
      modifies this`memory, this`blocks
      ensures Valid() && |memory| == |old(memory)|
      ensures p != 0 && newSize == 0 ==>
        r == 0 && blocks == Release(old(blocks), i) && LiveKept(old(memory), memory, base, Flagged(old(blocks), i, true))
      ensures r != 0 ==> HandsOut(blocks, r, newSize)
      ensures p != 0 && newSize > 0 ==> Resized(old(memory), old(blocks), memory, blocks, base, p, newSize, i, r)
      ensures p != 0 && newSize > 0 ==> ResizesLive(old(blocks), blocks, i, newSize, r)
      ensures p == 0 && r != 0 ==> AddsBlock(old(blocks), blocks, r, Aligned(newSize))
      ensures p == 0 ==>
        && LiveKept(old(memory), memory, base, old(blocks))
        && (r == 0 ==> memory == old(memory) && blocks == old(blocks))
        && (r == 0 <==> newSize == 0 || FirstFit(old(blocks), Aligned(newSize)).None?)
      ensures p == 0 && r != 0 ==>
        var k := FirstFit(old(blocks), Aligned(newSize)).value;
        r == old(blocks)[k].Payload() && blocks == Carve(old(blocks), k, Aligned(newSize))
    {
      hide Expected, Sorted, HeaderAt, Carve;
      hide NoFreeNeighbours, LiveKept, Release, HandsOut, Aligned, AddsBlock, Resized, ResizesLive;
      AlignedCovers(newSize);
      if p == 0 {
        r := AllocateInternal(newSize);
        if r != 0 {
          HandsOutLess(blocks, r, Aligned(newSize), newSize);
        }
        return;
      }
      if newSize == 0 {
        FreeInternal(p, i);
        return 0;
      }
      ghost var b, m := blocks, memory;
      r := ResizeLive(p, newSize, i);
      HoldsSorted(m, base, magic, b);
      ResizedIs(m, b, memory, blocks, base, p, newSize, i, r);
    }

    method ResizeLive(p: nat, newSize: nat, ghost i: nat) returns (r: nat)
      requires Valid() && 0 < newSize <= WORD_LIMIT - ALIGNMENT
      requires i < |blocks| && p == blocks[i].Payload() && !blocks[i].free
      modifies this`memory, this`blocks
      ensures Valid() && |memory| == |old(memory)|
      ensures Resized(old(memory), old(blocks), memory, blocks, base, p, newSize, i, r)
      ensures r != 0 ==> HandsOut(blocks, r, newSize)
    {
      hide Expected, Sorted, HeaderAt, Carve;
      hide NoFreeNeighbours, LiveKept, Release, Combine, Shifted, Flagged, Aligned, Carved, FirstFit;
      hide Resized, HandsOut;
      ghost var b, m := blocks, memory;
      var current := p - HEADER;
      BlockHeader(m, base, magic, b, i);
      if i + 1 < |b| { BlockHeader(m, base, magic, b, i + 1); }
      var h := At(current);
      if h.size >= newSize {
        ResizedSame(m, b, base, p, newSize, i);
        HandsOutAt(b, i, newSize);
        return p;
      }
      if h.next != 0 && At(h.next).isFree && h.size + HEADER + At(h.next).size >= newSize {
        GrowNeighbours(b, i);
        CombineHead(b, i);
        GrownHandsOut(b, i, newSize, base, base + |m|);
        CombineForward(current, i);
        ResizedGrown(m, b, memory, base, p, newSize, i);
        return p;
      }
      r := AllocateInternal(newSize);
      if r != 0 {
        Move(m, b, p, r, h.size, newSize, i);
      }
      ResizedMoved(m, b, memory, blocks, base, p, newSize, i, r);
    }

    /** The copy to the block just allocated, and the free of the old one. */
    method Move(ghost m: seq<UInt8>, ghost b: seq<Block>, p: nat, r: nat, size: nat, newSize: nat, ghost i: nat)
      requires 0 < newSize <= WORD_LIMIT - ALIGNMENT && FirstFit(b, Aligned(newSize)).Some?
      requires i < |b| && p == b[i].Payload() && !b[i].free && size == b[i].size < newSize
      requires var k := FirstFit(b, Aligned(newSize)).value;
        r == b[k].Payload() && blocks == Carve(b, k, Aligned(newSize))
      requires Valid() && Holds(m, base, magic, b) && LiveKept(m, memory, base, b) && |m| == |memory|
      modifies this`memory, this`blocks
      ensures Valid() && |memory| == |old(memory)|
      ensures Moved(m, b, memory, blocks, base, p, newSize, i, r) && HandsOut(blocks, r, newSize)
    {
      hide Expected, Sorted, HeaderAt, Carve, HandsOut;
      hide NoFreeNeighbours, LiveKept, Release, Shifted, Flagged, Aligned, Carved, Holds, Unmarked, FirstFit;
      ghost var n := Aligned(newSize);
      ghost var k := FirstFit(b, n).value;
      ghost var c, m1 := blocks, memory;
      ghost var i' := Shifted(b, k, n, i);
      AlignedCovers(newSize);
      CarveShifts(b, k, n, i);
      BlockHeader(m, base, magic, b, i);
      BlockHeader(m1, base, magic, c, k);
      PayloadStays(m, m1, base, b, i);
      CopyInto(r, memory[p - base..p - base + size], k);
      ghost var m2 := memory;
      BlockHeader(m2, base, magic, c, k);
      OtherHandsOut(c, i', k, newSize, base, base + |m2|);
      FreeInternal(p, i');
      FlaggedAt(c, i', true);
      PayloadStays(m2, memory, base, Flagged(c, i', true), k);
      PrefixStays(m2, memory, base, c[k], size);
      MovedLive(m, m1, m2, memory, base, b, k, n, i);
    }
  }

  lemma CombineHead(b: seq<Block>, i: nat)
    requires i < |b|
    ensures Combine(b, i) != [] && Combine(b, i)[0].addr == b[0].addr
  {
  }

  lemma PayloadStays(m: seq<UInt8>, m': seq<UInt8>, base: nat, b: seq<Block>, j: nat)
    requires LiveKept(m, m', base, b) && j < |b| && !b[j].free && base <= b[j].addr && b[j].End() <= base + |m|
    ensures |m| <= |m'|
    ensures m'[b[j].Payload() - base..b[j].End() - base] == m[b[j].Payload() - base..b[j].End() - base]
  {
    assert PayloadKept(m, m', base, b[j]);
  }

  lemma PrefixStays(m: seq<UInt8>, m': seq<UInt8>, base: nat, x: Block, size: nat)
    requires |m'| == |m| && base <= x.addr && x.End() <= base + |m| && size <= x.size
    requires m'[x.Payload() - base..x.End() - base] == m[x.Payload() - base..x.End() - base]
    ensures m'[x.Payload() - base..x.Payload() - base + size] == m[x.Payload() - base..x.Payload() - base + size]
  {
    var a, e := x.Payload() - base, x.End() - base;
    forall k | a <= k < a + size ensures m'[k] == m[k] {
      assert m'[a..e][k - a] == m[a..e][k - a];
    }
  }

  /** Through allocation, copy and free every other live block keeps its bytes. */
  lemma MovedLive(m: seq<UInt8>, m1: seq<UInt8>, m2: seq<UInt8>, m3: seq<UInt8>, base: nat, b: seq<Block>, k: nat, n: nat, i: nat)
    requires k < |b| && Fits(b[k], n) && i < |b| && !b[i].free
    requires LiveKept(m, m1, base, b)
    requires LiveKept(m1, m2, base, Flagged(Carve(b, k, n), k, true))
    requires LiveKept(m2, m3, base, Flagged(Carve(b, k, n), Shifted(b, k, n, i), true))
    ensures LiveKept(m, m3, base, Flagged(b, i, true))
  {
    hide PayloadKept, Carve, Shifted;
    var c := Carve(b, k, n);
    CarveShifts(b, k, n, i);
    var i' := Shifted(b, k, n, i);
    forall j | 0 <= j < |b| && !Flagged(b, i, true)[j].free ensures PayloadKept(m, m3, base, b[j]) {
      var j' := Shifted(b, k, n, j);
      CarveShifts(b, k, n, j);
      ShiftedApart(b, k, n, i, j);
      assert Flagged(c, k, true)[j'] == b[j] && Flagged(c, i', true)[j'] == b[j];
      PayloadKeptThrice(m, m1, m2, m3, base, b[j]);
    }
  }

  lemma ShiftedApart(b: seq<Block>, k: nat, n: nat, i: nat, j: nat)
    requires k < |b| && Fits(b[k], n) && i < |b| && j < |b| && i != j
    ensures Shifted(b, k, n, i) != Shifted(b, k, n, j) || i == k || j == k
  {
  }

  lemma PayloadKeptThrice(m: seq<UInt8>, m1: seq<UInt8>, m2: seq<UInt8>, m3: seq<UInt8>, base: nat, x: Block)
    requires |m| <= |m1| <= |m2| <= |m3|
    requires PayloadKept(m, m1, base, x) && PayloadKept(m1, m2, base, x) && PayloadKept(m2, m3, base, x)
    ensures PayloadKept(m, m3, base, x)
  {
  }

  /** What a resize of the live block `i` to a positive size does. Its old bytes are at the result;
      on failure nothing has changed; the other live blocks keep theirs. */
  ghost predicate Resized(m: seq<UInt8>, b: seq<Block>, m': seq<UInt8>, b': seq<Block>, base: nat, p: nat, newSize: nat,
                          i: nat, r: nat)
    requires i < |b| && |m'| == |m|
  {
    var n := Aligned(newSize);
    var fit := FirstFit(b, n);
    if b[i].size >= newSize then r == p && m' == m && b' == b
    else if CanGrow(b, i, newSize) then r == p && b' == Combine(b, i) && LiveKept(m, m', base, b)
    else if fit.None? then r == 0 && m' == m && b' == b
    else Moved(m, b, m', b', base, p, newSize, i, r)
  }

  lemma ResizedSame(m: seq<UInt8>, b: seq<Block>, base: nat, p: nat, newSize: nat, i: nat)
    requires i < |b| && b[i].size >= newSize
    ensures Resized(m, b, m, b, base, p, newSize, i, p)
  {
  }

  lemma ResizedGrown(m: seq<UInt8>, b: seq<Block>, m': seq<UInt8>, base: nat, p: nat, newSize: nat, i: nat)
    requires i < |b| && b[i].size < newSize && CanGrow(b, i, newSize) && LiveKept(m, m', base, b) && |m'| == |m|
    ensures Resized(m, b, m', Combine(b, i), base, p, newSize, i, p)
  {
  }

  lemma ResizedMoved(m: seq<UInt8>, b: seq<Block>, m': seq<UInt8>, b': seq<Block>, base: nat, p: nat, newSize: nat,
                     i: nat, r: nat)
    requires i < |b| && |m'| == |m| && b[i].size < newSize && !CanGrow(b, i, newSize)
    requires r == 0 ==> m' == m && b' == b && FirstFit(b, Aligned(newSize)).None?
    requires r != 0 ==> FirstFit(b, Aligned(newSize)).Some? && Moved(m, b, m', b', base, p, newSize, i, r)
    ensures Resized(m, b, m', b', base, p, newSize, i, r)
  {
    hide LiveKept, Carve, Release;
  }

  /** In terms of the live blocks. */
  lemma ResizedIs(m: seq<UInt8>, b: seq<Block>, m': seq<UInt8>, b': seq<Block>, base: nat, p: nat, newSize: nat,
                  i: nat, r: nat)
    requires i < |b| && |m'| == |m| && !b[i].free && p == b[i].Payload() && Sorted(b, base, base + |m|)
    requires Resized(m, b, m', b', base, p, newSize, i, r)
    ensures ResizesLive(b, b', i, newSize, r)
  {
    hide LiveKept, Carve, Release, Combine, Live, Sorted, Shifted, Aligned, Flagged;
    var n, hi := Aligned(newSize), base + |m|;
    assert b[i] in Live(b) by { LiveMember(b, i); }
    if b[i].size < newSize {
      if CanGrow(b, i, newSize) {
        GrowChangesOne(b, i, newSize, base, hi);
      } else if FirstFit(b, n).Some? {
        var k := FirstFit(b, n).value;
        CarveShifts(b, k, n, i);
        CarveKeeps(b, k, n, base, hi);
        ReleaseRemovesOne(Carve(b, k, n), Shifted(b, k, n, i), base, hi);
        TakenReplaces(b, k, n, base, hi, b[i], b');
      }
    }
  }

  lemma LiveMember(b: seq<Block>, i: nat)
    requires i < |b| && !b[i].free
    ensures b[i] in Live(b)
  {
  }

  ghost predicate Moved(m: seq<UInt8>, b: seq<Block>, m': seq<UInt8>, b': seq<Block>, base: nat, p: nat, newSize: nat,
                        i: nat, r: nat)
    requires i < |b| && |m'| == |m| && FirstFit(b, Aligned(newSize)).Some?
  {
    var n := Aligned(newSize);
    var k := FirstFit(b, n).value;
    && r == b[k].Payload() && b' == Release(Carve(b, k, n), Shifted(b, k, n, i))
    && base <= p <= base + |m| - b[i].size && base <= r <= base + |m| - b[i].size
    && m'[r - base..r - base + b[i].size] == m[p - base..p - base + b[i].size]
    && LiveKept(m, m', base, Flagged(b, i, true))
  }

  /** Where block `i` is after block `k` was carved. */
  function Shifted(b: seq<Block>, k: nat, n: nat, i: nat): (i': nat)
    requires k < |b| && b[k].size >= n && i < |b|
    ensures i' < |Carve(b, k, n)|
  {
    if Splits(b[k], n) && k < i then i + 1 else i
  }

  lemma CarveShifts(b: seq<Block>, k: nat, n: nat, i: nat)
    requires k < |b| && Fits(b[k], n) && i < |b| && i != k
    ensures Carve(b, k, n)[Shifted(b, k, n, i)] == b[i]
    ensures k < |Carve(b, k, n)| && Carve(b, k, n)[k] == Carved(b[k], n)[0] && Shifted(b, k, n, i) != k
  {
  }

  lemma PayloadWrite(m: seq<UInt8>, base: nat, magic: nat, b: seq<Block>, k: nat, bytes: seq<UInt8>)
    requires Holds(m, base, magic, b) && k < |b| && |bytes| <= b[k].size
    ensures base <= b[k].addr && b[k].End() <= base + |m|
    ensures var m' := Splice(m, b[k].Payload() - base, bytes);
      && Holds(m', base, magic, b)
      && m'[b[k].Payload() - base..b[k].Payload() - base + |bytes|] == bytes
      && LiveKept(m, m', base, Flagged(b, k, true))
  {
    hide Expected;
    var m' := Splice(m, b[k].Payload() - base, bytes);
    forall j | 0 <= j < |b| ensures HeaderAt(m', b[j].addr - base) == HeaderAt(m, b[j].addr - base) {
      assert m'[b[j].addr - base..b[j].addr - base + HEADER] == m[b[j].addr - base..b[j].addr - base + HEADER];
      SameWords(m, m', b[j].addr - base);
    }
  }

  lemma CombineSteps(b: seq<Block>, i: nat)
    requires i < |b|
    ensures i + 1 == |b| || !b[i + 1].free ==> Combine(b, i) == b
  {
  }

  lemma ReleaseSteps(b: seq<Block>, i: nat)
    requires i < |b|
    ensures var c := Combine(Flagged(b, i, true), i);
      && |c| > i && c[i].addr == b[i].addr && (i > 0 ==> c[i - 1] == b[i - 1])
      && Release(b, i) == (if i > 0 && c[i - 1].free then Combine(c, i - 1) else c)
      && Release(b, i) != [] && Release(b, i)[0].addr == b[0].addr
      && c[0].addr == b[0].addr
  {
  }

  /** The live blocks of a list are still there after its free block `i` was combined. */
  lemma CombinedLive(m: seq<UInt8>, m': seq<UInt8>, base: nat, b: seq<Block>, c: seq<Block>, i: nat)
    requires i < |b| && b[i].free && c == Combine(b, i) && LiveKept(m, m', base, c)
    ensures LiveKept(m, m', base, b)
  {
    hide PayloadKept;
    forall j | 0 <= j < |b| && !b[j].free ensures PayloadKept(m, m', base, b[j]) {
      if c == b || j < i {
        assert c[j] == b[j];
      } else {
        assert c[j - 1] == b[j];
      }
    }
  }

  lemma FlaggedAt(b: seq<Block>, i: nat, free: bool)
    requires i < |b|
    ensures var c := Flagged(b, i, free);
      |c| == |b| && c[i] == Block(b[i].addr, b[i].size, free) && forall j :: 0 <= j < |b| && j != i ==> c[j] == b[j]
  {
  }

  /** What is kept for a list is kept for the list with one more block free. */
  lemma LiveKeptFlagged(m: seq<UInt8>, m': seq<UInt8>, base: nat, b: seq<Block>, i: nat)
    requires i < |b| && LiveKept(m, m', base, b)
    ensures LiveKept(m, m', base, Flagged(b, i, true))
  {
    hide PayloadKept;
  }

  lemma FirstHeader(bytes: seq<UInt8>, magic: nat)
    requires HEADER <= |bytes| < WORD_LIMIT && magic < WORD_LIMIT
    ensures var m1 := WithWord(bytes, 0, MAGIC_AT, magic);
      var m2 := WithFlag(WithWord(m1, 0, SIZE_AT, |bytes| - HEADER), 0, true);
      HeaderAt(WithWord(WithWord(m2, 0, NEXT_AT, 0), 0, PREVIOUS_AT, 0), 0) == Header(magic, 0, 0, |bytes| - HEADER, true)
  {
    hide HeaderAt, WithWord, WithFlag, OnlyHeader;
    var m1 := WithWord(bytes, 0, MAGIC_AT, magic);
    var m2 := WithWord(m1, 0, SIZE_AT, |bytes| - HEADER);
    var m3 := WithFlag(m2, 0, true);
    var m4 := WithWord(m3, 0, NEXT_AT, 0);
    SetWord(bytes, 0, MAGIC_AT, magic);
    SetWord(m1, 0, SIZE_AT, |bytes| - HEADER);
    SetFlag(m2, 0, true);
    SetWord(m3, 0, NEXT_AT, 0);
    SetWord(m4, 0, PREVIOUS_AT, 0);
  }

  lemma CarveHead(b: seq<Block>, i: nat, n: nat)
    requires i < |b| && b[i].size >= n
    ensures Carve(b, i, n) != [] && Carve(b, i, n)[0].addr == b[0].addr
  {
  }

  lemma LiveKeptSelf(m: seq<UInt8>, base: nat, b: seq<Block>)
    ensures LiveKept(m, m, base, b)
  {
  }

  lemma {:induction false} FirstFitIs(b: seq<Block>, n: nat, i: nat)
    requires i < |b| && Fits(b[i], n) && forall k :: 0 <= k < i ==> !Fits(b[k], n)
    ensures FirstFit(b, n) == Some(i)
  {
  }

  lemma {:induction false} NoFit(b: seq<Block>, n: nat)
    requires forall k :: 0 <= k < |b| ==> !Fits(b[k], n)
    ensures FirstFit(b, n) == None
  {
  }

  /** The bytes after the five writes that make the new header at `q`. */
  ghost function NewHeaderBytes(m: seq<UInt8>, q: nat, h: Header): (m': seq<UInt8>)
    requires q + HEADER <= |m|
    ensures |m'| == |m|
  {
    var m1 := WithWord(m, q, SIZE_AT, h.size);
    var m2 := WithFlag(m1, q, h.isFree);
    var m3 := WithWord(m2, q, NEXT_AT, h.next);
    var m4 := WithWord(m3, q, PREVIOUS_AT, h.previous);
    WithWord(m4, q, MAGIC_AT, h.magic)
  }

  ghost function SplitBytes(m: seq<UInt8>, base: nat, magic: nat, b: seq<Block>, i: nat, n: nat): (m': seq<UInt8>)
    requires i < |b| && Sorted(b, base, base + |m|) && Splits(b[i], n)
    ensures |m'| == |m|
  {
    var o := b[i].addr - base;
    var rest := b[i].addr + HEADER + n;
    var next := if i + 1 < |b| then b[i + 1].addr else 0;
    var m5 := NewHeaderBytes(m, rest - base, Header(magic, next, b[i].addr, b[i].size - n - HEADER, true));
    var m6 := if i + 1 < |b| then WithWord(m5, b[i + 1].addr - base, PREVIOUS_AT, rest) else m5;
    var m7 := WithWord(m6, o, NEXT_AT, rest);
    WithWord(m7, o, SIZE_AT, n)
  }

  lemma NewHeader(m: seq<UInt8>, q: nat, h: Header)
    requires q + HEADER <= |m| && h.magic < WORD_LIMIT && h.next < WORD_LIMIT && h.previous < WORD_LIMIT && h.size < WORD_LIMIT
    ensures OnlyHeader(m, NewHeaderBytes(m, q, h), q) && HeaderAt(NewHeaderBytes(m, q, h), q) == h
  {
    hide HeaderAt, WithWord, WithFlag;
    var m1 := WithWord(m, q, SIZE_AT, h.size);
    var m2 := WithFlag(m1, q, h.isFree);
    var m3 := WithWord(m2, q, NEXT_AT, h.next);
    var m4 := WithWord(m3, q, PREVIOUS_AT, h.previous);
    SetWord(m, q, SIZE_AT, h.size);
    SetFlag(m1, q, h.isFree);
    SetWord(m2, q, NEXT_AT, h.next);
    SetWord(m3, q, PREVIOUS_AT, h.previous);
    SetWord(m4, q, MAGIC_AT, h.magic);
  }

  /** Writes inside the payload of block `i` leave every header of the list. */
  lemma InsideKept(m: seq<UInt8>, m': seq<UInt8>, base: nat, b: seq<Block>, i: nat, q: nat)
    requires i < |b| && Sorted(b, base, base + |m|) && base <= q && OnlyHeader(m, m', q - base)
    requires b[i].Payload() <= q && q + HEADER <= b[i].End()
    ensures forall j :: 0 <= j < |b| ==> HeaderAt(m', b[j].addr - base) == HeaderAt(m, b[j].addr - base)
  {
    hide HeaderAt;
    forall j | 0 <= j < |b| ensures HeaderAt(m', b[j].addr - base) == HeaderAt(m, b[j].addr - base) {
      OtherHeader(m, m', q - base, b[j].addr - base);
    }
  }

  lemma SplitExpected(b: seq<Block>, i: nat, n: nat, magic: nat)
    requires i < |b| && Fits(b[i], n) && Splits(b[i], n)
    ensures var c := Carve(b, i, n);
      && |c| == |b| + 1 && c == Replace(b, i, Carved(b[i], n), i + 1) && |Carved(b[i], n)| == 2
      && c[i].addr == b[i].addr && c[i + 1].addr == b[i].addr + HEADER + n
      && (var h := Expected(b, i, magic);
          && Expected(c, i, magic) == Header(h.magic, c[i + 1].addr, h.previous, n, false)
          && Expected(c, i + 1, magic) == Header(magic, if i + 1 < |b| then b[i + 1].addr else 0, b[i].addr,
                                                 b[i].size - n - HEADER, true))
      && (i + 1 < |b| ==>
        && c[i + 2] == b[i + 1]
        && var h := Expected(b, i + 1, magic);
           Expected(c, i + 2, magic) == Header(h.magic, h.next, c[i + 1].addr, h.size, h.isFree))
  {
    CarveIsReplace(b, i, n);
  }

  lemma SplitHolds(m: seq<UInt8>, base: nat, magic: nat, b: seq<Block>, i: nat, n: nat)
    requires Holds(m, base, magic, b) && i < |b| && Fits(b[i], n) && Splits(b[i], n)
    requires 0 < base && base + |m| <= WORD_LIMIT && magic < WORD_LIMIT
    ensures Sorted(b, base, base + |m|)
    ensures Holds(WithFlag(SplitBytes(m, base, magic, b, i, n), b[i].addr - base, false), base, magic, Carve(b, i, n))
  {
    hide HeaderAt, WithWord, WithFlag, OnlyHeader;
    hide Carve, Replace, Expected, NewHeaderBytes;
    var o := b[i].addr - base;
    var rest := b[i].addr + HEADER + n;
    var next := if i + 1 < |b| then b[i + 1].addr else 0;
    var h := Header(magic, next, b[i].addr, b[i].size - n - HEADER, true);
    var m5 := NewHeaderBytes(m, rest - base, h);
    NewHeader(m, rest - base, h);
    InsideKept(m, m5, base, b, i, rest);
    var m6 := if i + 1 < |b| then WithWord(m5, b[i + 1].addr - base, PREVIOUS_AT, rest) else m5;
    if i + 1 < |b| {
      SetWord(m5, b[i + 1].addr - base, PREVIOUS_AT, rest);
      HeadersKept(m5, m6, base, b, i + 1);
      OtherHeader(m5, m6, b[i + 1].addr - base, rest - base);
    }
    SplitHoldsLast(m, m6, base, magic, b, i, n);
  }

  lemma SplitHoldsLast(m: seq<UInt8>, m6: seq<UInt8>, base: nat, magic: nat, b: seq<Block>, i: nat, n: nat)
    requires Holds(m, base, magic, b) && i < |b| && Fits(b[i], n) && Splits(b[i], n) && |m6| == |m|
    requires 0 < base && base + |m| <= WORD_LIMIT
    requires forall j :: 0 <= j < |b| && j != i + 1 ==> HeaderAt(m6, b[j].addr - base) == HeaderAt(m, b[j].addr - base)
    requires HeaderAt(m6, b[i].addr + HEADER + n - base) ==
      Header(magic, if i + 1 < |b| then b[i + 1].addr else 0, b[i].addr, b[i].size - n - HEADER, true)
    requires i + 1 < |b| ==>
      var h := HeaderAt(m, b[i + 1].addr - base);
      HeaderAt(m6, b[i + 1].addr - base) == Header(h.magic, h.next, b[i].addr + HEADER + n, h.size, h.isFree)
    ensures var o := b[i].addr - base; var rest := b[i].addr + HEADER + n;
      Holds(WithFlag(WithWord(WithWord(m6, o, NEXT_AT, rest), o, SIZE_AT, n), o, false), base, magic, Carve(b, i, n))
  {
    hide HeaderAt, WithWord, WithFlag, OnlyHeader;
    hide Carve, Replace, Expected;
    var o := b[i].addr - base;
    var rest := b[i].addr + HEADER + n;
    var m9 := WithFlag(WithWord(WithWord(m6, o, NEXT_AT, rest), o, SIZE_AT, n), o, false);
    SplitLastHeaders(m6, base, b, i, n);
    SplitExpected(b, i, n, magic);
    CarveKeeps(b, i, n, base, base + |m|);
    HoldsReplaced(m, m9, base, magic, b, i, Carved(b[i], n), i + 1);
  }

  lemma SplitLastHeaders(m6: seq<UInt8>, base: nat, b: seq<Block>, i: nat, n: nat)
    requires i < |b| && Splits(b[i], n) && Sorted(b, base, base + |m6|) && base + |m6| <= WORD_LIMIT
    ensures var o := b[i].addr - base; var rest := b[i].addr + HEADER + n; var h := HeaderAt(m6, o);
      var m9 := WithFlag(WithWord(WithWord(m6, o, NEXT_AT, rest), o, SIZE_AT, n), o, false);
      && HeaderAt(m9, o) == Header(h.magic, rest, h.previous, n, false)
      && HeaderAt(m9, rest - base) == HeaderAt(m6, rest - base)
      && forall j :: 0 <= j < |b| && j != i ==> HeaderAt(m9, b[j].addr - base) == HeaderAt(m6, b[j].addr - base)
  {
    hide HeaderAt, WithWord, WithFlag, OnlyHeader;
    var o := b[i].addr - base;
    var rest := b[i].addr + HEADER + n;
    var m7 := WithWord(m6, o, NEXT_AT, rest);
    var m8 := WithWord(m7, o, SIZE_AT, n);
    var m9 := WithFlag(m8, o, false);
    SetWord(m6, o, NEXT_AT, rest);
    SetWord(m7, o, SIZE_AT, n);
    SetFlag(m8, o, false);
    HeadersKept(m6, m7, base, b, i);
    HeadersKept(m7, m8, base, b, i);
    HeadersKept(m8, m9, base, b, i);
    OtherHeader(m6, m7, o, rest - base);
    OtherHeader(m7, m8, o, rest - base);
    OtherHeader(m8, m9, o, rest - base);
  }

  /** What the header of block `i` says. */
  lemma BlockHeader(m: seq<UInt8>, base: nat, magic: nat, b: seq<Block>, i: nat)
    requires Holds(m, base, magic, b) && i < |b| && 0 < base
    ensures Sorted(b, base, base + |m|)
    ensures base <= b[i].addr && b[i].addr + HEADER + b[i].size <= base + |m|
    ensures i > 0 ==> b[i - 1].addr + HEADER + b[i - 1].size <= b[i].addr
    ensures HeaderAt(m, b[i].addr - base) ==
      Header(magic, if i + 1 < |b| then b[i + 1].addr else 0, if i > 0 then b[i - 1].addr else 0, b[i].size, b[i].free)
  {
    hide HeaderAt;
  }

  /** A write to the header of block `i` leaves the other blocks' headers. */
  lemma HeadersKept(m: seq<UInt8>, m': seq<UInt8>, base: nat, b: seq<Block>, i: nat)
    requires i < |b| && Sorted(b, base, base + |m|) && OnlyHeader(m, m', b[i].addr - base)
    ensures forall j :: 0 <= j < |b| && j != i ==> HeaderAt(m', b[j].addr - base) == HeaderAt(m, b[j].addr - base)
  {
    hide HeaderAt;
    forall j | 0 <= j < |b| && j != i ensures HeaderAt(m', b[j].addr - base) == HeaderAt(m, b[j].addr - base) {
      OtherHeader(m, m', b[i].addr - base, b[j].addr - base);
    }
  }

  /** The bytes after the writes of the combine. */
  ghost function CombinedBytes(m: seq<UInt8>, base: nat, b: seq<Block>, i: nat): (m': seq<UInt8>)
    requires i + 1 < |b| && Sorted(b, base, base + |m|)
    ensures |m'| == |m|
  {
    var o := b[i].addr - base;
    var m1 := WithWord(m, o, SIZE_AT, b[i].size + HEADER + b[i + 1].size);
    var m2 := WithWord(m1, o, NEXT_AT, if i + 2 < |b| then b[i + 2].addr else 0);
    if i + 2 < |b| then WithWord(m2, b[i + 2].addr - base, PREVIOUS_AT, b[i].addr) else m2
  }

  lemma CombinedExpected(b: seq<Block>, i: nat, magic: nat)
    requires i + 1 < |b| && b[i + 1].free
    ensures var c := Combine(b, i);
      && |c| == |b| - 1 && c == Replace(b, i, [Combined(b[i], b[i + 1])], i + 2)
      && c[i].addr == b[i].addr
      && (var h := Expected(b, i, magic);
          Expected(c, i, magic) == Header(h.magic, if i + 2 < |b| then b[i + 2].addr else 0, h.previous,
                                          b[i].size + HEADER + b[i + 1].size, h.isFree))
      && (i + 2 < |b| ==>
        && c[i + 1] == b[i + 2]
        && var h := Expected(b, i + 2, magic);
           Expected(c, i + 1, magic) == Header(h.magic, h.next, b[i].addr, h.size, h.isFree))
  {
    CombineIsReplace(b, i);
  }

  lemma CombinedHolds(m: seq<UInt8>, base: nat, magic: nat, b: seq<Block>, i: nat)
    requires Holds(m, base, magic, b) && i + 1 < |b| && b[i + 1].free && base + |m| <= WORD_LIMIT
    ensures Sorted(b, base, base + |m|) && Holds(CombinedBytes(m, base, b, i), base, magic, Combine(b, i))
  {
    hide HeaderAt, WithWord, OnlyHeader, Combine;
    hide Replace, Expected;
    CombinedHeaders(m, base, b, i);
    CombineSorted(b, i, base, base + |m|);
    CombinedExpected(b, i, magic);
    hide CombinedBytes;
    HoldsReplaced(m, CombinedBytes(m, base, b, i), base, magic, b, i, [Combined(b[i], b[i + 1])], i + 2);
  }

  lemma CombinedHeaders(m: seq<UInt8>, base: nat, b: seq<Block>, i: nat)
    requires i + 1 < |b| && Sorted(b, base, base + |m|) && base + |m| <= WORD_LIMIT
    ensures var m' := CombinedBytes(m, base, b, i);
      var h := HeaderAt(m, b[i].addr - base);
      && HeaderAt(m', b[i].addr - base) ==
           Header(h.magic, if i + 2 < |b| then b[i + 2].addr else 0, h.previous, b[i].size + HEADER + b[i + 1].size, h.isFree)
      && (i + 2 < |b| ==>
        var g := HeaderAt(m, b[i + 2].addr - base);
        HeaderAt(m', b[i + 2].addr - base) == Header(g.magic, g.next, b[i].addr, g.size, g.isFree))
      && OtherHeaders(m, m', base, b, i, i + 3)
  {
    hide HeaderAt, WithWord, OnlyHeader;
    var o := b[i].addr - base;
    var size := b[i].size + HEADER + b[i + 1].size;
    var after := if i + 2 < |b| then b[i + 2].addr else 0;
    var m1 := WithWord(m, o, SIZE_AT, size);
    var m2 := WithWord(m1, o, NEXT_AT, after);
    SetWord(m, o, SIZE_AT, size);
    SetWord(m1, o, NEXT_AT, after);
    HeadersKept(m, m1, base, b, i);
    HeadersKept(m1, m2, base, b, i);
    if i + 2 < |b| {
      var m3 := WithWord(m2, b[i + 2].addr - base, PREVIOUS_AT, b[i].addr);
      SetWord(m2, b[i + 2].addr - base, PREVIOUS_AT, b[i].addr);
      HeadersKept(m2, m3, base, b, i + 2);
    }
  }

  lemma CombineKeepsLive(m: seq<UInt8>, base: nat, b: seq<Block>, i: nat)
    requires i + 1 < |b| && Sorted(b, base, base + |m|) && base + |m| <= WORD_LIMIT
    ensures LiveKept(m, CombinedBytes(m, base, b, i), base, b)
  {
    hide HeaderAt, WithWord, OnlyHeader;
    hide LiveKept;
    var o := b[i].addr - base;
    var size := b[i].size + HEADER + b[i + 1].size;
    var after := if i + 2 < |b| then b[i + 2].addr else 0;
    var m1 := WithWord(m, o, SIZE_AT, size);
    var m2 := WithWord(m1, o, NEXT_AT, after);
    SetWord(m, o, SIZE_AT, size);
    SetWord(m1, o, NEXT_AT, after);
    HeaderWriteKeepsLive(m, m1, base, b, i);
    HeaderWriteKeepsLive(m1, m2, base, b, i);
    LiveKeptTwice(m, m1, m2, base, b);
    if i + 2 < |b| {
      var m3 := WithWord(m2, b[i + 2].addr - base, PREVIOUS_AT, b[i].addr);
      SetWord(m2, b[i + 2].addr - base, PREVIOUS_AT, b[i].addr);
      HeaderWriteKeepsLive(m2, m3, base, b, i + 2);
      LiveKeptTwice(m, m2, m3, base, b);
    }
  }

  lemma SplitKeepsLive(m: seq<UInt8>, base: nat, magic: nat, b: seq<Block>, i: nat, n: nat)
    requires i < |b| && Fits(b[i], n) && Splits(b[i], n) && Sorted(b, base, base + |m|)
    requires base + |m| <= WORD_LIMIT && magic < WORD_LIMIT
    ensures LiveKept(m, SplitBytes(m, base, magic, b, i, n), base, b)
  {
    hide HeaderAt, WithWord, WithFlag, OnlyHeader;
    hide LiveKept, NewHeaderBytes;
    var o := b[i].addr - base;
    var rest := b[i].addr + HEADER + n;
    var next := if i + 1 < |b| then b[i + 1].addr else 0;
    var h := Header(magic, next, b[i].addr, b[i].size - n - HEADER, true);
    var m5 := NewHeaderBytes(m, rest - base, h);
    NewHeader(m, rest - base, h);
    InsideWriteKeepsLive(m, m5, base, b, i, rest);
    var m6 := if i + 1 < |b| then WithWord(m5, b[i + 1].addr - base, PREVIOUS_AT, rest) else m5;
    if i + 1 < |b| {
      SetWord(m5, b[i + 1].addr - base, PREVIOUS_AT, rest);
      HeaderWriteKeepsLive(m5, m6, base, b, i + 1);
      LiveKeptTwice(m, m5, m6, base, b);
    }
    var m7 := WithWord(m6, o, NEXT_AT, rest);
    var m8 := WithWord(m7, o, SIZE_AT, n);
    SetWord(m6, o, NEXT_AT, rest);
    SetWord(m7, o, SIZE_AT, n);
    HeaderWriteKeepsLive(m6, m7, base, b, i);
    HeaderWriteKeepsLive(m7, m8, base, b, i);
    LiveKeptTwice(m, m6, m7, base, b);
    LiveKeptTwice(m, m7, m8, base, b);
  }

  lemma FlagExpected(b: seq<Block>, i: nat, free: bool, magic: nat, j: nat)
    requires i < |b| && j < |b|
    ensures var c := Flagged(b, i, free); var h := Expected(b, j, magic);
      && |c| == |b| && c[j].addr == b[j].addr
      && Expected(c, j, magic) == Header(h.magic, h.next, h.previous, h.size, if j == i then free else h.isFree)
  {
  }

  /** Setting the free flag of block `i`. */
  lemma FlagHolds(m: seq<UInt8>, base: nat, magic: nat, b: seq<Block>, i: nat, free: bool)
    requires Holds(m, base, magic, b) && i < |b|
    ensures Sorted(b, base, base + |m|)
    ensures var m' := WithFlag(m, b[i].addr - base, free);
      Holds(m', base, magic, Flagged(b, i, free)) && LiveKept(m, m', base, b)
  {
    hide HeaderAt, OnlyHeader, WithFlag, Expected;
    hide LiveKept, Flagged;
    var c := Flagged(b, i, free);
    var m' := WithFlag(m, b[i].addr - base, free);
    SetFlag(m, b[i].addr - base, free);
    HeadersKept(m, m', base, b, i);
    HeaderWriteKeepsLive(m, m', base, b, i);
    FlagKeeps(b, i, free, base, base + |m|);
    FlagExpected(b, i, free, magic, i);
    forall j | 0 <= j < |c| ensures HeaderAt(m', c[j].addr - base) == Expected(c, j, magic) {
      FlagExpected(b, i, free, magic, j);
    }
  }

  lemma FlagKeepsLive(m: seq<UInt8>, base: nat, b: seq<Block>, i: nat, free: bool)
    requires i < |b| && Sorted(b, base, base + |m|)
    ensures LiveKept(m, WithFlag(m, b[i].addr - base, free), base, b)
  {
    hide HeaderAt, WithFlag, OnlyHeader;
    SetFlag(m, b[i].addr - base, free);
    HeaderWriteKeepsLive(m, WithFlag(m, b[i].addr - base, free), base, b, i);
  }

  lemma CombineIdle(b: seq<Block>, i: nat)
    requires i < |b| && (i + 1 == |b| || !b[i + 1].free)
    ensures Combine(b, i) == b
  {
  }
}
