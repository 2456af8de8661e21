/** The block list of the heaps as a value: first fit, split, coalescing and what they keep. */
module HeapBlocks {
  import opened Common

  const HEADER: nat := 40
  const ALIGNMENT: nat := 16

  /** `addr` is the header's address; the payload of `size` bytes follows the header. */
  datatype Block = Block(addr: nat, size: nat, free: bool) {
    function End(): nat { addr + HEADER + size }
    function Payload(): nat { addr + HEADER }
  }

  /** Blocks in address order, apart from each other, inside [lo, hi). */
  ghost predicate Sorted(b: seq<Block>, lo: nat, hi: nat) {
    && (forall i :: 0 <= i < |b| ==> lo <= b[i].addr && b[i].End() <= hi)
    && forall i, j :: 0 <= i < j < |b| ==> b[i].End() <= b[j].addr
  }

  /** The blocks fill [lo, hi) with nothing in between. */
  ghost predicate Tiles(b: seq<Block>, lo: nat, hi: nat) {
    if b == [] then lo == hi else b[0].addr == lo && Tiles(b[1..], b[0].End(), hi)
  }

  ghost predicate NoFreeNeighbours(b: seq<Block>) {
    forall i :: 0 <= i < |b| - 1 ==> !(b[i].free && b[i + 1].free)
  }

  lemma {:induction false} TilesIsSorted(b: seq<Block>, lo: nat, hi: nat)
    requires Tiles(b, lo, hi)
    ensures Sorted(b, lo, hi) && lo <= hi
    decreases |b|
  {
    if b != [] {
      TilesIsSorted(b[1..], b[0].End(), hi);
      JoinSorted([b[0]], b[1..], lo, b[0].End(), hi);
      assert [b[0]] + b[1..] == b;
    }
  }

  lemma JoinSorted(x: seq<Block>, y: seq<Block>, lo: nat, mid: nat, hi: nat)
    requires Sorted(x, lo, mid) && Sorted(y, mid, hi) && lo <= mid <= hi
    ensures Sorted(x + y, lo, hi)
  {
  }

  lemma CutSorted(b: seq<Block>, i: nat, k: nat, lo: nat, hi: nat)
    requires i < k <= |b| && Sorted(b, lo, hi)
    ensures Sorted(b[..i], lo, b[i].addr) && Sorted(b[k..], b[k - 1].End(), hi)
    ensures lo <= b[i].addr && b[k - 1].End() <= hi && b[i].addr + HEADER <= b[k - 1].End()
  {
  }

  lemma {:induction false} JoinTiles(x: seq<Block>, y: seq<Block>, lo: nat, mid: nat, hi: nat)
    requires Tiles(x, lo, mid) && Tiles(y, mid, hi)
    ensures Tiles(x + y, lo, hi)
    decreases |x|
  {
    if x == [] {
      assert x + y == y;
    } else {
      JoinTiles(x[1..], y, x[0].End(), mid, hi);
      assert (x + y)[1..] == x[1..] + y;
    }
  }

  lemma {:induction false} CutTiles(b: seq<Block>, i: nat, lo: nat, hi: nat)
    requires i < |b| && Tiles(b, lo, hi)
    ensures Tiles(b[..i], lo, b[i].addr) && Tiles(b[i..], b[i].addr, hi) && Tiles(b[i + 1..], b[i].End(), hi)
    decreases i
  {
    if i > 0 {
      CutTiles(b[1..], i - 1, b[0].End(), hi);
      assert b[..i][1..] == b[1..][..i - 1];
      assert b[1..][i - 1..] == b[i..] && b[1..][i..] == b[i + 1..];
    } else {
      assert b[0..] == b;
    }
  }

  lemma JoinNeighbours(x: seq<Block>, y: seq<Block>)
    requires NoFreeNeighbours(x) && NoFreeNeighbours(y)
    requires x != [] && y != [] ==> !(x[|x| - 1].free && y[0].free)
    ensures NoFreeNeighbours(x + y)
  {
  }

  // ---------- the operations ----------

  /** (size + 15) & ~15 in 64 bits. */
  function Aligned(size: nat): (n: nat)
    ensures n % ALIGNMENT == 0
  {
    (size + (ALIGNMENT - 1)) % WORD_LIMIT / ALIGNMENT * ALIGNMENT
  }

  /** Rounding covers the request exactly when it does not wrap. */
  lemma AlignedCovers(size: nat)
    requires size < WORD_LIMIT
    ensures Aligned(size) >= size <==> size <= WORD_LIMIT - ALIGNMENT
    ensures size <= WORD_LIMIT - ALIGNMENT ==> Aligned(size) < size + ALIGNMENT
  {
  }

  /** The largest size rounds to nothing at all. */
  lemma AlignedTooSmall()
    ensures Aligned(WORD_LIMIT - 1) == 0
  {
  }

  predicate Fits(b: Block, n: nat) {
    b.free && b.size >= n
  }

  function FirstFit(b: seq<Block>, n: nat): (r: Option<nat>)
    ensures r.Some? ==> r.value < |b| && Fits(b[r.value], n) && forall k :: 0 <= k < r.value ==> !Fits(b[k], n)
    ensures r.None? ==> forall k :: 0 <= k < |b| ==> !Fits(b[k], n)
  {
    if b == [] then None
    else if Fits(b[0], n) then Some(0)
    else match FirstFit(b[1..], n)
      case None => None
      case Some(k) => Some(k + 1)
  }

  predicate Splits(b: Block, n: nat) {
    b.size > n + HEADER + ALIGNMENT
  }

  /** Block `i` taken for `n` bytes, its rest split off when it is worth a block. */
  function Carve(b: seq<Block>, i: nat, n: nat): seq<Block>
    requires i < |b| && b[i].size >= n
  {
    if Splits(b[i], n) then
      b[..i] + [Block(b[i].addr, n, false), Block(b[i].addr + HEADER + n, b[i].size - n - HEADER, true)] + b[i + 1..]
    else Flagged(b, i, false)
  }

  /** sVMHeapCombineForward on block `i`. */
  function Combine(b: seq<Block>, i: nat): seq<Block>
    requires i < |b|
  {
    if i + 1 < |b| && b[i + 1].free then
      b[..i] + [Block(b[i].addr, b[i].size + HEADER + b[i + 1].size, b[i].free)] + b[i + 2..]
    else b
  }

  function Release(b: seq<Block>, i: nat): seq<Block>
    requires i < |b|
  {
    var b1 := Combine(Flagged(b, i, true), i);
    if i > 0 && b1[i - 1].free then Combine(b1, i - 1) else b1
  }

  /** Resizing block `i` in place is possible by taking over the next block. */
  predicate CanGrow(b: seq<Block>, i: nat, newSize: nat)
    requires i < |b|
  {
    i + 1 < |b| && b[i + 1].free && b[i].size + HEADER + b[i + 1].size >= newSize
  }

  // ---------- invariants ----------

  /** Block `i` of `b` replaced by `mid`, up to block `k`. */
  function Replace(b: seq<Block>, i: nat, mid: seq<Block>, k: nat): seq<Block>
    requires i <= k <= |b|
  {
    b[..i] + mid + b[k..]
  }

  lemma ReplaceSorted(b: seq<Block>, i: nat, mid: seq<Block>, k: nat, lo: nat, hi: nat)
    requires i < k <= |b| && Sorted(b, lo, hi) && Sorted(mid, b[i].addr, b[k - 1].End())
    ensures Sorted(Replace(b, i, mid, k), lo, hi)
  {
    CutSorted(b, i, k, lo, hi);
    JoinSorted(b[..i], mid, lo, b[i].addr, b[k - 1].End());
    JoinSorted(b[..i] + mid, b[k..], lo, b[k - 1].End(), hi);
  }

  lemma ReplaceTiles(b: seq<Block>, i: nat, mid: seq<Block>, k: nat, lo: nat, hi: nat)
    requires i < k <= |b| && Tiles(b, lo, hi) && Tiles(mid, b[i].addr, b[k - 1].End())
    ensures Tiles(Replace(b, i, mid, k), lo, hi)
  {
    CutTiles(b, i, lo, hi);
    CutTiles(b, k - 1, lo, hi);
    JoinTiles(b[..i], mid, lo, b[i].addr, b[k - 1].End());
    JoinTiles(b[..i] + mid, b[k..], lo, b[k - 1].End(), hi);
  }

  lemma ReplaceNeighbours(b: seq<Block>, i: nat, mid: seq<Block>, k: nat)
    requires i < k <= |b| && NoFreeNeighbours(b) && mid != [] && NoFreeNeighbours(mid)
    requires i > 0 ==> !(b[i - 1].free && mid[0].free)
    requires k < |b| ==> !(mid[|mid| - 1].free && b[k].free)
    ensures NoFreeNeighbours(Replace(b, i, mid, k))
  {
    assert NoFreeNeighbours(b[..i]) && NoFreeNeighbours(b[k..]);
    JoinNeighbours(b[..i], mid);
    JoinNeighbours(b[..i] + mid, b[k..]);
  }

  /** The blocks that take the place of block `i` when it is carved. */
  function Carved(x: Block, n: nat): (mid: seq<Block>)
    requires x.size >= n
    ensures mid != [] && !mid[0].free && mid[0].addr == x.addr && mid[0].size >= n
  {
    if Splits(x, n) then [Block(x.addr, n, false), Block(x.addr + HEADER + n, x.size - n - HEADER, true)]
    else [Block(x.addr, x.size, false)]
  }

  lemma CarveIsReplace(b: seq<Block>, i: nat, n: nat)
    requires i < |b| && b[i].size >= n
    ensures Carve(b, i, n) == Replace(b, i, Carved(b[i], n), i + 1)
  {
  }

  lemma CarveKeeps(b: seq<Block>, i: nat, n: nat, lo: nat, hi: nat)
    requires i < |b| && Fits(b[i], n)
    ensures Sorted(b, lo, hi) ==> Sorted(Carve(b, i, n), lo, hi)
    ensures Tiles(b, lo, hi) ==> Tiles(Carve(b, i, n), lo, hi)
    ensures NoFreeNeighbours(b) ==> NoFreeNeighbours(Carve(b, i, n))
  {
    hide Sorted, Tiles, Carve, Replace;
    var mid := Carved(b[i], n);
    CarveIsReplace(b, i, n);
    CarvedFills(b[i], n);
    if Sorted(b, lo, hi) { ReplaceSorted(b, i, mid, i + 1, lo, hi); }
    if Tiles(b, lo, hi) { ReplaceTiles(b, i, mid, i + 1, lo, hi); }
    if NoFreeNeighbours(b) { ReplaceNeighbours(b, i, mid, i + 1); }
  }

  lemma CarvedFills(x: Block, n: nat)
    requires x.size >= n
    ensures Sorted(Carved(x, n), x.addr, x.End()) && Tiles(Carved(x, n), x.addr, x.End())
  {
    TilesIsSorted(Carved(x, n), x.addr, x.End());
  }

  function Combined(x: Block, y: Block): Block {
    Block(x.addr, x.size + HEADER + y.size, x.free)
  }

  lemma CombineIsReplace(b: seq<Block>, i: nat)
    requires i + 1 < |b| && b[i + 1].free
    ensures Combine(b, i) == Replace(b, i, [Combined(b[i], b[i + 1])], i + 2)
  {
  }

  lemma CombineSorted(b: seq<Block>, i: nat, lo: nat, hi: nat)
    requires i < |b| && Sorted(b, lo, hi)
    ensures Sorted(Combine(b, i), lo, hi)
  {
    if i + 1 < |b| && b[i + 1].free {
      CombineIsReplace(b, i);
      ReplaceSorted(b, i, [Combined(b[i], b[i + 1])], i + 2, lo, hi);
    }
  }

  lemma CombineTiles(b: seq<Block>, i: nat, lo: nat, hi: nat)
    requires i < |b| && Tiles(b, lo, hi)
    ensures Tiles(Combine(b, i), lo, hi)
  {
    if i + 1 < |b| && b[i + 1].free {
      CombineIsReplace(b, i);
      CutTiles(b, i, lo, hi);
      CutTiles(b, i + 1, lo, hi);
      assert b[i..][1..] == b[i + 1..] && b[i].End() == b[i + 1].addr;
      ReplaceTiles(b, i, [Combined(b[i], b[i + 1])], i + 2, lo, hi);
    }
  }

  lemma GrowNeighbours(b: seq<Block>, i: nat)
    requires i < |b| && NoFreeNeighbours(b) && !b[i].free
    ensures NoFreeNeighbours(Combine(b, i))
  {
    if i + 1 < |b| && b[i + 1].free {
      CombineIsReplace(b, i);
      ReplaceNeighbours(b, i, [Combined(b[i], b[i + 1])], i + 2);
    }
  }

  // ---------- release ----------

  /** Release in one piece: block `i` together with its free neighbours. */
  function Released(b: seq<Block>, i: nat): seq<Block>
    requires i < |b|
  {
    var right := i + 1 < |b| && b[i + 1].free;
    var left := i > 0 && b[i - 1].free;
    var x := Block(b[i].addr, b[i].size, true);
    var y := if right then Combined(x, b[i + 1]) else x;
    var z := if left then Combined(b[i - 1], y) else y;
    Replace(b, if left then i - 1 else i, [z], if right then i + 2 else i + 1)
  }

  lemma ReleaseIsReplace(b: seq<Block>, i: nat)
    requires i < |b|
    ensures Release(b, i) == Released(b, i)
  {
    var x := Block(b[i].addr, b[i].size, true);
    var b0 := b[i := x];
    var right := i + 1 < |b| && b[i + 1].free;
    if right {
      CombineIsReplace(b0, i);
      assert b0[..i] == b[..i] && b0[i + 2..] == b[i + 2..];
    }
    var b1 := Combine(b0, i);
    var y := if right then Combined(x, b[i + 1]) else x;
    assert b1 == b[..i] + [y] + (if right then b[i + 2..] else b[i + 1..]);
    if i > 0 && b[i - 1].free {
      CombineIsReplace(b1, i - 1);
      assert b1[..i - 1] == b[..i - 1] && b1[i + 1..] == if right then b[i + 2..] else b[i + 1..];
    }
  }

  /** Block `i` with its flag set. */
  function Flagged(b: seq<Block>, i: nat, free: bool): seq<Block>
    requires i < |b|
  {
    b[i := Block(b[i].addr, b[i].size, free)]
  }

  lemma FlagKeeps(b: seq<Block>, i: nat, free: bool, lo: nat, hi: nat)
    requires i < |b|
    ensures Sorted(b, lo, hi) ==> Sorted(Flagged(b, i, free), lo, hi)
    ensures Tiles(b, lo, hi) ==> Tiles(Flagged(b, i, free), lo, hi)
  {
    var x := Block(b[i].addr, b[i].size, free);
    assert b[i := x] == Replace(b, i, [x], i + 1);
    if Tiles(b, lo, hi) {
      assert Tiles([x], x.addr, x.End());
      ReplaceTiles(b, i, [x], i + 1, lo, hi);
    }
  }

  lemma ReleaseKeeps(b: seq<Block>, i: nat, lo: nat, hi: nat)
    requires i < |b|
    ensures Sorted(b, lo, hi) ==> Sorted(Release(b, i), lo, hi)
    ensures Tiles(b, lo, hi) ==> Tiles(Release(b, i), lo, hi)
    ensures NoFreeNeighbours(b) ==> NoFreeNeighbours(Release(b, i))
  {
    hide Sorted, Tiles;
    var b0 := b[i := Block(b[i].addr, b[i].size, true)];
    FlagKeeps(b, i, true, lo, hi);
    if Sorted(b, lo, hi) {
      CombineSorted(b0, i, lo, hi);
      if i > 0 && Combine(b0, i)[i - 1].free { CombineSorted(Combine(b0, i), i - 1, lo, hi); }
    }
    if Tiles(b, lo, hi) {
      CombineTiles(b0, i, lo, hi);
      if i > 0 && Combine(b0, i)[i - 1].free { CombineTiles(Combine(b0, i), i - 1, lo, hi); }
    }
    if NoFreeNeighbours(b) { ReleaseNeighbours(b, i); }
  }

  lemma ReleaseNeighbours(b: seq<Block>, i: nat)
    requires i < |b| && NoFreeNeighbours(b)
    ensures NoFreeNeighbours(Release(b, i))
  {
    hide Release;
    ReleaseIsReplace(b, i);
    var right := i + 1 < |b| && b[i + 1].free;
    var left := i > 0 && b[i - 1].free;
    var x := Block(b[i].addr, b[i].size, true);
    var y := if right then Combined(x, b[i + 1]) else x;
    var z := if left then Combined(b[i - 1], y) else y;
    ReplaceNeighbours(b, if left then i - 1 else i, [z], if right then i + 2 else i + 1);
  }

  /** Freeing a block that is free already changes nothing. */
  lemma ReleaseFree(b: seq<Block>, i: nat)
    requires i < |b| && b[i].free && NoFreeNeighbours(b)
    ensures Release(b, i) == b
  {
    hide Release;
    ReleaseIsReplace(b, i);
  }

  // ---------- live allocations ----------

  /** The blocks handed out and not yet freed. */
  ghost function Live(b: seq<Block>): set<Block> {
    set x | x in b && !x.free
  }

  lemma InReplace(b: seq<Block>, i: nat, mid: seq<Block>, k: nat, x: Block)
    requires i <= k <= |b|
    ensures x in Replace(b, i, mid, k) <==> x in b[..i] || x in mid || x in b[k..]
  {
  }

  lemma InParts(b: seq<Block>, i: nat, k: nat, x: Block)
    requires i <= k <= |b|
    ensures x in b <==> x in b[..i] || x in b[i..k] || x in b[k..]
  {
    assert b == b[..i] + b[i..k] + b[k..];
  }

  lemma BlocksDiffer(b: seq<Block>, lo: nat, hi: nat)
    requires Sorted(b, lo, hi)
    ensures forall i, j :: 0 <= i < j < |b| ==> b[i] != b[j]
  {
  }

  lemma InOnePart(b: seq<Block>, i: nat, k: nat, x: Block)
    requires i <= k <= |b| && forall m, n :: 0 <= m < n < |b| ==> b[m] != b[n]
    ensures x in b[i..k] ==> x !in b[..i] && x !in b[k..]
  {
  }

  /** Replacing blocks replaces their live ones. */
  lemma ReplaceLive(b: seq<Block>, i: nat, mid: seq<Block>, k: nat, lo: nat, hi: nat)
    requires i <= k <= |b| && Sorted(b, lo, hi)
    ensures Live(Replace(b, i, mid, k)) == Live(b) - Live(b[i..k]) + Live(mid)
  {
    BlocksDiffer(b, lo, hi);
    hide Replace, Sorted;
    forall v ensures v in Live(Replace(b, i, mid, k)) <==> v in Live(b) - Live(b[i..k]) + Live(mid) {
      InReplace(b, i, mid, k, v);
      InParts(b, i, k, v);
      InOnePart(b, i, k, v);
    }
  }

  /** Allocation hands out one new block, at least as large as asked, and disturbs no live block. */
  lemma CarveAddsOne(b: seq<Block>, i: nat, n: nat, lo: nat, hi: nat)
    requires i < |b| && Fits(b[i], n) && Sorted(b, lo, hi)
    ensures var x := Carved(b[i], n)[0];
      && Live(Carve(b, i, n)) == Live(b) + {x} && x !in Live(b)
      && x.addr == b[i].addr && x.size >= n
      && forall y <- Live(b) :: x.End() <= y.addr || y.End() <= x.addr
  {
    hide Carve, Replace;
    CarveIsReplace(b, i, n);
    var mid := Carved(b[i], n);
    ReplaceLive(b, i, mid, i + 1, lo, hi);
    OnlyLive(b[i..i + 1], 0);
    OnlyLive(mid, 0);
    forall y | y in Live(b) ensures mid[0].End() <= y.addr || y.End() <= mid[0].addr {
      var j :| 0 <= j < |b| && b[j] == y;
      assert j != i;
      assert mid[0].End() <= b[i].End();
    }
  }

  /** Two blocks of a sorted list at the same address are one block. */
  lemma SameAddress(b: seq<Block>, i: nat, j: nat, lo: nat, hi: nat)
    requires Sorted(b, lo, hi) && i < |b| && j < |b| && b[i].addr == b[j].addr
    ensures i == j
  {
  }

  /** Freeing gives back exactly that block. */
  lemma ReleaseRemovesOne(b: seq<Block>, i: nat, lo: nat, hi: nat)
    requires i < |b| && !b[i].free && Sorted(b, lo, hi)
    ensures Live(Release(b, i)) == Live(b) - {b[i]}
  {
    hide Release, Live;
    ReleaseIsReplace(b, i);
    var right := i + 1 < |b| && b[i + 1].free;
    var left := i > 0 && b[i - 1].free;
    var x := Block(b[i].addr, b[i].size, true);
    var y := if right then Combined(x, b[i + 1]) else x;
    var z := if left then Combined(b[i - 1], y) else y;
    var f := if left then i - 1 else i;
    var k := if right then i + 2 else i + 1;
    ReplaceLive(b, f, [z], k, lo, hi);
    ReleasedPart(b, i, f, k);
    OnlyLive([z], 0);
  }

  lemma ReleasedPart(b: seq<Block>, i: nat, f: nat, k: nat)
    requires f <= i < k <= |b| && !b[i].free && forall j :: f <= j < k && j != i ==> b[j].free
    ensures Live(b[f..k]) == {b[i]}
  {
    hide Live;
    var part := b[f..k];
    assert part[i - f] == b[i];
    forall j | 0 <= j < |part| && j != i - f ensures part[j].free {
      assert part[j] == b[f + j];
    }
    OnlyLive(part, i - f);
  }

  /** Of these blocks only block `i` may be live. */
  lemma OnlyLive(b: seq<Block>, i: nat)
    requires i < |b| && forall j :: 0 <= j < |b| && j != i ==> b[j].free
    ensures Live(b) == if b[i].free then {} else {b[i]}
  {
  }

  /** Growing in place enlarges exactly that block. */
  lemma GrowChangesOne(b: seq<Block>, i: nat, newSize: nat, lo: nat, hi: nat)
    requires i < |b| && !b[i].free && Sorted(b, lo, hi) && CanGrow(b, i, newSize)
    ensures var x := Combined(b[i], b[i + 1]);
      Live(Combine(b, i)) == Live(b) - {b[i]} + {x} && x.addr == b[i].addr && x.size >= newSize && x.size > b[i].size
  {
    hide Combine, Replace;
    CombineIsReplace(b, i);
    ReplaceLive(b, i, [Combined(b[i], b[i + 1])], i + 2, lo, hi);
    OnlyLive(b[i..i + 2], 0);
    OnlyLive([Combined(b[i], b[i + 1])], 0);
  }

  /** `payload` is the address of a live block of at least `size` bytes. */
  ghost predicate HandsOut(b: seq<Block>, payload: nat, size: nat) {
    exists x :: x in Live(b) && x.Payload() == payload && x.size >= size
  }

  lemma CarveHandsOut(b: seq<Block>, i: nat, n: nat)
    requires i < |b| && Fits(b[i], n)
    ensures HandsOut(Carve(b, i, n), b[i].Payload(), n)
  {
    hide Carve;
    CarveIsReplace(b, i, n);
    InReplace(b, i, Carved(b[i], n), i + 1, Carved(b[i], n)[0]);
    assert Carved(b[i], n)[0] in Live(Carve(b, i, n));
  }

  /** `b'` has one live block more than `b`, `x`, of `n` bytes or at most a header and 16 bytes more. It was
      made of the free block `found`; when that was larger, `x` has `n` bytes and the rest is free behind it. */
  ghost predicate NewBlock(b: seq<Block>, b': seq<Block>, found: Block, x: Block, n: nat) {
    && Live(b') == Live(b) + {x} && x !in Live(b)
    && n <= x.size <= n + HEADER + ALIGNMENT
    && found in b && found.free && found.addr == x.addr
    && if found.size > n + HEADER + ALIGNMENT then x.size == n && Block(x.End(), found.size - n - HEADER, true) in b'
       else x.size == found.size
  }

  /** An allocation of `n` bytes at `payload`. */
  ghost predicate AddsBlock(b: seq<Block>, b': seq<Block>, payload: nat, n: nat) {
    exists found, x :: NewBlock(b, b', found, x, n) && x.Payload() == payload
  }

  /** Taking a block for `n` bytes is that: nothing of it beyond a header and 16 bytes is wasted. */
  lemma CarveAddsBlock(b: seq<Block>, i: nat, n: nat, lo: nat, hi: nat)
    requires i < |b| && Fits(b[i], n) && Sorted(b, lo, hi)
    ensures AddsBlock(b, Carve(b, i, n), b[i].Payload(), n)
  {
    hide Carve, Live;
    CarveAddsOne(b, i, n, lo, hi);
    CarveIsReplace(b, i, n);
    var mid := Carved(b[i], n);
    if |mid| > 1 {
      InReplace(b, i, mid, i + 1, mid[1]);
    }
    assert NewBlock(b, Carve(b, i, n), b[i], mid[0], n);
  }

  /** The live block `i` has become one at `payload` that holds `size` bytes, and no other live block has
      changed: itself when it is large enough, itself with the whole of a free block behind it when both
      together are, else a new one of the rounded size or at most a header and 16 bytes more. Only when no
      free block is large enough either is nothing done, and `payload` is 0. */
  ghost predicate ResizesLive(b: seq<Block>, b': seq<Block>, i: nat, size: nat, payload: nat)
    requires i < |b|
  {
    var x := b[i];
    if x.size >= size then payload == x.Payload() && b' == b
    else if i + 1 < |b| && b[i + 1].free && x.size + HEADER + b[i + 1].size >= size then
      payload == x.Payload() && Live(b') == Live(b) - {x} + {Block(x.addr, x.size + HEADER + b[i + 1].size, false)}
    else if payload == 0 then b' == b
    else exists y :: Replaces(b, b', x, y, Aligned(size)) && y.Payload() == payload
  }

  ghost predicate Replaces(b: seq<Block>, b': seq<Block>, x: Block, y: Block, n: nat) {
    Live(b') == Live(b) - {x} + {y} && y !in Live(b) && n <= y.size <= n + HEADER + ALIGNMENT
  }

  /** Block `k` taken for `n` bytes and the live block `x` given back. */
  lemma TakenReplaces(b: seq<Block>, k: nat, n: nat, lo: nat, hi: nat, x: Block, b': seq<Block>)
    requires k < |b| && Fits(b[k], n) && Sorted(b, lo, hi) && x in Live(b)
    requires Live(b') == Live(Carve(b, k, n)) - {x}
    ensures exists y :: Replaces(b, b', x, y, n) && y.Payload() == b[k].Payload()
  {
    hide Carve, Live;
    CarveAddsOne(b, k, n, lo, hi);
    var y := Carved(b[k], n)[0];
    assert Live(b') == Live(b) - {x} + {y};
    assert Replaces(b, b', x, y, n);
  }

  lemma HandsOutAt(b: seq<Block>, i: nat, size: nat)
    requires i < |b| && !b[i].free && b[i].size >= size
    ensures HandsOut(b, b[i].Payload(), size)
  {
    assert b[i] in Live(b);
  }

  lemma HandsOutLess(b: seq<Block>, payload: nat, size: nat, less: nat)
    requires HandsOut(b, payload, size) && less <= size
    ensures HandsOut(b, payload, less)
  {
  }

  lemma GrownHandsOut(b: seq<Block>, i: nat, newSize: nat, lo: nat, hi: nat)
    requires i < |b| && !b[i].free && Sorted(b, lo, hi) && CanGrow(b, i, newSize)
    ensures HandsOut(Combine(b, i), b[i].Payload(), newSize)
  {
    hide Combine, Sorted;
    GrowChangesOne(b, i, newSize, lo, hi);
    assert Combined(b[i], b[i + 1]) in Live(Combine(b, i));
  }

  /** Freeing block `i` leaves block `k` handed out. */
  lemma OtherHandsOut(b: seq<Block>, i: nat, k: nat, size: nat, lo: nat, hi: nat)
    requires i < |b| && k < |b| && i != k && !b[i].free && !b[k].free && b[k].size >= size && Sorted(b, lo, hi)
    ensures HandsOut(Release(b, i), b[k].Payload(), size)
  {
    hide Release;
    ReleaseRemovesOne(b, i, lo, hi);
    BlocksDiffer(b, lo, hi);
    assert b[k] in Live(b) && b[k] in Live(Release(b, i));
  }

  // ---------- what one call undoes ----------

  /** Allocating and freeing at once restores the very same block list. */
  lemma AllocateThenFree(b: seq<Block>, i: nat, n: nat)
    requires i < |b| && Fits(b[i], n) && NoFreeNeighbours(b)
    ensures Carve(b, i, n)[i].addr == b[i].addr && !Carve(b, i, n)[i].free
    ensures Release(Carve(b, i, n), i) == b
  {
    var c := Carve(b, i, n);
    ReleaseIsReplace(c, i);
    assert i > 0 ==> c[i - 1] == b[i - 1] && !b[i - 1].free;
    if Splits(b[i], n) {
      assert c[i + 2..] == b[i + 1..] && c[..i] == b[..i];
      assert Combined(Block(c[i].addr, c[i].size, true), c[i + 1]) == b[i];
    } else {
      assert c[i + 1..] == b[i + 1..] && c[..i] == b[..i];
      assert i + 1 < |b| ==> c[i + 1] == b[i + 1] && !b[i + 1].free;
    }
    assert b[..i] + [b[i]] + b[i + 1..] == b;
  }

  function IndexOf(b: seq<Block>, payload: nat): (r: nat)
    requires exists x :: x in b && x.Payload() == payload
    ensures r < |b| && b[r].Payload() == payload
  {
    if b[0].Payload() == payload then 0
    else
      assert exists x :: x in b[1..] && x.Payload() == payload by {
        var x :| x in b && x.Payload() == payload;
        assert x in b[1..];
      }
      1 + IndexOf(b[1..], payload)
  }

  ghost predicate IsLive(b: seq<Block>, payload: nat) {
    exists x :: x in Live(b) && x.Payload() == payload
  }

  /** Free the given payload addresses one after the other. */
  ghost function ReleaseAll(b: seq<Block>, order: seq<nat>, lo: nat, hi: nat): seq<Block>
    requires Sorted(b, lo, hi)
    decreases |order|
  {
    if order == [] || !IsLive(b, order[0]) then b
    else
      LiveIndex(b, order[0], lo, hi);
      ReleaseKeeps(b, IndexOf(b, order[0]), lo, hi);
      ReleaseAll(Release(b, IndexOf(b, order[0])), order[1..], lo, hi)
  }

  lemma LiveIndex(b: seq<Block>, payload: nat, lo: nat, hi: nat)
    requires Sorted(b, lo, hi) && IsLive(b, payload)
    ensures exists x :: x in b && x.Payload() == payload
    ensures !b[IndexOf(b, payload)].free
  {
    var x :| x in Live(b) && x.Payload() == payload;
    assert x in b;
    var j :| 0 <= j < |b| && b[j] == x;
    SameAddress(b, IndexOf(b, payload), j, lo, hi);
  }

  /** All free, no free neighbours, no gap: one block. */
  lemma OnlyOneBlock(b: seq<Block>, lo: nat, hi: nat)
    requires Tiles(b, lo, hi) && NoFreeNeighbours(b) && Live(b) == {} && lo < hi
    ensures hi >= lo + HEADER && b == [Block(lo, hi - lo - HEADER, true)]
  {
    forall i | 0 <= i < |b| ensures b[i].free {
      assert b[i] !in Live(b);
    }
    assert |b| == 1;
    assert b[1..] == [];
  }

  /** Freeing every live allocation, in any order, gives the single initial block. */
  lemma {:induction false} FreeAllInAnyOrder(b: seq<Block>, order: seq<nat>, lo: nat, hi: nat)
    requires Tiles(b, lo, hi) && NoFreeNeighbours(b) && lo < hi
    requires forall i, j :: 0 <= i < j < |order| ==> order[i] != order[j]
    requires forall p: nat :: p in order <==> IsLive(b, p)
    ensures Sorted(b, lo, hi) && hi >= lo + HEADER
    ensures ReleaseAll(b, order, lo, hi) == [Block(lo, hi - lo - HEADER, true)]
    decreases |order|
  {
    TilesIsSorted(b, lo, hi);
    forall x | x in Live(b) ensures x.Payload() in order {
      assert IsLive(b, x.Payload());
    }
    if order == [] {
      OnlyOneBlock(b, lo, hi);
    } else {
      assert order[0] in order;
      LiveIndex(b, order[0], lo, hi);
      var i := IndexOf(b, order[0]);
      ReleaseKeeps(b, i, lo, hi);
      LiveAfterRelease(b, order, i, lo, hi);
      FreeAllInAnyOrder(Release(b, i), order[1..], lo, hi);
    }
  }

  lemma PayloadsDiffer(b: seq<Block>, i: nat, j: nat, lo: nat, hi: nat)
    requires Sorted(b, lo, hi) && i < |b| && j < |b|
    ensures i != j ==> b[i].Payload() != b[j].Payload()
  {
  }

  lemma LiveAfterRelease(b: seq<Block>, order: seq<nat>, i: nat, lo: nat, hi: nat)
    requires Sorted(b, lo, hi) && i < |b| && !b[i].free && order != [] && b[i].Payload() == order[0]
    requires forall i, j :: 0 <= i < j < |order| ==> order[i] != order[j]
    requires forall p: nat :: p in order <==> IsLive(b, p)
    ensures forall p: nat :: p in order[1..] <==> IsLive(Release(b, i), p)
  {
    hide Release;
    ReleaseRemovesOne(b, i, lo, hi);
    forall p: nat ensures p in order[1..] <==> IsLive(Release(b, i), p) {
      assert p in order <==> p == order[0] || p in order[1..];
      if IsLive(Release(b, i), p) {
        var x :| x in Live(Release(b, i)) && x.Payload() == p;
        var j :| 0 <= j < |b| && b[j] == x;
        PayloadsDiffer(b, i, j, lo, hi);
        assert x in Live(b);
        assert IsLive(b, p);
      }
      if p in order[1..] {
        assert IsLive(b, p);
        var x :| x in Live(b) && x.Payload() == p;
        assert x in Live(Release(b, i));
      }
    }
  }

  // ---------- when allocation fails ----------

  /** The addresses [s, e) touch no live block, header or payload. */
  ghost predicate IsFreeRun(b: seq<Block>, s: nat, e: nat, lo: nat, hi: nat) {
    lo <= s < e <= hi && forall x :: x in Live(b) ==> x.End() <= s || e <= x.addr
  }

  lemma {:induction false} BlockAt(b: seq<Block>, s: nat, lo: nat, hi: nat) returns (i: nat)
    requires Tiles(b, lo, hi) && lo <= s < hi
    ensures i < |b| && b[i].addr <= s < b[i].End() && (i + 1 < |b| ==> b[i + 1].addr == b[i].End()) && (i + 1 == |b| ==> b[i].End() == hi)
    decreases |b|
  {
    if s < b[0].End() {
      i := 0;
      assert |b| > 1 ==> b[1..][0] == b[1];
      assert |b| == 1 ==> b[1..] == [];
    } else {
      var j := BlockAt(b[1..], s, b[0].End(), hi);
      i := j + 1;
    }
  }

  /** A free run lies inside one free block. */
  lemma FreeRunInOneBlock(b: seq<Block>, s: nat, e: nat, lo: nat, hi: nat) returns (i: nat)
    requires Tiles(b, lo, hi) && NoFreeNeighbours(b) && IsFreeRun(b, s, e, lo, hi)
    ensures i < |b| && b[i].free && b[i].addr <= s && e <= b[i].End()
  {
    i := BlockAt(b, s, lo, hi);
    InLive(b, i);
    if i + 1 < |b| {
      InLive(b, i + 1);
    }
  }

  lemma InLive(b: seq<Block>, i: nat)
    requires i < |b|
    ensures !b[i].free ==> b[i] in Live(b)
  {
  }

  /** Allocation fails exactly when every free run is too short for a header and the rounded size. */
  lemma FailsOnlyWithoutRoom(b: seq<Block>, n: nat, lo: nat, hi: nat)
    requires Tiles(b, lo, hi) && NoFreeNeighbours(b)
    ensures FirstFit(b, n).None? <==> forall s: nat, e: nat :: IsFreeRun(b, s, e, lo, hi) ==> e - s < HEADER + n
  {
    TilesIsSorted(b, lo, hi);
    if FirstFit(b, n).None? {
      forall s: nat, e: nat | IsFreeRun(b, s, e, lo, hi) ensures e - s < HEADER + n {
        var i := FreeRunInOneBlock(b, s, e, lo, hi);
        assert !Fits(b[i], n);
      }
    } else {
      var i := FirstFit(b, n).value;
      forall x | x in Live(b) ensures x.End() <= b[i].addr || b[i].End() <= x.addr {
        var j :| 0 <= j < |b| && b[j] == x;
      }
      assert IsFreeRun(b, b[i].addr, b[i].End(), lo, hi);
    }
  }

  // ---------- alignment ----------

  /** Headers and payloads are 8-aligned. */
  ghost predicate EightAligned(b: seq<Block>) {
    forall x :: x in b ==> x.addr % 8 == 0 && x.size % 8 == 0
  }

  lemma KeepsAlignment(b: seq<Block>, i: nat, n: nat)
    requires EightAligned(b) && i < |b|
    ensures b[i].size >= n && n % ALIGNMENT == 0 ==> EightAligned(Carve(b, i, n))
    ensures EightAligned(Combine(b, i))
  {
    hide Carve, Combine;
    if b[i].size >= n && n % ALIGNMENT == 0 {
      CarveKeepsAlignment(b, i, n);
    }
    CombineKeepsAlignment(b, i);
  }

  lemma CarveKeepsAlignment(b: seq<Block>, i: nat, n: nat)
    requires EightAligned(b) && i < |b| && b[i].size >= n && n % ALIGNMENT == 0
    ensures EightAligned(Carve(b, i, n))
  {
    hide Carve, Replace, Carved;
    assert b[i] in b;
    CarveIsReplace(b, i, n);
    CarvedIsAligned(b[i], n);
    forall x | x in Carve(b, i, n) ensures x.addr % 8 == 0 && x.size % 8 == 0 {
      InReplace(b, i, Carved(b[i], n), i + 1, x);
    }
  }

  lemma CarvedIsAligned(x: Block, n: nat)
    requires x.addr % 8 == 0 && x.size % 8 == 0 && x.size >= n && n % ALIGNMENT == 0
    ensures forall y :: y in Carved(x, n) ==> y.addr % 8 == 0 && y.size % 8 == 0
  {
    var q, r, m := x.addr / 8, x.size / 8, n / ALIGNMENT;
    assert x.addr + HEADER + n == 8 * (q + 5 + 2 * m);
    assert x.size - HEADER - n == 8 * (r - 5 - 2 * m);
    assert n == 8 * (2 * m);
    TimesEight(q + 5 + 2 * m);
    TimesEight(r - 5 - 2 * m);
    TimesEight(2 * m);
  }

  lemma TimesEight(k: int)
    ensures 8 * k % 8 == 0
  {
  }

  lemma CombineKeepsAlignment(b: seq<Block>, i: nat)
    requires EightAligned(b) && i < |b|
    ensures EightAligned(Combine(b, i))
  {
    assert b[i] in b;
    if i + 1 < |b| && b[i + 1].free {
      CombineIsReplace(b, i);
      assert b[i + 1] in b;
      forall x | x in Combine(b, i) ensures x.addr % 8 == 0 && x.size % 8 == 0 {
        InReplace(b, i, [Combined(b[i], b[i + 1])], i + 2, x);
      }
    }
  }
}
