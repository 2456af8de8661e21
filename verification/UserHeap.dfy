/** The user library's heap: the kernel heap's algorithm, growing by the SYS_MEM system call. */
module UserHeap {
  import opened Bits
  import opened Common
  import opened HeapBlocks
  import opened HeapHeaders
  import opened BlockHeap

  /** How many pages SYS_MEM can still add to the process. */
  class Grants {
    var pages: nat

    constructor (pages: nat)
      ensures this.pages == pages
    {
      this.pages := pages;
    }
  }

  /** (x + 4095) & ~4095 in 64 bits. */
  function PageAligned(x: nat): (r: nat)
    ensures r % PAGE == 0
  {
    (x + (PAGE - 1)) % WORD_LIMIT / PAGE * PAGE
  }

  /** The bytes asked of SYS_MEM for a request that no block fits. */
  function GrowSize(size: nat): (r: nat)
    ensures r % PAGE == 0
  {
    PageAligned((Aligned(size) + HEADER) % WORD_LIMIT)
  }

  /** The largest request that still fits 64 bits when it is rounded and has a header. */
  const REQUEST_LIMIT: nat := WORD_LIMIT - 48

  lemma RequestFits(size: nat)
    requires size < WORD_LIMIT
    ensures size <= REQUEST_LIMIT <==> size <= WORD_LIMIT - ALIGNMENT && Aligned(size) + HEADER < WORD_LIMIT
    ensures size <= REQUEST_LIMIT ==> size <= Aligned(size) <= REQUEST_LIMIT
    ensures REQUEST_LIMIT < size <= WORD_LIMIT - ALIGNMENT ==> WORD_LIMIT - 32 <= Aligned(size) < WORD_LIMIT
    ensures size > WORD_LIMIT - ALIGNMENT ==> Aligned(size) == 0
  {
  }

  /** Rounding to pages adds less than a page, or wraps to nothing. */
  lemma PageAlignedCovers(x: nat)
    requires x < WORD_LIMIT
    ensures PageAligned(x) == 0 || x <= PageAligned(x) < x + PAGE
  {
    if x + (PAGE - 1) < WORD_LIMIT {
      assert (x + (PAGE - 1)) % WORD_LIMIT == x + (PAGE - 1);
    } else {
      assert (x + (PAGE - 1)) % WORD_LIMIT == x + (PAGE - 1) - WORD_LIMIT;
    }
  }

  /** The block made of the new memory holds the request exactly up to 2^64-48 bytes. When even the
      page rounding wraps, nothing is asked for and nothing made. */
  lemma GrownBlockFits(size: nat)
    requires size < WORD_LIMIT
    ensures GrowSize(size) > 0 ==> GrowSize(size) >= HEADER
    ensures GrowSize(size) > 0 ==> (GrowSize(size) - HEADER >= size <==> size <= REQUEST_LIMIT)
    ensures GrowSize(size) > 0 && size <= REQUEST_LIMIT ==> Aligned(size) <= GrowSize(size) - HEADER < Aligned(size) + PAGE
  {
    hide Aligned, PageAligned;
    RequestFits(size);
    var x := Aligned(size) + HEADER;
    if size <= REQUEST_LIMIT {
      assert x % WORD_LIMIT == x;
    } else if Aligned(size) == 0 {
      assert x % WORD_LIMIT == HEADER;
    } else {
      assert x % WORD_LIMIT == x - WORD_LIMIT;
    }
    PageAlignedCovers(x % WORD_LIMIT);
    SmallPageAligned(x % WORD_LIMIT);
  }

  lemma SmallPageAligned(x: nat)
    ensures 0 < x <= HEADER ==> PageAligned(x) == PAGE
  {
  }

  /** Both ways to fail: the largest sizes round to nothing and get one page, which is far too
      small; just below them the header wraps, and the page does not even fit the rounded size, so
      that the allocator grows again and again. */
  lemma GrownBlockTooSmall()
    ensures Aligned(WORD_LIMIT - 1) == 0 && GrowSize(WORD_LIMIT - 1) == PAGE
    ensures Aligned(WORD_LIMIT - 40) == WORD_LIMIT - 32 && GrowSize(WORD_LIMIT - 40) == PAGE
  {
  }

  function Zeros(n: nat): (z: seq<UInt8>)
    ensures |z| == n && forall k :: 0 <= k < n ==> z[k] == 0
  {
    var z: seq<UInt8> := seq(n, k => 0);
    z
  }

  /** The list with a free block of the newly granted memory at its end. */
  function Appended(b: seq<Block>, address: nat, bytes: nat): seq<Block>
    requires bytes >= HEADER
  {
    b + [Block(address, bytes - HEADER, true)]
  }

  /** More memory at the end leaves the list and its payloads as they are. */
  lemma MoreMemory(m: seq<UInt8>, z: seq<UInt8>, base: nat, magic: nat, b: seq<Block>)
    requires Holds(m, base, magic, b)
    ensures Holds(m + z, base, magic, b) && LiveKept(m, m + z, base, b)
  {
    hide Expected;
    forall j | 0 <= j < |b| ensures HeaderAt(m + z, b[j].addr - base) == HeaderAt(m, b[j].addr - base) {
      assert (m + z)[..|m|] == m;
      PrefixHeader(m, m + z, b[j].addr - base);
    }
    forall j | 0 <= j < |b| && !b[j].free ensures PayloadKept(m, m + z, base, b[j]) {
    }
  }

  lemma PrefixHeader(m: seq<UInt8>, m': seq<UInt8>, o: nat)
    requires o + HEADER <= |m| <= |m'| && m'[..|m|] == m
    ensures HeaderAt(m', o) == HeaderAt(m, o)
  {
    PrefixSlice(m, m', o + MAGIC_AT);
    PrefixSlice(m, m', o + NEXT_AT);
    PrefixSlice(m, m', o + PREVIOUS_AT);
    PrefixSlice(m, m', o + SIZE_AT);
    assert m'[..|m|][o + FREE_AT] == m[o + FREE_AT];
  }

  lemma PrefixSlice(m: seq<UInt8>, m': seq<UInt8>, k: nat)
    requires k + 8 <= |m| <= |m'| && m'[..|m|] == m
    ensures m'[k..k + 8] == m[k..k + 8]
  {
    assert m'[k..k + 8] == m'[..|m|][k..k + 8];
  }

  /** The bytes after the header of the new last block was written and linked. */
  ghost function AppendedBytes(m: seq<UInt8>, base: nat, magic: nat, b: seq<Block>, q: nat, bytes: nat): (m': seq<UInt8>)
    requires base <= q && q - base + HEADER <= |m| && bytes >= HEADER
    requires Sorted(b, base, q)
    ensures |m'| == |m|
  {
    var o := q - base;
    var m1 := WithWord(m, o, SIZE_AT, bytes - HEADER);
    var m2 := WithFlag(m1, o, true);
    var m3 := WithWord(m2, o, MAGIC_AT, magic);
    var m4 := WithWord(m3, o, NEXT_AT, 0);
    var m5 := WithWord(m4, o, PREVIOUS_AT, if b == [] then 0 else b[|b| - 1].addr);
    if b == [] then m5 else WithWord(m5, b[|b| - 1].addr - base, NEXT_AT, q)
  }

  lemma AppendedHeader(m: seq<UInt8>, o: nat, magic: nat, size: nat, previous: nat)
    requires o + HEADER <= |m| && magic < WORD_LIMIT && size < WORD_LIMIT && previous < WORD_LIMIT
    ensures var m3 := WithWord(WithFlag(WithWord(m, o, SIZE_AT, size), o, true), o, MAGIC_AT, magic);
      var m5 := WithWord(WithWord(m3, o, NEXT_AT, 0), o, PREVIOUS_AT, previous);
      OnlyHeader(m, m5, o) && HeaderAt(m5, o) == Header(magic, 0, previous, size, true)
  {
    hide HeaderAt, WithWord, WithFlag;
    var m1 := WithWord(m, o, SIZE_AT, size);
    var m2 := WithFlag(m1, o, true);
    var m3 := WithWord(m2, o, MAGIC_AT, magic);
    var m4 := WithWord(m3, o, NEXT_AT, 0);
    SetWord(m, o, SIZE_AT, size);
    SetFlag(m1, o, true);
    SetWord(m2, o, MAGIC_AT, magic);
    SetWord(m3, o, NEXT_AT, 0);
    SetWord(m4, o, PREVIOUS_AT, previous);
  }

  lemma OldHeadersKept(m: seq<UInt8>, m': seq<UInt8>, base: nat, b: seq<Block>, q: nat)
    requires Sorted(b, base, q) && base <= q && q - base + HEADER <= |m| && OnlyHeader(m, m', q - base)
    ensures forall j :: 0 <= j < |b| ==> HeaderAt(m', b[j].addr - base) == HeaderAt(m, b[j].addr - base)
    ensures LiveKept(m, m', base, b)
  {
    hide HeaderAt;
    forall j | 0 <= j < |b| ensures HeaderAt(m', b[j].addr - base) == HeaderAt(m, b[j].addr - base) {
      OtherHeader(m, m', q - base, b[j].addr - base);
    }
    forall j | 0 <= j < |b| && !b[j].free ensures PayloadKept(m, m', base, b[j]) {
      OnlyHeaderKeepsPayload(m, m', base, q, b[j]);
    }
  }

  lemma AppendedHolds(m: seq<UInt8>, base: nat, magic: nat, b: seq<Block>, q: nat, bytes: nat)
    requires Holds(m, base, magic, b) && 0 < base <= q && Sorted(b, base, q) && bytes >= HEADER
    requires q + bytes <= base + |m| <= WORD_LIMIT && magic < WORD_LIMIT
    ensures Holds(AppendedBytes(m, base, magic, b, q, bytes), base, magic, Appended(b, q, bytes))
    ensures LiveKept(m, AppendedBytes(m, base, magic, b, q, bytes), base, b)
  {
    hide HeaderAt, WithWord, WithFlag, OnlyHeader;
    hide LiveKept, Expected;
    var o := q - base;
    var last := if b == [] then 0 else b[|b| - 1].addr;
    var m3 := WithWord(WithFlag(WithWord(m, o, SIZE_AT, bytes - HEADER), o, true), o, MAGIC_AT, magic);
    var m5 := WithWord(WithWord(m3, o, NEXT_AT, 0), o, PREVIOUS_AT, last);
    AppendedHeader(m, o, magic, bytes - HEADER, last);
    OldHeadersKept(m, m5, base, b, q);
    var c := Appended(b, q, bytes);
    JoinSorted(b, [Block(q, bytes - HEADER, true)], base, q, base + |m|);
    var m' := AppendedBytes(m, base, magic, b, q, bytes);
    if b != [] {
      SetWord(m5, last - base, NEXT_AT, q);
      HeadersKept(m5, m', base, b, |b| - 1);
      OtherHeader(m5, m', last - base, o);
      HeaderWriteKeepsLive(m5, m', base, b, |b| - 1);
      LiveKeptTwice(m, m5, m', base, b);
    }
    AppendedExpected(b, q, bytes, magic, |b|);
    forall j | 0 <= j < |c| ensures HeaderAt(m', c[j].addr - base) == Expected(c, j, magic) {
      if j < |b| {
        AppendedExpected(b, q, bytes, magic, j);
      }
    }
  }

  lemma AppendedExpected(b: seq<Block>, q: nat, bytes: nat, magic: nat, j: nat)
    requires bytes >= HEADER && j <= |b|
    ensures var c := Appended(b, q, bytes);
      && c[j].addr == (if j < |b| then b[j].addr else q)
      && (j == |b| ==> Expected(c, j, magic) == Header(magic, 0, if b == [] then 0 else b[|b| - 1].addr, bytes - HEADER, true))
      && (j < |b| ==>
        var h := Expected(b, j, magic);
        Expected(c, j, magic) == Header(h.magic, if j == |b| - 1 then q else h.next, h.previous, h.size, h.isFree))
  {
  }

  // ---------- the allocator ----------

  /** Of the pages in `bytes` bytes, those that SYS_MEM adds when it can add `pages`. */
  function PagesGranted(bytes: nat, pages: nat): (k: nat)
    ensures k <= pages
  {
    if bytes / PAGE <= pages then bytes / PAGE else pages
  }

  /** What SYS_MEM returns then, for memory that ends at `end`. */
  function GrantAddress(bytes: nat, pages: nat, end: nat): nat {
    if 0 < bytes && bytes / PAGE <= pages then end else 0
  }

  /** The system call as the allocator sees it: the memory grows by the pages that could be granted;
      the address of the new memory only when that is all of them, and 0 for nothing asked. */
  method ServiceMemory(heap: BlockHeap, grants: Grants, bytes: nat) returns (address: nat)
    requires heap.Linked() && bytes % PAGE == 0
    requires heap.base + |heap.memory| + grants.pages * PAGE <= WORD_LIMIT
    modifies heap`memory, grants
    ensures heap.Linked() && LiveKept(old(heap.memory), heap.memory, heap.base, heap.blocks)
    ensures var k := PagesGranted(bytes, old(grants.pages));
      heap.memory == old(heap.memory) + Zeros(k * PAGE) && grants.pages == old(grants.pages) - k
    ensures address == GrantAddress(bytes, old(grants.pages), heap.base + |old(heap.memory)|)
  {
    hide Holds, LiveKept;
    assert grants.pages * PAGE >= 0;
    if bytes == 0 {
      assert heap.memory + Zeros(0) == heap.memory;
      MoreMemory(heap.memory, [], heap.base, heap.magic, heap.blocks);
      assert heap.memory + [] == heap.memory;
      return 0;
    }
    var k := PagesGranted(bytes, grants.pages);
    MoreMemory(heap.memory, Zeros(k * PAGE), heap.base, heap.magic, heap.blocks);
    address := if k == bytes / PAGE then heap.base + |heap.memory| else 0;
    heap.memory := heap.memory + Zeros(k * PAGE);
    grants.pages := grants.pages - k;
  }

  /** No two free neighbours, but for a last block that is about to be taken for `n` bytes. */
  ghost predicate NearlyApart(b: seq<Block>, n: nat) {
    || NoFreeNeighbours(b)
    || (b != [] && NoFreeNeighbours(b[..|b| - 1]) && FirstFit(b, n) == Some(|b| - 1))
  }

  lemma TakingLastSeparates(b: seq<Block>, n: nat)
    requires NearlyApart(b, n) && FirstFit(b, n).Some?
    ensures NoFreeNeighbours(Carve(b, FirstFit(b, n).value, n))
  {
    var i := FirstFit(b, n).value;
    if NoFreeNeighbours(b) {
      CarveKeeps(b, i, n, 0, 0);
    } else {
      CarveIsReplace(b, i, n);
      assert b[..i] + Carved(b[i], n) + b[i + 1..] == b[..i] + Carved(b[i], n);
      JoinNeighbours(b[..i], Carved(b[i], n));
    }
  }

  lemma AppendedFits(b: seq<Block>, n: nat, address: nat, bytes: nat)
    requires FirstFit(b, n).None? && bytes >= HEADER && bytes - HEADER >= n && NoFreeNeighbours(b)
    ensures FirstFit(Appended(b, address, bytes), n) == Some(|b|) && NearlyApart(Appended(b, address, bytes), n)
  {
    var c := Appended(b, address, bytes);
    assert c[..|c| - 1] == b;
    FirstFitIs(c, n, |b|);
  }

  /** What an allocation of `size` bytes does to the list, from a list that ends at `end`. */
  ghost function AllocatedList(b: seq<Block>, size: nat, end: nat, pages: nat): (seq<Block>, nat) {
    var n := Aligned(size);
    var grow := GrowSize(size);
    if size == 0 then (b, 0)
    else if FirstFit(b, n).Some? then (Carve(b, FirstFit(b, n).value, n), b[FirstFit(b, n).value].Payload())
    else if grow < HEADER || grow - HEADER < n || grow / PAGE > pages then (b, 0)
    else (Carve(Appended(b, end, grow), |b|, n), end + HEADER)
  }

  /** No free block is large enough, and the pages of a new one cannot all be had. */
  ghost predicate NoRoom(b: seq<Block>, size: nat, pages: nat) {
    (forall x :: x in b && x.free ==> x.size < Aligned(size)) && (GrowSize(size) == 0 || GrowSize(size) / PAGE > pages)
  }

  /** It fails exactly if no free block is large enough and the pages of a new one cannot all be had, and
      otherwise adds one block. */
  lemma AllocationAdds(b: seq<Block>, size: nat, lo: nat, end: nat, pages: nat)
    requires Sorted(b, lo, end) && lo <= end && size <= REQUEST_LIMIT
    ensures var (b', p) := AllocatedList(b, size, end, pages);
      && (p == 0 <==> size == 0 || NoRoom(b, size, pages))
      && (p == 0 ==> b' == b)
      && (p != 0 ==> AddsGrown(b, b', p, size, end))
  {
    hide Carve, Aligned, GrowSize, AddsBlock, Sorted;
    var n, grow := Aligned(size), GrowSize(size);
    GrownBlockFits(size);
    if size > 0 {
      match FirstFit(b, n)
      case Some(i) =>
        CarveAddsBlock(b, i, n, lo, end);
        assert b[i] in b && IsGround(b, b, size, end);
      case None =>
        if grow > 0 {
          var d := Appended(b, end, grow);
          AppendedSorted(b, lo, end, grow);
          CarveAddsBlock(d, |b|, n, lo, end + grow);
          assert IsGround(b, d, size, end);
        }
    }
  }

  lemma AppendedSorted(b: seq<Block>, lo: nat, end: nat, bytes: nat)
    requires Sorted(b, lo, end) && lo <= end && bytes >= HEADER
    ensures Sorted(Appended(b, end, bytes), lo, end + bytes)
  {
    JoinSorted(b, [Block(end, bytes - HEADER, true)], lo, end, end + bytes);
  }

  /** The pages that such an allocation adds, also when they are too few and it fails. */
  ghost function Grown(b: seq<Block>, size: nat, pages: nat): (k: nat)
    ensures k <= pages
  {
    if size == 0 || FirstFit(b, Aligned(size)).Some? then 0 else PagesGranted(GrowSize(size), pages)
  }

  /** The list from which a block is taken: with a free block of the new memory at its end, or without. */
  ghost predicate IsGround(b: seq<Block>, d: seq<Block>, size: nat, end: nat) {
    || d == b
    || ((forall x :: x in b && x.free ==> x.size < Aligned(size)) && GrowSize(size) >= HEADER
        && d == b + [Block(end, GrowSize(size) - HEADER, true)])
  }

  /** The allocation adds one block of the rounded size, made of a block that was free or of the new memory. */
  ghost predicate AddsGrown(b: seq<Block>, b': seq<Block>, payload: nat, size: nat, end: nat) {
    exists d :: IsGround(b, d, size, end) && AddsBlock(d, b', payload, Aligned(size))
  }

  /** The search loop: the first block that fits, or the last block of the list. */
  method Search(heap: BlockHeap, n: nat) returns (current: nat, last: nat)
    requires heap.Linked()
    ensures match FirstFit(heap.blocks, n)
      case Some(i) => current == heap.blocks[i].addr && current > 0
      case None => current == 0 && last == if heap.blocks == [] then 0 else heap.blocks[|heap.blocks| - 1].addr
  {
    hide Holds, HeaderAt, Expected, FirstFit;
    ghost var b, m := heap.blocks, heap.memory;
    current, last := heap.head, 0;
    ghost var i := 0;
    while current != 0
      invariant i <= |b| && current == (if i < |b| then b[i].addr else 0) && last == (if i == 0 then 0 else b[i - 1].addr)
      invariant forall k :: 0 <= k < i ==> !Fits(b[k], n)
      decreases |b| - i
    {
      BlockHeader(m, heap.base, heap.magic, b, i);
      var h := heap.At(current);
      if h.isFree && h.size >= n {
        FirstFitIs(b, n, i);
        return;
      }
      if i + 1 < |b| { BlockHeader(m, heap.base, heap.magic, b, i + 1); }
      last := current;
      current := h.next;
      i := i + 1;
    }
    if i < |b| { BlockHeader(m, heap.base, heap.magic, b, i); }
    NoFit(b, n);
  }

  /** MemoryAllocate. The recursion after growing is at most one level deep: then some block fits. */
  method MemoryAllocate(heap: BlockHeap, grants: Grants, size: nat) returns (p: nat)
    requires heap.Linked() && NearlyApart(heap.blocks, Aligned(size))
    requires size <= REQUEST_LIMIT
    requires heap.base + |heap.memory| + grants.pages * PAGE <= WORD_LIMIT
    requires size == 0 ==> NoFreeNeighbours(heap.blocks)
    modifies heap, grants
    ensures heap.Valid()
    ensures (heap.blocks, p) == AllocatedList(old(heap.blocks), size, heap.base + |old(heap.memory)|, old(grants.pages))
    ensures LiveKept(old(heap.memory), heap.memory, heap.base, old(heap.blocks))
    ensures p != 0 ==> HandsOut(heap.blocks, p, size)
    ensures p != 0 ==> AddsGrown(old(heap.blocks), heap.blocks, p, size, heap.base + |old(heap.memory)|)
    ensures p == 0 <==> size == 0 || NoRoom(old(heap.blocks), size, old(grants.pages))
    ensures grants.pages == old(grants.pages) - Grown(old(heap.blocks), size, old(grants.pages))
    ensures |heap.memory| + grants.pages * PAGE == |old(heap.memory)| + old(grants.pages) * PAGE
    decreases if FirstFit(heap.blocks, Aligned(size)).None? then 1 else 0
  {
    hide Holds, LiveKept, Carve, Aligned, HeaderAt;
    hide Appended, AppendedBytes, NoFreeNeighbours, GrowSize, NearlyApart, FirstFit, Expected, HandsOut, AddsGrown;
    hide AddsBlock, NoRoom, Sorted;
    RequestFits(size);
    ghost var b, m := heap.blocks, heap.memory;
    HoldsSorted(m, heap.base, heap.magic, b);
    AllocationAdds(b, size, heap.base, heap.base + |m|, grants.pages);
    LiveKeptSelf(m, heap.base, b);
    if size == 0 {
      return 0;
    }
    var n := Aligned(size);
    var current, last := Search(heap, n);
    if current != 0 {
      TakingLastSeparates(b, n);
      CarveHandsOut(b, FirstFit(b, n).value, n);
      HandsOutLess(Carve(b, FirstFit(b, n).value, n), current + HEADER, n, size);
      heap.Take(current, n, FirstFit(b, n).value);
      return current + HEADER;
    }
    ApartWithoutFit(b, n);
    GrownBlockFits(size);
    HoldsSorted(m, heap.base, heap.magic, b);
    var address := ServiceMemory(heap, grants, GrowSize(size));
    if address == 0 {
      return 0;
    }
    ghost var m1 := heap.memory;
    AppendBlock(heap, address, GrowSize(size), last);
    ghost var m2 := heap.memory;
    AppendedFits(b, n, address, GrowSize(size));
    AppendedAt(b, address, GrowSize(size));
    p := MemoryAllocate(heap, grants, size);
    LiveKeptTwice(m, m1, m2, heap.base, b);
    LiveKeptPrefix(m2, heap.memory, heap.base, b, address, GrowSize(size));
    LiveKeptTwice(m, m2, heap.memory, heap.base, b);
  }

  /** The first call of a process, which has no heap yet: it succeeds exactly if all the pages of the
      block can be had, and the block is at the start of them. */
  method FirstAllocation(base: nat, magic: nat, grants: Grants, size: nat) returns (heap: BlockHeap, p: nat)
    requires 0 < base < WORD_LIMIT && magic < WORD_LIMIT && size <= REQUEST_LIMIT
    requires base + grants.pages * PAGE <= WORD_LIMIT
    modifies grants
    ensures fresh(heap) && heap.Valid() && heap.base == base
    ensures p != 0 <==> size > 0 && GrowSize(size) > 0 && GrowSize(size) / PAGE <= old(grants.pages)
    ensures p != 0 ==> p == base + HEADER && HandsOut(heap.blocks, p, size)
  {
    hide GrowSize, Aligned, HandsOut, Carve;
    heap := new BlockHeap.Empty(base, magic);
    NothingIsApart(Aligned(size));
    GrownBlockFits(size);
    p := MemoryAllocate(heap, grants, size);
  }

  lemma NothingIsApart(n: nat)
    ensures NearlyApart([], n) && NoFreeNeighbours([]) && FirstFit([], n).None?
  {
  }

  lemma LiveKeptPrefix(m: seq<UInt8>, m': seq<UInt8>, base: nat, b: seq<Block>, q: nat, bytes: nat)
    requires bytes >= HEADER && LiveKept(m, m', base, Appended(b, q, bytes))
    ensures LiveKept(m, m', base, b)
  {
    hide PayloadKept;
    forall j | 0 <= j < |b| && !b[j].free ensures PayloadKept(m, m', base, b[j]) {
      assert Appended(b, q, bytes)[j] == b[j];
    }
  }

  lemma ApartWithoutFit(b: seq<Block>, n: nat)
    requires NearlyApart(b, n) && FirstFit(b, n).None?
    ensures NoFreeNeighbours(b)
  {
  }

  lemma AppendedAt(b: seq<Block>, q: nat, bytes: nat)
    requires bytes >= HEADER
    ensures var c := Appended(b, q, bytes); |c| == |b| + 1 && c[|b|].Payload() == q + HEADER
  {
  }

  /** The new memory becomes the free last block of the list. */
  method AppendBlock(heap: BlockHeap, q: nat, bytes: nat, last: nat)
    requires heap.Linked() && heap.base <= q && Sorted(heap.blocks, heap.base, q) && bytes >= HEADER
    requires q + bytes <= heap.base + |heap.memory|
    requires last == if heap.blocks == [] then 0 else heap.blocks[|heap.blocks| - 1].addr
    modifies heap
    ensures heap.Linked() && heap.blocks == Appended(old(heap.blocks), q, bytes) && |heap.memory| == |old(heap.memory)|
    ensures LiveKept(old(heap.memory), heap.memory, heap.base, old(heap.blocks))
  {
    hide HeaderAt, WithWord, WithFlag, LiveKept;
    hide Holds, Expected;
    ghost var b, m := heap.blocks, heap.memory;
    AppendedHolds(m, heap.base, heap.magic, b, q, bytes);
    heap.SetWordAt(q, SIZE_AT, bytes - HEADER);
    heap.SetFree(q, true);
    heap.SetWordAt(q, MAGIC_AT, heap.magic);
    heap.SetWordAt(q, NEXT_AT, 0);
    heap.SetWordAt(q, PREVIOUS_AT, last);
    if last != 0 {
      heap.SetWordAt(last, NEXT_AT, q);
    } else {
      heap.head := q;
    }
    heap.blocks := Appended(b, q, bytes);
  }
}
