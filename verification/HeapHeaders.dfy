/** Block headers as bytes of the heap's memory, linked into the block list. */
module HeapHeaders {
  import opened Bits
  import opened Common
  import opened HeapBlocks

  /** The fields of a block header, as read from its 40 bytes. */
  datatype Header = Header(magic: nat, next: nat, previous: nat, size: nat, isFree: bool)

  const MAGIC_AT: nat := 0
  const NEXT_AT: nat := 8
  const PREVIOUS_AT: nat := 16
  const SIZE_AT: nat := 24
  const FREE_AT: nat := 32

  function HeaderAt(m: seq<UInt8>, o: nat): Header
    requires o + HEADER <= |m|
  {
    Header(Get64(m, o + MAGIC_AT), Get64(m, o + NEXT_AT), Get64(m, o + PREVIOUS_AT), Get64(m, o + SIZE_AT), m[o + FREE_AT] != 0)
  }

  /** Only bytes of the header at `o` differ. */
  ghost predicate OnlyHeader(m: seq<UInt8>, m': seq<UInt8>, o: nat) {
    |m'| == |m| && forall k :: 0 <= k < |m| && (k < o || k >= o + HEADER) ==> m'[k] == m[k]
  }

  ghost predicate Apart(o: nat, p: nat) {
    o + HEADER <= p || p + HEADER <= o
  }

  lemma OtherHeader(m: seq<UInt8>, m': seq<UInt8>, o: nat, p: nat)
    requires OnlyHeader(m, m', o) && Apart(o, p) && p + HEADER <= |m|
    ensures HeaderAt(m', p) == HeaderAt(m, p)
  {
    assert m'[p..p + HEADER] == m[p..p + HEADER];
    SameWords(m, m', p);
  }

  lemma SameWords(m: seq<UInt8>, m': seq<UInt8>, p: nat)
    requires |m| == |m'| && p + HEADER <= |m| && m'[p..p + HEADER] == m[p..p + HEADER]
    ensures HeaderAt(m', p) == HeaderAt(m, p)
  {
    SameWord(m, m', p, MAGIC_AT);
    SameWord(m, m', p, NEXT_AT);
    SameWord(m, m', p, PREVIOUS_AT);
    SameWord(m, m', p, SIZE_AT);
    assert m[p + FREE_AT] == m[p..p + HEADER][FREE_AT];
    assert m'[p + FREE_AT] == m'[p..p + HEADER][FREE_AT];
  }

  lemma SameWord(m: seq<UInt8>, m': seq<UInt8>, p: nat, k: nat)
    requires |m| == |m'| && p + HEADER <= |m| && m'[p..p + HEADER] == m[p..p + HEADER] && k + 8 <= HEADER
    ensures Get64(m', p + k) == Get64(m, p + k)
  {
    SliceOfSlice(m, p, HEADER, k);
    SliceOfSlice(m', p, HEADER, k);
  }

  lemma SliceOfSlice(m: seq<UInt8>, p: nat, n: nat, k: nat)
    requires p + n <= |m| && k + 8 <= n
    ensures m[p..p + n][k..k + 8] == m[p + k..p + k + 8]
  {
    var x, y := m[p..p + n][k..k + 8], m[p + k..p + k + 8];
    forall j | 0 <= j < 8 ensures x[j] == y[j] {
    }
    assert x == y;
  }

  /** The word of the header at `o` set. */
  function WithWord(m: seq<UInt8>, o: nat, k: nat, x: nat): (m': seq<UInt8>)
    requires o + HEADER <= |m| && k + 8 <= HEADER
    ensures |m'| == |m|
  {
    Put64(m, o + k, x)
  }

  function WithFlag(m: seq<UInt8>, o: nat, free: bool): (m': seq<UInt8>)
    requires o + HEADER <= |m|
    ensures |m'| == |m|
  {
    m[o + FREE_AT := if free then 1 else 0]
  }

  lemma SetWord(m: seq<UInt8>, o: nat, k: nat, x: nat)
    requires o + HEADER <= |m| && x < WORD_LIMIT && (k == MAGIC_AT || k == NEXT_AT || k == PREVIOUS_AT || k == SIZE_AT)
    ensures var m' := WithWord(m, o, k, x); var h := HeaderAt(m, o);
      && OnlyHeader(m, m', o)
      && HeaderAt(m', o) == Header(
           if k == MAGIC_AT then x else h.magic,
           if k == NEXT_AT then x else h.next,
           if k == PREVIOUS_AT then x else h.previous,
           if k == SIZE_AT then x else h.size,
           h.isFree)
  {
    hide Get64;
    PutGet(m, o + k, x, o + MAGIC_AT);
    PutGet(m, o + k, x, o + NEXT_AT);
    PutGet(m, o + k, x, o + PREVIOUS_AT);
    PutGet(m, o + k, x, o + SIZE_AT);
  }

  lemma SetFlag(m: seq<UInt8>, o: nat, free: bool)
    requires o + HEADER <= |m|
    ensures var m' := WithFlag(m, o, free); var h := HeaderAt(m, o);
      OnlyHeader(m, m', o) && HeaderAt(m', o) == Header(h.magic, h.next, h.previous, h.size, free)
  {
    var m' := m[o + FREE_AT := if free then 1 else 0];
    assert m'[o..o + 8] == m[o..o + 8];
    assert m'[o + 8..o + 16] == m[o + 8..o + 16];
    assert m'[o + 16..o + 24] == m[o + 16..o + 24];
    assert m'[o + 24..o + 32] == m[o + 24..o + 32];
  }

  // ---------- the linked list ----------

  /** The header that block `i` of the list must have. */
  ghost function Expected(b: seq<Block>, i: nat, magic: nat): Header
    requires i < |b|
  {
    Header(magic, if i + 1 < |b| then b[i + 1].addr else 0, if i > 0 then b[i - 1].addr else 0, b[i].size, b[i].free)
  }

  /** The memory from address `base` holds the blocks as a doubly linked list: next and previous are
      each other's inverse and follow the addresses. */
  ghost predicate Holds(m: seq<UInt8>, base: nat, magic: nat, b: seq<Block>) {
    && Sorted(b, base, base + |m|)
    && forall i :: 0 <= i < |b| ==> HeaderAt(m, b[i].addr - base) == Expected(b, i, magic)
  }

  lemma HoldsSorted(m: seq<UInt8>, base: nat, magic: nat, b: seq<Block>)
    requires Holds(m, base, magic, b)
    ensures Sorted(b, base, base + |m|)
  {
  }

  /** The headers of the first `i` blocks and of those from `k` on are as before. */
  ghost predicate OtherHeaders(m: seq<UInt8>, m': seq<UInt8>, base: nat, b: seq<Block>, i: nat, k: nat)
    requires Sorted(b, base, base + |m|) && |m'| == |m|
  {
    forall j :: 0 <= j < |b| && (j < i || j >= k) ==> HeaderAt(m', b[j].addr - base) == HeaderAt(m, b[j].addr - base)
  }

  lemma ExpectedBefore(b: seq<Block>, i: nat, mid: seq<Block>, k: nat, magic: nat, j: nat)
    requires i < k <= |b| && mid != [] && mid[0].addr == b[i].addr && j < i
    ensures var c := Replace(b, i, mid, k); c[j] == b[j] && Expected(c, j, magic) == Expected(b, j, magic)
  {
  }

  lemma ExpectedAfter(b: seq<Block>, i: nat, mid: seq<Block>, k: nat, magic: nat, j: nat)
    requires i < k <= |b| && mid != [] && k < j < |b|
    ensures var c := Replace(b, i, mid, k); var j' := j - k + i + |mid|;
      j' < |c| && c[j'] == b[j] && Expected(c, j', magic) == Expected(b, j, magic)
  {
    var c := Replace(b, i, mid, k);
    assert c[j - k + i + |mid|] == b[j] && c[j - 1 - k + i + |mid|] == b[j - 1];
    assert j + 1 < |b| ==> c[j + 1 - k + i + |mid|] == b[j + 1];
  }

  /** Blocks `i` to `k` were replaced by `mid`: the new headers and the back link of the block
      after them are all that had to change. */
  lemma HoldsReplaced(m: seq<UInt8>, m': seq<UInt8>, base: nat, magic: nat, b: seq<Block>, i: nat, mid: seq<Block>, k: nat)
    requires Holds(m, base, magic, b) && i < k <= |b| && mid != [] && mid[0].addr == b[i].addr && |m'| == |m|
    requires Sorted(Replace(b, i, mid, k), base, base + |m|)
    requires OtherHeaders(m, m', base, b, i, k + 1)
    requires var c := Replace(b, i, mid, k);
      forall j :: i <= j <= i + |mid| && j < |c| ==> HeaderAt(m', c[j].addr - base) == Expected(c, j, magic)
    ensures Holds(m', base, magic, Replace(b, i, mid, k))
  {
    hide HeaderAt, Expected, Replace;
    var c := Replace(b, i, mid, k);
    forall j | 0 <= j < |c| ensures HeaderAt(m', c[j].addr - base) == Expected(c, j, magic) {
      if j < i {
        ExpectedBefore(b, i, mid, k, magic, j);
      } else if j > i + |mid| {
        ReplaceLength(b, i, mid, k);
        ExpectedAfter(b, i, mid, k, magic, j - i - |mid| + k);
      }
    }
  }

  lemma ReplaceLength(b: seq<Block>, i: nat, mid: seq<Block>, k: nat)
    requires i <= k <= |b|
    ensures |Replace(b, i, mid, k)| == |b| - (k - i) + |mid|
  {
  }

  // ---------- payloads ----------

  /** The payload bytes of block `x`. */
  function PayloadOf(m: seq<UInt8>, base: nat, x: Block): (p: seq<UInt8>)
    requires base <= x.addr && x.End() <= base + |m|
    ensures |p| == x.size
  {
    m[x.Payload() - base..x.End() - base]
  }

  /** The live blocks of `b` have the same bytes in both memories. */
  ghost predicate LiveKept(m: seq<UInt8>, m': seq<UInt8>, base: nat, b: seq<Block>) {
    |m| <= |m'| && forall j :: 0 <= j < |b| && !b[j].free ==> PayloadKept(m, m', base, b[j])
  }

  ghost predicate PayloadKept(m: seq<UInt8>, m': seq<UInt8>, base: nat, x: Block)
    requires |m| <= |m'|
  {
    base <= x.addr && x.End() <= base + |m| ==> PayloadOf(m', base, x) == PayloadOf(m, base, x)
  }

  lemma LiveKeptTwice(m: seq<UInt8>, m': seq<UInt8>, m'': seq<UInt8>, base: nat, b: seq<Block>)
    requires LiveKept(m, m', base, b) && LiveKept(m', m'', base, b)
    ensures LiveKept(m, m'', base, b)
  {
    hide PayloadOf;
    forall j | 0 <= j < |b| && !b[j].free ensures PayloadKept(m, m'', base, b[j]) {
      assert PayloadKept(m, m', base, b[j]) && PayloadKept(m', m'', base, b[j]);
    }
  }

  lemma OnlyHeaderKeepsPayload(m: seq<UInt8>, m': seq<UInt8>, base: nat, q: nat, x: Block)
    requires base <= q && OnlyHeader(m, m', q - base) && base <= x.addr && x.End() <= base + |m|
    requires q + HEADER <= x.Payload() || x.End() <= q
    ensures PayloadOf(m', base, x) == PayloadOf(m, base, x)
  {
  }

  /** Writes to a header of the list change no live payload. */
  lemma HeaderWriteKeepsLive(m: seq<UInt8>, m': seq<UInt8>, base: nat, b: seq<Block>, i: nat)
    requires i < |b| && Sorted(b, base, base + |m|) && OnlyHeader(m, m', b[i].addr - base)
    ensures LiveKept(m, m', base, b)
  {
    hide PayloadOf, OnlyHeader;
    SameLength(m, m', b[i].addr - base);
    forall j | 0 <= j < |b| && !b[j].free ensures PayloadKept(m, m', base, b[j]) {
      OnlyHeaderKeepsPayload(m, m', base, b[i].addr, b[j]);
    }
  }

  lemma SameLength(m: seq<UInt8>, m': seq<UInt8>, o: nat)
    requires OnlyHeader(m, m', o)
    ensures |m'| == |m|
  {
  }

  /** Nor do writes inside a free payload. */
  lemma InsideWriteKeepsLive(m: seq<UInt8>, m': seq<UInt8>, base: nat, b: seq<Block>, i: nat, q: nat)
    requires i < |b| && b[i].free && Sorted(b, base, base + |m|) && base <= q && OnlyHeader(m, m', q - base)
    requires b[i].Payload() <= q && q + HEADER <= b[i].End()
    ensures LiveKept(m, m', base, b)
  {
    hide PayloadOf, OnlyHeader;
    SameLength(m, m', q - base);
    forall j | 0 <= j < |b| && !b[j].free ensures PayloadKept(m, m', base, b[j]) {
      OnlyHeaderKeepsPayload(m, m', base, q, b[j]);
    }
  }
}
