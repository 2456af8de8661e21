/** The newc ("New ASCII") cpio archive as bytes, and what the kernel's walk over it yields. */
module Archive {
  import opened Bits
  import opened Common

  const HEADER_LENGTH: nat := 110
  const INODE: nat := 6
  const MODE: nat := 14
  const FILE_LENGTH: nat := 54
  const NAME_LENGTH: nat := 94
  const NAME_LIMIT: nat := 255

  const MAGIC: seq<UInt8> := [0x30, 0x37, 0x30, 0x37, 0x30, 0x31]
  const TRAILER: seq<UInt8> := [0x54, 0x52, 0x41, 0x49, 0x4C, 0x45, 0x52, 0x21, 0x21, 0x21]

  datatype Entry = Entry(name: seq<UInt8>, inode: nat, mode: nat, data: seq<UInt8>)

  /** The file type, bits 12 to 15 of the mode, is that of a directory. */
  predicate IsDirectory(mode: nat) {
    mode / 0x1000 % 16 == 4
  }

  /** The kernel's test of the mode. */
  lemma DirectoryMask(mode: nat)
    ensures And(mode, 0xF000) == 0x4000 <==> IsDirectory(mode)
  {
    assert Power2(12) == 0x1000 && Power2(4) == 16;
    ShlTimes(15, 12);
    AndShift(mode, 15, 12);
    ShrDivides(mode, 12);
    AndLow(mode / 0x1000, 4);
    ShlTimes(mode / 0x1000 % 16, 12);
  }

  function Align4(x: nat): (r: nat)
    ensures x <= r < x + 4 && r % 4 == 0
  {
    (x + 3) / 4 * 4
  }

  // ---------- hexadecimal fields ----------

  predicate IsHex(c: UInt8) {
    0x30 <= c <= 0x39 || 0x41 <= c <= 0x46 || 0x61 <= c <= 0x66
  }

  /** The value of a digit of either case; anything else counts as zero. */
  function HexDigit(c: UInt8): (d: nat)
    ensures d < 16
  {
    if 0x30 <= c <= 0x39 then c - 0x30
    else if 0x41 <= c <= 0x46 then c - 0x41 + 10
    else if 0x61 <= c <= 0x66 then c - 0x61 + 10
    else 0
  }

  function HexValue(s: seq<UInt8>): nat {
    if s == [] then 0 else HexValue(s[..|s| - 1]) * 16 + HexDigit(s[|s| - 1])
  }

  method HexadecimalToInt(s: seq<UInt8>) returns (r: nat)
    ensures r == HexValue(s)
  {
    r := 0;
    for i := 0 to |s|
      invariant r == HexValue(s[..i])
    {
      assert s[..i + 1][..i] == s[..i];
      var c := s[i];
      r := r * 16;
      if 0x30 <= c <= 0x39 {
        r := r + (c - 0x30);
      } else if 0x41 <= c <= 0x46 {
        r := r + (c - 0x41 + 10);
      } else if 0x61 <= c <= 0x66 {
        r := r + (c - 0x61 + 10);
      }
    }
    assert s[..|s|] == s;
  }

  /** A digit with the letters from `a` on: 'A' or 'a'. */
  function HexChar(d: nat, a: UInt8): UInt8
    requires d < 16 && (a == 0x41 || a == 0x61)
  {
    if d < 10 then 0x30 + d else a + (d - 10)
  }

  function HexOf(x: nat, n: nat, a: UInt8): (s: seq<UInt8>)
    requires a == 0x41 || a == 0x61
    ensures |s| == n
  {
    if n == 0 then [] else HexOf(x / 16, n - 1, a) + [HexChar(x % 16, a)]
  }

  function Power16(n: nat): nat {
    if n == 0 then 1 else 16 * Power16(n - 1)
  }

  /** Digits written in capitals or in small letters read back. */
  lemma {:induction false} HexRoundTrip(x: nat, n: nat, a: UInt8)
    requires x < Power16(n) && (a == 0x41 || a == 0x61)
    ensures HexValue(HexOf(x, n, a)) == x
    ensures forall c :: c in HexOf(x, n, a) ==> IsHex(c)
  {
    if n > 0 {
      HexRoundTrip(x / 16, n - 1, a);
      var s := HexOf(x, n, a);
      assert s[..n - 1] == HexOf(x / 16, n - 1, a);
    }
  }

  /** A field of `n` characters is below 16^n, so the header's fields fit 32 bits. */
  lemma {:induction false} HexBound(s: seq<UInt8>)
    ensures HexValue(s) < Power16(|s|)
  {
    if s != [] {
      HexBound(s[..|s| - 1]);
    }
  }

  // ---------- the walk ----------

  /** The C string at `p`: up to a NUL or the end of the archive. */
  function CString(data: seq<UInt8>, p: nat): seq<UInt8>
    requires p <= |data|
    decreases |data| - p
  {
    if p == |data| || data[p] == 0 then [] else [data[p]] + CString(data, p + 1)
  }

  ghost predicate Terminated(data: seq<UInt8>, p: nat) {
    exists q :: p <= q < |data| && data[q] == 0
  }

  function Field(data: seq<UInt8>, o: nat): nat
    requires o + 8 <= |data|
  {
    HexValue(data[o..o + 8])
  }

  /** From the header to the file's bytes. */
  function DataOffset(data: seq<UInt8>, o: nat): nat
    requires o + HEADER_LENGTH <= |data|
  {
    Align4(HEADER_LENGTH + Field(data, o + NAME_LENGTH))
  }

  /** From the header to the next one. */
  function RecordLength(data: seq<UInt8>, o: nat): nat
    requires o + HEADER_LENGTH <= |data|
  {
    DataOffset(data, o) + Align4(Field(data, o + FILE_LENGTH))
  }

  /** What the walk reads from offset `o` on lies inside the archive. */
  ghost predicate Inside(data: seq<UInt8>, o: nat)
    decreases |data| - o
  {
    o >= |data| || (
      && o + HEADER_LENGTH <= |data|
      && (data[o..o + 6] == MAGIC ==>
        && Terminated(data, o + HEADER_LENGTH)
        && (CString(data, o + HEADER_LENGTH) != TRAILER ==>
          && o + DataOffset(data, o) + Field(data, o + FILE_LENGTH) <= |data|
          && Inside(data, o + RecordLength(data, o)))))
  }

  function Clip(s: seq<UInt8>, n: nat): seq<UInt8> {
    if |s| <= n then s else s[..n]
  }

  function EntryAt(data: seq<UInt8>, o: nat): Entry
    requires o + HEADER_LENGTH <= |data| && o + DataOffset(data, o) + Field(data, o + FILE_LENGTH) <= |data|
  {
    var at := o + DataOffset(data, o);
    Entry(Clip(CString(data, o + HEADER_LENGTH), NAME_LIMIT), Field(data, o + INODE), Field(data, o + MODE),
          data[at..at + Field(data, o + FILE_LENGTH)])
  }

  /** The entries from offset `o` on; None is the panic over a bad magic. */
  ghost function Parse(data: seq<UInt8>, o: nat): Option<seq<Entry>>
    requires Inside(data, o)
    decreases |data| - o
  {
    if o >= |data| then Some([])
    else if data[o..o + 6] != MAGIC then None
    else if CString(data, o + HEADER_LENGTH) == TRAILER then Some([])
    else
      match Parse(data, o + RecordLength(data, o))
      case None => None
      case Some(rest) => Some([EntryAt(data, o)] + rest)
  }

  // ---------- the format ----------

  ghost predicate HexField(b: seq<UInt8>, k: nat, x: nat) {
    k + 8 <= |b| && HexValue(b[k..k + 8]) == x
  }

  /** `b` is a newc record of `e`: its other fields, the case of its digits and its padding are free. */
  ghost predicate IsRecord(b: seq<UInt8>, e: Entry) {
    var named, at := HEADER_LENGTH + |e.name| + 1, Align4(HEADER_LENGTH + |e.name| + 1);
    && |b| == at + Align4(|e.data|)
    && b[..6] == MAGIC
    && HexField(b, INODE, e.inode) && HexField(b, MODE, e.mode)
    && HexField(b, FILE_LENGTH, |e.data|) && HexField(b, NAME_LENGTH, |e.name| + 1)
    && b[HEADER_LENGTH..named] == e.name + [0]
    && b[at..at + |e.data|] == e.data
  }

  ghost predicate IsTrailer(b: seq<UInt8>) {
    && |b| >= HEADER_LENGTH + |TRAILER| + 1 && b[..6] == MAGIC
    && b[HEADER_LENGTH..HEADER_LENGTH + |TRAILER| + 1] == TRAILER + [0]
  }

  /** A name that the kernel can keep whole. */
  ghost predicate IsName(name: seq<UInt8>) {
    |name| <= 255 && 0 !in name && name != TRAILER
  }

  function Flatten(parts: seq<seq<UInt8>>): seq<UInt8> {
    if parts == [] then [] else parts[0] + Flatten(parts[1..])
  }

  lemma {:induction false} CStringIs(data: seq<UInt8>, p: nat, s: seq<UInt8>)
    requires p + |s| < |data| && data[p..p + |s|] == s && 0 !in s && data[p + |s|] == 0
    ensures CString(data, p) == s
    decreases |s|
  {
    if s != [] {
      assert data[p] == data[p..p + |s|][0] == s[0];
      assert data[p + 1..p + 1 + |s[1..]|] == data[p..p + |s|][1..];
      CStringIs(data, p + 1, s[1..]);
    }
  }

  /** A slice of a record is the same slice of the archive that holds it. */
  lemma RecordSlice(pre: seq<UInt8>, b: seq<UInt8>, post: seq<UInt8>, i: nat, j: nat)
    requires i <= j <= |b|
    ensures (pre + b + post)[|pre| + i..|pre| + j] == b[i..j]
  {
  }

  /** The walk reads a record of `e` as `e`, and goes on behind it. */
  lemma RecordIsRead(pre: seq<UInt8>, b: seq<UInt8>, post: seq<UInt8>, e: Entry)
    requires IsRecord(b, e) && IsName(e.name)
    ensures var data, o := pre + b + post, |pre|;
      && o + HEADER_LENGTH <= |data| && data[o..o + 6] == MAGIC
      && Terminated(data, o + HEADER_LENGTH) && CString(data, o + HEADER_LENGTH) == e.name
      && DataOffset(data, o) == Align4(HEADER_LENGTH + |e.name| + 1)
      && Field(data, o + FILE_LENGTH) == |e.data| && RecordLength(data, o) == |b|
      && o + DataOffset(data, o) + |e.data| <= |data| && EntryAt(data, o) == e
    ensures e.name != TRAILER
  {
    hide HexValue, Align4, CString;
    var data, o := pre + b + post, |pre|;
    var at := Align4(HEADER_LENGTH + |e.name| + 1);
    RecordSlice(pre, b, post, 0, 6);
    RecordSlice(pre, b, post, INODE, INODE + 8);
    RecordSlice(pre, b, post, MODE, MODE + 8);
    RecordSlice(pre, b, post, FILE_LENGTH, FILE_LENGTH + 8);
    RecordSlice(pre, b, post, NAME_LENGTH, NAME_LENGTH + 8);
    RecordSlice(pre, b, post, at, at + |e.data|);
    NameIsRead(pre, b, post, e.name);
  }

  lemma NameIsRead(pre: seq<UInt8>, b: seq<UInt8>, post: seq<UInt8>, name: seq<UInt8>)
    requires HEADER_LENGTH + |name| + 1 <= |b| && b[HEADER_LENGTH..HEADER_LENGTH + |name| + 1] == name + [0] && 0 !in name
    ensures Terminated(pre + b + post, |pre| + HEADER_LENGTH)
    ensures CString(pre + b + post, |pre| + HEADER_LENGTH) == name
  {
    hide CString;
    var data, p := pre + b + post, |pre| + HEADER_LENGTH;
    RecordSlice(pre, b, post, HEADER_LENGTH, HEADER_LENGTH + |name| + 1);
    var s := data[p..p + |name| + 1];
    assert s == name + [0];
    assert data[p + |name|] == s[|name|] == 0;
    assert data[p..p + |name|] == s[..|name|] == name;
    CStringIs(data, p, name);
  }

  lemma WalkStep(data: seq<UInt8>, o: nat)
    requires o + HEADER_LENGTH <= |data| && data[o..o + 6] == MAGIC
    requires Terminated(data, o + HEADER_LENGTH) && CString(data, o + HEADER_LENGTH) != TRAILER
    requires o + DataOffset(data, o) + Field(data, o + FILE_LENGTH) <= |data|
    requires Inside(data, o + RecordLength(data, o)) && Parse(data, o + RecordLength(data, o)).Some?
    ensures Inside(data, o) && Parse(data, o) == Some([EntryAt(data, o)] + Parse(data, o + RecordLength(data, o)).value)
  {
    hide EntryAt, CString, RecordLength, DataOffset, Field;
  }

  lemma Regroup(pre: seq<UInt8>, first: seq<UInt8>, rest: seq<UInt8>, tail: seq<UInt8>)
    ensures pre + (first + rest) + tail == pre + first + (rest + tail)
    ensures pre + (first + rest) + tail == (pre + first) + rest + tail
  {
  }

  /** Any archive of records followed by a trailer, or by nothing, is read as its entries, in order. */
  lemma {:induction false} ArchiveIsRead(pre: seq<UInt8>, parts: seq<seq<UInt8>>, es: seq<Entry>, tail: seq<UInt8>)
    requires |parts| == |es| && forall i :: 0 <= i < |es| ==> IsRecord(parts[i], es[i]) && IsName(es[i].name)
    requires tail == [] || IsTrailer(tail)
    ensures var data := pre + Flatten(parts) + tail; Inside(data, |pre|) && Parse(data, |pre|) == Some(es)
    decreases |parts|
  {
    hide IsRecord, IsName, EntryAt, CString, RecordLength, DataOffset, Field, Align4, Inside, Parse;
    var data := pre + Flatten(parts) + tail;
    if parts == [] {
      assert data == pre + tail + [];
      EndIsRead(pre, tail);
    } else {
      var rest := Flatten(parts[1..]);
      Regroup(pre, parts[0], rest, tail);
      RecordIsRead(pre, parts[0], rest + tail, es[0]);
      ArchiveIsRead(pre + parts[0], parts[1..], es[1..], tail);
      assert |pre| + RecordLength(data, |pre|) == |pre + parts[0]|;
      WalkStep(data, |pre|);
      assert es == [es[0]] + es[1..];
    }
  }

  lemma EndIsRead(pre: seq<UInt8>, tail: seq<UInt8>)
    requires tail == [] || IsTrailer(tail)
    ensures var data := pre + tail + []; Inside(data, |pre|) && Parse(data, |pre|) == Some([])
  {
    hide CString, RecordLength, DataOffset, Field;
    if tail != [] {
      TrailerIsRead(pre, tail);
    }
  }

  lemma TrailerIsRead(pre: seq<UInt8>, tail: seq<UInt8>)
    requires IsTrailer(tail)
    ensures var data, o := pre + tail + [], |pre|;
      && o + HEADER_LENGTH <= |data| && data[o..o + 6] == MAGIC
      && Terminated(data, o + HEADER_LENGTH) && CString(data, o + HEADER_LENGTH) == TRAILER
  {
    hide CString;
    RecordSlice(pre, tail, [], 0, 6);
    NameIsRead(pre, tail, [], TRAILER);
  }

  // ---------- a writer ----------

  function Padding(n: nat, c: UInt8): (s: seq<UInt8>)
    ensures |s| == n
  {
    if n == 0 then [] else [c] + Padding(n - 1, c)
  }

  /** A header for `e`, with zeros in the fields that the kernel does not read. */
  function Header(e: Entry, a: UInt8): (h: seq<UInt8>)
    requires a == 0x41 || a == 0x61
    ensures |h| == HEADER_LENGTH
  {
    MAGIC + HexOf(e.inode, 8, a) + HexOf(e.mode, 8, a) + Padding(32, 0x30) + HexOf(|e.data|, 8, a) + Padding(32, 0x30)
    + HexOf(|e.name| + 1, 8, a) + Padding(8, 0x30)
  }

  function Record(e: Entry, a: UInt8): seq<UInt8>
    requires a == 0x41 || a == 0x61
  {
    var named := HEADER_LENGTH + |e.name| + 1;
    Header(e, a) + (e.name + [0]) + Padding(Align4(named) - named, 0) + e.data + Padding(Align4(|e.data|) - |e.data|, 0)
  }

  /** Each entry whose numbers fit 32 bits has a record: the format covers all of them. */
  lemma RecordIsRecord(e: Entry, a: UInt8)
    requires a == 0x41 || a == 0x61
    requires e.inode < Power16(8) && e.mode < Power16(8) && |e.data| < Power16(8) && |e.name| + 1 < Power16(8)
    ensures IsRecord(Record(e, a), e)
  {
    hide HexOf, HexValue, Padding, Align4, Power16;
    var b, h := Record(e, a), Header(e, a);
    var named := HEADER_LENGTH + |e.name| + 1;
    HexRoundTrip(e.inode, 8, a);
    HexRoundTrip(e.mode, 8, a);
    HexRoundTrip(|e.data|, 8, a);
    HexRoundTrip(|e.name| + 1, 8, a);
    assert b[..HEADER_LENGTH] == h;
    assert b[..6] == h[..6] == MAGIC;
    assert b[INODE..INODE + 8] == h[INODE..INODE + 8] == HexOf(e.inode, 8, a);
    assert b[MODE..MODE + 8] == h[MODE..MODE + 8] == HexOf(e.mode, 8, a);
    assert b[FILE_LENGTH..FILE_LENGTH + 8] == h[FILE_LENGTH..FILE_LENGTH + 8] == HexOf(|e.data|, 8, a);
    assert b[NAME_LENGTH..NAME_LENGTH + 8] == h[NAME_LENGTH..NAME_LENGTH + 8] == HexOf(|e.name| + 1, 8, a);
    assert b[HEADER_LENGTH..named] == e.name + [0];
    assert b[Align4(named)..Align4(named) + |e.data|] == e.data;
  }
}
