/** The HOT! executable format and its writer, elf2hot. */
module HotFormat {
  import opened Bits
  import opened Common

  const HOT_MAGIC: nat := 0x21544F48
  const HEADER_SIZE: nat := 32
  const SEGMENT_SIZE: nat := 40

  /** A program header as the ELF parser hands it over. */
  datatype ProgramHeader = ProgramHeader(load: bool, executable: bool, offset: nat, vaddr: nat, filesz: nat, memsz: nat)

  datatype Elf = Elf(entry: nat, headers: seq<ProgramHeader>, bytes: seq<UInt8>)

  datatype Segment = Segment(kind: nat, vaddr: nat, offset: nat, filesz: nat, memsz: nat)

  /** All the numbers are 64-bit fields of the file. */
  ghost predicate IsElf(elf: Elf) {
    && elf.entry < WORD_LIMIT && |elf.headers| < 0x1_0000
    && forall h <- elf.headers :: h.offset < WORD_LIMIT && h.vaddr < WORD_LIMIT && h.filesz < WORD_LIMIT && h.memsz < WORD_LIMIT
  }

  function Loads(hs: seq<ProgramHeader>): (r: seq<ProgramHeader>)
    ensures |r| <= |hs|
    ensures forall h :: h in r <==> h in hs && h.load
  {
    if hs == [] then [] else (if hs[0].load then [hs[0]] else []) + Loads(hs[1..])
  }

  /** The indices of the PT_LOAD headers, in file order: `f` increases and reaches these and no others. */
  ghost predicate Picks(hs: seq<ProgramHeader>, f: seq<nat>) {
    && (forall i, j :: 0 <= i < j < |f| ==> f[i] < f[j])
    && (forall i :: 0 <= i < |f| ==> f[i] < |hs| && hs[f[i]].load)
    && forall k: nat :: k < |hs| && hs[k].load ==> k in f
  }

  function Picked(hs: seq<ProgramHeader>): (f: seq<nat>)
    ensures Picks(hs, f)
    decreases |hs|
  {
    if hs == [] then []
    else
      var n := |hs| - 1;
      var f := Picked(hs[..n]);
      assert forall k: nat :: k < |hs| && hs[k].load ==> (k < n && hs[..n][k].load) || k == n;
      if hs[n].load then f + [n] else f
  }

  /** The headers kept by the filter are those at these indices. */
  lemma {:induction false} LoadsArePicked(hs: seq<ProgramHeader>)
    ensures |Loads(hs)| == |Picked(hs)|
    ensures forall i :: 0 <= i < |Loads(hs)| ==> Loads(hs)[i] == hs[Picked(hs)[i]]
    decreases |hs|
  {
    hide Loads, Picks;
    if hs != [] {
      var n := |hs| - 1;
      var f, l := Picked(hs[..n]), Loads(hs[..n]);
      LoadsArePicked(hs[..n]);
      LoadsSnoc(hs[..n], hs[n]);
      assert hs == hs[..n] + [hs[n]];
      assert Picked(hs) == (if hs[n].load then f + [n] else f) && Loads(hs) == l + (if hs[n].load then [hs[n]] else []);
      hide Picked;
      forall i | 0 <= i < |Loads(hs)| ensures Picked(hs)[i] < |hs| && Loads(hs)[i] == hs[Picked(hs)[i]] {
        if i < |f| {
          PicksBelow(hs[..n], f, i);
        }
      }
    }
  }

  lemma PicksBelow(hs: seq<ProgramHeader>, f: seq<nat>, i: nat)
    requires Picks(hs, f) && i < |f|
    ensures f[i] < |hs|
  {
  }

  lemma {:induction false} LoadsSnoc(hs: seq<ProgramHeader>, h: ProgramHeader)
    ensures Loads(hs + [h]) == Loads(hs) + (if h.load then [h] else [])
  {
    if hs == [] {
      assert [h][1..] == [] && hs + [h] == [h];
    } else {
      assert (hs + [h])[1..] == hs[1..] + [h];
      LoadsSnoc(hs[1..], h);
    }
  }

  /** The file bytes of the segment are inside the ELF file; otherwise the slice panics. */
  predicate InFile(elf: Elf, h: ProgramHeader) {
    h.offset + h.filesz <= |elf.bytes|
  }

  function DataOf(elf: Elf, h: ProgramHeader): (d: seq<UInt8>)
    requires InFile(elf, h)
    ensures |d| == h.filesz
  {
    elf.bytes[h.offset..h.offset + h.filesz]
  }

  function HeaderBytes(entry: nat, count: nat): (s: seq<UInt8>)
    ensures |s| == HEADER_SIZE
  {
    ToLe(HOT_MAGIC, 4) + [1] + [0, 0, 0] + ToLe(entry, 8) + ToLe(count, 8) + ToLe(0, 8)
  }

  function SegmentBytes(g: Segment): (s: seq<UInt8>)
    ensures |s| == SEGMENT_SIZE
  {
    ToLe(g.kind, 8) + ToLe(g.vaddr, 8) + ToLe(g.offset, 8) + ToLe(g.filesz, 8) + ToLe(g.memsz, 8)
  }

  // ---------- reading ----------

  function Magic(data: seq<UInt8>): nat
    requires |data| >= HEADER_SIZE
  {
    Le(data[0..4])
  }

  function EntryPoint(data: seq<UInt8>): nat
    requires |data| >= HEADER_SIZE
  {
    Get64(data, 8)
  }

  function SegmentCount(data: seq<UInt8>): nat
    requires |data| >= HEADER_SIZE
  {
    Get64(data, 16)
  }

  function SegmentAt(data: seq<UInt8>, i: nat): Segment
    requires HEADER_SIZE + (i + 1) * SEGMENT_SIZE <= |data|
  {
    var o := HEADER_SIZE + i * SEGMENT_SIZE;
    Segment(Get64(data, o), Get64(data, o + 8), Get64(data, o + 16), Get64(data, o + 24), Get64(data, o + 32))
  }

  lemma Get64Slice(data: seq<UInt8>, i: nat, x: nat)
    requires i + 8 <= |data| && x < WORD_LIMIT && data[i..i + 8] == ToLe(x, 8)
    ensures Get64(data, i) == x
  {
    PowerOf8();
    LeRoundTrip(x, 8);
  }

  lemma HeaderReads(data: seq<UInt8>, entry: nat, count: nat)
    requires |data| >= HEADER_SIZE && data[..HEADER_SIZE] == HeaderBytes(entry, count)
    requires entry < WORD_LIMIT && count < WORD_LIMIT
    ensures Magic(data) == HOT_MAGIC && EntryPoint(data) == entry && SegmentCount(data) == count
  {
    hide ToLe, Le, Get64;
    var h := HeaderBytes(entry, count);
    assert data[0..4] == h[0..4] == ToLe(HOT_MAGIC, 4);
    assert data[8..16] == h[8..16] == ToLe(entry, 8);
    assert data[16..24] == h[16..24] == ToLe(count, 8);
    PowerOf8();
    LeRoundTrip(HOT_MAGIC, 4);
    Get64Slice(data, 8, entry);
    Get64Slice(data, 16, count);
  }

  ghost predicate IsSegment(g: Segment) {
    g.kind < WORD_LIMIT && g.vaddr < WORD_LIMIT && g.offset < WORD_LIMIT && g.filesz < WORD_LIMIT && g.memsz < WORD_LIMIT
  }

  lemma SegmentReads(data: seq<UInt8>, i: nat, g: Segment)
    requires HEADER_SIZE + (i + 1) * SEGMENT_SIZE <= |data| && IsSegment(g)
    requires data[HEADER_SIZE + i * SEGMENT_SIZE..][..SEGMENT_SIZE] == SegmentBytes(g)
    ensures SegmentAt(data, i) == g
  {
    hide ToLe, Le, Get64;
    var o := HEADER_SIZE + i * SEGMENT_SIZE;
    var s := SegmentBytes(g);
    assert s == data[o..o + SEGMENT_SIZE];
    FieldReads(data, o, s, 0, g.kind);
    FieldReads(data, o, s, 8, g.vaddr);
    FieldReads(data, o, s, 16, g.offset);
    FieldReads(data, o, s, 24, g.filesz);
    assert s[32..40] == ToLe(g.memsz, 8);
    FieldReads(data, o, s, 32, g.memsz);
  }

  lemma FieldReads(data: seq<UInt8>, o: nat, s: seq<UInt8>, k: nat, x: nat)
    requires o + |s| <= |data| && s == data[o..o + |s|] && k + 8 <= |s| && s[k..k + 8] == ToLe(x, 8) && x < WORD_LIMIT
    ensures Get64(data, o + k) == x
  {
    hide Get64, ToLe, Le;
    var field := data[o + k..o + k + 8];
    forall i | 0 <= i < 8 ensures field[i] == s[k..k + 8][i] {
      assert field[i] == data[o + (k + i)] && s[k + i] == data[o..o + |s|][k + i];
    }
    assert field == s[k..k + 8];
    Get64Slice(data, o + k, x);
  }

  /** Where the fields are in the file, which starts with the letters HOT!, and that its words are
      little-endian. */
  lemma FileLayout(data: seq<UInt8>, i: nat)
    requires |data| >= 32 + 40 * (i + 1)
    ensures Magic(data) == HOT_MAGIC <==> data[0..4] == ['H' as UInt8, 'O' as UInt8, 'T' as UInt8, '!' as UInt8]
    ensures EntryPoint(data) == Le(data[8..16]) && SegmentCount(data) == Le(data[16..24])
    ensures var o, g := 32 + 40 * i, SegmentAt(data, i);
      && g.kind == Le(data[o..o + 8]) && g.vaddr == Le(data[o + 8..o + 16]) && g.offset == Le(data[o + 16..o + 24])
      && g.filesz == Le(data[o + 24..o + 32]) && g.memsz == Le(data[o + 32..o + 40])
  {
    FourBytes(data[0..4]);
  }

  lemma FourBytes(s: seq<UInt8>)
    requires |s| == 4
    ensures var a: int, b: int, c: int, d: int := s[0], s[1], s[2], s[3];
      Le(s) == a + 0x100 * b + 0x1_0000 * c + 0x100_0000 * d
  {
    assert s[1..][1..] == s[2..] && s[2..][1..] == s[3..] && s[3..][1..] == [];
    assert Le(s[3..]) == s[3];
    assert Le(s[2..]) == s[2] as int + 256 * Le(s[3..]);
    assert Le(s[1..]) == s[1] as int + 256 * Le(s[2..]);
  }

  // ---------- the writer ----------

  /** The segment `g` at its offset in the file holds the bytes of `h`. */
  ghost predicate Carries(data: seq<UInt8>, g: Segment, elf: Elf, h: ProgramHeader) {
    && g.vaddr == h.vaddr && g.filesz == h.filesz && g.memsz == h.memsz
    && g.kind == (if h.executable then 1 else 2)
    && g.offset + g.filesz <= |data|
    && InFile(elf, h) && data[g.offset..g.offset + g.filesz] == DataOf(elf, h)
  }

  /** `data` is the HOT! file of `elf`: same entry, and one segment for each PT_LOAD header, in file order,
      carrying its bytes; `f` are the indices of these headers. */
  ghost predicate HotBy(data: seq<UInt8>, elf: Elf, f: seq<nat>) {
    && Picks(elf.headers, f)
    && |data| >= HEADER_SIZE + |f| * SEGMENT_SIZE
    && Magic(data) == HOT_MAGIC && EntryPoint(data) == elf.entry && SegmentCount(data) == |f|
    && forall i :: 0 <= i < |f| ==> Carries(data, SegmentAt(data, i), elf, elf.headers[f[i]])
  }

  ghost predicate HotOf(data: seq<UInt8>, elf: Elf) {
    exists f :: HotBy(data, elf, f)
  }

  function SegmentOf(h: ProgramHeader, offset: nat): Segment {
    Segment(if h.executable then 1 else 2, h.vaddr, offset, h.filesz, h.memsz)
  }

  function Concat(parts: seq<seq<UInt8>>): seq<UInt8> {
    if parts == [] then [] else Concat(parts[..|parts| - 1]) + parts[|parts| - 1]
  }

  lemma {:induction false} PartOfConcat(parts: seq<seq<UInt8>>, i: nat)
    requires i < |parts|
    ensures |Concat(parts[..i])| + |parts[i]| <= |Concat(parts)|
    ensures Concat(parts)[|Concat(parts[..i])|..|Concat(parts[..i])| + |parts[i]|] == parts[i]
    decreases |parts|
  {
    var n := |parts| - 1;
    if i < n {
      var front := parts[..n];
      assert front[..i] == parts[..i];
      PartOfConcat(front, i);
    }
  }

  lemma {:induction false} PartOfSegments(gs: seq<Segment>, i: nat)
    requires i < |gs|
    ensures |AllSegmentBytes(gs)| == |gs| * SEGMENT_SIZE
    ensures AllSegmentBytes(gs)[i * SEGMENT_SIZE..][..SEGMENT_SIZE] == SegmentBytes(gs[i])
    decreases |gs|
  {
    hide SegmentBytes;
    var n := |gs| - 1;
    if i < n {
      PartOfSegments(gs[..n], i);
      assert AllSegmentBytes(gs)[i * SEGMENT_SIZE..][..SEGMENT_SIZE] == AllSegmentBytes(gs[..n])[i * SEGMENT_SIZE..][..SEGMENT_SIZE];
    } else if n > 0 {
      PartOfSegments(gs[..n], 0);
    }
  }

  function AllSegmentBytes(gs: seq<Segment>): seq<UInt8> {
    if gs == [] then [] else AllSegmentBytes(gs[..|gs| - 1]) + SegmentBytes(gs[|gs| - 1])
  }

  /** The segment table and the data blocks that the writer collects for the first headers. */
  ghost predicate LaidOut(elf: Elf, segments: seq<Segment>, parts: seq<seq<UInt8>>, base: nat) {
    var loads := Loads(elf.headers);
    && |segments| == |parts| <= |loads|
    && (forall k :: 0 <= k < |parts| ==> InFile(elf, loads[k]) && parts[k] == DataOf(elf, loads[k]))
    && forall k :: 0 <= k < |parts| ==> segments[k] == SegmentOf(loads[k], base + |Concat(parts[..k])|)
  }

  lemma ConcatSnoc(parts: seq<seq<UInt8>>, d: seq<UInt8>)
    ensures Concat(parts + [d]) == Concat(parts) + d
  {
    assert (parts + [d])[..|parts|] == parts;
  }

  lemma LayOutNext(elf: Elf, segments: seq<Segment>, parts: seq<seq<UInt8>>, base: nat)
    requires LaidOut(elf, segments, parts, base) && |parts| < |Loads(elf.headers)|
    requires InFile(elf, Loads(elf.headers)[|parts|])
    ensures var h := Loads(elf.headers)[|parts|];
      && LaidOut(elf, segments + [SegmentOf(h, base + |Concat(parts)|)], parts + [DataOf(elf, h)], base)
      && |Concat(parts + [DataOf(elf, h)])| == |Concat(parts)| + h.filesz
  {
    hide Concat, DataOf, InFile;
    hide Loads;
    var loads := Loads(elf.headers);
    var h := loads[|parts|];
    var more := parts + [DataOf(elf, h)];
    var table := segments + [SegmentOf(h, base + |Concat(parts)|)];
    ConcatSnoc(parts, DataOf(elf, h));
    forall k | 0 <= k < |more|
      ensures table[k] == SegmentOf(loads[k], base + |Concat(more[..k])|)
    {
      assert more[..k] == parts[..k];
      assert k == |parts| ==> parts[..k] == parts;
    }
  }

  lemma {:induction false} ConcatBound(parts: seq<seq<UInt8>>, limit: nat)
    requires forall k :: 0 <= k < |parts| ==> |parts[k]| <= limit
    ensures |Concat(parts)| <= |parts| * limit
    decreases |parts|
  {
    if parts != [] {
      ConcatBound(parts[..|parts| - 1], limit);
      assert |parts| * limit == (|parts| - 1) * limit + limit;
    }
  }

  /** A file of 64-bit size: its offsets fit their fields. */
  ghost predicate Sized(elf: Elf) {
    IsElf(elf) && |elf.bytes| < 0x1000_0000_0000
  }

  lemma OffsetsFit(elf: Elf, segments: seq<Segment>, parts: seq<seq<UInt8>>, base: nat, i: nat)
    requires Sized(elf) && LaidOut(elf, segments, parts, base) && base < 0x1_0000_0000 && i < |parts|
    ensures IsSegment(segments[i])
  {
    hide Concat, Loads;
    var loads := Loads(elf.headers);
    assert loads[i] in loads;
    ConcatBound(parts[..i], 0x1000_0000_0000);
    assert |parts[..i]| * 0x1000_0000_0000 <= 0x1_0000 * 0x1000_0000_0000;
  }

  /** Header, table and data written one after the other make the HOT! file. */
  lemma Assembled(elf: Elf, segments: seq<Segment>, parts: seq<seq<UInt8>>)
    requires Sized(elf) && |parts| == |Loads(elf.headers)|
    requires LaidOut(elf, segments, parts, HEADER_SIZE + |parts| * SEGMENT_SIZE)
    ensures HotOf(HeaderBytes(elf.entry, |parts|) + AllSegmentBytes(segments) + Concat(parts), elf)
  {
    hide HeaderBytes, SegmentBytes, AllSegmentBytes, Concat;
    hide Magic, EntryPoint, SegmentCount, SegmentAt;
    var head := HeaderBytes(elf.entry, |parts|);
    var table := AllSegmentBytes(segments);
    var data := head + table + Concat(parts);
    if |parts| > 0 {
      PartOfSegments(segments, 0);
    } else {
      NoSegments();
    }
    assert data[..HEADER_SIZE] == head;
    HeaderReads(data, elf.entry, |parts|);
    LoadsArePicked(elf.headers);
    var f := Picked(elf.headers);
    forall i | 0 <= i < |parts| ensures Carries(data, SegmentAt(data, i), elf, elf.headers[f[i]]) {
      AssembledSegment(elf, segments, parts, data, i);
    }
    assert HotBy(data, elf, f);
  }

  lemma NoSegments()
    ensures AllSegmentBytes([]) == []
  {
  }

  lemma SliceOf<T>(a: seq<T>, b: seq<T>, c: seq<T>, i: nat, n: nat)
    requires i + n <= |b|
    ensures (a + b + c)[|a| + i..][..n] == b[i..][..n]
    ensures (a + b + c)[|a| + i..|a| + i + n] == b[i..i + n]
  {
  }

  lemma AssembledSegment(elf: Elf, segments: seq<Segment>, parts: seq<seq<UInt8>>, data: seq<UInt8>, i: nat)
    requires Sized(elf) && |parts| == |Loads(elf.headers)| && i < |parts|
    requires LaidOut(elf, segments, parts, HEADER_SIZE + |parts| * SEGMENT_SIZE)
    requires data == HeaderBytes(elf.entry, |parts|) + AllSegmentBytes(segments) + Concat(parts)
    ensures HEADER_SIZE + (i + 1) * SEGMENT_SIZE <= |data| && Carries(data, SegmentAt(data, i), elf, Loads(elf.headers)[i])
  {
    hide HeaderBytes, SegmentBytes, AllSegmentBytes, Concat;
    hide SegmentAt, IsSegment;
    PartOfSegments(segments, i);
    PartOfConcat(parts, i);
    OffsetsFit(elf, segments, parts, HEADER_SIZE + |parts| * SEGMENT_SIZE, i);
    var o := HEADER_SIZE + i * SEGMENT_SIZE;
    var head, table, blocks := HeaderBytes(elf.entry, |parts|), AllSegmentBytes(segments), Concat(parts);
    SliceOf(head, table, blocks, i * SEGMENT_SIZE, SEGMENT_SIZE);
    SegmentReads(data, i, segments[i]);
    var g, at := segments[i], |Concat(parts[..i])|;
    SliceOf(head + table, blocks, [], at, |parts[i]|);
    assert data + [] == data;
  }

  /** elf2hot: None when a segment's file bytes are outside the ELF file. */
  method Convert(elf: Elf) returns (out: Option<seq<UInt8>>)
    requires Sized(elf)
    ensures out.None? <==> exists h :: h in elf.headers && h.load && !InFile(elf, h)
    ensures out.Some? ==> HotOf(out.value, elf)
  {
    hide Concat, HeaderBytes, SegmentBytes;
    hide HotOf, AllSegmentBytes, LaidOut, DataOf, SegmentOf, InFile;
    var loads := Loads(elf.headers);
    var segments: seq<Segment> := [];
    var parts: seq<seq<UInt8>> := [];
    var offset := HEADER_SIZE + |loads| * SEGMENT_SIZE;
    NothingLaidOut(elf, HEADER_SIZE + |loads| * SEGMENT_SIZE);
    for i := 0 to |loads|
      invariant |parts| == i && LaidOut(elf, segments, parts, HEADER_SIZE + |loads| * SEGMENT_SIZE)
      invariant offset == HEADER_SIZE + |loads| * SEGMENT_SIZE + |Concat(parts)|
    {
      var h := loads[i];
      if !InFile(elf, h) {
        assert h in loads;
        return None;
      }
      LayOutNext(elf, segments, parts, HEADER_SIZE + |loads| * SEGMENT_SIZE);
      segments := segments + [SegmentOf(h, offset)];
      parts := parts + [DataOf(elf, h)];
      offset := offset + h.filesz;
    }
    AllInFile(elf, segments, parts);
    Assembled(elf, segments, parts);
    var file := WriteAll(HeaderBytes(elf.entry, |segments|), segments, parts);
    return Some(file);
  }

  lemma AllInFile(elf: Elf, segments: seq<Segment>, parts: seq<seq<UInt8>>)
    requires |parts| == |Loads(elf.headers)| && LaidOut(elf, segments, parts, HEADER_SIZE + |parts| * SEGMENT_SIZE)
    ensures |segments| == |parts|
    ensures forall h :: h in elf.headers && h.load ==> InFile(elf, h)
  {
    forall h | h in elf.headers && h.load ensures InFile(elf, h) {
      assert h in Loads(elf.headers);
    }
  }

  lemma NothingLaidOut(elf: Elf, base: nat)
    ensures Concat([]) == [] && LaidOut(elf, [], [], base)
  {
  }

  /** The sequential writes of the output file. */
  method WriteAll(header: seq<UInt8>, segments: seq<Segment>, parts: seq<seq<UInt8>>) returns (file: seq<UInt8>)
    ensures file == header + AllSegmentBytes(segments) + Concat(parts)
  {
    file := header;
    for i := 0 to |segments|
      invariant file == header + AllSegmentBytes(segments[..i])
    {
      assert segments[..i + 1][..i] == segments[..i];
      file := file + SegmentBytes(segments[i]);
    }
    assert segments[..|segments|] == segments;
    for i := 0 to |parts|
      invariant file == header + AllSegmentBytes(segments) + Concat(parts[..i])
    {
      assert parts[..i + 1][..i] == parts[..i];
      file := file + parts[i];
    }
    assert parts[..|parts|] == parts;
  }
}
