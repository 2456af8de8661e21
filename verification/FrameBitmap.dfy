/** The physical frame allocator: one bit a frame, set while the frame is in use. */
module FrameBitmap {
  import opened Bits
  import opened Common

  const SAFE_START: nat := 0x100000

  // ---------- the bitmap as one truth value a frame ----------

  /** The bits of the first `n` frames. */
  ghost function FirstBits(bytes: seq<UInt8>, n: nat): (s: seq<bool>)
    requires n <= 8 * |bytes|
    ensures |s| == n
  {
    if n == 0 then [] else FirstBits(bytes, n - 1) + [Bit(bytes[(n - 1) / 8], (n - 1) % 8)]
  }

  ghost function BitsOf(bytes: seq<UInt8>): (s: seq<bool>)
    ensures |s| == 8 * |bytes|
  {
    FirstBits(bytes, 8 * |bytes|)
  }

  lemma {:induction false} FirstBitsAt(bytes: seq<UInt8>, n: nat)
    requires n <= 8 * |bytes|
    ensures forall f :: 0 <= f < n ==> FirstBits(bytes, n)[f] == Bit(bytes[f / 8], f % 8)
  {
    if n > 0 {
      FirstBitsAt(bytes, n - 1);
    }
  }

  lemma BitsAt(bytes: seq<UInt8>)
    ensures forall f :: 0 <= f < |BitsOf(bytes)| ==> BitsOf(bytes)[f] == Bit(bytes[f / 8], f % 8)
  {
    FirstBitsAt(bytes, 8 * |bytes|);
  }

  lemma ByteIsSmall(b: UInt8, c: nat)
    ensures Power2(8) == 256
    ensures c < 256 ==> Or(b, c) < 256
    ensures AndNot(b, c) < 256
  {
    assert Power2(4) == 16;
    BelowPower(b, c, 8);
  }

  lemma BitBelow8(k: nat)
    requires k < 8
    ensures Power2(k) < 256
  {
    assert Power2(3) == 8 && Power2(4) == 16 && Power2(5) == 32 && Power2(6) == 64 && Power2(7) == 128;
  }

  lemma MarkBit(b: UInt8, k: nat, j: nat)
    requires k < 8
    ensures var m := Power2(k);
      && Or(b, m) < 256 && Bit(Or(b, m), j) == (j == k || Bit(b, j))
      && AndNot(b, m) < 256 && Bit(AndNot(b, m), j) == (j != k && Bit(b, j))
  {
    hide Or, AndNot;
    hide Bit;
    BitBelow8(k);
    ByteIsSmall(b, Power2(k));
    OrBit(b, Power2(k), j);
    AndNotBit(b, Power2(k), j);
    PowerBit(k, j);
  }

  lemma ReplaceByte(bytes: seq<UInt8>, f: nat, b: UInt8, value: bool)
    requires f < 8 * |bytes|
    requires forall j :: 0 <= j < 8 ==> Bit(b, j) == if j == f % 8 then value else Bit(bytes[f / 8], j)
    ensures BitsOf(bytes[f / 8 := b]) == BitsOf(bytes)[f := value]
  {
    hide BitsOf, Bit;
    BitsAt(bytes);
    BitsAt(bytes[f / 8 := b]);
  }

  lemma MarkByte(bytes: seq<UInt8>, f: nat)
    requires f < 8 * |bytes|
    ensures var b, m := bytes[f / 8], Power2(f % 8);
      && Or(b, m) < 256 && BitsOf(bytes[f / 8 := Or(b, m)]) == BitsOf(bytes)[f := true]
      && AndNot(b, m) < 256 && BitsOf(bytes[f / 8 := AndNot(b, m)]) == BitsOf(bytes)[f := false]
  {
    hide Or, AndNot;
    hide Bit, Power2, BitsOf;
    var b, m := bytes[f / 8], Power2(f % 8);
    MarkBit(b, f % 8, 0);
    forall j | 0 <= j < 8
      ensures Bit(Or(b, m), j) == (j == f % 8 || Bit(b, j)) && Bit(AndNot(b, m), j) == (j != f % 8 && Bit(b, j))
    {
      MarkBit(b, f % 8, j);
    }
    ReplaceByte(bytes, f, Or(b, m), true);
    ReplaceByte(bytes, f, AndNot(b, m), false);
  }

  lemma FullByte(b: UInt8)
    ensures b == 0xFF <==> Ones(b, 8)
  {
    ByteIsSmall(b, 0);
    AllOnes(b, 8);
  }

  /** The lowest frame whose bit is clear. */
  function FirstFree(used: seq<bool>): (r: Option<nat>)
    ensures r.Some? ==> r.value < |used| && !used[r.value] && forall k :: 0 <= k < r.value ==> used[k]
    ensures r.None? ==> forall k :: 0 <= k < |used| ==> used[k]
  {
    if used == [] then None
    else if !used[0] then Some(0)
    else match FirstFree(used[1..])
      case None => None
      case Some(k) => Some(k + 1)
  }

  lemma {:induction false} FirstFreeIs(used: seq<bool>, c: nat)
    requires c <= |used| && forall k :: 0 <= k < c ==> used[k]
    requires c < |used| ==> !used[c]
    ensures FirstFree(used) == if c < |used| then Some(c) else None
  {
  }

  // ---------- the memory map ----------

  datatype MemoryKind = Reserved | LoaderCode | LoaderData | BootServicesCode | BootServicesData
    | RuntimeServicesCode | RuntimeServicesData | Conventional | Unusable | AcpiReclaim | AcpiNonVolatile
    | MappedIO | MappedIOPortSpace | PalCode | Persistent

  datatype Descriptor = Descriptor(kind: MemoryKind, physicalStart: nat, pageCount: nat)

  function End(d: Descriptor): nat {
    d.physicalStart + d.pageCount * PAGE
  }

  /** Memory, whatever it is used for: neither a device's nor the firmware's own, nor broken. */
  predicate IsMemory(d: Descriptor) {
    || d.kind == Conventional || d.kind == Persistent
    || d.kind == LoaderCode || d.kind == LoaderData
    || d.kind == BootServicesCode || d.kind == BootServicesData
    || d.kind == RuntimeServicesCode || d.kind == RuntimeServicesData
    || d.kind == AcpiReclaim || d.kind == AcpiNonVolatile
  }

  /** Frame `f` is one that a loop from address `start` to `end` by pages visits. */
  predicate Covers(start: nat, end: nat, f: nat) {
    f >= start / PAGE && start + (f - start / PAGE) * PAGE < end
  }

  /** Frame `f` is one of the first `k` such a loop visits. */
  predicate Marked(start: nat, end: nat, k: nat, f: nat) {
    Covers(start, end, f) && f < start / PAGE + k
  }

  /** The range [start, end) has a byte in frame `f`. */
  predicate Overlaps(start: nat, end: nat, f: nat) {
    start < end && start < (f + 1) * PAGE && f * PAGE < end
  }

  /** The loop visits all the frames that its range reaches into exactly if the offset of the start in its
      page is no larger than that of the last byte, so whenever the start is page-aligned; and never any
      other frame. */
  lemma LoopCovers(start: nat, end: nat)
    requires start < end
    ensures forall f: nat :: Covers(start, end, f) ==> Overlaps(start, end, f)
    ensures (forall f: nat :: Overlaps(start, end, f) ==> Covers(start, end, f)) <==> start % PAGE <= (end - 1) % PAGE
  {
    var last := (end - 1) / PAGE;
    assert start == start / PAGE * PAGE + start % PAGE && end - 1 == last * PAGE + (end - 1) % PAGE;
    assert Overlaps(start, end, last);
    if start % PAGE <= (end - 1) % PAGE {
      forall f: nat | Overlaps(start, end, f) ensures Covers(start, end, f) {
        assert f <= last && f >= start / PAGE;
      }
    }
  }

  /** A descriptor's loop visits as many frames as it has pages, from its first one on. */
  lemma DescriptorFrames(d: Descriptor, f: nat)
    ensures Covers(d.physicalStart, End(d), f) <==> d.physicalStart / 4096 <= f < d.physicalStart / 4096 + d.pageCount
  {
    var k := f - d.physicalStart / PAGE;
    assert k < d.pageCount <==> k * PAGE < d.pageCount * PAGE;
  }

  /** From another start it may miss the last one: here frame 1, of which a byte is in the range. */
  lemma UnalignedLoopMisses()
    ensures Overlaps(100, PAGE + 1, 1) && !Covers(100, PAGE + 1, 1)
  {
  }

  /** Every frame such a loop visits is below `limit`. */
  ghost predicate Below(start: nat, end: nat, limit: nat) {
    forall f: nat :: Covers(start, end, f) ==> f < limit
  }

  ghost predicate InConventional(map_: seq<Descriptor>, f: nat) {
    exists i :: 0 <= i < |map_| && map_[i].kind == Conventional && Covers(map_[i].physicalStart, End(map_[i]), f)
  }

  /** The descriptor can host a bitmap of `size` bytes: usable memory behind the first megabyte. */
  ghost predicate CanHost(d: Descriptor, size: nat) {
    d.kind == Conventional && 0x10_0000 <= d.physicalStart && d.physicalStart + size <= End(d)
  }

  /** The end of the memory that reaches highest. */
  ghost predicate IsTop(map_: seq<Descriptor>, top: nat) {
    && (forall i :: 0 <= i < |map_| && IsMemory(map_[i]) ==> End(map_[i]) <= top)
    && (top == 0 || exists i :: 0 <= i < |map_| && IsMemory(map_[i]) && End(map_[i]) == top)
  }

  class FrameAllocator {
    var bitmap: array<UInt8>
    var start: nat
    var totalMemory: nat

    ghost function Used(): (s: seq<bool>)
      reads this, bitmap
      ensures |s| == 8 * bitmap.Length
    {
      BitsOf(bitmap[..])
    }

    /** Frame 0 is in use, so the address 0 can mean that no frame was found. */
    ghost predicate Valid()
      reads this, bitmap
    {
      bitmap.Length > 0 && Used()[0]
    }

    constructor ()
      ensures bitmap.Length == 0 && totalMemory == 0 && fresh(bitmap)
    {
      bitmap := new UInt8[0];
      start, totalMemory := 0, 0;
    }

    method Set(address: nat)
      requires address / PAGE < 8 * bitmap.Length
      modifies bitmap
      ensures Used() == old(Used())[address / PAGE := true]
    {
      var i, k := address / PAGE / 8, address / PAGE % 8;
      ghost var was := bitmap[..];
      MarkByte(was, address / PAGE);
      bitmap[i] := Or(bitmap[i], Power2(k));
      assert bitmap[..] == was[i := Or(was[i], Power2(k))];
    }

    method Unset(address: nat)
      requires address / PAGE < 8 * bitmap.Length
      modifies bitmap
      ensures Used() == old(Used())[address / PAGE := false]
    {
      var i, k := address / PAGE / 8, address / PAGE % 8;
      ghost var was := bitmap[..];
      MarkByte(was, address / PAGE);
      bitmap[i] := AndNot(bitmap[i], Power2(k));
      assert bitmap[..] == was[i := AndNot(was[i], Power2(k))];
    }

    /** Takes the lowest free frame; 0 exactly when every frame is in use. */
    method AllocatePage() returns (address: nat)
      requires Valid()
      modifies bitmap
      ensures Valid() && bitmap == old(bitmap)
      ensures match FirstFree(old(Used()))
        case None => address == 0 && Used() == old(Used())
        case Some(c) => c > 0 && address == c * PAGE && Used() == old(Used())[c := true]
    {
      BitsAt(bitmap[..]);
      for i := 0 to bitmap.Length
        invariant bitmap[..] == old(bitmap[..])
        invariant forall f :: 0 <= f < 8 * i ==> Used()[f]
      {
        FullByte(bitmap[i]);
        assert forall f :: 8 * i <= f < 8 * i + 8 ==> f / 8 == i && f % 8 == f - 8 * i;
        if bitmap[i] == 0xFF {
          continue;
        }
        for bit := 0 to 8
          invariant bitmap[..] == old(bitmap[..])
          invariant forall k :: 0 <= k < bit ==> Bit(bitmap[i], k)
          invariant forall f :: 0 <= f < 8 * i + bit ==> Used()[f]
        {
          assert (8 * i + bit) / 8 == i && (8 * i + bit) % 8 == bit;
          AndPower(bitmap[i], bit);
          if And(bitmap[i], Power2(bit)) == 0 {
            address := (i * 8 + bit) * PAGE;
            FirstFreeIs(Used(), 8 * i + bit);
            Set(address);
            return;
          }
        }
      }
      FirstFreeIs(Used(), 8 * bitmap.Length);
      return 0;
    }

    method FreePage(address: nat)
      requires Valid() && address / PAGE < 8 * bitmap.Length
      modifies bitmap
      ensures Used() == old(Used())[address / PAGE := false] && (address >= PAGE ==> Valid())
    {
      Unset(address);
    }

    /** The loop that marks one page after another from `first` up to `last`. */
    method MarkRange(first: nat, last: nat, value: bool)
      requires Below(first, last, 8 * bitmap.Length)
      modifies bitmap
      ensures forall f :: 0 <= f < |Used()| ==> Used()[f] == if Covers(first, last, f) then value else old(Used()[f])
    {
      ghost var was := Used();
      var address := first;
      ghost var k := 0;
      while address < last
        invariant address == first + k * PAGE
        invariant |Used()| == |was| && forall f :: 0 <= f < |was| ==> Used()[f] == (if Marked(first, last, k, f) then value else was[f])
        decreases last - address
      {
        assert address / PAGE == first / PAGE + k;
        assert Covers(first, last, address / PAGE);
        if value { Set(address); } else { Unset(address); }
        address := address + PAGE;
        k := k + 1;
      }
    }

    /** Marks the low megabyte, the kernel image and the bitmap itself as used. */
    method Reserve(kernelStart: nat, kernelEnd: nat)
      requires Below(0, SAFE_START, 8 * bitmap.Length) && Below(kernelStart, kernelEnd, 8 * bitmap.Length)
      requires Below(start, start + bitmap.Length, 8 * bitmap.Length)
      modifies bitmap
      ensures forall f :: 0 <= f < |Used()| ==>
        (Used()[f] <==> old(Used()[f]) || f < SAFE_START / PAGE || Covers(kernelStart, kernelEnd, f) || Covers(start, start + bitmap.Length, f))
    {
      MarkRange(0, SAFE_START, true);
      MarkRange(kernelStart, kernelEnd, true);
      hide BitsOf, Below;
      MarkRange(start, start + bitmap.Length, true);
      LowMegabyte();
    }

    /** Builds the bitmap from the firmware's memory map; false stands for the panic when no
        descriptor can hold it. */
    method Initialize(map_: seq<Descriptor>, kernelStart: nat, kernelEnd: nat) returns (ok: bool)
      requires forall top: nat :: IsTop(map_, top) ==> Below(kernelStart, kernelEnd, top / PAGE)
      modifies this
      ensures fresh(bitmap) || !ok
      ensures IsTop(map_, totalMemory)
      ensures ok <==> exists i :: 0 <= i < |map_| && CanHost(map_[i], (totalMemory / PAGE + 7) / 8)
      ensures ok ==>
        && Valid() && bitmap.Length == (totalMemory / PAGE + 7) / 8
        && (exists i :: 0 <= i < |map_| && IsHost(map_, i, bitmap.Length) && start == map_[i].physicalStart)
        && forall f :: 0 <= f < |Used()| ==>
             (!Used()[f] <==>
               && InConventional(map_, f)
               && f >= 0x100
               && !Covers(kernelStart, kernelEnd, f)
               && !Covers(start, start + bitmap.Length, f))
    {
      var top := FindTop(map_);
      totalMemory := top;
      var size := (top / PAGE + 7) / 8;
      var host := FindHost(map_, size);
      if host == |map_| {
        return false;
      }
      start := map_[host].physicalStart;
      HostFits(map_, host, size, top);
      hide BitsOf, InConventional, Covers, CanHost;
      bitmap := new UInt8[size](_ => 0xFF);
      AllSet(bitmap[..]);
      for i := 0 to |map_|
        invariant fresh(bitmap) && bitmap.Length == size
        invariant totalMemory == top && start == map_[host].physicalStart
        invariant forall f :: 0 <= f < |Used()| ==> (!Used()[f] <==> InConventional(map_[..i], f))
      {
        ConventionalStep(map_, i);
        if map_[i].kind != Conventional {
          continue;
        }
        DescriptorFits(map_[i], top);
        MarkRange(map_[i].physicalStart, End(map_[i]), false);
      }
      assert map_[..|map_|] == map_;
      Reserve(kernelStart, kernelEnd);
      return true;
    }
  }

  lemma LowMegabyte()
    ensures forall f: nat :: Covers(0, SAFE_START, f) <==> f < SAFE_START / PAGE
  {
  }

  /** The first descriptor that can host the bitmap. */
  ghost predicate IsHost(map_: seq<Descriptor>, i: nat, size: nat)
    requires i < |map_|
  {
    CanHost(map_[i], size) && forall k :: 0 <= k < i ==> !CanHost(map_[k], size)
  }

  method FindTop(map_: seq<Descriptor>) returns (top: nat)
    ensures IsTop(map_, top)
  {
    top := 0;
    for i := 0 to |map_|
      invariant forall k :: 0 <= k < i && IsMemory(map_[k]) ==> End(map_[k]) <= top
      invariant top == 0 || exists k :: 0 <= k < i && IsMemory(map_[k]) && End(map_[k]) == top
    {
      var d := map_[i];
      if d.kind in {MappedIO, MappedIOPortSpace, Unusable, Reserved, PalCode} {
        continue;
      }
      var nominee := d.physicalStart + d.pageCount * PAGE;
      if nominee > top {
        top := nominee;
      }
    }
  }

  method FindHost(map_: seq<Descriptor>, size: nat) returns (host: nat)
    ensures host <= |map_| && (forall k :: 0 <= k < host ==> !CanHost(map_[k], size))
    ensures host < |map_| ==> CanHost(map_[host], size)
  {
    for i := 0 to |map_|
      invariant forall k :: 0 <= k < i ==> !CanHost(map_[k], size)
    {
      var d := map_[i];
      if d.kind == Conventional && d.pageCount * PAGE >= size && d.physicalStart >= SAFE_START {
        return i;
      }
    }
    return |map_|;
  }

  lemma ConventionalStep(map_: seq<Descriptor>, i: nat)
    requires i < |map_|
    ensures forall f: nat :: InConventional(map_[..i + 1], f) <==>
      InConventional(map_[..i], f) || (map_[i].kind == Conventional && Covers(map_[i].physicalStart, End(map_[i]), f))
  {
    forall f: nat
      ensures InConventional(map_[..i + 1], f) <==>
        InConventional(map_[..i], f) || (map_[i].kind == Conventional && Covers(map_[i].physicalStart, End(map_[i]), f))
    {
      if InConventional(map_[..i], f) {
        var k :| 0 <= k < i && map_[..i][k].kind == Conventional && Covers(map_[..i][k].physicalStart, End(map_[..i][k]), f);
        assert map_[..i + 1][k] == map_[..i][k];
      }
      if map_[i].kind == Conventional && Covers(map_[i].physicalStart, End(map_[i]), f) {
        assert map_[..i + 1][i] == map_[i];
      }
    }
  }

  lemma AllSet(bytes: seq<UInt8>)
    requires forall i :: 0 <= i < |bytes| ==> bytes[i] == 0xFF
    ensures forall f :: 0 <= f < |BitsOf(bytes)| ==> BitsOf(bytes)[f]
  {
    BitsAt(bytes);
    forall f | 0 <= f < |BitsOf(bytes)| ensures BitsOf(bytes)[f] {
      FullByte(bytes[f / 8]);
    }
  }

  /** The pages of a counted descriptor have their bits in the bitmap. */
  lemma DescriptorFits(d: Descriptor, top: nat)
    requires End(d) <= top
    ensures Below(d.physicalStart, End(d), top / PAGE)
  {
    forall f: nat | Covers(d.physicalStart, End(d), f) ensures f < top / PAGE {
      assert f - d.physicalStart / PAGE < d.pageCount;
      assert End(d) / PAGE == d.physicalStart / PAGE + d.pageCount;
    }
  }

  /** The low megabyte and the bitmap itself lie inside the bitmap's range. */
  lemma HostFits(map_: seq<Descriptor>, host: nat, size: nat, top: nat)
    requires host < |map_| && CanHost(map_[host], size) && IsTop(map_, top) && size == (top / PAGE + 7) / 8
    ensures size > 0 && SAFE_START / PAGE <= top / PAGE <= 8 * size
    ensures Below(map_[host].physicalStart, map_[host].physicalStart + size, top / PAGE)
    ensures Below(0, SAFE_START, top / PAGE)
  {
    var d := map_[host];
    DescriptorFits(d, top);
    var end := d.physicalStart + size;
    forall f: nat | Covers(d.physicalStart, end, f) ensures f < top / PAGE {
      assert Covers(d.physicalStart, End(d), f);
    }
  }
}
