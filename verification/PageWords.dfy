/** Page-table entries as the 64-bit words of a 4096-byte page, and virtual addresses as page paths. */
module PageWords {
  import opened Bits
  import opened Common
  import opened PageTables

  const PTE_PRESENT: nat := 1
  const PTE_USER: nat := 4
  const PTE_ADDR_MASK: nat := 0x000F_FFFF_FFFF_F000
  const FRAME_LIMIT: nat := 0x100_0000_0000

  type Page = s: seq<UInt8> | |s| == PAGE witness seq(PAGE, (i: nat) => 0)

  function ZeroPage(): (s: Page)
    ensures forall i :: 0 <= i < PAGE ==> s[i] == 0
  {
    seq(PAGE, i => 0)
  }

  /** PTE_GET_ADDR */
  function Address(word: nat): nat {
    And(word, PTE_ADDR_MASK)
  }

  function EntryOf(word: nat): Entry {
    Entry(Address(word) / PAGE, Bit(word, 0), Bit(word, 1), Bit(word, 2))
  }

  function FirstEntries(page: Page, n: nat): (t: seq<Entry>)
    requires n <= ENTRIES
    ensures |t| == n
  {
    if n == 0 then [] else FirstEntries(page, n - 1) + [EntryOf(Get64(page, 8 * (n - 1)))]
  }

  function TableOf(page: Page): Table {
    FirstEntries(page, ENTRIES)
  }

  lemma {:induction false} FirstEntriesAt(page: Page, n: nat)
    requires n <= ENTRIES
    ensures forall i :: 0 <= i < n ==> FirstEntries(page, n)[i] == EntryOf(Get64(page, 8 * i))
  {
    if n > 0 {
      FirstEntriesAt(page, n - 1);
    }
  }

  lemma TableAt(page: Page)
    ensures forall i :: 0 <= i < ENTRIES ==> TableOf(page)[i] == EntryOf(Get64(page, 8 * i))
  {
    FirstEntriesAt(page, ENTRIES);
  }

  lemma Powers()
    ensures Power2(3) == 8 && Power2(12) == PAGE && Power2(9) == ENTRIES && Power2(40) == FRAME_LIMIT
    ensures Power2(64) == WORD_LIMIT
  {
    assert Power2(6) == 64;
    assert Power2(12) == PAGE;
    assert Power2(18) == 0x40000;
    assert Power2(24) == 0x100_0000;
    assert Power2(30) == 0x4000_0000;
    assert Power2(36) == 0x10_0000_0000;
    assert Power2(40) == FRAME_LIMIT;
    assert Power2(46) == 64 * FRAME_LIMIT;
    assert Power2(52) == 64 * 64 * FRAME_LIMIT;
    assert Power2(58) == 64 * 64 * 64 * FRAME_LIMIT;
  }

  /** The masked address is the 40-bit frame number, page-aligned. */
  lemma AddressIsFrame(word: nat)
    ensures Address(word) == Shr(word, 12) % FRAME_LIMIT * PAGE
  {
    Powers();
    ShlTimes(FRAME_LIMIT - 1, 12);
    ShlTimes(And(Shr(word, 12), FRAME_LIMIT - 1), 12);
    AndShift(word, FRAME_LIMIT - 1, 12);
    AndLow(Shr(word, 12), 40);
  }

  lemma MakeAddress(frame: nat, flags: nat)
    requires frame < FRAME_LIMIT && flags < 8
    ensures Or(frame * PAGE, flags) < WORD_LIMIT && Address(Or(frame * PAGE, flags)) == frame * PAGE
  {
    hide Or, Shl;
    hide And, Power2;
    Powers();
    ShlTimes(frame, 12);
    OrAligned(frame, flags, 12);
    var word := Or(frame * PAGE, flags);
    AddressIsFrame(word);
    ShrDivides(word, 12);
    RemainderIs(word, PAGE, frame, flags);
  }

  lemma MakeFlags(frame: nat, flags: nat, j: nat)
    requires j < 3
    ensures Bit(Or(frame * PAGE, flags), j) == Bit(flags, j)
  {
    hide Or, Shl;
    hide Bit, Power2;
    Powers();
    ShlTimes(frame, 12);
    ShlBits(frame, 12);
    assert !Bit(Shl(frame, 12), j);
    OrBit(frame * PAGE, flags, j);
  }

  /** `phys | flags` decodes to the frame and the flag bits. */
  lemma MakeEntry(frame: nat, flags: nat)
    requires frame < FRAME_LIMIT && flags < 8
    ensures var word := Or(frame * PAGE, flags);
      && word < WORD_LIMIT && Address(word) == frame * PAGE
      && EntryOf(word) == Entry(frame, Bit(flags, 0), Bit(flags, 1), Bit(flags, 2))
  {
    hide Or, Bit;
    MakeAddress(frame, flags);
    MakeFlags(frame, flags, 0);
    MakeFlags(frame, flags, 1);
    MakeFlags(frame, flags, 2);
  }

  /** `entry |= flags & PTE_USER` adds the user bit and nothing else. */
  lemma AddUserBit(word: nat, flags: nat)
    requires word < WORD_LIMIT && flags < 8
    ensures var word' := Or(word, And(flags, PTE_USER));
      && word' < WORD_LIMIT && Address(word') == Address(word)
      && EntryOf(word') == Entry(EntryOf(word).frame, EntryOf(word).present, EntryOf(word).writable, EntryOf(word).user || Bit(flags, 2))
  {
    var u := And(flags, PTE_USER);
    UserBit(flags);
    Powers();
    BelowPower(word, u, 64);
    AddressIsFrame(word);
    AddressIsFrame(Or(word, u));
    OrShr(word, u, 12);
    ShrDivides(u, 12);
    OrBit(word, u, 0);
    OrBit(word, u, 1);
    OrBit(word, u, 2);
  }

  lemma UserBit(flags: nat)
    requires flags < 8
    ensures And(flags, PTE_USER) == if Bit(flags, 2) then 4 else 0
    ensures !Bit(And(flags, PTE_USER), 0) && !Bit(And(flags, PTE_USER), 1) && Bit(And(flags, PTE_USER), 2) == Bit(flags, 2)
    ensures Or(3, And(flags, PTE_USER)) == 3 + And(flags, PTE_USER)
  {
    assert Bit(flags, 2) == (flags / 2 / 2 % 2 == 1);
    assert And(flags, 4) == 2 * And(flags / 2, 2);
    assert And(flags / 2, 2) == 2 * And(flags / 2 / 2, 1);
  }

  /** A word is present exactly when its lowest bit is set. */
  lemma PresentBit(word: nat)
    ensures And(word, PTE_PRESENT) == 0 <==> !EntryOf(word).present
  {
    AndPower(word, 0);
  }

  lemma StoreEntry(page: Page, i: nat, word: nat)
    requires i < ENTRIES && word < WORD_LIMIT
    ensures TableOf(Put64(page, 8 * i, word)) == TableOf(page)[i := EntryOf(word)]
  {
    TableAt(page);
    TableAt(Put64(page, 8 * i, word));
    forall j | 0 <= j < ENTRIES
      ensures TableOf(Put64(page, 8 * i, word))[j] == TableOf(page)[i := EntryOf(word)][j]
    {
      PutGet(page, 8 * i, word, 8 * j);
    }
  }

  lemma ZeroPageIsEmpty()
    ensures TableOf(ZeroPage()) == EmptyTable()
  {
    TableAt(ZeroPage());
    forall i | 0 <= i < ENTRIES ensures TableOf(ZeroPage())[i] == ABSENT {
      LeZero(ZeroPage()[8 * i..8 * i + 8]);
      assert Get64(ZeroPage(), 8 * i) == 0;
    }
  }

  // ---------- virtual addresses ----------

  const VIRTUAL_LIMIT: nat := 0x1_0000_0000_0000
  const LOW_LIMIT: nat := 0x8000_0000_0000

  /** The four table indices of a virtual address: bits 39-47, 30-38, 21-29 and 12-20. */
  function PathOf(virt: nat): (p: seq<nat>)
    ensures |p| == 4
  {
    [And(Shr(virt, 39), 0x1FF), And(Shr(virt, 30), 0x1FF), And(Shr(virt, 21), 0x1FF), And(Shr(virt, 12), 0x1FF)]
  }

  lemma PathIs(virt: nat)
    ensures PathOf(virt) == [virt / 0x80_0000_0000 % 512, virt / 0x4000_0000 % 512, virt / 0x20_0000 % 512, virt / PAGE % 512]
  {
    Powers();
    assert Power2(21) == 0x20_0000 by { assert Power2(15) == 0x8000; }
    assert Power2(30) == 0x4000_0000 by { assert Power2(24) == 0x100_0000; }
    assert Power2(39) == 0x80_0000_0000 by { assert Power2(36) == 0x10_0000_0000; }
    ShrDivides(virt, 39);
    ShrDivides(virt, 30);
    ShrDivides(virt, 21);
    ShrDivides(virt, 12);
    AndLow(Shr(virt, 39), 9);
    AndLow(Shr(virt, 30), 9);
    AndLow(Shr(virt, 21), 9);
    AndLow(Shr(virt, 12), 9);
  }

  lemma DigitsUnique(a: nat, b: nat, c: nat, d: nat, a': nat, b': nat, c': nat, d': nat)
    requires a < 512 && b < 512 && c < 512 && d < 512 && a' < 512 && b' < 512 && c' < 512 && d' < 512
    ensures a * 0x800_0000 + b * 0x4_0000 + c * 512 + d == a' * 0x800_0000 + b' * 0x4_0000 + c' * 512 + d'
      <==> [a, b, c, d] == [a', b', c', d']
  {
    assert [a, b, c, d] == [a', b', c', d'] <==> a == a' && b == b' && c == c' && d == d' by {
      var s, t := [a, b, c, d], [a', b', c', d'];
      assert s == t ==> s[0] == t[0] && s[1] == t[1] && s[2] == t[2] && s[3] == t[3];
    }
  }

  /** Two addresses have the same path exactly when they agree on the 36-bit page number. */
  lemma PathOfPage(virt: nat, virt': nat)
    ensures PathOf(virt) == PathOf(virt') <==> virt / PAGE % 0x10_0000_0000 == virt' / PAGE % 0x10_0000_0000
  {
    PathIs(virt);
    PathIs(virt');
    PageDigits(virt);
    PageDigits(virt');
    DigitsUnique(virt / 0x80_0000_0000 % 512, virt / 0x4000_0000 % 512, virt / 0x20_0000 % 512, virt / PAGE % 512,
                 virt' / 0x80_0000_0000 % 512, virt' / 0x4000_0000 % 512, virt' / 0x20_0000 % 512, virt' / PAGE % 512);
  }

  lemma TopDigit(virt: nat)
    ensures virt / 0x80_0000_0000 % 512 == virt % VIRTUAL_LIMIT / 0x80_0000_0000
  {
    var q, r := virt / VIRTUAL_LIMIT, virt % VIRTUAL_LIMIT;
    assert virt == 0x80_0000_0000 * (512 * q + r / 0x80_0000_0000) + r % 0x80_0000_0000;
    RemainderIs(virt, 0x80_0000_0000, 512 * q + r / 0x80_0000_0000, r % 0x80_0000_0000);
  }

  lemma PathHalf(virt: nat)
    ensures IsPath(PathOf(virt))
    ensures PathOf(virt)[0] < KERNEL_SLOT <==> virt % VIRTUAL_LIMIT < LOW_LIMIT
  {
    PathIs(virt);
    TopDigit(virt);
  }

  lemma PageDigits(virt: nat)
    ensures virt / PAGE % 0x10_0000_0000 ==
      virt / 0x80_0000_0000 % 512 * 0x800_0000 + virt / 0x4000_0000 % 512 * 0x4_0000 + virt / 0x20_0000 % 512 * 512 + virt / PAGE % 512
  {
    var n := virt / PAGE;
    assert virt / 0x20_0000 == n / 512;
    assert virt / 0x4000_0000 == n / 512 / 512;
    assert virt / 0x80_0000_0000 == n / 512 / 512 / 512;
  }
}
