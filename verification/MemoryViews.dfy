/** Physical memory as bytes, the page tables read from it, and what table edits leave alone. */
module MemoryViews {
  import opened Bits
  import opened Common
  import opened PageTables
  import opened Mappings
  import opened RawTables
  import opened Isolation
  import opened PageWords

  type Memory = map<nat, Page>

  /** All of memory read as page tables. */
  ghost function View(memory: Memory): Tables {
    map f | f in memory :: TableOf(memory[f])
  }

  lemma ViewOfStore(memory: Memory, f: nat, i: nat, word: nat)
    requires f in memory && i < ENTRIES && word < WORD_LIMIT
    ensures View(memory[f := Put64(memory[f], 8 * i, word)]) == Put(View(memory), f, i, EntryOf(word))
  {
    StoreEntry(memory[f], i, word);
  }

  lemma ViewOfZero(memory: Memory, f: nat)
    ensures View(memory[f := ZeroPage()]) == Clear(View(memory), f)
  {
    hide TableOf, ZeroPage, EmptyTable;
    ZeroPageIsEmpty();
  }

  /** All frames but those in `edited` kept their bytes. */
  ghost predicate BytesBut(m: Memory, m': Memory, edited: set<nat>) {
    forall f <- m :: f !in edited ==> f in m' && m'[f] == m[f]
  }

  /** Data frames stay data frames, with the same bytes. */
  ghost predicate KeepsData(w: World, m: Memory, w': World, m': Memory) {
    forall f: nat :: IsData(w, f) ==> IsData(w', f) && f in m && f in m' && m'[f] == m[f]
  }

  lemma SetEntryKeepsData(w: World, m: Memory, m': Memory, f: nat, i: nat, leaf: Entry)
    requires CanSetLeaf(w, f, i, leaf) && f in m' && m' == m[f := m'[f]]
    requires forall h :: 0 <= h < |w.used| ==> h in m
    ensures f in w.tables && KeepsData(w, m, SetLeaf(w, f, i, leaf), m')
  {
    SetLeafKeepsData(w, f, i, leaf);
  }

  lemma LeafUser(phys: nat, flags: nat)
    ensures LeafEntry(phys, flags).user == Bit(flags, 2)
  {
  }

  /** What a map of a page that the caller may map has done. */
  lemma OwnMapDone(w: World, m: Memory, m': Memory, f: nat, p: seq<nat>, leaf: Entry)
    requires CanMap(w, f, p, leaf) && InMemory(Of(w), f, p, leaf.user) && BytesBut(m, m', Edited(Of(w), f, p, leaf.user))
    requires forall h :: 0 <= h < |w.used| ==> h in m
    ensures var (w', ok) := Map(w, f, p, leaf);
      Inv(w') && w'.kernel == w.kernel && KeepsData(w, m, w', m') && RawMap(Of(w), f, p, leaf) == (Of(w'), ok)
  {
    hide Inv, Map, CanMap, InMemory, RawMap, Edited, IsData;
    MapKeepsInv(w, f, p, leaf);
    MapIsRaw(w, f, p, leaf);
    var w' := Map(w, f, p, leaf).0;
    forall h: nat | IsData(w, h) ensures IsData(w', h) && h in m && h in m' && m'[h] == m[h] {
      DataNotEdited(w, f, p, leaf, h);
    }
  }

  lemma SetLeafKeepsData(w: World, f: nat, i: nat, leaf: Entry)
    requires CanSetLeaf(w, f, i, leaf)
    ensures f in w.tables && f < |w.used|
    ensures forall h: nat :: IsData(w, h) ==> h != f && h < |w.used| && IsData(SetLeaf(w, f, i, leaf), h)
  {
    hide UserPaths, SharedHalf;
    assert At(w.tables, f, i).present ==> GoodLink(w, f, i);
  }

  /** The world right after the kernel's root was allocated: every frame that was in use before
      is reserved, and nothing is mapped. */
  ghost function BootWorld(used: seq<bool>, tables: Tables, k: nat): World
    requires k < |used|
  {
    World(k, used[k := true], Clear(tables, k), map[k := Node(k, [], k)], set f: nat | f < |used| && used[f], {})
  }

  lemma BootKeepsInv(used: seq<bool>, tables: Tables, k: nat)
    requires k < |used| && !used[k] && forall f :: 0 <= f < |used| ==> f in tables
    ensures Inv(BootWorld(used, tables, k))
    ensures forall p :: |p| > 0 ==> Resolve(BootWorld(used, tables, k).tables, k, p) == None
  {
    var w := BootWorld(used, tables, k);
    assert Places(w) && Links(w) && UserPaths(w) && SharedHalf(w) && Supervisor(w);
  }

  lemma ZeroWord()
    ensures EntryOf(0) == ABSENT
  {
    ZeroBit(0);
    ZeroBit(1);
    ZeroBit(2);
  }

  /** The leaf that the word `phys | flags` holds. */
  function LeafEntry(phys: nat, flags: nat): Entry {
    Entry(phys / PAGE, Bit(flags, 0), Bit(flags, 1), Bit(flags, 2))
  }

  lemma NewTableWord(c: nat, flags: nat)
    requires c < FRAME_LIMIT && flags < 8
    ensures var word := Or(c * PAGE, Or(3, And(flags, PTE_USER)));
      word < WORD_LIMIT && EntryOf(word) == Entry(c, true, true, Bit(flags, 2))
  {
    UserBit(flags);
    MakeEntry(c, Or(3, And(flags, PTE_USER)));
  }

  lemma KernelIsUsed(w: World)
    requires Inv(w)
    ensures w.kernel < |w.used| && w.used[w.kernel] && w.kernel in w.tables
  {
  }

  /** High slots below `i` are copied from `k`; the rest of the new root is empty. */
  ghost predicate Copied(page: Page, k: Table, i: nat) {
    forall j :: 0 <= j < ENTRIES ==> TableOf(page)[j] == if KERNEL_SLOT <= j < i then k[j] else ABSENT
  }

  lemma CopyStart(k: Table)
    ensures Copied(ZeroPage(), k, KERNEL_SLOT)
  {
    ZeroPageIsEmpty();
  }

  lemma CopyStep(page: Page, source: Page, i: nat)
    requires KERNEL_SLOT <= i < ENTRIES && Copied(page, TableOf(source), i)
    ensures Copied(Put64(page, 8 * i, Get64(source, 8 * i)), TableOf(source), i + 1)
  {
    TableAt(source);
    hide TableOf, EntryOf, Get64;
    StoreEntry(page, i, Get64(source, 8 * i));
  }

  lemma CopyDone(page: Page, k: Table)
    requires Copied(page, k, ENTRIES)
    ensures TableOf(page) == NewRoot(k)
  {
    hide TableOf;
  }

  lemma ViewOfNewRoot(w: World, m: Memory, m': Memory, r: nat)
    requires r < |w.used| && w.kernel in m && w.tables == View(m) && r in m' && m' == m[r := m'[r]] && r != w.kernel
    requires TableOf(m'[r]) == NewRoot(TableOf(m[w.kernel]))
    ensures w.kernel in w.tables && CreateSpace(w, r).tables == View(m')
  {
    hide TableOf;
  }

  // ---------- what a process sees of a page ----------

  /** Page `p` of space `r` translates as before, to the same bytes. */
  ghost predicate KeepsPage(w: World, m: Memory, w': World, m': Memory, r: nat, p: seq<nat>)
    requires |p| > 0
  {
    var a := Resolve(w.tables, r, p);
    && IsRoot(w', r)
    && Resolve(w'.tables, r, p) == a
    && (a.Some? ==> SameBytesAt(m, m', a.value.frame))
  }

  ghost predicate SameBytesAt(m: Memory, m': Memory, f: nat) {
    f in m && f in m' && m'[f] == m[f]
  }

  /** Every low-half page but those in `touched` is kept. */
  ghost predicate KeepsOthers(w: World, m: Memory, w': World, m': Memory, touched: set<(nat, seq<nat>)>) {
    forall r: nat, p: seq<nat> :: IsRoot(w, r) && LowPage(p) && (r, p) !in touched ==> KeepsPage(w, m, w', m', r, p)
  }

  lemma KeepsOthersTwice(w: World, m: Memory, w': World, m': Memory, w'': World, m'': Memory,
                         s: set<(nat, seq<nat>)>, s': set<(nat, seq<nat>)>)
    requires KeepsOthers(w, m, w', m', s) && KeepsOthers(w', m', w'', m'', s')
    ensures KeepsOthers(w, m, w'', m'', s + s')
  {
    hide Resolve;
    forall r: nat, p: seq<nat> | IsRoot(w, r) && LowPage(p) && (r, p) !in s + s' ensures KeepsPage(w, m, w'', m'', r, p) {
      assert KeepsPage(w, m, w', m', r, p);
      assert KeepsPage(w', m', w'', m'', r, p);
    }
  }

  /** The process may read and write page `p`, which holds `contents`. */
  ghost predicate UserPage(w: World, m: Memory, r: nat, p: seq<nat>, contents: Page)
    requires |p| > 0
  {
    var a := Resolve(w.tables, r, p);
    a.Some? && a.value.writable && a.value.user && a.value.frame in m && m[a.value.frame] == contents
  }

  ghost predicate Covered(w: World, m: Memory) {
    forall f :: 0 <= f < |w.used| ==> f in m
  }

  lemma TakeKeepsOthers(w: World, m: Memory, c: nat)
    requires Inv(w) && c < |w.used| && !w.used[c] && Covered(w, m)
    ensures KeepsOthers(w, m, Take(w, c), m, {})
  {
    forall r: nat, p: seq<nat> | IsRoot(w, r) && LowPage(p) ensures KeepsPage(w, m, Take(w, c), m, r, p) {
      if Resolve(w.tables, r, p).Some? { PageIsOwned(w, r, p); }
    }
  }

  lemma FillKeepsOthers(w: World, m: Memory, f: nat, page: Page, touched: set<(nat, seq<nat>)>)
    requires Inv(w) && !IsTable(w, f) && Covered(w, m)
    requires f in w.owner ==> (w.owner[f].space, w.owner[f].path) in touched
    ensures KeepsOthers(w, m, Overwrite(w, f, TableOf(page)), m[f := page], touched)
  {
    hide Inv, Covered, KeepsPage, TableOf;
    var w' := Overwrite(w, f, TableOf(page));
    forall r: nat, p: seq<nat> | IsRoot(w, r) && LowPage(p) && (r, p) !in touched ensures KeepsPage(w, m, w', m[f := page], r, p) {
      FillKeepsPage(w, m, f, page, r, p);
    }
  }

  lemma FillKeepsPage(w: World, m: Memory, f: nat, page: Page, r: nat, p: seq<nat>)
    requires Inv(w) && !IsTable(w, f) && Covered(w, m) && IsRoot(w, r) && LowPage(p)
    requires f in w.owner ==> (w.owner[f].space, w.owner[f].path) != (r, p)
    ensures KeepsPage(w, m, Overwrite(w, f, TableOf(page)), m[f := page], r, p)
  {
    hide Inv, Resolve, TableOf;
    RootIsTable(w, r);
    assert |p| == 4 - |w.owner[r].path|;
    OutsideKeepsWalks(w, Overwrite(w, f, TableOf(page)).tables, r, p);
    if Resolve(w.tables, r, p).Some? { PageIsOwned(w, r, p); }
  }

  lemma RootIsTable(w: World, r: nat)
    requires IsRoot(w, r)
    ensures IsTable(w, r)
  {
  }

  lemma MapKeepsOthers(w: World, m: Memory, m': Memory, r: nat, p: seq<nat>, leaf: Entry)
    requires IsRoot(w, r) && LowPage(p) && CanMap(w, r, p, leaf) && KeepsData(w, m, Map(w, r, p, leaf).0, m')
    ensures KeepsOthers(w, m, Map(w, r, p, leaf).0, m', {(r, p)})
  {
    var w' := Map(w, r, p, leaf).0;
    forall r': nat, p': seq<nat> | IsRoot(w, r') && LowPage(p') && (r', p') !in {(r, p)} ensures KeepsPage(w, m, w', m', r', p') {
      MapOtherPage(w, r, p, leaf, r', p');
      if Resolve(w.tables, r', p').Some? { PageIsOwned(w, r', p'); }
    }
  }

  /** A map of a low page is one key of one space. */
  lemma MapOtherPage(w: World, r: nat, p: seq<nat>, leaf: Entry, r': nat, p': seq<nat>)
    requires IsRoot(w, r) && LowPage(p) && CanMap(w, r, p, leaf) && IsRoot(w, r') && LowPage(p')
    ensures var (w', ok) := Map(w, r, p, leaf);
      && IsRoot(w', r')
      && Resolve(w'.tables, r', p') ==
           if ok && r' == r && p' == p then RightsOf(leaf) else Resolve(w.tables, r', p')
  {
    assert w.owner[r].path + p == p && w.owner[r'].path + p' == p';
    assert GoodPlace(w, r) && GoodPlace(w, r');
    MapUpdatesOneKey(w, r, p, leaf, r', p');
    MapKeepsRoots(w, r, p, leaf, r');
  }

  // ---------- pages of an address range ----------

  /** The pages a loop over `n` pages from `virt` maps in space `r`. */
  ghost function Range(r: nat, virt: nat, n: nat): set<(nat, seq<nat>)> {
    set i: nat | i < n :: (r, PathOf(virt + i * PAGE))
  }
}
