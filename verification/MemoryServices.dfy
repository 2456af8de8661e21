/** The clients of the page-table editor: the user stack and the SYS_MEM system call. */
module MemoryServices {
  import Bits
  import opened Common
  import opened FrameBitmap
  import opened PageTables
  import opened Mappings
  import opened NullFrame
  import opened RawTables
  import opened Isolation
  import opened PageCosts
  import opened PageWords
  import opened MemoryViews
  import AddressSpaces

  const USER_FLAGS: nat := 7
  const STACK_TOP: nat := 0x7000_0000
  const STACK_SIZE: nat := 0x4000
  const STACK_BOTTOM: nat := STACK_TOP - STACK_SIZE
  const HEAP_START: nat := 0x4000_0000

  class Process {
    const root: nat
    var heapCurrent: nat

    constructor (root: nat, heapStart: nat)
      ensures this.root == root && heapCurrent == heapStart
    {
      this.root := root;
      heapCurrent := heapStart;
    }
  }

  lemma UserLeaf(page: nat)
    ensures LeafEntry(page, USER_FLAGS) == Entry(page / PAGE, true, true, true)
  {
  }

  lemma LowAddress(virt: nat)
    requires virt < LOW_LIMIT
    ensures LowPage(PathOf(virt))
  {
    PathHalf(virt);
  }

  /** A low page of an existing space may be mapped for the user to a loose frame. */
  lemma UserMapAllowed(w: World, r: nat, p: seq<nat>, c: nat)
    requires Inv(w) && IsRoot(w, r) && LowPage(p) && c in w.loose
    ensures CanMap(w, r, p, Entry(c, true, true, true)) && c < |w.used| && w.used[c] && !IsTable(w, c)
  {
    assert w.owner[r].path + p == p;
  }

  lemma UserMapResult(w: World, r: nat, p: seq<nat>, c: nat)
    requires Inv(w) && IsRoot(w, r) && LowPage(p) && c in w.loose
    requires CanMap(w, r, p, Entry(c, true, true, true))
    ensures var (w', ok) := Map(w, r, p, Entry(c, true, true, true));
      && IsRoot(w', r)
      && Resolve(w'.tables, r, p) == (if ok then Some(Access(c, true, true)) else Resolve(w.tables, r, p))
      && (ok <==> Missing(w.tables, r, p) <= FreeCount(w.used))
      && FreeCount(w'.used) == (if ok then FreeCount(w.used) - Missing(w.tables, r, p) else 0)
      && TablesOf(w', r) == Reach(TablesOf(w, r), p, 1, FreeCount(w.used))
      && c < |w'.used| && !IsTable(w', c)
      && (if ok then c in w'.owner && w'.owner[c].space == r && w'.owner[c].path == p else c !in w'.owner)
  {
    hide Reach, TablesOf, FreeCount, Missing;
    var leaf := Entry(c, true, true, true);
    var (w', ok) := Map(w, r, p, leaf);
    MapOtherPage(w, r, p, leaf, r, p);
    MapTakesMissing(w, r, p, leaf);
    MapKeepsInv(w, r, p, leaf);
    MapKeepsLoose(w, r, p, leaf, c);
    RootMapReaches(w, r, p, leaf);
    if ok {
      PageIsOwned(w', r, p);
    }
  }

  /** A map that fails changes no low-half page at all. */
  lemma FailedMapKeepsOthers(w: World, m: Memory, m': Memory, r: nat, p: seq<nat>, leaf: Entry)
    requires IsRoot(w, r) && LowPage(p) && CanMap(w, r, p, leaf) && !Map(w, r, p, leaf).1
    requires KeepsData(w, m, Map(w, r, p, leaf).0, m')
    ensures KeepsOthers(w, m, Map(w, r, p, leaf).0, m', {})
  {
    var w' := Map(w, r, p, leaf).0;
    forall r': nat, p': seq<nat> | IsRoot(w, r') && LowPage(p') ensures KeepsPage(w, m, w', m', r', p') {
      MapOtherPage(w, r, p, leaf, r', p');
      if Resolve(w.tables, r', p').Some? { PageIsOwned(w, r', p'); }
    }
  }

  /** The pages that a map of `p` in space `r` touches: that page, or none if the map fails. */
  ghost function OnePage(r: nat, p: seq<nat>, ok: bool): set<(nat, seq<nat>)> {
    if ok then {(r, p)} else {}
  }

  /** What a map of the frame in hand at `virt` for the user has done. */
  ghost predicate UserMapped(w: World, m: Memory, w': World, m': Memory, root: nat, c: nat, virt: nat, ok: bool) {
    var p := PathOf(virt);
    && IsRoot(w', root)
    && KeepsOthers(w, m, w', m', OnePage(root, p, ok))
    && Resolve(w'.tables, root, p) == (if ok then Some(Access(c, true, true)) else Resolve(w.tables, root, p))
    && (ok <==> Missing(w.tables, root, p) <= FreeCount(w.used))
    && FreeCount(w'.used) == (if ok then FreeCount(w.used) - Missing(w.tables, root, p) else 0)
    && TablesOf(w', root) == Reach(TablesOf(w, root), p, 1, FreeCount(w.used))
    && c < |w'.used| && !IsTable(w', c)
    && (if ok then c in w'.owner && w'.owner[c].space == root && w'.owner[c].path == p else c !in w'.owner)
    && (c in m ==> SameBytesAt(m, m', c))
  }

  lemma UserMapFacts(w: World, m: Memory, m': Memory, root: nat, c: nat, virt: nat)
    requires Inv(w) && IsRoot(w, root) && LowPage(PathOf(virt)) && c in w.loose
    ensures CanMap(w, root, PathOf(virt), Entry(c, true, true, true)) && c < |w.used|
    ensures var (w', ok) := Map(w, root, PathOf(virt), Entry(c, true, true, true));
      KeepsData(w, m, w', m') ==> UserMapped(w, m, w', m', root, c, virt, ok)
  {
    hide Inv, Map, CanMap, Resolve, Missing, Reach, TablesOf;
    hide KeepsOthers, KeepsData, LowPage, PathOf, FreeCount;
    var p, leaf := PathOf(virt), Entry(c, true, true, true);
    UserMapAllowed(w, root, p, c);
    UserMapResult(w, root, p, c);
    var (w', ok) := Map(w, root, p, leaf);
    if KeepsData(w, m, w', m') {
      if ok {
        MapKeepsOthers(w, m, m', root, p, leaf);
      } else {
        FailedMapKeepsOthers(w, m, m', root, p, leaf);
      }
      DataKept(w, m, w', m', c);
    }
  }

  /** Map the frame in hand at `virt` for the user. */
  method MapUser(spaces: AddressSpaces.AddressSpaces, root: nat, page: nat, virt: nat) returns (ok: bool)
    requires spaces.Valid() && IsRoot(spaces.world, root) && virt < LOW_LIMIT
    requires page % PAGE == 0 && page / PAGE in spaces.world.loose
    modifies spaces`memory, spaces`world, spaces.frames.bitmap
    ensures spaces.Valid() && spaces.frames.bitmap == old(spaces.frames.bitmap)
    ensures UserMapped(old(spaces.world), old(spaces.memory), spaces.world, spaces.memory, root, page / PAGE, virt, ok)
  {
    hide Inv, Map, CanMap, UserMapped;
    hide KeepsData, PathOf, Bits.Bit, LeafEntry, View;
    ghost var w, m := spaces.world, spaces.memory;
    LowAddress(virt);
    UserMapFacts(w, m, m, root, page / PAGE, virt);
    UserLeaf(page);
    ok := spaces.MapPage(root, page, virt, USER_FLAGS);
    UserMapFacts(w, m, spaces.memory, root, page / PAGE, virt);
  }

  lemma DataKept(w: World, m: Memory, w': World, m': Memory, c: nat)
    requires KeepsData(w, m, w', m') && c in w.loose
    ensures c in m ==> SameBytesAt(m, m', c)
  {
    assert IsData(w, c);
  }

  /** The page at `virt` gets a frame and all its tables. */
  ghost predicate Fits(w: World, root: nat, virt: nat) {
    Cost(TablesOf(w, root), PathOf(virt)) <= FreeCount(w.used)
  }

  /** One more user page at `virt` with the given contents, exactly if the free frames cover it and its
      missing tables; otherwise no page has changed and no frame is left. */
  ghost predicate PageAdded(w: World, m: Memory, w': World, m': Memory, root: nat, virt: nat, contents: Page) {
    && IsRoot(w', root)
    && KeepsOthers(w, m, w', m', OnePage(root, PathOf(virt), Fits(w, root, virt)))
    && (Fits(w, root, virt) ==> UserPage(w', m', root, PathOf(virt), contents))
    && StockOf(w', root) == AfterOne(StockOf(w, root), PathOf(virt))
  }

  lemma TakeFacts(w: World, m: Memory, c: nat, root: nat)
    requires Inv(w) && FirstFree(w.used) == Some(c) && Covered(w, m)
    ensures KeepsOthers(w, m, Take(w, c), m, {}) && FreeCount(Take(w, c).used) == FreeCount(w.used) - 1
    ensures c in Take(w, c).loose && !IsTable(Take(w, c), c) && c < |Take(w, c).used| && c !in Take(w, c).owner
    ensures forall r :: IsRoot(w, r) ==> IsRoot(Take(w, c), r)
    ensures TablesOf(Take(w, c), root) == TablesOf(w, root) && Take(w, c).tables == w.tables
  {
    hide KeepsOthers, FreeCount;
    TakeKeepsOthers(w, m, c);
    TakeOne(w.used, c);
  }

  /** Page, missing tables and what they leave, in terms of the stock before. */
  lemma PageStock(w: World, root: nat, p: seq<nat>, c: nat)
    requires Inv(w) && IsRoot(w, root) && LowPage(p) && FirstFree(w.used) == Some(c)
    ensures Cost(TablesOf(w, root), p) == 1 + Missing(w.tables, root, p) && FreeCount(w.used) > 0
    ensures Take(w, c).tables == w.tables && TablesOf(Take(w, c), root) == TablesOf(w, root)
    ensures FreeCount(Take(w, c).used) == FreeCount(w.used) - 1
  {
    hide FreeCount, Missing, Cost;
    CostIsMissing(w, root, p);
    TakeOne(w.used, c);
  }

  lemma FillFacts(w: World, m: Memory, f: nat, page: Page, root: nat, p: seq<nat>, mapped: bool)
    requires Inv(w) && !IsTable(w, f) && Covered(w, m) && IsRoot(w, root) && LowPage(p)
    requires f in w.owner ==> mapped && w.owner[f].space == root && w.owner[f].path == p
    ensures var w' := Overwrite(w, f, TableOf(page));
      && IsRoot(w', root)
      && KeepsOthers(w, m, w', m[f := page], OnePage(root, p, mapped))
      && Resolve(w'.tables, root, p) == Resolve(w.tables, root, p)
      && StockOf(w', root) == StockOf(w, root)
  {
    hide FreeCount;
    FillKeepsOthers(w, m, f, page, OnePage(root, p, mapped));
    OutsideKeepsWalks(w, Overwrite(w, f, TableOf(page)).tables, root, p);
  }

  lemma OnePageTwice(r: nat, p: seq<nat>, ok: bool)
    ensures var s := OnePage(r, p, ok); {} + s + s == s && {} + s == s && s + s == s && s + {} == s && {} + {} + s == s && {} + s + {} == s
  {
  }

  /** The loop body of VMVirtualMemorySetupUserStack: take, clear, map. */
  method AddStackPage(spaces: AddressSpaces.AddressSpaces, root: nat, virt: nat) returns (found: bool)
    requires spaces.Coherent() && (spaces.Valid() || FirstFree(spaces.world.used).None?)
    requires IsRoot(spaces.world, root) && virt < LOW_LIMIT
    modifies spaces`memory, spaces`world, spaces.frames.bitmap
    ensures spaces.Coherent() && spaces.frames.bitmap == old(spaces.frames.bitmap)
    ensures found <==> FirstFree(old(spaces.world.used)).Some?
    ensures !found ==> spaces.world == old(spaces.world) && spaces.memory == old(spaces.memory)
    ensures old(spaces.Valid()) ==>
      spaces.Valid() && PageAdded(old(spaces.world), old(spaces.memory), spaces.world, spaces.memory, root, virt, ZeroPage())
  {
    hide Inv, Resolve, PathOf, LowPage, Cost, Reach, Missing, TablesOf, OnePage;
    hide KeepsOthers, FreeCount, View, TableOf;
    ghost var w0, m0 := spaces.world, spaces.memory;
    ghost var p := PathOf(virt);
    LowAddress(virt);
    var page := spaces.TakeFrame();
    if page == 0 {
      if Inv(w0) {
        NothingAdded(w0, m0, root, virt, ZeroPage());
      }
      return false;
    }
    var c := page / PAGE;
    PageStock(w0, root, p, c);
    TakeFacts(w0, m0, c, root);
    ghost var w1, m1 := spaces.world, spaces.memory;
    spaces.FillFrame(c, ZeroPage());
    FillFacts(w1, m1, c, ZeroPage(), root, p, false);
    ghost var w2, m2 := spaces.world, spaces.memory;
    FilledMissing(w1, c, TableOf(ZeroPage()), root, p);
    var ok := MapUser(spaces, root, page, virt);
    NoPages(root, p);
    OnePageTwice(root, p, ok);
    KeepsOthersTwice(w0, m0, w1, m1, w2, m2, {}, {});
    KeepsOthersTwice(w0, m0, w2, m2, spaces.world, spaces.memory, {} + {}, OnePage(root, p, ok));
    return true;
  }

  lemma NoPages(r: nat, p: seq<nat>)
    ensures OnePage(r, p, false) == {}
  {
  }

  lemma FilledMissing(w: World, f: nat, t: Table, root: nat, p: seq<nat>)
    requires Inv(w) && !IsTable(w, f) && f < |w.used| && IsRoot(w, root) && LowPage(p)
    ensures Missing(Overwrite(w, f, t).tables, root, p) == Missing(w.tables, root, p)
  {
    hide Cost, Missing, Inv;
    OverwriteKeepsInv(w, f, t);
    CostIsMissing(w, root, p);
    CostIsMissing(Overwrite(w, f, t), root, p);
    assert TablesOf(Overwrite(w, f, t), root) == TablesOf(w, root);
  }

  /** Without a free frame nothing is added. */
  lemma NothingAdded(w: World, m: Memory, root: nat, virt: nat, contents: Page)
    requires Inv(w) && Covered(w, m) && IsRoot(w, root) && FirstFree(w.used).None?
    ensures PageAdded(w, m, w, m, root, virt, contents)
  {
    hide KeepsOthers, TablesOf;
    NoneFree(w.used);
    KeepsSelf(w, m, {});
    NothingReached(TablesOf(w, root), PathOf(virt), 1);
  }

  lemma {:induction false} NothingReached(there: set<seq<nat>>, p: seq<nat>, k: nat)
    requires |p| == 4
    ensures Reach(there, p, k, 0) == there
    decreases 4 - k
  {
    if k <= 3 && p[..k] in there {
      NothingReached(there, p, k + 1);
    }
  }

  lemma KeepsSelf(w: World, m: Memory, touched: set<(nat, seq<nat>)>)
    requires Inv(w) && Covered(w, m)
    ensures KeepsOthers(w, m, w, m, touched)
  {
    forall r: nat, p: seq<nat> | IsRoot(w, r) && LowPage(p) && (r, p) !in touched ensures KeepsPage(w, m, w, m, r, p) {
      if Resolve(w.tables, r, p).Some? { PageIsOwned(w, r, p); }
    }
  }

  /** The loop body of OSServiceMemoryAllocate: take, map, clear. */
  method AddHeapPage(spaces: AddressSpaces.AddressSpaces, root: nat, virt: nat) returns (found: bool)
    requires spaces.Valid() && IsRoot(spaces.world, root) && virt < LOW_LIMIT
    modifies spaces`memory, spaces`world, spaces.frames.bitmap
    ensures spaces.Valid() && spaces.frames.bitmap == old(spaces.frames.bitmap)
    ensures found <==> FirstFree(old(spaces.world.used)).Some?
    ensures !found ==> spaces.world == old(spaces.world) && spaces.memory == old(spaces.memory)
    ensures PageAdded(old(spaces.world), old(spaces.memory), spaces.world, spaces.memory, root, virt, ZeroPage())
  {
    hide Inv, Resolve, PathOf, LowPage, Cost, Reach, Missing, TablesOf, OnePage;
    hide KeepsOthers, FreeCount, View, TableOf;
    ghost var w0, m0 := spaces.world, spaces.memory;
    ghost var p := PathOf(virt);
    LowAddress(virt);
    var page := spaces.TakeFrame();
    if page == 0 {
      NothingAdded(w0, m0, root, virt, ZeroPage());
      return false;
    }
    var c := page / PAGE;
    PageStock(w0, root, p, c);
    TakeFacts(w0, m0, c, root);
    ghost var w1, m1 := spaces.world, spaces.memory;
    var ok := MapUser(spaces, root, page, virt);
    ghost var w2, m2 := spaces.world, spaces.memory;
    spaces.FillFrame(c, ZeroPage());
    FillFacts(w2, m2, c, ZeroPage(), root, p, ok);
    OnePageTwice(root, p, ok);
    KeepsOthersTwice(w0, m0, w1, m1, w2, m2, {}, OnePage(root, p, ok));
    KeepsOthersTwice(w0, m0, w2, m2, spaces.world, spaces.memory, {} + OnePage(root, p, ok), OnePage(root, p, ok));
    return true;
  }

  /** The loop body of HOTLoad: take, map, clear, copy. The frame is not checked, so without a free one
      frame 0 is mapped, cleared and written. */
  method AddFilledPage(spaces: AddressSpaces.AddressSpaces, root: nat, virt: nat, contents: Page)
    requires spaces.Coherent() && IsRoot(spaces.world, root) && LowPage(PathOf(virt)) && 0 in spaces.world.reserved
    requires Inv(spaces.world) || (FirstFree(spaces.world.used).None? && InMemory(Of(spaces.world), root, PathOf(virt), true))
    modifies spaces`memory, spaces`world, spaces.frames.bitmap
    ensures spaces.Coherent() && spaces.frames.bitmap == old(spaces.frames.bitmap)
    ensures spaces.world.reserved == old(spaces.world.reserved) && |spaces.world.used| == |old(spaces.world.used)|
    ensures FirstFree(old(spaces.world.used)).None? ==>
      && spaces.world == Overwrite(MapNull(old(spaces.world), root, PathOf(virt)), 0, TableOf(contents))
      && 0 in spaces.memory && spaces.memory[0] == contents
      && InMemory(old(Of(spaces.world)), root, PathOf(virt), true)
      && BytesBut(old(spaces.memory), spaces.memory, Edited(old(Of(spaces.world)), root, PathOf(virt), true) + {0})
    ensures old(Inv(spaces.world)) ==>
      && spaces.world == LoadedWorld(old(spaces.world), root, PathOf(virt), TableOf(contents))
      && FrameFilled(old(spaces.world), old(spaces.memory), spaces.world, spaces.memory, contents)
      && (NullSafe(old(spaces.world), root, PathOf(virt)) ==>
        spaces.Valid()
        && PageAdded(old(spaces.world), old(spaces.memory), spaces.world, spaces.memory, root, virt, contents))
  {
    hide Inv, Map, CanMap, MapNull, Resolve, PathOf, LowPage, LoadedWorld, NullSafe, PageAdded, FrameFilled;
    hide KeepsData, View, TableOf, LeafEntry, InMemory, Edited, RawMap;
    ghost var w0, m0 := spaces.world, spaces.memory;
    ghost var p := PathOf(virt);
    var page := spaces.TakeFrame();
    UserLeaf(page);
    if page != 0 {
      MapFreshAllowed(w0, root, p, page / PAGE);
      TakeKeepsRoots(w0, page / PAGE, root);
    } else {
      NullInMemory(w0, root, p);
      NullIsNotOurs(w0, root, p);
    }
    var ok := spaces.MapPage(root, page, virt, USER_FLAGS);
    ghost var w2, m2 := spaces.world, spaces.memory;
    if page != 0 {
      FilledFrame(w0, m0, m2, root, virt, contents, page / PAGE);
    } else {
      NullMapped(w0, m0, w2, m2, root, p);
      if Inv(w0) {
        FilledNull(w0, m0, m2, root, virt, contents);
      }
    }
    FilledTwice(w2, m2, page / PAGE, contents);
    spaces.FillFrame(page / PAGE, ZeroPage());
    spaces.FillFrame(page / PAGE, contents);
  }

  /** Without a free frame the loader's map stays in memory, and is the map of frame 0. */
  lemma NullInMemory(w: World, r: nat, p: seq<nat>)
    requires IsRoot(w, r) && LowPage(p) && FirstFree(w.used).None? && 0 in w.reserved
    requires Inv(w) || InMemory(Of(w), r, p, true)
    ensures InMemory(Of(w), r, p, true) && 0 < |w.used|
    ensures RawMap(Of(w), r, p, NULL_LEAF) == (Of(MapNull(w, r, p)), Missing(w.tables, r, p) == 0)
    ensures Inv(w) ==> CanMap(w, r, p, NO_LEAF)
  {
    hide Inv, CanMap, NullTables, RawMap, Edited, Missing;
    if Inv(w) {
      NullMapAllowed(w, r, p);
      MapIsRaw(w, r, p, NO_LEAF);
    }
    NullIsRaw(Of(w), r, p);
  }

  lemma TakeKeepsRoots(w: World, c: nat, r: nat)
    requires c < |w.used| && IsRoot(w, r)
    ensures IsRoot(Take(w, c), r)
  {
  }

  /** The null frame is nobody's to map. */
  lemma NullIsNotOurs(w: World, r: nat, p: seq<nat>)
    requires IsRoot(w, r) && LowPage(p) && 0 in w.reserved
    ensures !CanMap(w, r, p, NULL_LEAF)
  {
    assert w.owner[r].path + p == p;
  }

  lemma NullMapped(w: World, m: Memory, w': World, m': Memory, r: nat, p: seq<nat>)
    requires IsRoot(w, r) && LowPage(p) && 0 in w.reserved && FirstFree(w.used).None? && InMemory(Of(w), r, p, true)
    requires w' == On(w, Of(w')) && (Of(w'), Missing(w.tables, r, p) == 0) == RawMap(Of(w), r, p, NULL_LEAF)
    requires BytesBut(m, m', Edited(Of(w), r, p, true)) && forall h :: 0 <= h < |w.used| ==> h in m
    ensures w' == MapNull(w, r, p)
    ensures Inv(w) ==> KeepsData(w, m, w', m')
  {
    hide Inv, CanMap, NullTables, RawMap, Edited, Missing, InMemory, Map, IsData;
    NullIsRaw(Of(w), r, p);
    if Inv(w) {
      NullMapAllowed(w, r, p);
      forall h: nat | IsData(w, h) ensures IsData(w', h) && h in m && h in m' && m'[h] == m[h] {
        DataNotEdited(w, r, p, NO_LEAF, h);
        NullKeepsData(w, w', h);
      }
    }
  }

  /** Whose the frames are does not change. */
  lemma NullKeepsData(w: World, w': World, h: nat)
    requires w'.owner == w.owner && w'.loose == w.loose && IsData(w, h)
    ensures IsData(w', h)
  {
  }

  lemma FilledTwice(w: World, m: Memory, f: nat, contents: Page)
    ensures var t := TableOf(contents);
      Overwrite(Overwrite(w, f, TableOf(ZeroPage())), f, t) == Overwrite(w, f, t) && m[f := ZeroPage()][f := contents] == m[f := contents]
  {
    hide TableOf;
  }

  /** The loader's page on a frame of its own. */
  lemma FilledFrame(w: World, m: Memory, m': Memory, root: nat, virt: nat, contents: Page, c: nat)
    requires Inv(w) && Covered(w, m) && IsRoot(w, root) && LowPage(PathOf(virt)) && 0 in w.reserved && FirstFree(w.used) == Some(c)
    ensures CanMap(Take(w, c), root, PathOf(virt), Entry(c, true, true, true))
    ensures var w' := Map(Take(w, c), root, PathOf(virt), Entry(c, true, true, true)).0;
      var w'' := Overwrite(w', c, TableOf(contents));
      KeepsData(Take(w, c), m, w', m') && Covered(w', m') ==>
      && !IsTable(w', c) && c < |w'.used| && w'' == LoadedWorld(w, root, PathOf(virt), TableOf(contents))
      && w''.reserved == w.reserved && |w''.used| == |w.used|
      && FrameFilled(w, m, w'', m'[c := contents], contents)
      && PageAdded(w, m, w'', m'[c := contents], root, virt, contents)
  {
    hide Inv, Map, CanMap, Resolve, PathOf, LowPage, Cost, Reach, Missing, TablesOf, OnePage, KeepsOthers, FreeCount, TableOf;
    hide KeepsData, Covered, FrameFilled;
    var p := PathOf(virt);
    TakeFacts(w, m, c, root);
    PageStock(w, root, p, c);
    FreshFrame(w, root, p, c);
    var w1 := Take(w, c);
    MapFreshAllowed(w, root, p, c);
    TakeKeepsInv(w, c);
    UserMapFacts(w1, m, m', root, c, virt);
    var (w', ok) := Map(w1, root, p, Entry(c, true, true, true));
    if KeepsData(w1, m, w', m') && Covered(w', m') {
      FillFacts(w', m', c, contents, root, p, ok);
      OnePageTwice(root, p, ok);
      KeepsOthersTwice(w, m, w1, m, w', m', {}, OnePage(root, p, ok));
      KeepsOthersTwice(w, m, w', m', Overwrite(w', c, TableOf(contents)), m'[c := contents], {} + OnePage(root, p, ok), OnePage(root, p, ok));
      FilledData(w, m, w1, w', m', c, contents);
    }
  }

  lemma FilledData(w: World, m: Memory, w1: World, w': World, m': Memory, c: nat, contents: Page)
    requires FirstFree(w.used) == Some(c) && w1 == Take(w, c) && KeepsData(w1, m, w', m')
    ensures FrameFilled(w, m, Overwrite(w', c, TableOf(contents)), m'[c := contents], contents)
  {
    hide TableOf;
    forall f: nat | IsData(w, f) && f != c ensures IsData(w', f) && f in m && f in m' && m'[f] == m[f] {
      assert IsData(w1, f);
    }
  }

  /** The loader's page without a frame: frame 0 is overwritten, and mapped if no table is missing. */
  lemma FilledNull(w: World, m: Memory, m': Memory, root: nat, virt: nat, contents: Page)
    requires Inv(w) && Covered(w, m) && IsRoot(w, root) && LowPage(PathOf(virt)) && 0 in w.reserved && FirstFree(w.used).None?
    ensures 0 < |w.used|
    ensures var w' := MapNull(w, root, PathOf(virt)); var w'' := Overwrite(w', 0, TableOf(contents));
      KeepsData(w, m, w', m') && Covered(w', m') ==>
      && w'' == LoadedWorld(w, root, PathOf(virt), TableOf(contents)) && w''.reserved == w.reserved
      && FrameFilled(w, m, w'', m'[0 := contents], contents)
      && (NullSafe(w, root, PathOf(virt)) ==>
        Inv(w') && !IsTable(w', 0) && PageAdded(w, m, w'', m'[0 := contents], root, virt, contents))
  {
    hide Inv, Map, CanMap, Resolve, PathOf, LowPage, Cost, Reach, Missing, TablesOf, OnePage, KeepsOthers, FreeCount, TableOf;
    hide KeepsData, Covered, FrameFilled, NullTables;
    var p := PathOf(virt);
    KernelIsFrame(w);
    NullMapAllowed(w, root, p);
    var w' := MapNull(w, root, p);
    if KeepsData(w, m, w', m') && Covered(w', m') {
      NullData(w, m, w', m', contents);
      if NullSafe(w, root, p) {
        NullLoadWithoutTable(w, root, p, TableOf(contents));
        NullFails(w, root, p);
        FailedMapKeepsOthers(w, m, m', root, p, NO_LEAF);
        MapOtherPage(w, root, p, NO_LEAF, root, p);
        FillFacts(w', m', 0, contents, root, p, false);
        NoPages(root, p);
        KeepsOthersTwice(w, m, w', m', Overwrite(w', 0, TableOf(contents)), m'[0 := contents], {}, {});
        NullStock(w, root, p);
        assert !Fits(w, root, virt);
        OnePageTwice(root, p, false);
      }
    }
  }

  lemma NullData(w: World, m: Memory, w': World, m': Memory, contents: Page)
    requires FirstFree(w.used).None? && KeepsData(w, m, w', m')
    ensures FrameFilled(w, m, Overwrite(w', 0, TableOf(contents)), m'[0 := contents], contents)
  {
    hide TableOf;
  }

  lemma NullStock(w: World, r: nat, p: seq<nat>)
    requires CanMap(w, r, p, NO_LEAF) && IsRoot(w, r) && LowPage(p) && FirstFree(w.used).None?
    requires Map(w, r, p, NO_LEAF) == (MapNull(w, r, p), false)
    ensures StockOf(MapNull(w, r, p), r) == AfterOne(StockOf(w, r), p) && FreeCount(w.used) == 0
  {
    hide Cost, Reach, Missing, TablesOf, FreeCount, NullTables, Map, CanMap;
    NoneFree(w.used);
    RootMapReaches(w, r, p, NO_LEAF);
    MapTakesMissing(w, r, p, NO_LEAF);
  }

  /** The frame that the loader believes to have holds the contents, and no other frame that is mapped
      or handed out has changed. */
  ghost predicate FrameFilled(w: World, m: Memory, w': World, m': Memory, contents: Page) {
    var d := match FirstFree(w.used) case Some(c) => c case None => 0;
    && d in m' && m'[d] == contents
    && forall f: nat :: IsData(w, f) && f != d ==> IsData(w', f) && f in m && f in m' && m'[f] == m[f]
  }

  /** The pages from `virt` on are user pages of the space with these contents. */
  ghost predicate UserPages(w: World, m: Memory, root: nat, virt: nat, contents: seq<Page>) {
    forall k: nat | k < |contents| :: UserPage(w, m, root, PathOf(virt + k * PAGE), contents[k])
  }

  ghost function Zeroed(n: nat): (s: seq<Page>)
    ensures |s| == n && forall k :: 0 <= k < n ==> s[k] == ZeroPage()
  {
    seq(n, i => ZeroPage())
  }

  lemma DistinctPages(virt: nat, i: nat, k: nat)
    requires virt + i * PAGE < LOW_LIMIT && virt + k * PAGE < LOW_LIMIT && i != k
    ensures PathOf(virt + i * PAGE) != PathOf(virt + k * PAGE)
  {
    hide PathOf;
    PathOfPage(virt + i * PAGE, virt + k * PAGE);
    PageNumber(virt, i);
    PageNumber(virt, k);
  }

  lemma PageNumber(virt: nat, i: nat)
    requires virt + i * PAGE < LOW_LIMIT
    ensures (virt + i * PAGE) / PAGE % 0x10_0000_0000 == virt / PAGE + i
  {
    Bits.RemainderIs(virt + i * PAGE, PAGE, virt / PAGE + i, virt % PAGE);
  }

  lemma RangeGrows(root: nat, virt: nat, i: nat)
    ensures Range(root, virt, i + 1) == Range(root, virt, i) + {(root, PathOf(virt + i * PAGE))}
    ensures Range(root, virt, 0) == {}
  {
    hide PathOf;
  }

  /** The frames that the first `n` pages from `virt` on take, with their tables. */
  ghost function Demand(w: World, root: nat, virt: nat, n: nat): nat {
    Needed(TablesOf(w, root), Paths(virt, n))
  }

  ghost predicate Enough(w: World, root: nat, virt: nat, n: nat) {
    Demand(w, root, virt, n) <= FreeCount(w.used)
  }

  lemma FramesGrow(w: World, root: nat, virt: nat, i: nat, n: nat)
    requires i < n
    ensures Demand(w, root, virt, i) < Demand(w, root, virt, n)
  {
    hide PathOf, Cost;
    PathsStart(virt, i, i);
    NeededOne(TablesOf(w, root), Paths(virt, i), PathOf(virt + i * PAGE));
    PathsStart(virt, n, i + 1);
    NeededGrows(TablesOf(w, root), Paths(virt, n), i + 1, n);
    assert Paths(virt, n)[..n] == Paths(virt, n);
  }

  /** Page `k` of the range has the contents, if the frames reach so far; else it is as it was. */
  ghost predicate PageResult(w: World, m: Memory, w': World, m': Memory, root: nat, virt: nat, k: nat, page: Page) {
    if Enough(w, root, virt, k + 1) then UserPage(w', m', root, PathOf(virt + k * PAGE), page)
    else KeepsPage(w, m, w', m', root, PathOf(virt + k * PAGE))
  }

  /** What a loop that adds pages one by one has done after the pages in `contents`. */
  ghost predicate PagesAdded(w: World, m: Memory, w': World, m': Memory, root: nat, virt: nat, contents: seq<Page>) {
    && IsRoot(w', root)
    && KeepsOthers(w, m, w', m', Range(root, virt, |contents|))
    && StockOf(w', root) == After(StockOf(w, root), Paths(virt, |contents|))
    && forall k: nat | k < |contents| :: PageResult(w, m, w', m', root, virt, k, contents[k])
  }

  lemma AddedPages(w: World, m: Memory, w': World, m': Memory, root: nat, virt: nat, contents: seq<Page>)
    requires PagesAdded(w, m, w', m', root, virt, contents) && Enough(w, root, virt, |contents|)
    ensures UserPages(w', m', root, virt, contents)
    ensures StockOf(w', root) ==
      Stock(TablesOf(w, root) + AllPrefixes(Paths(virt, |contents|)), FreeCount(w.used) - Demand(w, root, virt, |contents|))
  {
    hide UserPage, KeepsPage, PathOf, Needed, AllPrefixes, FreeCount, TablesOf;
    NeededDecides(StockOf(w, root), Paths(virt, |contents|));
    forall k: nat | k < |contents| ensures UserPage(w', m', root, PathOf(virt + k * PAGE), contents[k]) {
      if k + 1 < |contents| {
        FramesGrow(w, root, virt, k + 1, |contents|);
      }
      assert PageResult(w, m, w', m', root, virt, k, contents[k]);
    }
  }

  lemma NoPagesAdded(w: World, m: Memory, root: nat, virt: nat)
    requires Inv(w) && Covered(w, m) && IsRoot(w, root)
    ensures PagesAdded(w, m, w, m, root, virt, [])
  {
    hide KeepsOthers;
    RangeGrows(root, virt, 0);
    KeepsSelf(w, m, {});
  }

  lemma KeepsOthersWider(w: World, m: Memory, w': World, m': Memory, s: set<(nat, seq<nat>)>, s': set<(nat, seq<nat>)>)
    requires KeepsOthers(w, m, w', m', s) && s <= s'
    ensures KeepsOthers(w, m, w', m', s')
  {
    hide KeepsPage;
  }

  lemma KeepsPageTwice(w: World, m: Memory, w': World, m': Memory, w'': World, m'': Memory, r: nat, p: seq<nat>, page: Page)
    requires |p| > 0 && KeepsPage(w', m', w'', m'', r, p)
    ensures KeepsPage(w, m, w', m', r, p) ==> KeepsPage(w, m, w'', m'', r, p)
    ensures UserPage(w', m', r, p, page) ==> UserPage(w'', m'', r, p, page)
  {
    hide Resolve;
  }

  lemma EarlierResultsKept(w: World, m: Memory, w1: World, m1: Memory, w2: World, m2: Memory, root: nat, virt: nat, contents: seq<Page>)
    requires IsRoot(w1, root) && virt + |contents| * PAGE < LOW_LIMIT
    requires KeepsOthers(w1, m1, w2, m2, {(root, PathOf(virt + |contents| * PAGE))})
    requires forall k: nat | k < |contents| :: PageResult(w, m, w1, m1, root, virt, k, contents[k])
    ensures forall k: nat | k < |contents| :: PageResult(w, m, w2, m2, root, virt, k, contents[k])
  {
    hide PathOf, Resolve, Enough, UserPage, KeepsPage;
    forall k: nat | k < |contents| ensures PageResult(w, m, w2, m2, root, virt, k, contents[k]) {
      DistinctPages(virt, |contents|, k);
      LowAddress(virt + k * PAGE);
      assert PageResult(w, m, w1, m1, root, virt, k, contents[k]);
      assert KeepsPage(w1, m1, w2, m2, root, PathOf(virt + k * PAGE));
      KeepsPageTwice(w, m, w1, m1, w2, m2, root, PathOf(virt + k * PAGE), contents[k]);
    }
  }

  lemma NotInRange(root: nat, virt: nat, n: nat)
    requires virt + n * PAGE < LOW_LIMIT
    ensures (root, PathOf(virt + n * PAGE)) !in Range(root, virt, n)
  {
    hide PathOf;
    forall i: nat | i < n ensures PathOf(virt + i * PAGE) != PathOf(virt + n * PAGE) {
      DistinctPages(virt, i, n);
    }
  }

  lemma OneMorePage(w: World, m: Memory, w1: World, m1: Memory, w2: World, m2: Memory, root: nat, virt: nat,
                    contents: seq<Page>, page: Page)
    requires IsRoot(w, root) && IsRoot(w1, root) && virt + |contents| * PAGE < LOW_LIMIT
    requires PagesAdded(w, m, w1, m1, root, virt, contents)
    requires PageAdded(w1, m1, w2, m2, root, virt + |contents| * PAGE, page)
    ensures PagesAdded(w, m, w2, m2, root, virt, contents + [page])
  {
    hide KeepsOthers, PathOf, UserPage, KeepsPage, StockOf, After, AfterOne, Enough, Fits, PageResult;
    var n, p := |contents|, PathOf(virt + |contents| * PAGE);
    RangeGrows(root, virt, n);
    KeepsOthersTwice(w, m, w1, m1, w2, m2, Range(root, virt, n), OnePage(root, p, Fits(w1, root, virt + n * PAGE)));
    KeepsOthersWider(w, m, w2, m2, Range(root, virt, n) + OnePage(root, p, Fits(w1, root, virt + n * PAGE)), Range(root, virt, n + 1));
    KeepsOthersWider(w1, m1, w2, m2, OnePage(root, p, Fits(w1, root, virt + n * PAGE)), {(root, p)});
    NextFits(w, w1, root, virt, n);
    EarlierResultsKept(w, m, w1, m1, w2, m2, root, virt, contents);
    LastResult(w, m, w1, m1, w2, m2, root, virt, n, page);
  }

  lemma NextFits(w: World, w1: World, root: nat, virt: nat, n: nat)
    requires StockOf(w1, root) == After(StockOf(w, root), Paths(virt, n))
    ensures Enough(w, root, virt, n + 1) <==> Fits(w1, root, virt + n * PAGE)
    ensures After(StockOf(w, root), Paths(virt, n + 1)) == AfterOne(StockOf(w1, root), PathOf(virt + n * PAGE))
  {
    hide PathOf, Cost, AfterOne, After, Needed, FreeCount, TablesOf;
    PathsStart(virt, n, n);
    OneMoreFits(StockOf(w, root), Paths(virt, n), PathOf(virt + n * PAGE));
  }

  lemma LastResult(w: World, m: Memory, w1: World, m1: Memory, w2: World, m2: Memory, root: nat, virt: nat, n: nat, page: Page)
    requires IsRoot(w, root) && IsRoot(w1, root) && virt + n * PAGE < LOW_LIMIT
    requires KeepsOthers(w, m, w1, m1, Range(root, virt, n))
    requires PageAdded(w1, m1, w2, m2, root, virt + n * PAGE, page)
    requires Enough(w, root, virt, n + 1) <==> Fits(w1, root, virt + n * PAGE)
    ensures PageResult(w, m, w2, m2, root, virt, n, page)
  {
    hide PathOf, UserPage, KeepsPage, AfterOne, Cost, FreeCount, TablesOf, Enough, Fits;
    var p := PathOf(virt + n * PAGE);
    LowAddress(virt + n * PAGE);
    NotInRange(root, virt, n);
    if !Fits(w1, root, virt + n * PAGE) {
      assert KeepsPage(w, m, w1, m1, root, p);
      assert KeepsPage(w1, m1, w2, m2, root, p);
      KeepsPageTwice(w, m, w1, m1, w2, m2, root, p, page);
    }
  }

  /** A frame is found for page `n` exactly if the pages before have left one. */
  lemma FoundIsLeft(w: World, m: Memory, w1: World, m1: Memory, root: nat, virt: nat, contents: seq<Page>)
    requires PagesAdded(w, m, w1, m1, root, virt, contents)
    ensures FirstFree(w1.used).Some? <==> Demand(w, root, virt, |contents|) < FreeCount(w.used)
  {
    hide KeepsOthers, PageResult, Needed, AllPrefixes, FreeCount, TablesOf;
    NeededDecides(StockOf(w, root), Paths(virt, |contents|));
    NoneFree(w1.used);
  }

  /** The four stack pages have all their tables in common. */
  lemma StackTables(w: World, root: nat)
    ensures Demand(w, root, STACK_BOTTOM, 4) == Demand(w, root, STACK_BOTTOM, 3) + 1
  {
    hide PathOf, Needed, TablesOf, Prefixes;
    var there := TablesOf(w, root);
    PathsStart(STACK_BOTTOM, 3, 3);
    NeededOne(there, Paths(STACK_BOTTOM, 3), PathOf(STACK_BOTTOM + 3 * PAGE));
    PathsStart(STACK_BOTTOM, 0, 0);
    PathsStart(STACK_BOTTOM, 3, 1);
    NeededOne(there, [], PathOf(STACK_BOTTOM));
    PrefixesOfFirst(Paths(STACK_BOTTOM, 3));
    StackPaths();
    AllThere(there + AllPrefixes(Paths(STACK_BOTTOM, 3)), PathOf(STACK_BOTTOM), PathOf(STACK_BOTTOM + 3 * PAGE));
  }

  lemma PrefixesOfFirst(pages: seq<seq<nat>>)
    requires ArePages(pages) && pages != []
    ensures Prefixes(pages[0]) <= AllPrefixes(pages)
  {
  }

  lemma StackPaths()
    ensures PathOf(STACK_BOTTOM + 3 * PAGE)[..3] == PathOf(STACK_BOTTOM)[..3]
  {
    hide PathOf;
    PathIs(STACK_BOTTOM);
    PathIs(STACK_BOTTOM + 3 * PAGE);
  }

  /** VMVirtualMemorySetupUserStack; false stands for its panic, which comes exactly if the free frames
      do not cover the four pages and their tables. Otherwise these are zeroed user pages; no other
      low-half page of any space has changed. Where the loader has used up the frames and left the tables
      in disorder, it panics at the first page. */
  method SetupUserStack(spaces: AddressSpaces.AddressSpaces, root: nat) returns (ok: bool)
    requires spaces.Coherent() && (spaces.Valid() || FirstFree(spaces.world.used).None?) && IsRoot(spaces.world, root)
    modifies spaces`memory, spaces`world, spaces.frames.bitmap
    ensures spaces.Coherent() && spaces.frames.bitmap == old(spaces.frames.bitmap)
    ensures !old(spaces.Valid()) ==> !ok && spaces.world == old(spaces.world) && spaces.memory == old(spaces.memory)
    ensures old(spaces.Valid()) ==> spaces.Valid() && (ok <==> Enough(old(spaces.world), root, STACK_BOTTOM, 4))
    ensures ok ==> PagesAdded(old(spaces.world), old(spaces.memory), spaces.world, spaces.memory, root, STACK_BOTTOM, Zeroed(4))
    ensures old(spaces.Valid()) ==> exists n: nat | n <= 4 ::
      PagesAdded(old(spaces.world), old(spaces.memory), spaces.world, spaces.memory, root, STACK_BOTTOM, Zeroed(n))
  {
    hide Inv, PagesAdded, PageAdded, View;
    hide FreeCount, Demand;
    ghost var w0, m0 := spaces.world, spaces.memory;
    var address := STACK_BOTTOM;
    ghost var i := 0;
    assert Zeroed(0) == [];
    if Inv(w0) {
      NoPagesAdded(w0, m0, root, address);
    }
    while address < STACK_TOP
      invariant spaces.Coherent() && spaces.frames.bitmap == old(spaces.frames.bitmap) && IsRoot(spaces.world, root)
      invariant i <= 4 && address == STACK_BOTTOM + i * PAGE
      invariant !Inv(w0) ==> spaces.world == w0 && spaces.memory == m0 && i == 0
      invariant Inv(w0) ==> spaces.Valid() && PagesAdded(w0, m0, spaces.world, spaces.memory, root, STACK_BOTTOM, Zeroed(i))
      invariant Inv(w0) && i > 0 ==> Demand(w0, root, STACK_BOTTOM, i - 1) < FreeCount(w0.used)
    {
      ghost var w1, m1 := spaces.world, spaces.memory;
      var found := AddStackPage(spaces, root, address);
      if Inv(w0) {
        FoundIsLeft(w0, m0, w1, m1, root, STACK_BOTTOM, Zeroed(i));
        FramesGrow(w0, root, STACK_BOTTOM, i, 4);
      }
      if !found {
        return false;
      }
      PageAddedRoot(w1, m1, spaces.world, spaces.memory, root, address, ZeroPage());
      OneMorePage(w0, m0, w1, m1, spaces.world, spaces.memory, root, STACK_BOTTOM, Zeroed(i), ZeroPage());
      assert Zeroed(i) + [ZeroPage()] == Zeroed(i + 1);
      address := address + PAGE;
      i := i + 1;
    }
    StackTables(w0, root);
    return true;
  }

  lemma PageAddedRoot(w: World, m: Memory, w': World, m': Memory, root: nat, virt: nat, page: Page)
    requires PageAdded(w, m, w', m', root, virt, page)
    ensures IsRoot(w', root)
    ensures FirstFree(w.used).Some? ==> FreeCount(w'.used) < FreeCount(w.used)
  {
    hide KeepsOthers, UserPage, PathOf, TablesOf, FreeCount;
    NoneFree(w.used);
  }

  /** The pages a request of `size` bytes asks for; the rounding wraps in 64 bits. */
  function PagesFor(size: nat): nat {
    (size + (PAGE - 1)) % WORD_LIMIT / PAGE
  }

  lemma PagesCover(size: nat)
    requires size < WORD_LIMIT
    ensures PagesFor(size) * PAGE >= size <==> size <= WORD_LIMIT - PAGE
    ensures size <= WORD_LIMIT - PAGE ==> PagesFor(size) * PAGE < size + PAGE
  {
  }

  /** The largest request asks for no page. */
  lemma LargestRequestGetsNothing()
    ensures PagesFor(WORD_LIMIT - 1) == 0
  {
  }

  function Fewer(x: nat, y: nat): nat {
    if x < y then x else y
  }

  /** Every page of the request finds a frame for itself, though perhaps the last none for its tables. */
  ghost predicate Granted(w: World, root: nat, virt: nat, n: nat) {
    n == 0 || Demand(w, root, virt, n - 1) < FreeCount(w.used)
  }

  /** OSServiceMemoryAllocate: grows the process heap page by page. It returns the old end of the heap
      when every page found a frame, and 0 for an empty request or else; pages added before that stay. */
  method ServiceMemoryAllocate(spaces: AddressSpaces.AddressSpaces, process: Process, size: nat) returns (address: nat)
    requires spaces.Valid() && IsRoot(spaces.world, process.root) && size < WORD_LIMIT
    requires process.heapCurrent > 0
    requires process.heapCurrent + Fewer(PagesFor(size), FreeCount(spaces.world.used)) * PAGE < LOW_LIMIT
    modifies spaces`memory, spaces`world, spaces.frames.bitmap, process
    ensures spaces.Valid() && spaces.frames.bitmap == old(spaces.frames.bitmap)
    ensures address == 0 || address == old(process.heapCurrent)
    ensures address != 0 <==> size > 0 && Granted(old(spaces.world), process.root, old(process.heapCurrent), PagesFor(size))
    ensures exists n: nat ::
      && process.heapCurrent == old(process.heapCurrent) + n * PAGE
      && PagesAdded(old(spaces.world), old(spaces.memory), spaces.world, spaces.memory, process.root, old(process.heapCurrent), Zeroed(n))
      && Granted(old(spaces.world), process.root, old(process.heapCurrent), n)
      && if address != 0 then n == PagesFor(size)
         else size == 0 ==> n == 0
    ensures address == 0 && size > 0 ==> FirstFree(spaces.world.used).None?
  {
    hide Inv, PagesAdded, PageAdded, View;
    hide FreeCount, PagesFor, Demand;
    ghost var w0, m0 := spaces.world, spaces.memory;
    ghost var base := process.heapCurrent;
    NoPagesAdded(w0, m0, process.root, base);
    assert Zeroed(0) == [];
    if size == 0 {
      return 0;
    }
    address := process.heapCurrent;
    var pages := PagesFor(size);
    for i := 0 to pages
      invariant spaces.Valid() && spaces.frames.bitmap == old(spaces.frames.bitmap)
      invariant process.heapCurrent == base + i * PAGE
      invariant process.heapCurrent + Fewer(pages - i, FreeCount(spaces.world.used)) * PAGE < LOW_LIMIT
      invariant IsRoot(spaces.world, process.root)
      invariant PagesAdded(w0, m0, spaces.world, spaces.memory, process.root, base, Zeroed(i))
      invariant Granted(w0, process.root, base, i)
    {
      ghost var w1, m1 := spaces.world, spaces.memory;
      FoundIsLeft(w0, m0, w1, m1, process.root, base, Zeroed(i));
      var found := AddHeapPage(spaces, process.root, process.heapCurrent);
      if !found {
        if i < pages - 1 {
          FramesGrow(w0, process.root, base, i, pages - 1);
        }
        return 0;
      }
      PageAddedRoot(w1, m1, spaces.world, spaces.memory, process.root, process.heapCurrent, ZeroPage());
      OneMorePage(w0, m0, w1, m1, spaces.world, spaces.memory, process.root, base, Zeroed(i), ZeroPage());
      assert Zeroed(i) + [ZeroPage()] == Zeroed(i + 1);
      process.heapCurrent := process.heapCurrent + PAGE;
    }
  }

  /** A granted request is backed by pages, if its last page was not mapped before, exactly if the frames
      reach for the tables of that last page as well. */
  lemma GrantIsBacked(w: World, m: Memory, w': World, m': Memory, root: nat, heap: nat, n: nat)
    requires PagesAdded(w, m, w', m', root, heap, Zeroed(n)) && n > 0
    requires Granted(w, root, heap, n) && Resolve(w.tables, root, PathOf(heap + (n - 1) * PAGE)).None?
    ensures UserPages(w', m', root, heap, Zeroed(n)) <==> Enough(w, root, heap, n)
    ensures UserPages(w', m', root, heap, Zeroed(n - 1))
  {
    hide PathOf, Resolve, Needed, Demand, FreeCount;
    if Enough(w, root, heap, n) {
      AddedPages(w, m, w', m', root, heap, Zeroed(n));
    } else {
      assert PageResult(w, m, w', m', root, heap, n - 1, Zeroed(n)[n - 1]);
    }
    forall k: nat | k < n - 1 ensures UserPage(w', m', root, PathOf(heap + k * PAGE), ZeroPage()) {
      if k + 1 < n - 1 {
        FramesGrow(w, root, heap, k + 1, n - 1);
      }
      assert PageResult(w, m, w', m', root, heap, k, Zeroed(n)[k]);
    }
  }

  /** One page asked for, one frame free, and a table missing: granted, and not mapped. */
  lemma GrantWithoutPage(w: World, root: nat, heap: nat)
    requires FreeCount(w.used) == 1 && Cost(TablesOf(w, root), PathOf(heap)) > 1
    ensures Granted(w, root, heap, 1) && !Enough(w, root, heap, 1)
  {
    hide PathOf, Cost, FreeCount, TablesOf;
    PathsStart(heap, 0, 0);
    NeededOne(TablesOf(w, root), [], PathOf(heap));
    assert Paths(heap, 0) == [];
    assert TablesOf(w, root) + AllPrefixes([]) == TablesOf(w, root);
    assert heap + 0 * PAGE == heap;
  }

  // ---------- the heap and the stack ----------

  ghost predicate ClearOfStack(heap: nat, n: nat) {
    heap + n * PAGE <= STACK_BOTTOM || STACK_TOP <= heap
  }

  lemma PathsDiffer(a: nat, b: nat)
    requires a < LOW_LIMIT && b < LOW_LIMIT && a % PAGE == 0 && b % PAGE == 0
    ensures PathOf(a) == PathOf(b) <==> a == b
  {
    hide PathOf;
    PathOfPage(a, b);
  }

  /** A page that is both in the heap's growth and in the stack. */
  lemma SharedPage(heap: nat, n: nat) returns (i: nat, k: nat)
    requires heap % PAGE == 0 && n > 0 && !ClearOfStack(heap, n)
    ensures i < n && k < 4 && heap + i * PAGE == STACK_BOTTOM + k * PAGE
  {
    if heap <= STACK_BOTTOM {
      i, k := (STACK_BOTTOM - heap) / PAGE, 0;
    } else {
      i, k := 0, (heap - STACK_BOTTOM) / PAGE;
    }
  }

  lemma StackKept(w: World, m: Memory, w': World, m': Memory, root: nat, heap: nat, n: nat, stack: seq<Page>)
    requires IsRoot(w, root) && heap % PAGE == 0 && heap + n * PAGE < LOW_LIMIT && ClearOfStack(heap, n)
    requires KeepsOthers(w, m, w', m', Range(root, heap, n)) && |stack| == 4 && UserPages(w, m, root, STACK_BOTTOM, stack)
    ensures UserPages(w', m', root, STACK_BOTTOM, stack)
  {
    hide PathOf, KeepsPage, UserPage;
    forall k: nat | k < 4 ensures UserPage(w', m', root, PathOf(STACK_BOTTOM + k * PAGE), stack[k]) {
      LowAddress(STACK_BOTTOM + k * PAGE);
      forall i: nat | i < n ensures PathOf(heap + i * PAGE) != PathOf(STACK_BOTTOM + k * PAGE) {
        PathsDiffer(heap + i * PAGE, STACK_BOTTOM + k * PAGE);
      }
      assert (root, PathOf(STACK_BOTTOM + k * PAGE)) !in Range(root, heap, n);
      assert UserPage(w, m, root, PathOf(STACK_BOTTOM + k * PAGE), stack[k]);
      KeepsPageTwice(w, m, w, m, w', m', root, PathOf(STACK_BOTTOM + k * PAGE), stack[k]);
    }
  }

  lemma StackLost(w: World, m: Memory, root: nat, heap: nat, n: nat, stack: seq<Page>)
    requires heap % PAGE == 0 && n > 0 && !ClearOfStack(heap, n) && UserPages(w, m, root, heap, Zeroed(n)) && |stack| == 4
    ensures exists k: nat :: k < 4 && UserPage(w, m, root, PathOf(STACK_BOTTOM + k * PAGE), ZeroPage())
    ensures ZeroPage() !in stack ==> !UserPages(w, m, root, STACK_BOTTOM, stack)
  {
    hide PathOf, Resolve;
    var i, k := SharedPage(heap, n);
    assert UserPage(w, m, root, PathOf(heap + i * PAGE), Zeroed(n)[i]);
    assert stack[k] in stack;
    assert UserPage(w, m, root, PathOf(STACK_BOTTOM + k * PAGE), ZeroPage());
    if UserPages(w, m, root, STACK_BOTTOM, stack) {
      assert UserPage(w, m, root, PathOf(STACK_BOTTOM + k * PAGE), stack[k]);
    }
  }

  /** Growing the heap by `n` zeroed pages leaves the stack alone when the pages lie below or above it;
      otherwise a stack page has been remapped to a zeroed one, so that a stack in use, with no page
      all zero, is left alone exactly when they do. */
  lemma GrowthKeepsStack(w: World, m: Memory, w': World, m': Memory, root: nat, heap: nat, n: nat, stack: seq<Page>)
    requires IsRoot(w, root) && heap % PAGE == 0 && n > 0 && heap + n * PAGE < LOW_LIMIT
    requires PagesAdded(w, m, w', m', root, heap, Zeroed(n)) && Enough(w, root, heap, n)
    requires |stack| == 4 && UserPages(w, m, root, STACK_BOTTOM, stack)
    ensures ClearOfStack(heap, n) ==> UserPages(w', m', root, STACK_BOTTOM, stack)
    ensures !ClearOfStack(heap, n) ==> exists k: nat :: k < 4 && UserPage(w', m', root, PathOf(STACK_BOTTOM + k * PAGE), ZeroPage())
    ensures ZeroPage() !in stack ==> (UserPages(w', m', root, STACK_BOTTOM, stack) <==> ClearOfStack(heap, n))
  {
    hide PathOf, UserPage, UserPages, KeepsOthers, Enough, PageResult, StockOf, After;
    AddedPages(w, m, w', m', root, heap, Zeroed(n));
    if ClearOfStack(heap, n) {
      StackKept(w, m, w', m', root, heap, n, stack);
    } else {
      StackLost(w', m', root, heap, n, stack);
    }
  }

  /** From the heap's first address, the last page that a process may ask for in all is the one below
      the stack; one page more is the lowest stack page. */
  lemma HeapMeetsStack()
    ensures ClearOfStack(HEAP_START, 0x2FFFC) && !ClearOfStack(HEAP_START, 0x2FFFD)
    ensures PathOf(HEAP_START + 0x2FFFC * PAGE) == PathOf(STACK_BOTTOM)
  {
    assert HEAP_START + 0x2FFFC * PAGE == STACK_BOTTOM;
  }
}
