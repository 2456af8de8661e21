/** Whole runs: address-space creation, fresh user pages, kernel maps and memory writes in any
    order keep every frame in one place and every process's pages its own. */
module Isolation {
  import opened Common
  import opened FrameBitmap
  import opened PageTables
  import opened Mappings
  import opened NullFrame

  /** The lowest free frame, handed to the caller. */
  ghost function Take(w: World, c: nat): World
    requires c < |w.used|
  {
    World(w.kernel, w.used[c := true], w.tables, w.owner, w.reserved, w.loose + {c})
  }

  lemma TakeKeepsInv(w: World, c: nat)
    requires Inv(w) && c < |w.used| && !w.used[c]
    ensures Inv(Take(w, c))
  {
    var w' := Take(w, c);
    forall g <- w'.owner ensures GoodPlace(w', g) {
      assert GoodPlace(w, g);
    }
    forall g, j | IsTable(w', g) && At(w'.tables, g, j).present ensures GoodLink(w', g, j) {
      assert IsTable(w, g) && GoodLink(w, g, j);
    }
    assert UserPaths(w') && SharedHalf(w');
    assert Supervisor(w') by { assert forall g, j :: HighSlot(w', g, j) ==> HighSlot(w, g, j); }
  }

  /** What the memory stack does after boot. `MapFresh` is the step that the user stack and SYS_MEM
      repeat; `LoadPage` that of the program loader, which does not look whether it got a frame;
      `Fill` is a write through the direct map to a frame just handed out; `UserWrite` any store by a
      process, at whatever address, to a page that the hardware lets it write. */
  datatype Step =
    | Create
    | MapFresh(space: nat, page: seq<nat>)
    | LoadPage(space: nat, page: seq<nat>, contents: Table)
    | KernelMap(page: seq<nat>, leaf: Entry)
    | KernelUnmap(page: seq<nat>)
    | Fill(frame: nat, contents: Table)
    | UserWrite(space: nat, page: seq<nat>, contents: Table)

  ghost predicate LowPage(p: seq<nat>) {
    |p| == 4 && IsPath(p) && p[0] < KERNEL_SLOT
  }

  ghost predicate HighPage(p: seq<nat>) {
    |p| == 4 && IsPath(p) && p[0] >= KERNEL_SLOT
  }

  /** The loader maps no page to the null frame: it gets a frame, or finds a table missing. */
  ghost predicate NullSafe(w: World, r: nat, p: seq<nat>)
    requires |p| > 0
  {
    FirstFree(w.used).Some? || Missing(w.tables, r, p) > 0
  }

  ghost predicate Enabled(w: World, s: Step) {
    match s
    case Create => true
    case MapFresh(r, p) => IsRoot(w, r) && LowPage(p)
    case LoadPage(r, p, t) => IsRoot(w, r) && LowPage(p) && 0 in w.reserved && NullSafe(w, r, p)
    case KernelMap(p, leaf) => HighPage(p) && !leaf.user
    case KernelUnmap(p) => HighPage(p)
    case Fill(f, t) => f in w.loose
    case UserWrite(r, p, t) =>
      IsRoot(w, r) && |p| == 4 && IsPath(p) && var a := Resolve(w.tables, r, p); a.Some? && a.value.user && a.value.writable
  }

  /** The kernel half of every space is closed to the user. */
  lemma KernelHalfIsClosed(w: World, r: nat, p: seq<nat>)
    requires Inv(w) && IsRoot(w, r) && HighPage(p)
    ensures var a := Resolve(w.tables, r, p); a.Some? ==> !a.value.user
  {
    assert HighSlot(w, r, p[0]) && !UserEntry(w.tables, r, p[0]);
  }

  /** So whatever a process may store to is a low-half page of its own. */
  lemma StoreIsLow(w: World, r: nat, p: seq<nat>, t: Table)
    requires Inv(w) && Enabled(w, UserWrite(r, p, t))
    ensures LowPage(p)
    ensures var f := Resolve(w.tables, r, p).value.frame;
      f in w.owner && w.owner[f].space == r && w.owner[f].path == p && !IsTable(w, f)
  {
    hide Inv, Resolve;
    if !LowPage(p) {
      KernelHalfIsClosed(w, r, p);
    }
    PageIsOwned(w, r, p);
  }

  lemma MapFreshAllowed(w: World, r: nat, p: seq<nat>, c: nat)
    requires Inv(w) && IsRoot(w, r) && LowPage(p) && c < |w.used| && !w.used[c]
    ensures CanMap(Take(w, c), r, p, Entry(c, true, true, true))
  {
    TakeKeepsInv(w, c);
    assert (Take(w, c).owner[r].path + p) == p;
  }

  lemma KernelMapAllowed(w: World, p: seq<nat>, leaf: Entry)
    requires Inv(w) && HighPage(p) && !leaf.user
    ensures CanMap(w, w.kernel, p, leaf) && CanUnmap(w, w.kernel, p)
  {
    assert w.owner[w.kernel].path + p == p;
  }

  lemma NullMapAllowed(w: World, r: nat, p: seq<nat>)
    requires Inv(w) && IsRoot(w, r) && LowPage(p)
    ensures CanMap(w, r, p, NO_LEAF)
  {
    assert w.owner[r].path + p == p;
  }

  /** The loader's page: a frame taken, mapped and filled; without a free frame, frame 0. */
  ghost function LoadedWorld(w: World, r: nat, p: seq<nat>, contents: Table): World
    requires Inv(w) && IsRoot(w, r) && LowPage(p)
  {
    if FirstFree(w.used).None? then Overwrite(MapNull(w, r, p), 0, contents)
    else
      MapFreshAllowed(w, r, p, FirstFree(w.used).value);
      var c := FirstFree(w.used).value;
      Overwrite(Map(Take(w, c), r, p, Entry(c, true, true, true)).0, c, contents)
  }

  ghost function Apply(w: World, s: Step): World
    requires Inv(w) && Enabled(w, s)
  {
    match s
    case Create => if FirstFree(w.used).None? then w else CreateSpace(w, FirstFree(w.used).value)
    case MapFresh(r, p) =>
      if FirstFree(w.used).None? then w
      else
        MapFreshAllowed(w, r, p, FirstFree(w.used).value);
        Map(Take(w, FirstFree(w.used).value), r, p, Entry(FirstFree(w.used).value, true, true, true)).0
    case LoadPage(r, p, t) => LoadedWorld(w, r, p, t)
    case KernelMap(p, leaf) => KernelMapAllowed(w, p, leaf); Map(w, w.kernel, p, leaf).0
    case KernelUnmap(p) => KernelMapAllowed(w, p, ABSENT); Unmap(w, w.kernel, p)
    case Fill(f, t) => Overwrite(w, f, t)
    case UserWrite(r, p, t) => Overwrite(w, Resolve(w.tables, r, p).value.frame, t)
  }

  lemma ApplyKeepsInv(w: World, s: Step)
    requires Inv(w) && Enabled(w, s)
    ensures var w' := Apply(w, s);
      Inv(w') && w'.kernel == w.kernel && |w'.used| == |w.used| && w'.reserved == w.reserved
  {
    match s
    case Create =>
      if FirstFree(w.used).Some? { CreateKeepsInv(w, FirstFree(w.used).value); }
    case MapFresh(r, p) =>
      if FirstFree(w.used).Some? {
        var c := FirstFree(w.used).value;
        MapFreshAllowed(w, r, p, c);
        MapKeepsInv(Take(w, c), r, p, Entry(c, true, true, true));
      }
    case LoadPage(r, p, t) =>
      LoadKeepsInv(w, r, p, t);
    case KernelMap(p, leaf) =>
      KernelMapAllowed(w, p, leaf);
      MapKeepsInv(w, w.kernel, p, leaf);
    case KernelUnmap(p) =>
      KernelMapAllowed(w, p, ABSENT);
      UnmapKeepsInv(w, w.kernel, p);
    case Fill(f, t) =>
      OverwriteKeepsInv(w, f, t);
    case UserWrite(r, p, t) =>
      StoreIsLow(w, r, p, t);
      OverwriteKeepsInv(w, Resolve(w.tables, r, p).value.frame, t);
  }

  // ---------- the loader and the null frame ----------

  /** A frame in hand is not made a table, and is still loose when the map fails. */
  lemma {:induction false} MapKeepsLoose(w: World, f: nat, p: seq<nat>, leaf: Entry, c: nat)
    requires CanMap(w, f, p, leaf) && c in w.loose
    ensures var (w', ok) := Map(w, f, p, leaf);
      && (!ok ==> c in w'.loose)
      && (c in w'.loose || (c == leaf.frame && c in w'.owner))
    decreases |p|
  {
    hide Inv, MayEdit, Resolve, At;
    if |p| == 1 {
      CanSetLast(w, f, p, leaf);
    } else {
      MapStep(w, f, p, leaf);
      if NextTable(w, f, p[0], leaf.user).1.Some? {
        MapKeepsLoose(NextTable(w, f, p[0], leaf.user).0, NextTable(w, f, p[0], leaf.user).1.value, p[1..], leaf, c);
      }
    }
  }

  /** The frame taken for a page is no table after the map, and belongs to that page if to any. */
  lemma FreshFrame(w: World, r: nat, p: seq<nat>, c: nat)
    requires Inv(w) && IsRoot(w, r) && LowPage(p) && c < |w.used| && !w.used[c]
    ensures CanMap(Take(w, c), r, p, Entry(c, true, true, true))
    ensures var (w', ok) := Map(Take(w, c), r, p, Entry(c, true, true, true));
      && Inv(w') && !IsTable(w', c) && IsRoot(w', r)
      && w'.kernel == w.kernel && |w'.used| == |w.used| && w'.reserved == w.reserved
      && (c in w'.owner ==> w'.owner[c].space == r && w'.owner[c].path == p)
  {
    hide Map;
    var leaf := Entry(c, true, true, true);
    MapFreshAllowed(w, r, p, c);
    var w1 := Take(w, c);
    var (w', ok) := Map(w1, r, p, leaf);
    MapKeepsInv(w1, r, p, leaf);
    MapKeepsRoots(w1, r, p, leaf, r);
    MapKeepsLoose(w1, r, p, leaf, c);
    if ok {
      assert w.owner[r].path + p == p;
      MapUpdatesOneKey(w1, r, p, leaf, r, p);
      PageIsOwned(w', r, p);
    }
  }

  lemma ReservedIsNoTable(w: World, f: nat)
    requires Inv(w) && f in w.reserved
    ensures f !in w.owner
  {
  }

  lemma NullLoadWithoutTable(w: World, r: nat, p: seq<nat>, t: Table)
    requires Inv(w) && IsRoot(w, r) && LowPage(p) && 0 in w.reserved
    requires FirstFree(w.used).None? && Missing(w.tables, r, p) > 0
    ensures CanMap(w, r, p, NO_LEAF)
    ensures var w' := Map(w, r, p, NO_LEAF).0;
      Inv(w') && !Map(w, r, p, NO_LEAF).1 && 0 !in w'.owner && LoadedWorld(w, r, p, t) == Overwrite(w', 0, t) && Inv(LoadedWorld(w, r, p, t))
  {
    hide Inv, Map, CanMap;
    NullMapAllowed(w, r, p);
    NullFails(w, r, p);
    MapKeepsInv(w, r, p, NO_LEAF);
    var w' := Map(w, r, p, NO_LEAF).0;
    ReservedIsNoTable(w', 0);
    OverwriteKeepsInv(w', 0, t);
  }

  lemma LentMapAllowed(w: World, r: nat, p: seq<nat>)
    requires Inv(w) && IsRoot(w, r) && LowPage(p) && 0 in w.reserved
    ensures Inv(Lent(w)) && IsRoot(Lent(w), r) && CanMap(Lent(w), r, p, NULL_LEAF) && 0 in Lent(w).loose
  {
    KernelIsFrame(w);
    LentKeepsInv(w);
    assert Lent(w).owner[r].path + p == p;
  }

  /** With no table missing, the loader's page is that of a world in which frame 0 was the caller's. */
  lemma NullLoadIsMap(w: World, r: nat, p: seq<nat>, t: Table)
    requires Inv(w) && IsRoot(w, r) && LowPage(p) && 0 in w.reserved && !NullSafe(w, r, p)
    ensures CanMap(Lent(w), r, p, NULL_LEAF)
    ensures var w' := Map(Lent(w), r, p, NULL_LEAF).0;
      && Inv(w') && !IsTable(w', 0) && w'.kernel == w.kernel && FirstFree(w'.used).None?
      && Resolve(w'.tables, r, p) == Some(Access(0, true, true))
      && LoadedWorld(w, r, p, t).tables == Overwrite(w', 0, t).tables
      && (forall g :: IsRoot(w, g) ==> IsRoot(w', g))
  {
    hide Inv, Map, CanMap, Resolve, NullTables, FreeCount;
    var w1 := Lent(w);
    LentMapAllowed(w, r, p);
    NullIsMap(w1, r, p);
    MapKeepsInv(w1, r, p, NULL_LEAF);
    MapKeepsLoose(w1, r, p, NULL_LEAF, 0);
    MapTakesMissing(w1, r, p, NULL_LEAF);
    NoneFree(w1.used);
    var w' := Map(w1, r, p, NULL_LEAF).0;
    NoneFree(w'.used);
    forall g | IsRoot(w, g) ensures IsRoot(w', g) {
      MapKeepsRoots(w1, r, p, NULL_LEAF, g);
    }
    RootPath(w1, r, p);
    MapUpdatesOneKey(w1, r, p, NULL_LEAF, r, p);
    PageIsOwned(w', r, p);
  }

  /** So the page leads to frame 0. */
  lemma NullLoadResolves(w: World, r: nat, p: seq<nat>, t: Table)
    requires Inv(w) && IsRoot(w, r) && LowPage(p) && 0 in w.reserved && !NullSafe(w, r, p)
    ensures Resolve(LoadedWorld(w, r, p, t).tables, r, p) == Some(Access(0, true, true))
  {
    hide Inv, Map, CanMap, Resolve, NullTables;
    NullLoadIsMap(w, r, p, t);
    var w' := Map(Lent(w), r, p, NULL_LEAF).0;
    assert IsTable(w', r);
    OutsideKeepsWalks(w', Overwrite(w', 0, t).tables, r, p);
  }

  lemma KernelIsFrame(w: World)
    requires Inv(w)
    ensures w.kernel < |w.used|
  {
  }

  /** The loader's page keeps the ownership invariant exactly if it is not mapped to the null frame. */
  lemma LoadKeepsInv(w: World, r: nat, p: seq<nat>, t: Table)
    requires Inv(w) && IsRoot(w, r) && LowPage(p) && 0 in w.reserved
    ensures Inv(LoadedWorld(w, r, p, t)) <==> NullSafe(w, r, p)
    ensures var w' := LoadedWorld(w, r, p, t); w'.kernel == w.kernel && |w'.used| == |w.used| && w'.reserved == w.reserved
  {
    hide Inv, Map, CanMap, Resolve;
    if FirstFree(w.used).Some? {
      var c := FirstFree(w.used).value;
      FreshFrame(w, r, p, c);
      OverwriteKeepsInv(Map(Take(w, c), r, p, Entry(c, true, true, true)).0, c, t);
    } else if NullSafe(w, r, p) {
      NullLoadWithoutTable(w, r, p, t);
    } else {
      NullLoadResolves(w, r, p, t);
      if Inv(LoadedWorld(w, r, p, t)) {
        PageIsOwned(LoadedWorld(w, r, p, t), r, p);
        ReservedIsNoTable(LoadedWorld(w, r, p, t), 0);
      }
    }
  }

  // ---------- one frame, one page ----------

  /** A low-half walk ends in the frame whose place is that page. */
  lemma {:induction false} WalkEndsAtPlace(w: World, g: nat, p: seq<nat>)
    requires Inv(w) && IsTable(w, g) && |p| == 4 - |w.owner[g].path| && (w.owner[g].path + p)[0] < KERNEL_SLOT
    requires Resolve(w.tables, g, p).Some?
    ensures var f := Resolve(w.tables, g, p).value.frame;
      f in w.owner && w.owner[f].space == w.owner[g].space && w.owner[f].path == w.owner[g].path + p
    decreases |p|
  {
    hide Inv;
    LowLink(w, g, p);
    if |p| == 1 {
      assert p == [p[0]];
    } else {
      WalkEndsAtPlace(w, At(w.tables, g, p[0]).frame, p[1..]);
    }
  }

  /** One step of a low-half walk. */
  lemma LowLink(w: World, g: nat, p: seq<nat>)
    requires Inv(w) && IsTable(w, g) && |p| == 4 - |w.owner[g].path| && (w.owner[g].path + p)[0] < KERNEL_SLOT
    requires At(w.tables, g, p[0]).present
    ensures var c := At(w.tables, g, p[0]).frame;
      && c in w.owner && w.owner[c].space == w.owner[g].space && w.owner[c].path == w.owner[g].path + [p[0]]
      && w.owner[c].path + p[1..] == w.owner[g].path + p
  {
    hide Frames, UserPaths;
    hide SharedHalf;
    PathStep(w.owner[g].path, p);
    assert GoodPlace(w, g);
    hide Places;
    assert GoodLink(w, g, p[0]);
  }

  lemma PageIsOwned(w: World, r: nat, p: seq<nat>)
    requires Inv(w) && IsRoot(w, r) && LowPage(p) && Resolve(w.tables, r, p).Some?
    ensures var f := Resolve(w.tables, r, p).value.frame;
      f in w.owner && w.owner[f].space == r && w.owner[f].path == p && f < |w.used| && w.used[f]
  {
    assert w.owner[r].path + p == p;
    assert GoodPlace(w, r);
    WalkEndsAtPlace(w, r, p);
  }

  /** Two low-half pages on one frame are one page of one space. */
  lemma OneFrameOnePage(w: World, r: nat, p: seq<nat>, r': nat, p': seq<nat>)
    requires Inv(w) && IsRoot(w, r) && LowPage(p) && IsRoot(w, r') && LowPage(p')
    requires Resolve(w.tables, r, p).Some? && Resolve(w.tables, r', p').Some?
    requires Resolve(w.tables, r, p).value.frame == Resolve(w.tables, r', p').value.frame
    ensures r == r' && p == p'
  {
    PageIsOwned(w, r, p);
    PageIsOwned(w, r', p');
  }

  /** A walk from a table above an owned frame reaches it. */
  lemma {:induction false} PlaceIsReached(w: World, g: nat, f: nat, p: seq<nat>)
    requires Inv(w) && IsTable(w, g) && f in w.owner && |w.owner[f].path| == 4 && |p| == 4 - |w.owner[g].path|
    requires w.owner[g].space == w.owner[f].space && w.owner[g].path + p == w.owner[f].path
    ensures Resolve(w.tables, g, p).Some? && Resolve(w.tables, g, p).value.frame == f
    decreases |p|
  {
    hide Frames, UserPaths;
    hide SharedHalf, Links;
    var k := |w.owner[g].path|;
    PathSplit(w.owner[g].path, p);
    OnTheWay(w, g, f);
    var c := At(w.tables, g, p[0]).frame;
    hide Places;
    if |p| == 1 {
      OnePlace(w, c, f);
    } else {
      PlaceIsReached(w, c, f, p[1..]);
    }
  }

  /** Every used frame is exactly one of: reserved at boot, loose, a page-table page at a place no
      other frame has, or mapped at the one low-half page its place names. */
  lemma FrameAccount(w: World, f: nat)
    requires Inv(w) && f < |w.used|
    ensures w.used[f] <==> f in w.reserved || f in w.loose || f in w.owner
    ensures f in w.owner ==> f !in w.reserved && f !in w.loose
    ensures f in w.loose ==> f !in w.reserved
    ensures IsTable(w, f) ==>
      forall g <- w.owner :: w.owner[g].space == w.owner[f].space && w.owner[g].path == w.owner[f].path ==> g == f
    ensures f in w.owner && !IsTable(w, f) ==>
      var n := w.owner[f];
      && IsRoot(w, n.space) && LowPage(n.path)
      && Resolve(w.tables, n.space, n.path).Some? && Resolve(w.tables, n.space, n.path).value.frame == f
      && forall r, p :: IsRoot(w, r) && LowPage(p) && Resolve(w.tables, r, p).Some? && Resolve(w.tables, r, p).value.frame == f
           ==> r == n.space && p == n.path
  {
    if IsTable(w, f) {
      forall g <- w.owner | w.owner[g].space == w.owner[f].space && w.owner[g].path == w.owner[f].path ensures g == f {
        OnePlace(w, g, f);
      }
    } else if f in w.owner {
      var n := w.owner[f];
      assert GoodPlace(w, f);
      SpaceIsRoot(w, f);
      assert w.owner[n.space].path + n.path == n.path;
      PlaceIsReached(w, n.space, f, n.path);
      forall r, p | IsRoot(w, r) && LowPage(p) && Resolve(w.tables, r, p).Some? && Resolve(w.tables, r, p).value.frame == f
        ensures r == n.space && p == n.path
      {
        PageIsOwned(w, r, p);
      }
    }
  }

  lemma {:induction false} SpaceIsRoot(w: World, f: nat)
    requires Inv(w) && f in w.owner
    ensures IsRoot(w, w.owner[f].space) && w.owner[w.owner[f].space].space == w.owner[f].space
    decreases |w.owner[f].path|
  {
    assert GoodPlace(w, f);
    if w.owner[f].path != [] {
      SpaceIsRoot(w, w.owner[f].parent);
    }
  }

  // ---------- isolation over whole runs ----------

  /** Mapping writes table pages only: a mapped page keeps its contents. */
  lemma {:induction false} MapKeepsContents(w: World, f: nat, p: seq<nat>, leaf: Entry, h: nat)
    requires CanMap(w, f, p, leaf) && h in w.owner && !IsTable(w, h)
    ensures var w' := Map(w, f, p, leaf).0; h in w'.tables && w'.tables[h] == w.tables[h]
    decreases |p|
  {
    hide Inv, SetLeaf, NextTable, MayEdit;
    if |p| == 1 {
      CanSetLast(w, f, p, leaf);
      SetLeafKeepsContents(w, f, p[0], leaf, h);
    } else {
      MapStep(w, f, p, leaf);
      NextTableKeepsContents(w, f, p[0], leaf.user, h);
      if NextTable(w, f, p[0], leaf.user).1.Some? {
        MapKeepsContents(NextTable(w, f, p[0], leaf.user).0, NextTable(w, f, p[0], leaf.user).1.value, p[1..], leaf, h);
      }
    }
  }

  lemma OwnedIsMemory(w: World, f: nat)
    requires Inv(w) && f in w.owner
    ensures f in w.tables
  {
  }

  lemma SetLeafKeepsContents(w: World, f: nat, i: nat, leaf: Entry, h: nat)
    requires CanSetLeaf(w, f, i, leaf) && h in w.owner && !IsTable(w, h)
    ensures h in SetLeaf(w, f, i, leaf).tables && SetLeaf(w, f, i, leaf).tables[h] == w.tables[h]
  {
    hide Places, Links, UserPaths;
    hide SharedHalf, Child;
  }

  lemma NextTableKeepsContents(w: World, f: nat, i: nat, user: bool, h: nat)
    requires CanFollow(w, f, i, user) && h in w.owner && !IsTable(w, h)
    ensures var w' := NextTable(w, f, i, user).0;
      h in w'.tables && w'.tables[h] == w.tables[h] && h in w'.owner && w'.owner[h] == w.owner[h]
  {
    hide Places, Links, UserPaths;
    hide SharedHalf, Child;
  }

  lemma {:induction false} UnmapKeepsContents(w: World, f: nat, p: seq<nat>, h: nat)
    requires CanUnmap(w, f, p) && h in w.owner && !IsTable(w, h)
    ensures h in Unmap(w, f, p).tables && Unmap(w, f, p).tables[h] == w.tables[h]
    decreases |p|
  {
    hide Inv, SetLeaf, At;
    if |p| == 1 {
      UnmapLast(w, f, p);
      SetLeafKeepsContents(w, f, p[0], ABSENT, h);
    } else {
      UnmapStep(w, f, p);
      OwnedIsMemory(w, h);
      if At(w.tables, f, p[0]).present {
        UnmapKeepsContents(w, At(w.tables, f, p[0]).frame, p[1..], h);
      }
    }
  }

  lemma {:induction false} MapKeepsRoots(w: World, f: nat, p: seq<nat>, leaf: Entry, r: nat)
    requires CanMap(w, f, p, leaf) && IsRoot(w, r)
    ensures IsRoot(Map(w, f, p, leaf).0, r)
    decreases |p|
  {
    hide Inv, SetLeaf, NextTable, MayEdit;
    if |p| == 1 {
      CanSetLast(w, f, p, leaf);
      SetLeafKeepsRoots(w, f, p[0], leaf, r);
    } else {
      MapStep(w, f, p, leaf);
      NextTableKeepsView(w, f, p[0], leaf.user, r, 0);
      if NextTable(w, f, p[0], leaf.user).1.Some? {
        MapKeepsRoots(NextTable(w, f, p[0], leaf.user).0, NextTable(w, f, p[0], leaf.user).1.value, p[1..], leaf, r);
      }
    }
  }

  lemma SetLeafKeepsRoots(w: World, f: nat, i: nat, leaf: Entry, r: nat)
    requires CanSetLeaf(w, f, i, leaf) && IsRoot(w, r)
    ensures IsRoot(SetLeaf(w, f, i, leaf), r)
  {
    hide Inv, SetLeaf;
    SetLeafOwner(w, f, i, leaf, r);
  }

  lemma {:induction false} UnmapKeepsRoots(w: World, f: nat, p: seq<nat>, r: nat)
    requires CanUnmap(w, f, p) && IsRoot(w, r)
    ensures IsRoot(Unmap(w, f, p), r)
    decreases |p|
  {
    hide Inv, SetLeaf, At;
    if |p| == 1 {
      UnmapLast(w, f, p);
      SetLeafKeepsRoots(w, f, p[0], ABSENT, r);
    } else {
      UnmapStep(w, f, p);
      if At(w.tables, f, p[0]).present {
        UnmapKeepsRoots(w, At(w.tables, f, p[0]).frame, p[1..], r);
      }
    }
  }

  /** The step remaps page `p` of space `r` or writes to it. */
  ghost predicate Touches(s: Step, r: nat, p: seq<nat>) {
    (s.MapFresh? || s.LoadPage? || s.UserWrite?) && s.space == r && s.page == p
  }

  ghost predicate SameFrame(t: Tables, t': Tables, f: nat) {
    f in t && f in t' && t'[f] == t[f]
  }

  /** Same translation, and the same decoded entries in its frame. */
  ghost predicate SamePage(w: World, w': World, r: nat, p: seq<nat>)
    requires |p| > 0
  {
    var a := Resolve(w.tables, r, p);
    && IsRoot(w', r)
    && Resolve(w'.tables, r, p) == a
    && (a.Some? ==> SameFrame(w.tables, w'.tables, a.value.frame))
  }

  /** One step of anyone leaves every other low-half page its translation and the decoded entries of its
      frame. */
  lemma StepKeepsPage(w: World, s: Step, r: nat, p: seq<nat>)
    requires Inv(w) && Enabled(w, s) && IsRoot(w, r) && LowPage(p) && !Touches(s, r, p)
    ensures SamePage(w, Apply(w, s), r, p)
  {
    match s
    case Create =>
      CreateKeepsPage(w, r, p);
    case MapFresh(r', p') =>
      if FirstFree(w.used).Some? {
        FreshMapKeepsPage(w, r', p', FirstFree(w.used).value, r, p);
      } else {
        StayKeepsPage(w, r, p);
      }
    case LoadPage(r', p', t) =>
      LoadKeepsPage(w, r', p', t, r, p);
    case KernelMap(p', leaf) =>
      KernelMapKeepsPage(w, p', leaf, r, p);
    case KernelUnmap(p') =>
      KernelUnmapKeepsPage(w, p', r, p);
    case Fill(f, t) =>
      OverwriteKeepsPage(w, f, t, r, p);
    case UserWrite(r', p', t) =>
      StoreIsLow(w, r', p', t);
      OverwriteKeepsPage(w, Resolve(w.tables, r', p').value.frame, t, r, p);
  }

  lemma StayKeepsPage(w: World, r: nat, p: seq<nat>)
    requires Inv(w) && IsRoot(w, r) && LowPage(p)
    ensures SamePage(w, w, r, p)
  {
    if Resolve(w.tables, r, p).Some? { PageIsOwned(w, r, p); }
  }

  lemma CreateKeepsPage(w: World, r: nat, p: seq<nat>)
    requires Inv(w) && IsRoot(w, r) && LowPage(p)
    ensures SamePage(w, Apply(w, Create), r, p)
  {
    StayKeepsPage(w, r, p);
    if FirstFree(w.used).Some? {
      CreateTranslations(w, FirstFree(w.used).value, r, p);
      if Resolve(w.tables, r, p).Some? { PageIsOwned(w, r, p); }
    }
  }

  lemma OverwriteKeepsPage(w: World, f: nat, t: Table, r: nat, p: seq<nat>)
    requires Inv(w) && !IsTable(w, f) && IsRoot(w, r) && LowPage(p)
    requires f in w.owner ==> w.owner[f].space != r || w.owner[f].path != p
    ensures SamePage(w, Overwrite(w, f, t), r, p)
  {
    OutsideKeepsWalks(w, Overwrite(w, f, t).tables, r, p);
    if Resolve(w.tables, r, p).Some? { PageIsOwned(w, r, p); }
  }

  lemma FreshMapKeepsPage(w: World, r': nat, p': seq<nat>, c: nat, r: nat, p: seq<nat>)
    requires Inv(w) && IsRoot(w, r') && LowPage(p') && c < |w.used| && !w.used[c]
    requires IsRoot(w, r) && LowPage(p) && (r != r' || p != p')
    ensures CanMap(Take(w, c), r', p', Entry(c, true, true, true))
    ensures SamePage(w, Map(Take(w, c), r', p', Entry(c, true, true, true)).0, r, p)
  {
    MapFreshAllowed(w, r', p', c);
    var w1 := Take(w, c);
    var leaf := Entry(c, true, true, true);
    assert w.owner[r].path + p == p && w.owner[r'].path + p' == p';
    assert GoodPlace(w, r) && GoodPlace(w, r');
    MapUpdatesOneKey(w1, r', p', leaf, r, p);
    MapKeepsRoots(w1, r', p', leaf, r);
    if Resolve(w.tables, r, p).Some? {
      PageIsOwned(w, r, p);
      MapKeepsContents(w1, r', p', leaf, Resolve(w.tables, r, p).value.frame);
    }
  }

  lemma LoadKeepsPage(w: World, r': nat, p': seq<nat>, t: Table, r: nat, p: seq<nat>)
    requires Inv(w) && IsRoot(w, r') && LowPage(p') && 0 in w.reserved && NullSafe(w, r', p')
    requires IsRoot(w, r) && LowPage(p) && (r != r' || p != p')
    ensures SamePage(w, LoadedWorld(w, r', p', t), r, p)
  {
    hide Inv, Map, CanMap, Resolve;
    if FirstFree(w.used).Some? {
      var c := FirstFree(w.used).value;
      FreshMapKeepsPage(w, r', p', c, r, p);
      FreshFrame(w, r', p', c);
      OverwriteKeepsPage(Map(Take(w, c), r', p', Entry(c, true, true, true)).0, c, t, r, p);
    } else {
      NullLoadWithoutTable(w, r', p', t);
      FailedMapKeepsPage(w, r', p', r, p);
      OverwriteKeepsPage(Map(w, r', p', NO_LEAF).0, 0, t, r, p);
    }
  }

  lemma FailedMapKeepsPage(w: World, r': nat, p': seq<nat>, r: nat, p: seq<nat>)
    requires Inv(w) && IsRoot(w, r') && LowPage(p') && IsRoot(w, r) && LowPage(p)
    requires CanMap(w, r', p', NO_LEAF) && !Map(w, r', p', NO_LEAF).1
    ensures SamePage(w, Map(w, r', p', NO_LEAF).0, r, p)
  {
    assert w.owner[r].path + p == p && w.owner[r'].path + p' == p';
    MapUpdatesOneKey(w, r', p', NO_LEAF, r, p);
    MapKeepsRoots(w, r', p', NO_LEAF, r);
    if Resolve(w.tables, r, p).Some? {
      PageIsOwned(w, r, p);
      MapKeepsContents(w, r', p', NO_LEAF, Resolve(w.tables, r, p).value.frame);
    }
  }

  lemma KernelMapKeepsPage(w: World, p': seq<nat>, leaf: Entry, r: nat, p: seq<nat>)
    requires Inv(w) && HighPage(p') && !leaf.user && IsRoot(w, r) && LowPage(p)
    ensures CanMap(w, w.kernel, p', leaf)
    ensures SamePage(w, Map(w, w.kernel, p', leaf).0, r, p)
  {
    KernelMapAllowed(w, p', leaf);
    assert w.owner[r].path + p == p && w.owner[w.kernel].path + p' == p';
    MapUpdatesOneKey(w, w.kernel, p', leaf, r, p);
    MapKeepsRoots(w, w.kernel, p', leaf, r);
    if Resolve(w.tables, r, p).Some? {
      PageIsOwned(w, r, p);
      MapKeepsContents(w, w.kernel, p', leaf, Resolve(w.tables, r, p).value.frame);
    }
  }

  lemma KernelUnmapKeepsPage(w: World, p': seq<nat>, r: nat, p: seq<nat>)
    requires Inv(w) && HighPage(p') && IsRoot(w, r) && LowPage(p)
    ensures CanUnmap(w, w.kernel, p')
    ensures SamePage(w, Unmap(w, w.kernel, p'), r, p)
  {
    KernelMapAllowed(w, p', ABSENT);
    assert w.owner[r].path + p == p && w.owner[w.kernel].path + p' == p';
    UnmapRemovesOneKey(w, w.kernel, p', r, p);
    UnmapKeepsRoots(w, w.kernel, p', r);
    if Resolve(w.tables, r, p).Some? {
      PageIsOwned(w, r, p);
      UnmapKeepsContents(w, w.kernel, p', Resolve(w.tables, r, p).value.frame);
    }
  }

  /** The steps are enabled one after the other and lead from `w` to `w'`. */
  ghost predicate Runs(w: World, steps: seq<Step>, w': World)
    requires Inv(w)
    decreases |steps|
  {
    if steps == [] then w' == w
    else Enabled(w, steps[0]) && (ApplyKeepsInv(w, steps[0]); Runs(Apply(w, steps[0]), steps[1..], w'))
  }

  /** Every reachable state keeps the ownership invariant. */
  lemma {:induction false} RunKeepsInv(w: World, steps: seq<Step>, w': World)
    requires Inv(w) && Runs(w, steps, w')
    ensures Inv(w') && w'.kernel == w.kernel
    decreases |steps|
  {
    if steps != [] {
      ApplyKeepsInv(w, steps[0]);
      RunKeepsInv(Apply(w, steps[0]), steps[1..], w');
    }
  }

  /** Over any run, a low-half page keeps its translation and the decoded entries of its frame unless
      the run maps that page anew or its own process writes to it. */
  lemma {:induction false} RunIsolates(w: World, steps: seq<Step>, w': World, r: nat, p: seq<nat>)
    requires Inv(w) && Runs(w, steps, w') && IsRoot(w, r) && LowPage(p)
    requires forall s <- steps :: !Touches(s, r, p)
    ensures SamePage(w, w', r, p)
    decreases |steps|
  {
    if steps == [] {
      if Resolve(w.tables, r, p).Some? { PageIsOwned(w, r, p); }
    } else {
      ApplyKeepsInv(w, steps[0]);
      StepKeepsPage(w, steps[0], r, p);
      RunIsolates(Apply(w, steps[0]), steps[1..], w', r, p);
    }
  }

  // ---------- no frame is lost ----------

  /** A map in the low half to a page that was absent takes the frame out of the caller's hands, and a
      map in the high half leaves the frames in hand alone. */
  lemma {:induction false} MapTakesLoose(w: World, f: nat, p: seq<nat>, leaf: Entry)
    requires CanMap(w, f, p, leaf) && leaf.present && Map(w, f, p, leaf).1
    requires Resolve(w.tables, f, p).None?
    ensures Map(w, f, p, leaf).0.loose == if (w.owner[f].path + p)[0] < KERNEL_SLOT then w.loose - {leaf.frame} else w.loose
    decreases |p|
  {
    hide Inv, NextTable, MayEdit, At, Resolve;
    if |p| == 1 {
      CanSetLast(w, f, p, leaf);
      SetLeafLoose(w, f, p, leaf);
    } else {
      MapStep(w, f, p, leaf);
      var (w', r) := NextTable(w, f, p[0], leaf.user);
      CanMapBelow(w, f, p, leaf);
      NextTableStillAbsent(w, f, p, leaf.user);
      MapTakesLoose(w', r.value, p[1..], leaf);
    }
  }

  lemma SetLeafLoose(w: World, f: nat, p: seq<nat>, leaf: Entry)
    requires |p| == 1 && CanSetLeaf(w, f, p[0], leaf) && Resolve(w.tables, f, p).None? && leaf.present
    requires KernelLeaf(w, f) <==> (w.owner[f].path + p)[0] >= KERNEL_SLOT
    ensures SetLeaf(w, f, p[0], leaf).loose == if (w.owner[f].path + p)[0] < KERNEL_SLOT then w.loose - {leaf.frame} else w.loose
  {
    hide Inv;
  }

  /** Following a slot leaves an absent page absent below it. */
  lemma NextTableStillAbsent(w: World, f: nat, p: seq<nat>, user: bool)
    requires |p| > 1 && CanFollow(w, f, p[0], user) && |p| == 4 - |w.owner[f].path| && Resolve(w.tables, f, p).None?
    requires NextTable(w, f, p[0], user).1.Some?
    ensures var (w', r) := NextTable(w, f, p[0], user); Resolve(w'.tables, r.value, p[1..]).None? && w'.loose == w.loose
  {
    NextTableKeepsWalks(w, f, p[0], user, f, p);
    hide Inv;
  }

  lemma {:induction false} KernelMapKeepsLoose(w: World, f: nat, p: seq<nat>, leaf: Entry)
    requires CanMap(w, f, p, leaf) && (w.owner[f].path + p)[0] >= KERNEL_SLOT
    ensures Map(w, f, p, leaf).0.loose == w.loose
    decreases |p|
  {
    hide Inv, MayEdit, At, Resolve;
    if |p| == 1 {
      CanSetLast(w, f, p, leaf);
    } else {
      MapStep(w, f, p, leaf);
      if NextTable(w, f, p[0], leaf.user).1.Some? {
        CanMapBelow(w, f, p, leaf);
        KernelMapKeepsLoose(NextTable(w, f, p[0], leaf.user).0, NextTable(w, f, p[0], leaf.user).1.value, p[1..], leaf);
      }
    }
  }

  lemma {:induction false} KernelUnmapKeepsLoose(w: World, f: nat, p: seq<nat>)
    requires CanUnmap(w, f, p) && (w.owner[f].path + p)[0] >= KERNEL_SLOT
    ensures Unmap(w, f, p).loose == w.loose
    decreases |p|
  {
    hide Inv, MayEdit, At, Resolve;
    if |p| == 1 {
      UnmapLast(w, f, p);
      PathStep(w.owner[f].path, p);
    } else {
      UnmapStep(w, f, p);
      if At(w.tables, f, p[0]).present {
        CanUnmapBelow(w, f, p);
        KernelUnmapKeepsLoose(w, At(w.tables, f, p[0]).frame, p[1..]);
      }
    }
  }

  /** The step, if it is a fresh user page, finds its frames, and the page was not mapped before. */
  ghost predicate Smooth(w: World, s: Step)
    requires Inv(w) && Enabled(w, s)
  {
    s.MapFresh? || s.LoadPage? ==>
      && FirstFree(w.used).Some? && Resolve(w.tables, s.space, s.page).None?
      && var c := FirstFree(w.used).value;
        (MapFreshAllowed(w, s.space, s.page, c); Map(Take(w, c), s.space, s.page, Entry(c, true, true, true)).1)
  }

  lemma SmoothKeepsLoose(w: World, s: Step)
    requires Inv(w) && Enabled(w, s) && Smooth(w, s)
    ensures Apply(w, s).loose == w.loose
  {
    hide Inv, Map, Unmap, CanMap, CanUnmap, Resolve;
    match s
    case MapFresh(r, p) =>
      var c := FirstFree(w.used).value;
      MapFreshAllowed(w, r, p, c);
      TakenIsFresh(w, r, p, c);
      MapTakesLoose(Take(w, c), r, p, Entry(c, true, true, true));
    case LoadPage(r, p, t) =>
      var c := FirstFree(w.used).value;
      MapFreshAllowed(w, r, p, c);
      TakenIsFresh(w, r, p, c);
      MapTakesLoose(Take(w, c), r, p, Entry(c, true, true, true));
    case KernelMap(p, leaf) =>
      KernelMapAllowed(w, p, leaf);
      RootPath(w, w.kernel, p);
      KernelMapKeepsLoose(w, w.kernel, p, leaf);
    case KernelUnmap(p) =>
      KernelMapAllowed(w, p, ABSENT);
      RootPath(w, w.kernel, p);
      KernelUnmapKeepsLoose(w, w.kernel, p);
    case _ =>
  }

  lemma RootPath(w: World, r: nat, p: seq<nat>)
    requires Inv(w) && (IsRoot(w, r) || r == w.kernel)
    ensures r in w.owner && w.owner[r].path + p == p
  {
    assert w.owner[r].path == [];
  }

  lemma TakenIsFresh(w: World, r: nat, p: seq<nat>, c: nat)
    requires Inv(w) && IsRoot(w, r) && c < |w.used| && !w.used[c]
    ensures Take(w, c).loose - {c} == w.loose && r in Take(w, c).owner && Take(w, c).owner[r].path + p == p
  {
    assert w.owner[r].path == [];
  }
}
