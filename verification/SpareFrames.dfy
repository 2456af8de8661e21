/** The tables once the loader has mapped the null frame: they are those of a machine in order that has
    spare frames behind its memory, all of which are frame 0 in truth. */
module SpareFrames {
  import opened Common
  import opened FrameBitmap
  import opened PageTables
  import opened Mappings
  import opened NullFrame
  import opened RawTables
  import opened Isolation
  import opened MemoryViews

  /** What an entry of the machine with spare frames is on a machine of `n` frames. */
  function Real(e: Entry, n: nat): Entry {
    if e.present && e.frame >= n then Entry(0, true, e.writable, e.user) else e
  }

  function RealAccess(a: Option<Access>, n: nat): Option<Access> {
    if a.Some? && a.value.frame >= n then Some(Access(0, a.value.writable, a.value.user)) else a
  }

  /** The tables `t` are those of `s` but for its spare frames, which are none of them. */
  ghost predicate TablesStand(t: Tables, n: nat, s: World) {
    && (forall f: nat :: IsTable(s, f) ==> f < n && f in t)
    && forall f: nat, i: nat :: IsTable(s, f) ==>
      At(t, f, i) == if HighSlot(s, f, i) then At(s.tables, f, i) else Real(At(s.tables, f, i), n)
  }

  /** No frame of `w` is free, and its tables are those of `s`, a machine in order. */
  ghost predicate Stands(w: World, s: World) {
    && Inv(s) && FirstFree(s.used).None? && FirstFree(w.used).None? && |w.used| <= |s.used|
    && 0 in s.reserved && (forall r :: IsRoot(w, r) ==> IsRoot(s, r))
    && TablesStand(w.tables, |w.used|, s)
  }

  /** A machine in order stands for itself. */
  lemma StandsAlone(w: World)
    requires Inv(w) && FirstFree(w.used).None? && 0 in w.reserved
    ensures Stands(w, w)
  {
    forall f, i | IsTable(w, f) && !HighSlot(w, f, i) ensures At(w.tables, f, i) == Real(At(w.tables, f, i), |w.used|) {
      if At(w.tables, f, i).present {
        assert GoodLink(w, f, i);
      }
    }
  }

  /** A low-half walk finds what the machine with spare frames finds, or frame 0 for a spare one. */
  lemma {:induction false} RealWalk(t: Tables, n: nat, s: World, g: nat, p: seq<nat>)
    requires Inv(s) && TablesStand(t, n, s)
    requires IsTable(s, g) && |p| == 4 - |s.owner[g].path| && (s.owner[g].path + p)[0] < KERNEL_SLOT
    ensures Resolve(t, g, p) == RealAccess(Resolve(s.tables, g, p), n)
    decreases |p|
  {
    hide Inv, TablesStand, HighSlot;
    StandsAt(t, n, s, g, p);
    var e := At(s.tables, g, p[0]);
    if e.present && |p| > 1 {
      LowLink(s, g, p);
      RealWalk(t, n, s, e.frame, p[1..]);
    }
  }

  lemma StandsAt(t: Tables, n: nat, s: World, g: nat, p: seq<nat>)
    requires Inv(s) && TablesStand(t, n, s)
    requires IsTable(s, g) && |p| == 4 - |s.owner[g].path| && (s.owner[g].path + p)[0] < KERNEL_SLOT
    ensures At(t, g, p[0]) == Real(At(s.tables, g, p[0]), n) && g < n && g in t && !HighSlot(s, g, p[0])
    ensures |p| > 1 && At(s.tables, g, p[0]).present ==> At(t, g, p[0]) == At(s.tables, g, p[0])
  {
    hide Frames, Places, UserPaths;
    hide SharedHalf, Supervisor;
    PathStep(s.owner[g].path, p);
    if |p| > 1 && At(s.tables, g, p[0]).present {
      assert GoodLink(s, g, p[0]);
      TableBelow(s, g, p[0]);
    }
  }

  // ---------- one load more ----------

  /** One more spare frame, in hand. */
  ghost function Spare(s: World): World {
    Longer(Overwrite(s, |s.used|, EmptyTable()))
  }

  ghost function Longer(s: World): World {
    World(s.kernel, s.used + [true], s.tables, s.owner, s.reserved - {|s.used|}, s.loose + {|s.used|})
  }

  lemma LongerKeepsInv(s: World)
    requires Inv(s) && |s.used| in s.tables
    ensures Inv(Longer(s))
  {
    var s' := Longer(s);
    LongerFrames(s);
    hide Frames;
    forall g <- s'.owner ensures GoodPlace(s', g) {
      assert GoodPlace(s, g);
    }
    forall g, j | IsTable(s', g) && At(s'.tables, g, j).present ensures GoodLink(s', g, j) {
      assert IsTable(s, g) && GoodLink(s, g, j);
    }
    assert UserPaths(s') && SharedHalf(s');
    assert Supervisor(s') by { assert forall g, j :: HighSlot(s', g, j) ==> HighSlot(s, g, j); }
  }

  lemma LongerFrames(s: World)
    requires Inv(s) && |s.used| in s.tables
    ensures Frames(Longer(s))
  {
    hide Places, Links, UserPaths, SharedHalf, Supervisor;
    assert forall f :: 0 <= f < |s.used| ==> Longer(s).used[f] == s.used[f];
  }

  lemma {:induction false} NoneFreeLonger(used: seq<bool>)
    requires FirstFree(used).None?
    ensures FirstFree(used + [true]).None?
  {
    if used != [] {
      assert (used + [true])[1..] == used[1..] + [true];
      NoneFreeLonger(used[1..]);
    }
  }

  lemma SpareStands(w: World, s: World)
    requires Stands(w, s)
    ensures Stands(w, Spare(s)) && |s.used| in Spare(s).loose && Spare(s).owner == s.owner && |Spare(s).used| == |s.used| + 1
  {
    hide Inv, TablesStand;
    var c := |s.used|;
    NoTableBehind(s);
    OverwriteKeepsInv(s, c, EmptyTable());
    LongerKeepsInv(Overwrite(s, c, EmptyTable()));
    NoneFreeLonger(s.used);
    OtherTables(w.tables, |w.used|, s, Spare(s), c);
  }

  /** Frames that are no tables do not matter. */
  lemma OtherTables(t: Tables, n: nat, s: World, s': World, c: nat)
    requires TablesStand(t, n, s) && s'.owner == s.owner && !IsTable(s, c)
    requires forall f: nat, i: nat :: f != c ==> At(s'.tables, f, i) == At(s.tables, f, i)
    ensures TablesStand(t, n, s')
  {
    forall f: nat | IsTable(s', f) ensures f < n && f in t {
      assert IsTable(s, f);
    }
    forall f: nat, i: nat | IsTable(s', f)
      ensures At(t, f, i) == if HighSlot(s', f, i) then At(s'.tables, f, i) else Real(At(s'.tables, f, i), n)
    {
      assert IsTable(s, f) && (HighSlot(s', f, i) <==> HighSlot(s, f, i));
    }
  }

  lemma NoTableBehind(s: World)
    requires Inv(s)
    ensures !IsTable(s, |s.used|) && |s.used| > 0
  {
  }

  ghost predicate SameSlots(s: World, s': World) {
    (forall g :: IsTable(s', g) <==> IsTable(s, g)) && forall g, i :: HighSlot(s', g, i) <==> HighSlot(s, g, i)
  }

  /** The same entry set in both. */
  lemma PutStands(t: Tables, n: nat, s: World, s': World, f: nat, i: nat, e: Entry, e': Entry)
    requires TablesStand(t, n, s) && IsTable(s, f) && f in s.tables && i < ENTRIES && SameSlots(s, s')
    requires s'.tables == Put(s.tables, f, i, e) && e' == if HighSlot(s, f, i) then e else Real(e, n)
    ensures f < n && f in t && TablesStand(Put(t, f, i, e'), n, s')
  {
  }

  lemma SetLeafSlots(s: World, f: nat, i: nat, leaf: Entry)
    requires CanSetLeaf(s, f, i, leaf) && IsTable(s, f) && |s.owner[f].path| == 3 && f in s.tables && i < ENTRIES
    ensures SameSlots(s, SetLeaf(s, f, i, leaf))
  {
    hide Inv, SetLeaf, CanSetLeaf;
    var s' := SetLeaf(s, f, i, leaf);
    assert |Child(s, f, i).path| == 4;
    forall g: nat ensures IsTable(s', g) <==> IsTable(s, g) {
      SetLeafOwner(s, f, i, leaf, g);
    }
    forall g: nat, j: nat ensures HighSlot(s', g, j) <==> HighSlot(s, g, j) {
      SetLeafOwner(s, f, i, leaf, g);
    }
  }

  /** The last entry: a spare frame there, frame 0 in truth. */
  lemma SpareLeaf(t: Tables, n: nat, s: World, f: nat, p: seq<nat>, c: nat)
    requires CanMap(s, f, p, Entry(c, true, true, true)) && |p| == 1 && TablesStand(t, n, s) && c >= n
    requires (s.owner[f].path + p)[0] < KERNEL_SLOT
    ensures IsTable(s, f) && f < n && f in t && p[0] < ENTRIES
    ensures TablesStand(Put(t, f, p[0], NULL_LEAF), n, Map(s, f, p, Entry(c, true, true, true)).0)
    ensures Map(s, f, p, Entry(c, true, true, true)).0.used == s.used
  {
    var leaf := Entry(c, true, true, true);
    CanSetLast(s, f, p, leaf);
    LeafIs(s, f, p, leaf);
    assert !HighSlot(s, f, p[0]) by { assert (s.owner[f].path + p)[0] == s.owner[f].path[0]; }
    hide Inv, SetLeaf, CanSetLeaf, CanMap, Map, TablesStand, SameSlots, HighSlot;
    SetLeafTablesOnly(s, f, p[0], leaf);
    SetLeafSlots(s, f, p[0], leaf);
    PutStands(t, n, s, SetLeaf(s, f, p[0], leaf), f, p[0], leaf, NULL_LEAF);
  }

  lemma LeafIs(s: World, f: nat, p: seq<nat>, leaf: Entry)
    requires CanMap(s, f, p, leaf) && |p| == 1
    ensures IsTable(s, f) && |s.owner[f].path| == 3 && f in s.tables && f < |s.used| && p[0] < ENTRIES
    ensures Map(s, f, p, leaf) == (SetLeaf(s, f, p[0], leaf), true)
  {
    CanSetLast(s, f, p, leaf);
  }

  lemma SetLeafTablesOnly(s: World, f: nat, i: nat, leaf: Entry)
    requires IsTable(s, f) && |s.owner[f].path| == 3 && f in s.tables && i < ENTRIES
    ensures SetLeaf(s, f, i, leaf).tables == Put(s.tables, f, i, leaf) && SetLeaf(s, f, i, leaf).used == s.used
  {
  }

  lemma TableStands(t: Tables, n: nat, s: World, g: nat)
    requires TablesStand(t, n, s) && IsTable(s, g)
    ensures g < n
  {
  }

  /** One level above: the same table, and the user bit, in both. */
  lemma SpareStep(t: Tables, used: seq<bool>, s: World, f: nat, p: seq<nat>, c: nat)
    requires CanMap(s, f, p, Entry(c, true, true, true)) && |p| > 1 && TablesStand(t, |used|, s)
    requires FirstFree(s.used).None? && FirstFree(used).None? && (s.owner[f].path + p)[0] < KERNEL_SLOT
    ensures IsTable(s, f) && f < |used| && f in t && p[0] < ENTRIES && f in s.tables
    ensures var (s1, d) := NextTable(s, f, p[0], true); var (m1, d') := Follow(Machine(used, t), f, p[0], true);
      && d' == d && m1.used == used && s1.used == s.used && s1.owner == s.owner && TablesStand(m1.tables, |used|, s1)
      && NullTables(t, f, p) == (if d.None? then t else NullTables(m1.tables, d.value, p[1..]))
      && (d.None? ==> m1.tables == t && s1 == s)
      && (d.Some? ==> d.value in s.owner && (s.owner[d.value].path + p[1..])[0] < KERNEL_SLOT)
  {
    CanMapInvariantOf(s, f, p, c);
    RootTable(s, f, p);
    StandsAt(t, |used|, s, f, p);
    hide Inv, CanMap, TablesStand, HighSlot;
    hide Missing;
    NullStepTables(t, used, f, p);
    if At(s.tables, f, p[0]).present {
      ShareStands(t, |used|, s, f, p);
      LowLink(s, f, p);
    }
  }

  lemma NullStepTables(t: Tables, used: seq<bool>, f: nat, p: seq<nat>)
    requires f in t && |p| > 1 && p[0] < ENTRIES && FirstFree(used).None?
    ensures var (m1, d) := Follow(Machine(used, t), f, p[0], true);
      && m1.used == used && (d.None? ==> m1.tables == t)
      && (d.Some? <==> At(t, f, p[0]).present) && (d.Some? ==> d.value == At(t, f, p[0]).frame)
      && NullTables(t, f, p) == (if d.None? then t else NullTables(m1.tables, d.value, p[1..]))
  {
  }

  lemma ShareStands(t: Tables, n: nat, s: World, f: nat, p: seq<nat>)
    requires Inv(s) && TablesStand(t, n, s) && IsTable(s, f) && |p| == 4 - |s.owner[f].path| && |p| > 1
    requires f in t && f in s.tables && p[0] < ENTRIES && At(s.tables, f, p[0]).present && At(t, f, p[0]) == At(s.tables, f, p[0])
    ensures var e := At(t, f, p[0]);
      TablesStand(Put(t, f, p[0], Entry(e.frame, true, e.writable, true)), n, ShareTable(s, f, p[0], true))
  {
    hide Inv, TablesStand, HighSlot;
    var e := At(s.tables, f, p[0]);
    TableBelow(s, f, p[0]);
    TableStands(t, n, s, e.frame);
    var e' := Entry(e.frame, true, e.writable, true);
    ShareSlots(s, f, p[0]);
    PutStands(t, n, s, ShareTable(s, f, p[0], true), f, p[0], e', e');
  }

  lemma ShareSlots(s: World, f: nat, i: nat)
    requires f in s.tables && i < ENTRIES
    ensures SameSlots(s, ShareTable(s, f, i, true))
  {
  }

  lemma CanMapInvariantOf(s: World, f: nat, p: seq<nat>, c: nat)
    requires CanMap(s, f, p, Entry(c, true, true, true))
    ensures Inv(s) && IsTable(s, f) && |p| == 4 - |s.owner[f].path| && IsPath(p)
  {
  }

  lemma RootTable(s: World, f: nat, p: seq<nat>)
    requires Inv(s) && IsTable(s, f) && |p| > 0 && IsPath(p)
    ensures f in s.tables && p[0] < ENTRIES
  {
  }

  /** A map of frame 0 in truth is the map of a spare frame there; it edits tables only. */
  lemma {:induction false} NullMapStands(t: Tables, used: seq<bool>, s: World, f: nat, p: seq<nat>, c: nat)
    requires CanMap(s, f, p, Entry(c, true, true, true)) && TablesStand(t, |used|, s) && c >= |used|
    requires FirstFree(s.used).None? && FirstFree(used).None? && (s.owner[f].path + p)[0] < KERNEL_SLOT
    ensures InMemory(Machine(used, t), f, p, true)
    ensures forall h <- Edited(Machine(used, t), f, p, true) :: IsTable(s, h)
    ensures var s' := Map(s, f, p, Entry(c, true, true, true)).0;
      TablesStand(NullTables(t, f, p), |used|, s') && s'.used == s.used
    decreases |p|
  {
    hide Inv, TablesStand, NextTable, Follow, MayEdit;
    if |p| == 1 {
      SpareLeaf(t, |used|, s, f, p, c);
      assert NullTables(t, f, p) == Put(t, f, p[0], NULL_LEAF);
    } else {
      SpareStep(t, used, s, f, p, c);
      MapStep(s, f, p, Entry(c, true, true, true));
      var (s1, d) := NextTable(s, f, p[0], true);
      if d.Some? {
        var (m1, d') := Follow(Machine(used, t), f, p[0], true);
        NullMapStands(m1.tables, used, s1, d.value, p[1..], c);
      }
    }
  }

  // ---------- loads without a free frame ----------

  lemma SpareMapAllowed(s: World, r: nat, p: seq<nat>)
    requires Inv(s) && IsRoot(s, r) && LowPage(p)
    ensures Inv(Spare(s)) && IsRoot(Spare(s), r) && CanMap(Spare(s), r, p, Entry(|s.used|, true, true, true))
  {
    NoTableBehind(s);
    OverwriteKeepsInv(s, |s.used|, EmptyTable());
    LongerKeepsInv(Overwrite(s, |s.used|, EmptyTable()));
    assert Spare(s).owner[r].path + p == p;
  }

  /** A load without a free frame: one spare frame more, and the page mapped to it if no table is missing. */
  ghost function SpareMap(s: World, r: nat, p: seq<nat>): World
    requires Inv(s) && IsRoot(s, r) && LowPage(p)
  {
    SpareMapAllowed(s, r, p);
    Map(Spare(s), r, p, Entry(|s.used|, true, true, true)).0
  }

  /** It stands for the machine after the load. */
  lemma NullLoadStands(w: World, s: World, r: nat, p: seq<nat>, x: Table)
    requires Stands(w, s) && IsRoot(w, r) && LowPage(p)
    ensures InMemory(Of(w), r, p, true) && 0 < |w.used| && IsRoot(s, r)
    ensures forall h <- Edited(Of(w), r, p, true) :: IsTable(s, h)
    ensures Stands(Overwrite(MapNull(w, r, p), 0, x), SpareMap(s, r, p))
  {
    hide Inv, Map, CanMap, TablesStand, Edited, InMemory, NullTables, Spare;
    var c := |s.used|;
    var leaf := Entry(c, true, true, true);
    SpareMapAllowed(s, r, p);
    SpareStands(w, s);
    var s1 := Spare(s);
    RootPath(s1, r, p);
    NullMapStands(w.tables, w.used, s1, r, p, c);
    MapKeepsInv(s1, r, p, leaf);
    var s' := Map(s1, r, p, leaf).0;
    forall g | IsRoot(w, g) ensures IsRoot(s', g) {
      MapKeepsRoots(s1, r, p, leaf, g);
    }
    ReservedIsNoTable(s', 0);
    TableBound(w, s, r);
    OverwriteStands(NullTables(w.tables, r, p), |w.used|, s', x);
  }

  lemma TableBound(w: World, s: World, r: nat)
    requires Stands(w, s) && IsRoot(s, r)
    ensures r < |w.used|
  {
    assert IsTable(s, r);
  }

  lemma OverwriteStands(t: Tables, n: nat, s: World, x: Table)
    requires TablesStand(t, n, s) && !IsTable(s, 0)
    ensures TablesStand(t[0 := x], n, s)
  {
  }

  /** The page has a spare frame, that is, frame 0. */
  ghost predicate OnSpare(s: World, n: nat, r: nat, p: seq<nat>)
    requires |p| > 0
  {
    var a := Resolve(s.tables, r, p);
    a.Some? && a.value.frame >= n
  }

  /** What the pages lead to after the load. */
  lemma SpareMapPages(s: World, r: nat, p: seq<nat>, g: nat, q: seq<nat>)
    requires Inv(s) && FirstFree(s.used).None? && IsRoot(s, r) && LowPage(p) && IsRoot(s, g) && LowPage(q)
    ensures Resolve(SpareMap(s, r, p).tables, g, q) ==
      if g == r && q == p && Missing(s.tables, r, p) == 0 then Some(Access(|s.used|, true, true)) else Resolve(s.tables, g, q)
  {
    hide Inv, Map, CanMap, Resolve, FreeCount, Missing, Spare;
    var leaf := Entry(|s.used|, true, true, true);
    SpareMapAllowed(s, r, p);
    var s1 := Spare(s);
    SpareTables(s, g, q);
    SpareTables(s, r, p);
    MapOtherPage(s1, r, p, leaf, g, q);
    NoneFreeLonger(s.used);
    NoneFree(s1.used);
    MapTakesMissing(s1, r, p, leaf);
  }

  lemma SpareTables(s: World, g: nat, q: seq<nat>)
    requires Inv(s) && IsRoot(s, g) && LowPage(q)
    ensures Resolve(Spare(s).tables, g, q) == Resolve(s.tables, g, q) && Missing(Spare(s).tables, g, q) == Missing(s.tables, g, q)
    ensures Spare(s).used == s.used + [true] && IsRoot(Spare(s), g)
  {
    NoTableBehind(s);
    assert forall f, i :: IsTable(s, f) ==> At(Spare(s).tables, f, i) == At(s.tables, f, i);
    hide Inv, Spare, Resolve, Missing;
    OutsideKeepsWalks(s, Spare(s).tables, g, q);
    OutsideKeepsMissing(s, Spare(s).tables, g, q);
  }

  lemma {:induction false} OutsideKeepsMissing(w: World, t': Tables, g: nat, p: seq<nat>)
    requires Inv(w) && IsTable(w, g) && |p| == 4 - |w.owner[g].path|
    requires forall f, i :: IsTable(w, f) ==> At(t', f, i) == At(w.tables, f, i)
    ensures Missing(t', g, p) == Missing(w.tables, g, p)
    decreases |p|
  {
    if |p| > 1 && At(w.tables, g, p[0]).present {
      assert GoodLink(w, g, p[0]);
      OutsideKeepsMissing(w, t', At(w.tables, g, p[0]).frame, p[1..]);
    }
  }

  /** Since (`w0`, `m0`) only `pages` have changed, and no frame is free. */
  ghost predicate LoadedOn(w0: World, m0: Memory, w: World, m: Memory, root: nat, pages: set<(nat, seq<nat>)>, s: World) {
    && Stands(w, s) && IsRoot(w, root) && |w.used| == |w0.used| && (forall g :: IsRoot(w0, g) ==> IsRoot(w, g))
    && KeepsOthers(w0, m0, s, m, pages)
  }

  /** One load more. */
  lemma NullLoadKeeps(w0: World, m0: Memory, w: World, m: Memory, m': Memory, root: nat, pages: set<(nat, seq<nat>)>,
                      s: World, p: seq<nat>, x: Table)
    requires LoadedOn(w0, m0, w, m, root, pages, s) && LowPage(p)
    requires InMemory(Of(w), root, p, true) && BytesBut(m, m', Edited(Of(w), root, p, true) + {0})
    ensures IsRoot(s, root) && Inv(s)
    ensures LoadedOn(w0, m0, Overwrite(MapNull(w, root, p), 0, x), m', root, pages + {(root, p)}, SpareMap(s, root, p))
    ensures Missing(s.tables, root, p) == 0 ==> OnSpare(SpareMap(s, root, p), |w.used|, root, p)
    ensures forall q :: LowPage(q) && OnSpare(s, |w.used|, root, q) ==> OnSpare(SpareMap(s, root, p), |w.used|, root, q)
  {
    hide Inv, Resolve, SpareMap, Edited, InMemory, NullTables, TablesStand, Missing;
    NullLoadStands(w, s, root, p, x);
    var s' := SpareMap(s, root, p);
    SpareMapPages(s, root, p, root, p);
    forall q | LowPage(q) && OnSpare(s, |w.used|, root, q) ensures OnSpare(s', |w.used|, root, q) {
      SpareMapPages(s, root, p, root, q);
    }
    forall g: nat, q: seq<nat> | IsRoot(w0, g) && LowPage(q) && (g, q) !in pages + {(root, p)} ensures KeepsPage(w0, m0, s', m', g, q) {
      assert KeepsPage(w0, m0, s, m, g, q);
      SpareMapPages(s, root, p, g, q);
      SpareMapRoots(s, root, p, g);
      if Resolve(s.tables, g, q).Some? {
        PageIsData(s, g, q);
      }
    }
  }

  lemma SpareMapRoots(s: World, r: nat, p: seq<nat>, g: nat)
    requires Inv(s) && IsRoot(s, r) && LowPage(p) && IsRoot(s, g)
    ensures IsRoot(SpareMap(s, r, p), g)
  {
    hide Inv, Map, CanMap;
    SpareMapAllowed(s, r, p);
    MapKeepsRoots(Spare(s), r, p, Entry(|s.used|, true, true, true), g);
  }

  /** The frame behind a page is no table, and not frame 0. */
  lemma PageIsData(s: World, g: nat, q: seq<nat>)
    requires Inv(s) && IsRoot(s, g) && LowPage(q) && Resolve(s.tables, g, q).Some? && 0 in s.reserved
    ensures !IsTable(s, Resolve(s.tables, g, q).value.frame) && Resolve(s.tables, g, q).value.frame != 0
  {
    hide Inv, Resolve;
    PageIsOwned(s, g, q);
    ReservedIsNoTable(s, 0);
  }

  /** What the loads have done, in terms of the machine itself: other pages are as they were, and a page
      with a spare frame is on frame 0. */
  lemma LoadedFacts(w0: World, m0: Memory, w: World, m: Memory, root: nat, pages: set<(nat, seq<nat>)>, s: World)
    requires Inv(w0) && LoadedOn(w0, m0, w, m, root, pages, s)
    ensures KeepsOthers(w0, m0, w, m, pages) && FirstFree(w.used).None?
    ensures forall p :: LowPage(p) && OnSpare(s, |w.used|, root, p) ==>
      var a := Resolve(w.tables, root, p); a.Some? && a.value.frame == 0
  {
    hide Inv, Resolve, TablesStand;
    forall p | LowPage(p) && OnSpare(s, |w.used|, root, p)
      ensures var a := Resolve(w.tables, root, p); a.Some? && a.value.frame == 0
    {
      RealPage(w, s, root, p);
    }
    forall g: nat, q: seq<nat> | IsRoot(w0, g) && LowPage(q) && (g, q) !in pages ensures KeepsPage(w0, m0, w, m, g, q) {
      assert KeepsPage(w0, m0, s, m, g, q);
      RealPage(w, s, g, q);
      if Resolve(w0.tables, g, q).Some? {
        PageIsOwned(w0, g, q);
      }
    }
  }

  lemma RealPage(w: World, s: World, g: nat, q: seq<nat>)
    requires Stands(w, s) && IsRoot(w, g) && LowPage(q)
    ensures Resolve(w.tables, g, q) == RealAccess(Resolve(s.tables, g, q), |w.used|)
  {
    hide Inv, Resolve, TablesStand;
    RootPath(s, g, q);
    RealWalk(w.tables, |w.used|, s, g, q);
  }

  /** Since (`w0`, `m0`) the loader has changed `pages` only, no frame is free, and one of `pages` is on
      a spare frame. */
  ghost predicate OutOfFrames(w0: World, m0: Memory, w: World, m: Memory, root: nat, pages: set<(nat, seq<nat>)>) {
    exists s, p :: LoadedOn(w0, m0, w, m, root, pages, s) && SparePage(s, |w.used|, root, p, pages)
  }

  ghost predicate SparePage(s: World, n: nat, root: nat, p: seq<nat>, pages: set<(nat, seq<nat>)>) {
    LowPage(p) && (root, p) in pages && OnSpare(s, n, root, p)
  }

  /** The first page that the loader maps to the null frame. */
  lemma FirstNull(w0: World, m0: Memory, w: World, m: Memory, m': Memory, root: nat, pages: set<(nat, seq<nat>)>, p: seq<nat>, x: Table)
    requires Inv(w) && 0 in w.reserved && IsRoot(w, root) && LowPage(p) && !NullSafe(w, root, p)
    requires |w.used| == |w0.used| && (forall g :: IsRoot(w0, g) ==> IsRoot(w, g)) && KeepsOthers(w0, m0, w, m, pages)
    requires InMemory(Of(w), root, p, true) && BytesBut(m, m', Edited(Of(w), root, p, true) + {0})
    ensures OutOfFrames(w0, m0, Overwrite(MapNull(w, root, p), 0, x), m', root, pages + {(root, p)})
  {
    hide Inv, Resolve, SpareMap, Edited, InMemory, NullTables, Stands, Missing, KeepsOthers;
    StandsAlone(w);
    NullLoadKeeps(w0, m0, w, m, m', root, pages, w, p, x);
    assert SparePage(SpareMap(w, root, p), |w.used|, root, p, pages + {(root, p)});
  }

  /** One page more. */
  lemma NextNull(w0: World, m0: Memory, w: World, m: Memory, m': Memory, root: nat, pages: set<(nat, seq<nat>)>, p: seq<nat>, x: Table)
    requires OutOfFrames(w0, m0, w, m, root, pages) && LowPage(p)
    requires InMemory(Of(w), root, p, true) && BytesBut(m, m', Edited(Of(w), root, p, true) + {0})
    ensures OutOfFrames(w0, m0, Overwrite(MapNull(w, root, p), 0, x), m', root, pages + {(root, p)})
  {
    hide LoadedOn, Inv, OnSpare, SpareMap, Edited, InMemory, NullTables;
    var s, q :| LoadedOn(w0, m0, w, m, root, pages, s) && SparePage(s, |w.used|, root, q, pages);
    NullLoadKeeps(w0, m0, w, m, m', root, pages, s, p, x);
    assert SparePage(SpareMap(s, root, p), |w.used|, root, q, pages + {(root, p)});
  }

  /** The loader's walks stay in memory then, too. */
  lemma OutInMemory(w0: World, m0: Memory, w: World, m: Memory, root: nat, pages: set<(nat, seq<nat>)>, p: seq<nat>)
    requires OutOfFrames(w0, m0, w, m, root, pages) && LowPage(p)
    ensures InMemory(Of(w), root, p, true) && FirstFree(w.used).None? && IsRoot(w, root)
  {
    hide SparePage, SpareMap, Edited, InMemory, KeepsOthers, TablesStand, Inv;
    var s, q :| LoadedOn(w0, m0, w, m, root, pages, s) && SparePage(s, |w.used|, root, q, pages);
    NullLoadStands(w, s, root, p, EmptyTable());
  }

  /** One of the pages leads to frame 0. */
  ghost predicate OnNullFrame(w: World, root: nat, pages: set<(nat, seq<nat>)>) {
    exists p :: LowPage(p) && (root, p) in pages && LeadsTo(w, root, p, 0)
  }

  ghost predicate LeadsTo(w: World, root: nat, p: seq<nat>, f: nat)
    requires |p| > 0
  {
    var a := Resolve(w.tables, root, p);
    a.Some? && a.value.frame == f
  }

  lemma OutFacts(w0: World, m0: Memory, w: World, m: Memory, root: nat, pages: set<(nat, seq<nat>)>)
    requires Inv(w0) && OutOfFrames(w0, m0, w, m, root, pages)
    ensures KeepsOthers(w0, m0, w, m, pages) && FirstFree(w.used).None? && IsRoot(w, root) && OnNullFrame(w, root, pages)
  {
    hide Inv, Resolve, Stands, KeepsOthers, OnSpare;
    var s, p :| LoadedOn(w0, m0, w, m, root, pages, s) && SparePage(s, |w.used|, root, p, pages);
    LoadedFacts(w0, m0, w, m, root, pages, s);
    assert LeadsTo(w, root, p, 0);
  }

  lemma OutBreaks(w0: World, m0: Memory, w: World, m: Memory, root: nat, pages: set<(nat, seq<nat>)>)
    requires OutOfFrames(w0, m0, w, m, root, pages) && 0 in w.reserved
    ensures !Inv(w)
  {
    hide Inv, Resolve, Stands, KeepsOthers;
    var s, p :| LoadedOn(w0, m0, w, m, root, pages, s) && SparePage(s, |w.used|, root, p, pages);
    RealPage(w, s, root, p);
    assert LeadsTo(w, root, p, 0);
    NullFrameBreaks(w, root, pages);
  }

  /** Such a machine is not in order. */
  lemma NullFrameBreaks(w: World, root: nat, pages: set<(nat, seq<nat>)>)
    requires OnNullFrame(w, root, pages) && IsRoot(w, root) && 0 in w.reserved
    ensures !Inv(w)
  {
    hide Resolve;
    var p :| LowPage(p) && (root, p) in pages && LeadsTo(w, root, p, 0);
    if Inv(w) {
      PageIsData(w, root, p);
    }
  }
}
