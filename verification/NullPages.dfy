/** What happens when the loader does map the null frame: two pages end up on frame 0, and a process
    reads what the other's loading wrote. */
module NullPages {
  import opened Common
  import opened FrameBitmap
  import opened PageTables
  import opened Mappings
  import opened NullFrame
  import opened RawTables
  import opened SpareFrames
  import opened Isolation
  import opened PageCosts
  import MemoryViews

  /** No table goes missing by it. */
  lemma {:induction false} NullKeepsMissing(w: World, f: nat, p: seq<nat>, g: nat, q: seq<nat>)
    requires CanMap(w, f, p, NO_LEAF) && FirstFree(w.used).None? && IsTable(w, g) && |q| == 4 - |w.owner[g].path|
    ensures Missing(NullTables(w.tables, f, p), g, q) == Missing(w.tables, g, q)
    decreases |p|
  {
    hide Inv, NextTable;
    if |p| == 1 {
      LeafTable(w, f, p);
      CanMapInvariant(w, f, p);
      LeafKeepsMissing(w, PutIn(w.tables, f, p[0], NULL_LEAF), g, q);
    } else {
      NullStep(w, f, p);
      var (w', d) := NextTable(w, f, p[0], true);
      CanFollowFirst(w, f, p);
      NextTableKeepsView(w, f, p[0], true, g, 0);
      if d.Some? {
        NextIsShare(w, f, p);
        ShareKeepsMissing(w.tables, f, p[0], true, g, q);
        NullKeepsMissing(w', d.value, p[1..], g, q);
      }
    }
  }

  lemma NextIsShare(w: World, f: nat, p: seq<nat>)
    requires CanMap(w, f, p, NO_LEAF) && |p| > 1 && FirstFree(w.used).None? && NextTable(w, f, p[0], true).1.Some?
    ensures f in w.tables && p[0] < ENTRIES && NextTable(w, f, p[0], true).0 == ShareTable(w, f, p[0], true)
  {
  }

  /** Only the upper tables matter for what is missing. */
  lemma {:induction false} LeafKeepsMissing(w: World, t': Tables, g: nat, q: seq<nat>)
    requires Inv(w) && IsTable(w, g) && |q| == 4 - |w.owner[g].path|
    requires forall f, i :: IsUpper(w, f) ==> At(t', f, i) == At(w.tables, f, i)
    ensures Missing(t', g, q) == Missing(w.tables, g, q)
    decreases |q|
  {
    if |q| > 1 && At(w.tables, g, q[0]).present {
      TableBelow(w, g, q[0]);
      LeafKeepsMissing(w, t', At(w.tables, g, q[0]).frame, q[1..]);
    }
  }

  /** The spare frame leaves the tables on the way to other pages. */
  lemma MissingStays(w: World, r: nat, p: seq<nat>, x: Table, s: World, g: nat, q: seq<nat>)
    requires Inv(w) && IsRoot(w, r) && LowPage(p) && FirstFree(w.used).None? && IsRoot(w, g) && LowPage(q)
    requires Stands(Overwrite(MapNull(w, r, p), 0, x), s) && Missing(w.tables, g, q) == 0
    ensures IsRoot(s, g) && Missing(s.tables, g, q) == 0
  {
    hide CanMap, Missing, NullTables, Inv, TablesStand, CanFollow;
    NullMapAllowed(w, r, p);
    NullKeepsMissing(w, r, p, g, q);
    var t := NullTables(w.tables, r, p);
    assert IsRoot(Overwrite(MapNull(w, r, p), 0, x), g);
    RootPath(s, g, q);
    StandsMissing(t[0 := x], |w.used|, s, g, q);
    ReservedIsNoTable(s, 0);
    OverwriteMissing(t, |w.used|, s, x, g, q);
  }

  /** The tables missing on a low-half walk are the same with the spare frames. */
  lemma {:induction false} StandsMissing(t: Tables, n: nat, s: World, g: nat, p: seq<nat>)
    requires Inv(s) && TablesStand(t, n, s)
    requires IsTable(s, g) && |p| == 4 - |s.owner[g].path| && (s.owner[g].path + p)[0] < KERNEL_SLOT
    ensures Missing(t, g, p) == Missing(s.tables, g, p)
    decreases |p|
  {
    hide Inv, TablesStand, HighSlot;
    StandsAt(t, n, s, g, p);
    if |p| > 1 && At(s.tables, g, p[0]).present {
      LowLink(s, g, p);
      StandsMissing(t, n, s, At(s.tables, g, p[0]).frame, p[1..]);
    }
  }

  /** Nor does what is written to frame 0, which is no table, matter. */
  lemma {:induction false} OverwriteMissing(t: Tables, n: nat, s: World, x: Table, g: nat, p: seq<nat>)
    requires Inv(s) && TablesStand(t[0 := x], n, s) && !IsTable(s, 0)
    requires IsTable(s, g) && |p| == 4 - |s.owner[g].path| && (s.owner[g].path + p)[0] < KERNEL_SLOT
    ensures Missing(t, g, p) == Missing(t[0 := x], g, p)
    decreases |p|
  {
    hide Inv, TablesStand, HighSlot;
    StandsAt(t[0 := x], n, s, g, p);
    if |p| > 1 && At(s.tables, g, p[0]).present {
      LowLink(s, g, p);
      OverwriteMissing(t, n, s, x, At(s.tables, g, p[0]).frame, p[1..]);
    }
  }

  /** Two pages, of one process or of two, loaded when no frame is free and all their tables are there:
      both are on frame 0, which holds what was loaded last. */
  lemma NullPagesShareFrame(w: World, r: nat, p: seq<nat>, x: Table, r': nat, p': seq<nat>, x': Table)
    requires Inv(w) && IsRoot(w, r) && LowPage(p) && IsRoot(w, r') && LowPage(p') && (r, p) != (r', p')
    requires 0 in w.reserved && !NullSafe(w, r, p) && !NullSafe(w, r', p')
    ensures var t := NullTables(LoadedWorld(w, r, p, x).tables, r', p')[0 := x'];
      Resolve(t, r, p) == Resolve(t, r', p') == Some(Access(0, true, true)) && t[0] == x'
  {
    hide Inv, Resolve, NullTables, Missing, TablesStand, SpareMap, CanFollow, CanMap, InMemory, Edited;
    var w1 := LoadedWorld(w, r, p, x);
    var s1 := SpareMap(w, r, p);
    StandsAlone(w);
    NullLoadStands(w, w, r, p, x);
    SpareMapPages(w, r, p, r, p);
    assert IsRoot(w1, r) && IsRoot(w1, r');
    MissingStays(w, r, p, x, s1, r', p');
    NullLoadStands(w1, s1, r', p', x');
    SpareMapPages(s1, r', p', r', p');
    SpareMapPages(s1, r', p', r, p);
    var w2 := Overwrite(MapNull(w1, r', p'), 0, x');
    RealPage(w2, SpareMap(s1, r', p'), r, p);
    RealPage(w2, SpareMap(s1, r', p'), r', p');
    MoreFrames(w, r, p);
  }

  lemma MoreFrames(s: World, r: nat, p: seq<nat>)
    requires Inv(s) && IsRoot(s, r) && LowPage(p)
    ensures |SpareMap(s, r, p).used| == |s.used| + 1
  {
    hide Inv, Map, CanMap;
    SpareMapAllowed(s, r, p);
    MapKeepsInv(Spare(s), r, p, Entry(|s.used|, true, true, true));
  }

  // ---------- how a program gets there ----------

  lemma LoadedStock(w: World, r: nat, p: seq<nat>, x: Table)
    requires Inv(w) && IsRoot(w, r) && LowPage(p) && FirstFree(w.used).Some?
    ensures StockOf(LoadedWorld(w, r, p, x), r) == AfterOne(StockOf(w, r), p) && IsRoot(LoadedWorld(w, r, p, x), r)
  {
    hide Cost, Reach, Missing, FreeCount, Map, CanMap, Inv;
    var c := FirstFree(w.used).value;
    FreshFrame(w, r, p, c);
    TakeOne(w.used, c);
    CostIsMissing(w, r, p);
    RootMapReaches(Take(w, c), r, p, Entry(c, true, true, true));
    MapTakesMissing(Take(w, c), r, p, Entry(c, true, true, true));
    SameTables(w, Take(w, c), r);
    SameTables(Map(Take(w, c), r, p, Entry(c, true, true, true)).0, LoadedWorld(w, r, p, x), r);
    assert IsRoot(Take(w, c), r);
  }

  lemma SameTables(w: World, w': World, r: nat)
    requires w'.owner == w.owner
    ensures TablesOf(w', r) == TablesOf(w, r)
  {
  }

  /** Once `p` is loaded, the loads of `p2` and `p3` put both on frame 0, which holds the later one. */
  ghost predicate TwoOnNull(w: World, r: nat, p: seq<nat>, p2: seq<nat>, p3: seq<nat>, x: Table, x2: Table, x3: Table)
    requires LowPage(p) && LowPage(p2) && LowPage(p3)
  {
    && Inv(w) && IsRoot(w, r)
    && var w1 := LoadedWorld(w, r, p, x);
    && Inv(w1) && IsRoot(w1, r) && !NullSafe(w1, r, p2)
    && var t := NullTables(LoadedWorld(w1, r, p2, x2).tables, r, p3)[0 := x3];
    Resolve(t, r, p2) == Resolve(t, r, p3) == Some(Access(0, true, true)) && t[0] == x3
  }

  /** The first page of a segment takes the last frames; the second and third, behind the same table, are
      both mapped to frame 0. */
  lemma ThreePages(w: World, r: nat, p: seq<nat>, p2: seq<nat>, p3: seq<nat>, x: Table, x2: Table, x3: Table)
    requires Inv(w) && IsRoot(w, r) && LowPage(p) && LowPage(p2) && LowPage(p3) && 0 in w.reserved && p2 != p3
    requires p2[..3] == p[..3] && p3[..3] == p[..3]
    requires FreeCount(w.used) == Cost(TablesOf(w, r), p)
    ensures TwoOnNull(w, r, p, p2, p3, x, x2, x3)
  {
    hide Cost, Inv, FreeCount, Resolve, NullTables, LoadedWorld, NullSafe, TablesOf;
    NoneFree(w.used);
    FoundIsSafe(w, r, p);
    LoadedStock(w, r, p, x);
    LoadKeepsInv(w, r, p, x);
    var w1 := LoadedWorld(w, r, p, x);
    AfterOneEnough(StockOf(w, r), p);
    AllThere(StockOf(w1, r).there, p, p2);
    AllThere(StockOf(w1, r).there, p, p3);
    NullSafeStock(w1, r, p2);
    NullSafeStock(w1, r, p3);
    NullPagesShareFrame(w1, r, p2, x2, r, p3, x3);
  }

  lemma FoundIsSafe(w: World, r: nat, p: seq<nat>)
    requires |p| > 0 && FirstFree(w.used).Some?
    ensures NullSafe(w, r, p)
  {
  }

  /** Seven frames, of which frame 0 is reserved, 1 and 2 are the roots of the kernel and of a new space,
      and four are free for a page and its three tables. */
  ghost function SmallMachine(tables: Tables): World
    requires forall f :: 0 <= f < 7 ==> f in tables
  {
    CreateSpace(MemoryViews.BootWorld([true, false, false, false, false, false, false], tables, 1), 2)
  }

  lemma SmallMachineStands(tables: Tables)
    requires forall f :: 0 <= f < 7 ==> f in tables
    ensures var w := SmallMachine(tables);
      Inv(w) && IsRoot(w, 2) && TablesOf(w, 2) == {} && FreeCount(w.used) == 4 && 0 in w.reserved
  {
    hide Inv, FreeCount, Resolve, NewRoot, EmptyTable;
    var used := [true, false, false, false, false, false, false];
    MemoryViews.BootKeepsInv(used, tables, 1);
    CreateKeepsInv(MemoryViews.BootWorld(used, tables, 1), 2);
    assert SmallMachine(tables).used == [true, true, true, false, false, false, false];
    FourFree();
  }

  /** There a program of three pages behind one table gets two of them on frame 0. */
  lemma SharedFromBoot(tables: Tables, x: Table, x2: Table, x3: Table)
    requires forall f :: 0 <= f < 7 ==> f in tables
    ensures TwoOnNull(SmallMachine(tables), 2, [0, 0, 0, 0], [0, 0, 0, 1], [0, 0, 0, 2], x, x2, x3)
  {
    hide Inv, TwoOnNull, SmallMachine, FreeCount, TablesOf;
    SmallMachineStands(tables);
    var p, p2, p3 := [0, 0, 0, 0], [0, 0, 0, 1], [0, 0, 0, 2];
    AllAbsent({}, p, 1);
    assert p2[..3] == [0, 0, 0] && p3[..3] == [0, 0, 0] && p[..3] == [0, 0, 0];
    ThreePages(SmallMachine(tables), 2, p, p2, p3, x, x2, x3);
  }

  lemma FourFree()
    ensures FreeCount([true, true, true, false, false, false, false]) == 4
  {
    assert FreeCount([false]) == 1;
    assert [false, false][1..] == [false] && [false, false, false][1..] == [false, false];
    assert [false, false, false, false][1..] == [false, false, false];
    assert [true, false, false, false, false][1..] == [false, false, false, false];
    assert [true, true, false, false, false, false][1..] == [true, false, false, false, false];
    assert [true, true, true, false, false, false, false][1..] == [true, true, false, false, false, false];
  }
}
