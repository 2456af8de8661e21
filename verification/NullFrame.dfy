/** What a map of the null frame does when no frame is free: the program loader does not check the
    allocator's result. */
module NullFrame {
  import opened FrameBitmap
  import opened PageTables
  import opened Mappings

  const NULL_LEAF := Entry(0, true, true, true)

  /** The same without the present bit: it asks for the tables on the way only. */
  const NO_LEAF := Entry(0, false, true, true)

  function PutIn(t: Tables, f: nat, i: nat, e: Entry): Tables {
    if f in t && i < ENTRIES then Put(t, f, i, e) else t
  }

  /** The tables after frame 0 was mapped for the user at `p` below `f`: user bits on the way, and the
      leaf if no table is missing. */
  function NullTables(t: Tables, f: nat, p: seq<nat>): Tables
    requires |p| > 0
    decreases |p|
  {
    var e := At(t, f, p[0]);
    if |p| == 1 then PutIn(t, f, p[0], NULL_LEAF)
    else if !e.present then t
    else NullTables(PutIn(t, f, p[0], Entry(e.frame, e.present, e.writable, true)), e.frame, p[1..])
  }

  ghost function WithTables(w: World, t: Tables): World {
    World(w.kernel, w.used, t, w.owner, w.reserved, w.loose)
  }

  ghost function MapNull(w: World, r: nat, p: seq<nat>): World
    requires |p| > 0
  {
    WithTables(w, NullTables(w.tables, r, p))
  }

  /** One level of it, as the code takes it. */
  lemma NullStep(w: World, f: nat, p: seq<nat>)
    requires CanMap(w, f, p, NO_LEAF) && |p| > 1 && FirstFree(w.used).None?
    ensures f in w.owner && f in w.tables && p[0] < ENTRIES
    ensures var (w', c) := NextTable(w, f, p[0], true);
      && w' == WithTables(w, w'.tables)
      && NullTables(w.tables, f, p) == (if c.None? then w'.tables else NullTables(w'.tables, c.value, p[1..]))
      && (c.None? ==> w' == w && Missing(w.tables, f, p) > 0)
      && (c.Some? ==> CanMap(w', c.value, p[1..], NO_LEAF) && Missing(w.tables, f, p) == Missing(w'.tables, c.value, p[1..]))
  {
    hide Inv, CanMap, CanFollow, FreeCount;
    MapStep(w, f, p, NO_LEAF);
    CanFollowFirst(w, f, p);
    NextTableTakes(w, f, p, true);
  }

  /** Where a table is missing it changes the tables just as any map that finds no frame. */
  lemma {:induction false} NullFails(w: World, f: nat, p: seq<nat>)
    requires CanMap(w, f, p, NO_LEAF) && FirstFree(w.used).None? && Missing(w.tables, f, p) > 0
    ensures Map(w, f, p, NO_LEAF) == (MapNull(w, f, p), false)
    decreases |p|
  {
    hide Inv, NextTable, CanMap, Missing;
    MissingMeansMore(w.tables, f, p);
    NullStep(w, f, p);
    MapStep(w, f, p, NO_LEAF);
    var (w', c) := NextTable(w, f, p[0], true);
    if c.Some? {
      NullFails(w', c.value, p[1..]);
    }
  }

  lemma MissingMeansMore(t: Tables, f: nat, p: seq<nat>)
    requires |p| > 0 && Missing(t, f, p) > 0
    ensures |p| > 1
  {
  }

  /** Where no table is missing it is the map of frame 0, if that were the caller's to map. */
  lemma {:induction false} NullIsMap(w: World, f: nat, p: seq<nat>)
    requires CanMap(w, f, p, NULL_LEAF) && FirstFree(w.used).None? && Missing(w.tables, f, p) == 0
    ensures Map(w, f, p, NULL_LEAF).1 && Map(w, f, p, NULL_LEAF).0.tables == NullTables(w.tables, f, p)
    decreases |p|
  {
    hide Inv, NextTable;
    if |p| == 1 {
      CanSetLast(w, f, p, NULL_LEAF);
      LeafTable(w, f, p);
    } else {
      NullStep(w, f, p);
      MapStep(w, f, p, NULL_LEAF);
      var (w', c) := NextTable(w, f, p[0], true);
      NullIsMap(w', c.value, p[1..]);
    }
  }

  lemma LeafTable(w: World, f: nat, p: seq<nat>)
    requires CanMap(w, f, p, NO_LEAF) && |p| == 1
    ensures IsTable(w, f) && |w.owner[f].path| == 3 && f in w.tables && f < |w.used| && p[0] < ENTRIES
  {
  }

  lemma CanMapInvariant(w: World, f: nat, p: seq<nat>)
    requires CanMap(w, f, p, NO_LEAF)
    ensures Inv(w)
  {
  }

  lemma CanFollowFirst(w: World, f: nat, p: seq<nat>)
    requires CanMap(w, f, p, NO_LEAF) && |p| > 1
    ensures CanFollow(w, f, p[0], true)
  {
  }

  /** The world in which frame 0 is not reserved but somebody's to map. */
  ghost function Lent(w: World): World {
    World(w.kernel, w.used, w.tables, w.owner, w.reserved - {0}, w.loose + {0})
  }

  lemma LentKeepsInv(w: World)
    requires Inv(w) && 0 in w.reserved && 0 < |w.used|
    ensures Inv(Lent(w))
  {
    var w' := Lent(w);
    forall g <- w'.owner ensures GoodPlace(w', g) {
      assert GoodPlace(w, g);
    }
    forall g, j | IsTable(w', g) && At(w'.tables, g, j).present ensures GoodLink(w', g, j) {
      assert IsTable(w, g) && GoodLink(w, g, j);
    }
    assert UserPaths(w') && SharedHalf(w');
    assert Supervisor(w') by { assert forall g, j :: HighSlot(w', g, j) ==> HighSlot(w, g, j); }
  }
}
