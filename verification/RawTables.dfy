/** The map as the code does it, on whatever the tables in memory are: it knows the bitmap and the
    entries, but no owners. */
module RawTables {
  import opened Common
  import opened FrameBitmap
  import opened PageTables
  import opened Mappings
  import opened NullFrame

  datatype Machine = Machine(used: seq<bool>, tables: Tables)

  ghost function Of(w: World): Machine {
    Machine(w.used, w.tables)
  }

  /** The machine changed, and the owners as they were. */
  ghost function On(w: World, s: Machine): World {
    World(w.kernel, s.used, s.tables, w.owner, w.reserved, w.loose)
  }

  /** Follow slot `i` of table `f`, making the missing table or adding the user bit. */
  function Follow(s: Machine, f: nat, i: nat, user: bool): (Machine, Option<nat>)
    requires f in s.tables && i < ENTRIES
  {
    var e := At(s.tables, f, i);
    if e.present then (Machine(s.used, Put(s.tables, f, i, Entry(e.frame, true, e.writable, e.user || user))), Some(e.frame))
    else match FirstFree(s.used)
      case None => (s, None)
      case Some(c) => (Machine(s.used[c := true], Put(Clear(s.tables, c), f, i, Entry(c, true, true, user))), Some(c))
  }

  /** Every table that a map of `p` below `f` comes to is a frame of the machine. */
  predicate InMemory(s: Machine, f: nat, p: seq<nat>, user: bool)
    decreases |p|
  {
    && |p| > 0 && f < |s.used| && f in s.tables && p[0] < ENTRIES
    && (|p| > 1 ==>
      var (s', c) := Follow(s, f, p[0], user);
      c.Some? ==> InMemory(s', c.value, p[1..], user))
  }

  function RawMap(s: Machine, f: nat, p: seq<nat>, leaf: Entry): (Machine, bool)
    requires InMemory(s, f, p, leaf.user)
    decreases |p|
  {
    if |p| == 1 then (Machine(s.used, Put(s.tables, f, p[0], leaf)), true)
    else
      var (s', c) := Follow(s, f, p[0], leaf.user);
      if c.None? then (s', false) else RawMap(s', c.value, p[1..], leaf)
  }

  /** The frames whose entries the map writes. */
  function Edited(s: Machine, f: nat, p: seq<nat>, user: bool): set<nat>
    requires InMemory(s, f, p, user)
    decreases |p|
  {
    if |p| == 1 then {f}
    else
      var (s', c) := Follow(s, f, p[0], user);
      if c.None? then {f} else {f} + Edited(s', c.value, p[1..], user)
  }

  lemma FollowIsNext(w: World, f: nat, i: nat, user: bool)
    requires CanFollow(w, f, i, user)
    ensures f < |w.used| && f in w.tables && i < ENTRIES && f in w.owner
    ensures var (w', c) := NextTable(w, f, i, user); Follow(Of(w), f, i, user) == (Of(w'), c)
  {
    hide Places, Links, UserPaths;
    hide SharedHalf, Supervisor;
  }

  /** On tables in order, the map of a page that the caller may map is this one. */
  lemma {:induction false} MapIsRaw(w: World, f: nat, p: seq<nat>, leaf: Entry)
    requires CanMap(w, f, p, leaf)
    ensures InMemory(Of(w), f, p, leaf.user)
    ensures var (w', ok) := Map(w, f, p, leaf); RawMap(Of(w), f, p, leaf) == (Of(w'), ok)
    decreases |p|
  {
    hide Inv, NextTable, Follow, MayEdit;
    if |p| == 1 {
      LastIsRaw(w, f, p, leaf);
    } else {
      MapStep(w, f, p, leaf);
      CanFollowStep(w, f, p, leaf);
      FollowIsNext(w, f, p[0], leaf.user);
      var (w', c) := NextTable(w, f, p[0], leaf.user);
      if c.Some? {
        MapIsRaw(w', c.value, p[1..], leaf);
      }
    }
  }

  lemma CanFollowStep(w: World, f: nat, p: seq<nat>, leaf: Entry)
    requires CanMap(w, f, p, leaf) && |p| > 1
    ensures CanFollow(w, f, p[0], leaf.user)
  {
  }

  lemma LastIsRaw(w: World, f: nat, p: seq<nat>, leaf: Entry)
    requires CanMap(w, f, p, leaf) && |p| == 1
    ensures InMemory(Of(w), f, p, leaf.user)
    ensures RawMap(Of(w), f, p, leaf) == (Of(Map(w, f, p, leaf).0), true) && Map(w, f, p, leaf).1
  {
    CanSetLast(w, f, p, leaf);
    assert f < |w.used|;
  }

  /** No mapped page and no frame in anyone's hands is written. */
  lemma {:induction false} DataNotEdited(w: World, f: nat, p: seq<nat>, leaf: Entry, h: nat)
    requires CanMap(w, f, p, leaf) && IsData(w, h)
    ensures h < |w.used| && IsData(Map(w, f, p, leaf).0, h)
    ensures InMemory(Of(w), f, p, leaf.user) && h !in Edited(Of(w), f, p, leaf.user)
    decreases |p|
  {
    hide Inv, NextTable, Follow, MayEdit, IsData;
    MapIsRaw(w, f, p, leaf);
    if |p| == 1 {
      CanSetLast(w, f, p, leaf);
      LastKeepsData(w, f, p, leaf, h);
    } else {
      MapStep(w, f, p, leaf);
      CanFollowStep(w, f, p, leaf);
      FollowIsNext(w, f, p[0], leaf.user);
      NextTableKeepsData(w, f, p[0], leaf.user, h);
      var (w', c) := NextTable(w, f, p[0], leaf.user);
      if c.Some? {
        DataNotEdited(w', c.value, p[1..], leaf, h);
      }
    }
  }

  lemma LastKeepsData(w: World, f: nat, p: seq<nat>, leaf: Entry, h: nat)
    requires CanMap(w, f, p, leaf) && |p| == 1 && IsData(w, h)
    ensures h != f && h < |w.used| && IsData(Map(w, f, p, leaf).0, h)
  {
    hide UserPaths, SharedHalf, Supervisor;
    CanSetLast(w, f, p, leaf);
    assert At(w.tables, f, p[0]).present ==> GoodLink(w, f, p[0]);
  }

  /** The map of frame 0 for the user when no frame is free. */
  lemma {:induction false} NullIsRaw(s: Machine, f: nat, p: seq<nat>)
    requires InMemory(s, f, p, true) && FirstFree(s.used).None?
    ensures RawMap(s, f, p, NULL_LEAF) == (Machine(s.used, NullTables(s.tables, f, p)), Missing(s.tables, f, p) == 0)
    decreases |p|
  {
    if |p| > 1 && At(s.tables, f, p[0]).present {
      var (s', c) := Follow(s, f, p[0], true);
      ShareKeepsMissing(s.tables, f, p[0], true, c.value, p[1..]);
      NullIsRaw(s', c.value, p[1..]);
    }
  }

  lemma FollowMakes(s: Machine, f: nat, i: nat, user: bool)
    requires f in s.tables && i < ENTRIES && !At(s.tables, f, i).present
    ensures Follow(s, f, i, user) ==
      match FirstFree(s.used)
      case None => (s, None)
      case Some(c) => (Machine(s.used[c := true], Put(Clear(s.tables, c), f, i, Entry(c, true, true, user))), Some(c))
  {
  }

  lemma FollowShares(s: Machine, f: nat, i: nat, user: bool)
    requires f in s.tables && i < ENTRIES && At(s.tables, f, i).present
    ensures var e := At(s.tables, f, i);
      Follow(s, f, i, user) == (Machine(s.used, Put(s.tables, f, i, Entry(e.frame, true, e.writable, e.user || user))), Some(e.frame))
  {
  }

  lemma FirstInMemory(s: Machine, f: nat, p: seq<nat>, user: bool)
    requires InMemory(s, f, p, user) && |p| > 1
    ensures f < |s.used| && f in s.tables && p[0] < ENTRIES
    ensures var (s', c) := Follow(s, f, p[0], user); c.Some? ==> InMemory(s', c.value, p[1..], user)
  {
  }

  lemma EditsFirst(s: Machine, f: nat, p: seq<nat>, user: bool)
    requires InMemory(s, f, p, user)
    ensures f in Edited(s, f, p, user)
  {
  }
}
