/** Mapping, unmapping and address-space creation, each stated as a change of one abstract map
    from (address space, page path) to the access the hardware grants. */
module Mappings {
  import opened Common
  import opened FrameBitmap
  import opened PageTables

  // ---------- map ----------

  /** A map of `p` below table `f` that the callers may ask for: the kernel half only through the
      kernel root and never for user access; the frame of a low-half page is a loose one. */
  ghost predicate CanMap(w: World, f: nat, p: seq<nat>, leaf: Entry) {
    && Inv(w) && IsTable(w, f) && IsPath(p) && |p| == 4 - |w.owner[f].path|
    && MayEdit(w, f, p[0], leaf.user)
    && (leaf.present && (w.owner[f].path + p)[0] < KERNEL_SLOT ==> leaf.frame in w.loose)
  }

  lemma MayEditBelow(w: World, f: nat, i: nat, user: bool, j: nat)
    requires CanFollow(w, f, i, user) && NextTable(w, f, i, user).1.Some? && j < ENTRIES
    ensures MayEdit(NextTable(w, f, i, user).0, NextTable(w, f, i, user).1.value, j, user)
  {
    NextTableKeepsInv(w, f, i, user);
    assert GoodPlace(w, f);
    assert Child(w, f, i).path == w.owner[f].path + [i];
  }

  lemma CanMapBelow(w: World, f: nat, p: seq<nat>, leaf: Entry)
    requires CanMap(w, f, p, leaf) && |p| > 1 && NextTable(w, f, p[0], leaf.user).1.Some?
    ensures var w' := NextTable(w, f, p[0], leaf.user).0;
      var c := NextTable(w, f, p[0], leaf.user).1.value;
      && CanMap(w', c, p[1..], leaf)
      && w'.owner[c].path + p[1..] == w.owner[f].path + p
      && w'.owner[c].space == w.owner[f].space
  {
    var w' := NextTable(w, f, p[0], leaf.user).0;
    var c := NextTable(w, f, p[0], leaf.user).1.value;
    MayEditBelow(w, f, p[0], leaf.user, p[1..][0]);
    assert w'.loose == w.loose && c in w'.owner && w'.owner[c] == Child(w, f, p[0]) by {
      NextTableKeepsInv(w, f, p[0], leaf.user);
    }
    BelowSamePlace(w, f, p);
  }

  lemma BelowSamePlace(w: World, f: nat, p: seq<nat>)
    requires Inv(w) && f in w.owner && |p| > 0 && (w.owner[f].path == [] && p[0] >= KERNEL_SLOT ==> f == w.kernel)
    ensures Child(w, f, p[0]).path + p[1..] == w.owner[f].path + p
    ensures Child(w, f, p[0]).space == w.owner[f].space
  {
    assert GoodPlace(w, f);
  }

  /** Map `leaf` at `p` below `f`; false when a table could not be allocated. */
  ghost function Map(w: World, f: nat, p: seq<nat>, leaf: Entry): (World, bool)
    requires CanMap(w, f, p, leaf)
    decreases |p|
  {
    if |p| == 1 then (SetLeaf(w, f, p[0], leaf), true)
    else if NextTable(w, f, p[0], leaf.user).1.None? then (NextTable(w, f, p[0], leaf.user).0, false)
    else
      CanMapBelow(w, f, p, leaf);
      Map(NextTable(w, f, p[0], leaf.user).0, NextTable(w, f, p[0], leaf.user).1.value, p[1..], leaf)
  }

  /** One level of the map, as the code takes it. */
  lemma MapStep(w: World, f: nat, p: seq<nat>, leaf: Entry)
    requires CanMap(w, f, p, leaf) && |p| > 1
    ensures f in w.owner && f < |w.used| && w.used[f] && f in w.tables && p[0] < ENTRIES
    ensures var (w', r) := NextTable(w, f, p[0], leaf.user);
      match r
      case None => Map(w, f, p, leaf) == (w', false)
      case Some(c) => CanMap(w', c, p[1..], leaf) && Map(w, f, p, leaf) == Map(w', c, p[1..], leaf)
  {
    if NextTable(w, f, p[0], leaf.user).1.Some? {
      CanMapBelow(w, f, p, leaf);
    }
  }

  /** Mapped pages and loose frames, whose bytes no table edit may change. */
  ghost predicate IsData(w: World, f: nat) {
    f in w.loose || (f in w.owner && !IsTable(w, f))
  }

  lemma NextTableKeepsData(w: World, f: nat, i: nat, user: bool, h: nat)
    requires CanFollow(w, f, i, user) && IsData(w, h)
    ensures h < |w.used| && w.used[h] && h != f && IsData(NextTable(w, f, i, user).0, h)
  {
    hide UserPaths, SharedHalf, Links;
    hide Hangs;
  }

  lemma CanSetLast(w: World, f: nat, p: seq<nat>, leaf: Entry)
    requires CanMap(w, f, p, leaf) && |p| == 1
    ensures CanSetLeaf(w, f, p[0], leaf)
    ensures KernelLeaf(w, f) <==> (w.owner[f].path + p)[0] >= KERNEL_SLOT
  {
    assert (w.owner[f].path + p)[0] == w.owner[f].path[0];
  }

  lemma {:induction false} MapKeepsInv(w: World, f: nat, p: seq<nat>, leaf: Entry)
    requires CanMap(w, f, p, leaf)
    ensures var w' := Map(w, f, p, leaf).0;
      Inv(w') && w'.kernel == w.kernel && |w'.used| == |w.used| && w'.reserved == w.reserved
    decreases |p|
  {
    if |p| == 1 {
      CanSetLast(w, f, p, leaf);
      SetLeafKeepsInv(w, f, p[0], leaf);
    } else {
      NextTableKeepsInv(w, f, p[0], leaf.user);
      if NextTable(w, f, p[0], leaf.user).1.Some? {
        CanMapBelow(w, f, p, leaf);
        MapKeepsInv(NextTable(w, f, p[0], leaf.user).0, NextTable(w, f, p[0], leaf.user).1.value, p[1..], leaf);
      }
    }
  }

  /** The walk from `g` along `q` reads the page at `p` below `f`: same place, in the same space or
      through a shared kernel slot. */
  ghost predicate Sees(w: World, g: nat, q: seq<nat>, f: nat, p: seq<nat>)
    requires g in w.owner && f in w.owner && |q| > 0
  {
    && w.owner[g].path + q == w.owner[f].path + p
    && (w.owner[g].space == w.owner[f].space ||
        (w.owner[g].path == [] && q[0] >= KERNEL_SLOT && w.owner[f].space == w.kernel && At(w.tables, g, q[0]).present))
  }

  lemma SetLeafUpdatesOneKey(w: World, f: nat, i: nat, leaf: Entry, g: nat, q: seq<nat>)
    requires CanSetLeaf(w, f, i, leaf) && IsTable(w, g) && IsPath(q) && |q| == 4 - |w.owner[g].path|
    ensures Resolve(SetLeaf(w, f, i, leaf).tables, g, q) ==
      if Sees(w, g, q, f, [i]) then RightsOf(leaf) else Resolve(w.tables, g, q)
  {
    assert f in w.tables;
    SetLeafOwner(w, f, i, leaf, g);
    hide Inv, SetLeaf, At, Resolve, LeafOf;
    SetLeafKeepsInv(w, f, i, leaf);
    SetLeafWalk(w, f, i, leaf, g, q);
    LeafDecides(w, g, q);
    LeafDecides(SetLeaf(w, f, i, leaf), g, q);
  }

  lemma SeesBelow(w: World, f: nat, p: seq<nat>, leaf: Entry, g: nat, q: seq<nat>)
    requires CanMap(w, f, p, leaf) && |p| > 1 && g in w.owner && |q| > 0
    requires NextTable(w, f, p[0], leaf.user).1.Some?
    ensures var (w', r) := NextTable(w, f, p[0], leaf.user);
      && g in w'.owner && w'.owner[g] == w.owner[g] && r.value in w'.owner
      && (Sees(w', g, q, r.value, p[1..]) <==> Sees(w, g, q, f, p))
  {
    CanMapBelow(w, f, p, leaf);
    NextTableKeepsView(w, f, p[0], leaf.user, g, q[0]);
    assert IsRoot(w, g) ==> w.owner[g].space == g by { assert GoodPlace(w, g); }
    assert IsRoot(w, f) ==> w.owner[f].space == f by { assert GoodPlace(w, f); }
  }

  /** Mapping updates one key: every walk that sees the page finds the new leaf, every other walk
      finds what it found before, and a map that ran out of frames changed nothing. */
  lemma {:induction false} MapUpdatesOneKey(w: World, f: nat, p: seq<nat>, leaf: Entry, g: nat, q: seq<nat>)
    requires CanMap(w, f, p, leaf) && IsTable(w, g) && IsPath(q) && |q| == 4 - |w.owner[g].path|
    ensures var (w', ok) := Map(w, f, p, leaf);
      Resolve(w'.tables, g, q) == if ok && Sees(w, g, q, f, p) then RightsOf(leaf) else Resolve(w.tables, g, q)
    decreases |p|
  {
    assert f in w.tables;
    hide Inv, At;
    if |p| == 1 {
      CanSetLast(w, f, p, leaf);
      SetLeafUpdatesOneKey(w, f, p[0], leaf, g, q);
      assert p == [p[0]];
    } else {
      NextTableKeepsWalks(w, f, p[0], leaf.user, g, q);
      var r := NextTable(w, f, p[0], leaf.user).1;
      if r.Some? {
        CanMapBelow(w, f, p, leaf);
        SeesBelow(w, f, p, leaf, g, q);
        MapUpdatesOneKey(NextTable(w, f, p[0], leaf.user).0, r.value, p[1..], leaf, g, q);
      }
    }
  }

  /** Following a slot keeps the places of the owned frames and the slots that are present. */
  lemma NextTableKeepsView(w: World, f: nat, i: nat, user: bool, g: nat, j: nat)
    requires CanFollow(w, f, i, user) && g in w.owner
    ensures var w' := NextTable(w, f, i, user).0;
      && w'.kernel == w.kernel && g in w'.owner && w'.owner[g] == w.owner[g]
      && (g != f ==> At(w'.tables, g, j) == At(w.tables, g, j))
  {
  }

  // ---------- how many frames a map takes ----------

  function FreeCount(used: seq<bool>): nat {
    if used == [] then 0 else (if used[0] then 0 else 1) + FreeCount(used[1..])
  }

  lemma {:induction false} TakeOne(used: seq<bool>, c: nat)
    requires c < |used| && !used[c]
    ensures FreeCount(used[c := true]) == FreeCount(used) - 1
  {
    if c > 0 {
      assert used[c := true][1..] == used[1..][c - 1 := true];
      TakeOne(used[1..], c - 1);
    } else {
      assert used[c := true][1..] == used[1..];
    }
  }

  lemma {:induction false} NoneFree(used: seq<bool>)
    ensures FreeCount(used) == 0 <==> FirstFree(used).None?
  {
    if used != [] {
      NoneFree(used[1..]);
    }
  }

  /** The tables missing on the way down `p` from `f`. */
  function Missing(t: Tables, f: nat, p: seq<nat>): (n: nat)
    requires |p| > 0
    ensures n < |p|
    decreases |p|
  {
    if |p| == 1 then 0
    else if At(t, f, p[0]).present then Missing(t, At(t, f, p[0]).frame, p[1..])
    else |p| - 1
  }

  lemma {:induction false} MissingAllAbsent(t: Tables, f: nat, p: seq<nat>)
    requires |p| > 0 && forall j :: !At(t, f, j).present
    ensures Missing(t, f, p) == |p| - 1
  {
  }

  /** A map succeeds exactly when the free frames cover the missing tables, and takes just those. */
  lemma {:induction false} MapTakesMissing(w: World, f: nat, p: seq<nat>, leaf: Entry)
    requires CanMap(w, f, p, leaf)
    ensures var (w', ok) := Map(w, f, p, leaf);
      && (ok <==> Missing(w.tables, f, p) <= FreeCount(w.used))
      && FreeCount(w'.used) == if ok then FreeCount(w.used) - Missing(w.tables, f, p) else 0
    decreases |p|
  {
    if |p| > 1 {
      var r := NextTable(w, f, p[0], leaf.user).1;
      NextTableTakes(w, f, p, leaf.user);
      if r.Some? {
        CanMapBelow(w, f, p, leaf);
        MapTakesMissing(NextTable(w, f, p[0], leaf.user).0, r.value, p[1..], leaf);
      }
    }
  }

  lemma NextTableTakes(w: World, f: nat, p: seq<nat>, user: bool)
    requires |p| > 1 && CanFollow(w, f, p[0], user)
    ensures var (w', r) := NextTable(w, f, p[0], user);
      if r.None? then FreeCount(w.used) == 0 && FreeCount(w'.used) == 0 && Missing(w.tables, f, p) > 0
      else Missing(w'.tables, r.value, p[1..]) - FreeCount(w'.used) == Missing(w.tables, f, p) - FreeCount(w.used)
  {
    NoneFree(w.used);
    var (w', r) := NextTable(w, f, p[0], user);
    if At(w.tables, f, p[0]).present {
      ShareKeepsMissing(w.tables, f, p[0], At(w.tables, f, p[0]).user || user, r.value, p[1..]);
    } else if r.Some? {
      TakeOne(w.used, r.value);
      assert r.value != f;
      assert forall j :: At(w'.tables, r.value, j) == ABSENT;
      MissingAllAbsent(w'.tables, r.value, p[1..]);
    }
  }

  /** The user bits do not matter for what is missing. */
  lemma {:induction false} ShareKeepsMissing(t: Tables, f: nat, i: nat, user: bool, g: nat, p: seq<nat>)
    requires f in t && i < ENTRIES && |p| > 0
    ensures var e := At(t, f, i); Missing(Put(t, f, i, Entry(e.frame, e.present, e.writable, user)), g, p) == Missing(t, g, p)
    decreases |p|
  {
    if |p| > 1 && At(t, g, p[0]).present {
      ShareKeepsMissing(t, f, i, user, At(t, g, p[0]).frame, p[1..]);
    }
  }

  // ---------- unmap ----------

  ghost predicate CanUnmap(w: World, f: nat, p: seq<nat>) {
    && Inv(w) && IsTable(w, f) && IsPath(p) && |p| == 4 - |w.owner[f].path|
    && MayEdit(w, f, p[0], false)
  }

  lemma CanUnmapBelow(w: World, f: nat, p: seq<nat>)
    requires CanUnmap(w, f, p) && |p| > 1 && At(w.tables, f, p[0]).present
    ensures var c := At(w.tables, f, p[0]).frame;
      && CanUnmap(w, c, p[1..])
      && w.owner[c].path + p[1..] == w.owner[f].path + p
      && w.owner[c].space == w.owner[f].space
  {
    assert GoodLink(w, f, p[0]) && GoodPlace(w, f);
    assert w.owner[At(w.tables, f, p[0]).frame] == Child(w, f, p[0]);
    BelowSamePlace(w, f, p);
  }

  ghost function Unmap(w: World, f: nat, p: seq<nat>): World
    requires CanUnmap(w, f, p)
    decreases |p|
  {
    if |p| == 1 then SetLeaf(w, f, p[0], ABSENT)
    else if !At(w.tables, f, p[0]).present then w
    else CanUnmapBelow(w, f, p); Unmap(w, At(w.tables, f, p[0]).frame, p[1..])
  }

  /** One level of the unmap, as the code takes it. */
  lemma UnmapStep(w: World, f: nat, p: seq<nat>)
    requires CanUnmap(w, f, p) && |p| > 1
    ensures f < |w.used| && p[0] < ENTRIES
    ensures var e := At(w.tables, f, p[0]);
      if e.present then CanUnmap(w, e.frame, p[1..]) && Unmap(w, f, p) == Unmap(w, e.frame, p[1..])
      else Unmap(w, f, p) == w
  {
    if At(w.tables, f, p[0]).present {
      CanUnmapBelow(w, f, p);
    }
  }

  lemma UnmapLast(w: World, f: nat, p: seq<nat>)
    requires CanUnmap(w, f, p) && |p| == 1
    ensures IsTable(w, f) && |w.owner[f].path| == 3 && f < |w.used| && p[0] < ENTRIES && f in w.tables
    ensures CanSetLeaf(w, f, p[0], ABSENT) && Unmap(w, f, p) == SetLeaf(w, f, p[0], ABSENT)
  {
  }

  lemma {:induction false} UnmapKeepsInv(w: World, f: nat, p: seq<nat>)
    requires CanUnmap(w, f, p)
    ensures var w' := Unmap(w, f, p);
      Inv(w') && w'.kernel == w.kernel && w'.used == w.used && w'.reserved == w.reserved
    decreases |p|
  {
    if |p| == 1 {
      SetLeafKeepsInv(w, f, p[0], ABSENT);
    } else if At(w.tables, f, p[0]).present {
      CanUnmapBelow(w, f, p);
      UnmapKeepsInv(w, At(w.tables, f, p[0]).frame, p[1..]);
    }
  }

  /** Unmapping removes exactly one key. */
  lemma {:induction false} UnmapRemovesOneKey(w: World, f: nat, p: seq<nat>, g: nat, q: seq<nat>)
    requires CanUnmap(w, f, p) && IsTable(w, g) && IsPath(q) && |q| == 4 - |w.owner[g].path|
    ensures Resolve(Unmap(w, f, p).tables, g, q) == if Sees(w, g, q, f, p) then None else Resolve(w.tables, g, q)
    decreases |p|
  {
    if |p| == 1 {
      SetLeafUpdatesOneKey(w, f, p[0], ABSENT, g, q);
      assert p == [p[0]];
    } else if At(w.tables, f, p[0]).present {
      CanUnmapBelow(w, f, p);
      UnmapRemovesOneKey(w, At(w.tables, f, p[0]).frame, p[1..], g, q);
    } else if Sees(w, g, q, f, p) {
      AbsentBelow(w, f, p, g, q);
    }
  }

  /** Where a table is missing on the way to `p`, every walk that would see `p` fails. */
  lemma {:induction false} AbsentBelow(w: World, f: nat, p: seq<nat>, g: nat, q: seq<nat>)
    requires Inv(w) && IsUpper(w, f) && |p| == 4 - |w.owner[f].path| && !At(w.tables, f, p[0]).present
    requires IsTable(w, g) && |q| == 4 - |w.owner[g].path| && Sees(w, g, q, f, p)
    ensures Resolve(w.tables, g, q).None?
    decreases |q|
  {
    var fp, gp := w.owner[f].path, w.owner[g].path;
    if |gp| == |fp| {
      assert gp == (gp + q)[..|gp|] == fp && (gp + q)[|gp|] == q[0] && (fp + p)[|fp|] == p[0];
      if w.owner[g].space == w.owner[f].space {
        OnePlace(w, g, f);
      }
    } else if |gp| < |fp| {
      if At(w.tables, g, q[0]).present {
        assert GoodLink(w, g, q[0]) && GoodPlace(w, f);
        assert (gp + q)[|gp|] == q[0];
        BelowSees(w, f, p, g, q);
        AbsentBelow(w, f, p, At(w.tables, g, q[0]).frame, q[1..]);
      }
    } else {
      var k := |fp|;
      assert gp[..k] == (gp + q)[..k] == (fp + p)[..k] == fp;
      assert gp[k] == (gp + q)[k] == (fp + p)[k] == p[0];
      OnTheWay(w, f, g);
    }
  }

  lemma BelowSees(w: World, f: nat, p: seq<nat>, g: nat, q: seq<nat>)
    requires Inv(w) && IsUpper(w, f) && |p| == 4 - |w.owner[f].path|
    requires IsUpper(w, g) && |q| == 4 - |w.owner[g].path| && Sees(w, g, q, f, p) && |w.owner[g].path| < |w.owner[f].path|
    requires At(w.tables, g, q[0]).present
    ensures var c := At(w.tables, g, q[0]).frame;
      IsTable(w, c) && |w.owner[c].path| == |w.owner[g].path| + 1 && Sees(w, c, q[1..], f, p)
  {
    hide Frames, UserPaths;
    hide SharedHalf;
    var c := At(w.tables, g, q[0]).frame;
    assert GoodLink(w, g, q[0]) && GoodPlace(w, g) && GoodPlace(w, f);
    hide Links, Places;
    assert w.owner[c].path == w.owner[g].path + [q[0]];
    PathStep(w.owner[g].path, q);
    PathStep(w.owner[f].path, p);
  }

  // ---------- a new address space ----------

  /** The empty low half under the kernel's high slots. */
  function NewRoot(k: Table): (t: Table)
    ensures forall i :: 0 <= i < ENTRIES ==> t[i] == if i < KERNEL_SLOT then ABSENT else k[i]
  {
    seq(ENTRIES, i requires 0 <= i < ENTRIES => if i < KERNEL_SLOT then ABSENT else k[i])
  }

  ghost function CreateSpace(w: World, r: nat): World
    requires r < |w.used| && w.kernel in w.tables
  {
    World(w.kernel, w.used[r := true], w.tables[r := NewRoot(w.tables[w.kernel])], w.owner[r := Node(r, [], r)],
          w.reserved, w.loose)
  }

  lemma CreateKeepsInv(w: World, r: nat)
    requires Inv(w) && r < |w.used| && !w.used[r]
    ensures Inv(CreateSpace(w, r))
  {
    assert Frames(CreateSpace(w, r));
    CreatePlaces(w, r);
    CreateLinks(w, r);
    CreateUserPaths(w, r);
    CreateSharedHalf(w, r);
    CreateSupervisor(w, r);
  }

  lemma CreateSupervisor(w: World, r: nat)
    requires Inv(w) && r < |w.used| && !w.used[r]
    ensures Supervisor(CreateSpace(w, r))
  {
    hide Links, UserPaths, SharedHalf;
    var w' := CreateSpace(w, r);
    forall g, j | HighSlot(w', g, j) ensures !UserEntry(w'.tables, g, j) {
      var g0 := if g == r then w.kernel else g;
      assert HighSlot(w, g0, j) && !UserEntry(w.tables, g0, j);
    }
  }

  lemma CreateSharedHalf(w: World, r: nat)
    requires Inv(w) && r < |w.used| && !w.used[r]
    ensures SharedHalf(CreateSpace(w, r))
  {
    var w' := CreateSpace(w, r);
    forall g, i | IsRoot(w', g) && i >= KERNEL_SLOT && At(w'.tables, g, i).present
      ensures At(w'.tables, g, i) == At(w'.tables, w'.kernel, i)
    {
      assert w.kernel != r && At(w'.tables, w.kernel, i) == At(w.tables, w.kernel, i);
      if g == r {
        assert At(w'.tables, r, i) == At(w.tables, w.kernel, i);
      } else {
        assert IsRoot(w, g) && At(w'.tables, g, i) == At(w.tables, g, i);
      }
    }
  }

  lemma CreatePlaces(w: World, r: nat)
    requires Inv(w) && r < |w.used| && !w.used[r]
    ensures Places(CreateSpace(w, r))
  {
    var w' := CreateSpace(w, r);
    forall g <- w'.owner ensures GoodPlace(w', g) {
      if g != r {
        assert GoodPlace(w, g);
      }
    }
  }

  lemma CreateLinks(w: World, r: nat)
    requires Inv(w) && r < |w.used| && !w.used[r]
    ensures Links(CreateSpace(w, r))
  {
    var w' := CreateSpace(w, r);
    forall g, j | IsTable(w', g) && At(w'.tables, g, j).present ensures GoodLink(w', g, j) {
      if g == r {
        assert IsTable(w, w.kernel) && GoodLink(w, w.kernel, j);
      } else {
        assert IsTable(w, g) && GoodLink(w, g, j);
      }
    }
  }

  lemma CreateUserPaths(w: World, r: nat)
    requires Inv(w) && r < |w.used| && !w.used[r]
    ensures UserPaths(CreateSpace(w, r))
  {
    var w' := CreateSpace(w, r);
    forall g, j, k | IsUpper(w', g) && At(w'.tables, g, j).present && UserEntry(w'.tables, At(w'.tables, g, j).frame, k)
      ensures At(w'.tables, g, j).user
    {
      var g0 := if g == r then w.kernel else g;
      assert IsUpper(w, g0) && At(w.tables, g0, j) == At(w'.tables, g, j);
      assert IsTable(w, g0) && GoodLink(w, g0, j);
      assert UserEntry(w.tables, At(w.tables, g0, j).frame, k);
    }
  }

  /** Walks of the other tables do not see a change of an unowned frame. */
  lemma {:induction false} OutsideKeepsWalks(w: World, t': Tables, g: nat, p: seq<nat>)
    requires Inv(w) && IsTable(w, g) && |p| == 4 - |w.owner[g].path|
    requires forall f, i :: IsTable(w, f) ==> At(t', f, i) == At(w.tables, f, i)
    ensures Resolve(t', g, p) == Resolve(w.tables, g, p)
    decreases |p|
  {
    if |p| > 1 && At(w.tables, g, p[0]).present {
      assert GoodLink(w, g, p[0]);
      OutsideKeepsWalks(w, t', At(w.tables, g, p[0]).frame, p[1..]);
    }
  }

  /** A new space translates nothing in the low half, what the kernel does in the high half, and
      disturbs no other space. */
  lemma CreateTranslations(w: World, r: nat, g: nat, p: seq<nat>)
    requires Inv(w) && r < |w.used| && !w.used[r] && IsPath(p) && |p| == 4
    ensures var w' := CreateSpace(w, r);
      && (p[0] < KERNEL_SLOT ==> Resolve(w'.tables, r, p) == None)
      && (p[0] >= KERNEL_SLOT ==> Resolve(w'.tables, r, p) == Resolve(w.tables, w.kernel, p))
      && (IsRoot(w, g) ==> Resolve(w'.tables, g, p) == Resolve(w.tables, g, p))
  {
    var w' := CreateSpace(w, r);
    CreateKeepsInv(w, r);
    OutsideKeepsWalks(w, w'.tables, w.kernel, p);
    if IsRoot(w, g) {
      OutsideKeepsWalks(w, w'.tables, g, p);
    }
    if p[0] >= KERNEL_SLOT {
      KernelHalfAgrees(w', r, p);
    }
  }

  /** In every state a space sees the kernel's translation wherever its own slot is present, and
      nothing where the kernel filled the slot only later. */
  lemma KernelHalfAgrees(w: World, r: nat, p: seq<nat>)
    requires Inv(w) && IsRoot(w, r) && |p| == 4 && p[0] >= KERNEL_SLOT
    ensures Resolve(w.tables, r, p) == if At(w.tables, r, p[0]).present then Resolve(w.tables, w.kernel, p) else None
  {
  }

  // ---------- page contents ----------

  /** Frame `f` overwritten through the direct map or through a user mapping. */
  ghost function Overwrite(w: World, f: nat, t: Table): World {
    World(w.kernel, w.used, w.tables[f := t], w.owner, w.reserved, w.loose)
  }

  lemma OverwriteKeepsInv(w: World, f: nat, t: Table)
    requires Inv(w) && !IsTable(w, f)
    ensures Inv(Overwrite(w, f, t))
  {
    OverwritePlaces(w, f, t);
    OverwriteUserPaths(w, f, t);
    OverwriteSharedHalf(w, f, t);
    OverwriteSupervisor(w, f, t);
  }

  lemma OverwriteSupervisor(w: World, f: nat, t: Table)
    requires Inv(w) && !IsTable(w, f)
    ensures Supervisor(Overwrite(w, f, t))
  {
    hide Frames, Places, Links, UserPaths, SharedHalf;
    var w' := Overwrite(w, f, t);
    forall g, j | HighSlot(w', g, j) ensures !UserEntry(w'.tables, g, j) {
      assert HighSlot(w, g, j) && !UserEntry(w.tables, g, j);
    }
  }

  lemma OverwritePlaces(w: World, f: nat, t: Table)
    requires Inv(w) && !IsTable(w, f)
    ensures var w' := Overwrite(w, f, t); Frames(w') && Places(w') && Links(w')
  {
    OverwriteHangs(w, f, t);
    OverwriteLinks(w, f, t);
    hide Places, Links, UserPaths, SharedHalf, Supervisor;
  }

  lemma OverwriteHangs(w: World, f: nat, t: Table)
    requires Inv(w) && !IsTable(w, f)
    ensures Places(Overwrite(w, f, t))
  {
    hide Links, UserPaths, SharedHalf;
    var w' := Overwrite(w, f, t);
    forall g <- w'.owner ensures GoodPlace(w', g) {
      assert GoodPlace(w, g);
    }
  }

  lemma OverwriteLinks(w: World, f: nat, t: Table)
    requires Inv(w) && !IsTable(w, f)
    ensures Links(Overwrite(w, f, t))
  {
    hide UserPaths, SharedHalf;
    var w' := Overwrite(w, f, t);
    forall g, j | IsTable(w', g) && At(w'.tables, g, j).present ensures GoodLink(w', g, j) {
      assert IsTable(w, g) && GoodLink(w, g, j);
    }
  }

  lemma OverwriteUserPaths(w: World, f: nat, t: Table)
    requires Inv(w) && !IsTable(w, f)
    ensures UserPaths(Overwrite(w, f, t))
  {
    hide Frames;
    var w' := Overwrite(w, f, t);
    forall g, j, k | IsUpper(w', g) && At(w'.tables, g, j).present && UserEntry(w'.tables, At(w'.tables, g, j).frame, k)
      ensures At(w'.tables, g, j).user
    {
      assert IsUpper(w, g) && IsTable(w, g) && GoodLink(w, g, j);
      assert IsTable(w, At(w.tables, g, j).frame);
      assert UserEntry(w.tables, At(w.tables, g, j).frame, k);
    }
  }

  lemma OverwriteSharedHalf(w: World, f: nat, t: Table)
    requires Inv(w) && !IsTable(w, f)
    ensures SharedHalf(Overwrite(w, f, t))
  {
    hide Frames, Links;
    var w' := Overwrite(w, f, t);
    forall r, i | IsRoot(w', r) && i >= KERNEL_SLOT && At(w'.tables, r, i).present
      ensures At(w'.tables, r, i) == At(w'.tables, w'.kernel, i)
    {
      assert IsRoot(w, r) && IsTable(w, r) && IsTable(w, w.kernel);
      assert At(w'.tables, r, i) == At(w.tables, r, i) && At(w'.tables, w.kernel, i) == At(w.tables, w.kernel, i);
    }
  }
}
