/** The page tables as a value: what a walk finds, who owns each frame, and what one
    map, unmap or new address space changes. */
module PageTables {
  import opened Common
  import opened FrameBitmap

  const ENTRIES: nat := 512
  const KERNEL_SLOT: nat := 256

  /** One decoded page-table entry. */
  datatype Entry = Entry(frame: nat, present: bool, writable: bool, user: bool)

  const ABSENT := Entry(0, false, false, false)

  type Table = t: seq<Entry> | |t| == ENTRIES witness seq(ENTRIES, (i: nat) => ABSENT)

  function EmptyTable(): (t: Table)
    ensures forall i :: 0 <= i < ENTRIES ==> t[i] == ABSENT
  {
    seq(ENTRIES, _ => ABSENT)
  }

  type Tables = map<nat, Table>

  function At(t: Tables, f: nat, i: nat): Entry {
    if f in t && i < ENTRIES then t[f][i] else ABSENT
  }

  function Put(t: Tables, f: nat, i: nat, e: Entry): (t': Tables)
    requires f in t && i < ENTRIES
    ensures t'.Keys == t.Keys
    ensures forall g, j :: At(t', g, j) == if g == f && j == i then e else At(t, g, j)
  {
    t[f := t[f][i := e]]
  }

  function Clear(t: Tables, f: nat): (t': Tables)
    ensures t'.Keys == t.Keys + {f}
    ensures forall g, j :: At(t', g, j) == if g == f then ABSENT else At(t, g, j)
  {
    t[f := EmptyTable()]
  }

  /** What the hardware grants at the end of a walk: the frame, and the rights that every
      level of the walk allows. */
  datatype Access = Access(frame: nat, writable: bool, user: bool)

  /** Where a frame hangs: the address space (its root frame), the indices from the root down,
      and the frame that links to it. A path of length 0 is a root, 1 to 3 a lower table,
      4 a mapped page. */
  datatype Node = Node(space: nat, path: seq<nat>, parent: nat)

  /** `used` is the frame bitmap; `reserved` the frames set at boot; `owner` places the frames
      that are tables or low-half pages; `loose` holds the allocated frames that are in no
      low-half page (just handed out, dropped, or kept by the kernel). */
  datatype World = World(
    kernel: nat,
    used: seq<bool>,
    tables: Tables,
    owner: map<nat, Node>,
    reserved: set<nat>,
    loose: set<nat>)

  ghost predicate IsPath(p: seq<nat>) {
    forall k :: 0 <= k < |p| ==> p[k] < ENTRIES
  }

  /** The hardware walk from table `f` along `p`. */
  function Resolve(t: Tables, f: nat, p: seq<nat>): (r: Option<Access>)
    requires |p| > 0
    decreases |p|
  {
    var e := At(t, f, p[0]);
    if !e.present then None
    else if |p| == 1 then Some(Access(e.frame, e.writable, e.user))
    else match Resolve(t, e.frame, p[1..])
      case None => None
      case Some(a) => Some(Access(a.frame, e.writable && a.writable, e.user && a.user))
  }

  // ---------- the ownership invariant ----------

  ghost predicate IsTable(w: World, f: nat) {
    f in w.owner && |w.owner[f].path| <= 3
  }

  ghost predicate IsUpper(w: World, f: nat) {
    f in w.owner && |w.owner[f].path| <= 2
  }

  ghost predicate IsRoot(w: World, f: nat) {
    f in w.owner && w.owner[f].path == []
  }

  /** The place of what slot `i` of table `f` links to. High slots of every root lead into the
      kernel's own tables. */
  ghost function Child(w: World, f: nat, i: nat): Node
    requires f in w.owner
  {
    var n := w.owner[f];
    if n.path == [] && i >= KERNEL_SLOT then Node(w.kernel, [i], w.kernel)
    else Node(n.space, n.path + [i], f)
  }

  /** Leaves of the kernel half may map any frame, also device memory. */
  ghost predicate KernelLeaf(w: World, f: nat)
    requires f in w.owner
  {
    |w.owner[f].path| == 3 && w.owner[f].path[0] >= KERNEL_SLOT
  }

  ghost predicate Frames(w: World) {
    && (forall f :: 0 <= f < |w.used| ==> f in w.tables)
    && (forall f <- w.owner :: f < |w.used| && f !in w.loose && f !in w.reserved)
    && (forall f <- w.loose :: f < |w.used| && f !in w.reserved)
    && (forall f :: 0 <= f < |w.used| ==> (w.used[f] <==> f in w.owner || f in w.loose || f in w.reserved))
  }

  ghost predicate Places(w: World) {
    IsRoot(w, w.kernel) && forall f <- w.owner :: GoodPlace(w, f)
  }

  ghost predicate GoodPlace(w: World, f: nat)
    requires f in w.owner
  {
    var n := w.owner[f];
    && |n.path| <= 4 && IsPath(n.path)
    && (n.path == [] ==> n.space == f)
    && (n.path != [] ==> Hangs(w, f, n))
  }

  /** The frame `f` is linked from its parent at the last index of its path. */
  ghost predicate Hangs(w: World, f: nat, n: Node)
    requires n.path != []
  {
    && n.parent in w.owner
    && w.owner[n.parent].path == n.path[..|n.path| - 1]
    && w.owner[n.parent].space == n.space
    && (n.path[0] >= KERNEL_SLOT ==> n.space == w.kernel && |n.path| <= 3)
    && At(w.tables, n.parent, n.path[|n.path| - 1]).present
    && At(w.tables, n.parent, n.path[|n.path| - 1]).frame == f
  }

  /** Every present entry of a table links to the frame whose place is that slot; the upper
      levels are all writable. */
  ghost predicate Links(w: World) {
    forall f, i :: IsTable(w, f) && At(w.tables, f, i).present ==> GoodLink(w, f, i)
  }

  ghost predicate GoodLink(w: World, f: nat, i: nat)
    requires IsTable(w, f)
  {
    var e := At(w.tables, f, i);
    KernelLeaf(w, f) || (e.frame in w.owner && w.owner[e.frame] == Child(w, f, i) && (IsUpper(w, f) ==> e.writable))
  }

  /** A user entry is reached through user entries only. */
  ghost predicate UserPaths(w: World) {
    forall f, i, j :: IsUpper(w, f) && At(w.tables, f, i).present && UserEntry(w.tables, At(w.tables, f, i).frame, j)
      ==> At(w.tables, f, i).user
  }

  ghost predicate UserEntry(t: Tables, f: nat, j: nat) {
    At(t, f, j).present && At(t, f, j).user
  }

  /** A high slot present in some root is the kernel's own slot. */
  ghost predicate SharedHalf(w: World) {
    forall r, i :: IsRoot(w, r) && i >= KERNEL_SLOT && At(w.tables, r, i).present
      ==> At(w.tables, r, i) == At(w.tables, w.kernel, i)
  }

  /** Slot `i` of table `f` translates addresses of the kernel half. */
  ghost predicate HighSlot(w: World, f: nat, i: nat) {
    IsTable(w, f) && if w.owner[f].path == [] then i >= KERNEL_SLOT else w.owner[f].path[0] >= KERNEL_SLOT
  }

  /** Nothing in the kernel half, seen from any space, is open to the user. */
  ghost predicate Supervisor(w: World) {
    forall f, i :: HighSlot(w, f, i) ==> !UserEntry(w.tables, f, i)
  }

  ghost predicate Inv(w: World) {
    Frames(w) && Places(w) && Links(w) && UserPaths(w) && SharedHalf(w) && Supervisor(w)
  }

  // ---------- the operations ----------

  /** The world after the free frame `c` became the empty table behind slot `i` of `f`. */
  ghost function LinkTable(w: World, f: nat, i: nat, user: bool, c: nat): World
    requires f in w.owner && f in w.tables && i < ENTRIES && c < |w.used|
  {
    World(w.kernel, w.used[c := true], Put(Clear(w.tables, c), f, i, Entry(c, true, true, user)),
          w.owner[c := Child(w, f, i)], w.reserved, w.loose)
  }

  /** The world after slot `i` of `f` got the user bit if `user` asks for it. */
  ghost function ShareTable(w: World, f: nat, i: nat, user: bool): World
    requires f in w.tables && i < ENTRIES
  {
    var e := At(w.tables, f, i);
    World(w.kernel, w.used, Put(w.tables, f, i, Entry(e.frame, e.present, e.writable, e.user || user)),
          w.owner, w.reserved, w.loose)
  }

  /** Follow slot `i` of table `f`, making the missing table or adding the user bit. */
  ghost function NextTable(w: World, f: nat, i: nat, user: bool): (World, Option<nat>)
    requires f in w.owner && f in w.tables && i < ENTRIES
  {
    if At(w.tables, f, i).present then
      (ShareTable(w, f, i, user), Some(At(w.tables, f, i).frame))
    else match FirstFree(w.used)
      case None => (w, None)
      case Some(c) => (LinkTable(w, f, i, user, c), Some(c))
  }

  /** The caller may edit slot `i` of table `f`: kernel-half slots only through the kernel root
      and without the user bit, and a user entry only below a user link. */
  ghost predicate MayEdit(w: World, f: nat, i: nat, user: bool) {
    && Inv(w) && IsTable(w, f) && i < ENTRIES
    && var n := w.owner[f];
    if n.path == [] then i >= KERNEL_SLOT ==> f == w.kernel && !user
    else user ==> n.path[0] < KERNEL_SLOT && At(w.tables, n.parent, n.path[|n.path| - 1]).user
  }

  ghost predicate CanFollow(w: World, f: nat, i: nat, user: bool) {
    MayEdit(w, f, i, user) && IsUpper(w, f)
  }

  /** Only the link its place names, or a shared kernel slot, leads to a table. */
  lemma OnlyLink(w: World, g: nat, j: nat, f: nat)
    requires Inv(w) && IsUpper(w, g) && At(w.tables, g, j).present && At(w.tables, g, j).frame == f
    ensures f in w.owner && w.owner[f].path != []
    ensures w.owner[f].path[0] < KERNEL_SLOT ==> g == w.owner[f].parent && j == w.owner[f].path[|w.owner[f].path| - 1]
  {
    assert IsTable(w, g) && GoodLink(w, g, j);
  }

  ghost predicate CanLink(w: World, f: nat, i: nat, user: bool, c: nat) {
    CanFollow(w, f, i, user) && !At(w.tables, f, i).present && c < |w.used| && !w.used[c]
  }

  lemma LinkFrames(w: World, f: nat, i: nat, user: bool, c: nat)
    requires CanLink(w, f, i, user, c)
    ensures Frames(LinkTable(w, f, i, user, c))
  {
  }

  lemma LinkPlaces(w: World, f: nat, i: nat, user: bool, c: nat)
    requires CanLink(w, f, i, user, c)
    ensures Places(LinkTable(w, f, i, user, c))
  {
    var w' := LinkTable(w, f, i, user, c);
    forall g <- w'.owner ensures GoodPlace(w', g) {
      if g != c {
        assert GoodPlace(w, g);
      } else {
        assert GoodPlace(w, f);
      }
    }
  }

  lemma LinkLinks(w: World, f: nat, i: nat, user: bool, c: nat)
    requires CanLink(w, f, i, user, c)
    ensures Links(LinkTable(w, f, i, user, c))
  {
    var w' := LinkTable(w, f, i, user, c);
    forall g, j | IsTable(w', g) && At(w'.tables, g, j).present ensures GoodLink(w', g, j) {
      if g != c && (g != f || j != i) {
        assert IsTable(w, g) && At(w.tables, g, j).present;
        assert GoodLink(w, g, j);
      }
    }
  }

  lemma LinkUserPaths(w: World, f: nat, i: nat, user: bool, c: nat)
    requires CanLink(w, f, i, user, c)
    ensures UserPaths(LinkTable(w, f, i, user, c))
  {
    var w' := LinkTable(w, f, i, user, c);
    forall g, j, k | IsUpper(w', g) && At(w'.tables, g, j).present && UserEntry(w'.tables, At(w'.tables, g, j).frame, k)
      ensures At(w'.tables, g, j).user
    {
      if g != c && (g != f || j != i) {
        var d := At(w.tables, g, j).frame;
        OnlyLink(w, g, j, d);
        assert (d == f && k == i) || UserEntry(w.tables, d, k);
      }
    }
  }

  lemma LinkSharedHalf(w: World, f: nat, i: nat, user: bool, c: nat)
    requires CanLink(w, f, i, user, c)
    ensures SharedHalf(LinkTable(w, f, i, user, c))
  {
  }

  lemma LinkSupervisor(w: World, f: nat, i: nat, user: bool, c: nat)
    requires CanLink(w, f, i, user, c)
    ensures Supervisor(LinkTable(w, f, i, user, c))
  {
    hide Places, Links, UserPaths, SharedHalf;
    var w' := LinkTable(w, f, i, user, c);
    forall g, j | HighSlot(w', g, j) ensures !UserEntry(w'.tables, g, j) {
      if g != c && (g != f || j != i) {
        assert HighSlot(w, g, j) && !UserEntry(w.tables, g, j);
      }
    }
  }

  lemma ShareKeepsInv(w: World, f: nat, i: nat, user: bool)
    requires CanFollow(w, f, i, user) && At(w.tables, f, i).present
    ensures Inv(ShareTable(w, f, i, user))
  {
    ShareFrames(w, f, i, user);
    SharePlaces(w, f, i, user);
    ShareLinks(w, f, i, user);
    ShareUserPaths(w, f, i, user);
    ShareSupervisor(w, f, i, user);
  }

  lemma ShareFrames(w: World, f: nat, i: nat, user: bool)
    requires CanFollow(w, f, i, user) && At(w.tables, f, i).present
    ensures f in w.tables && Frames(ShareTable(w, f, i, user)) && SharedHalf(ShareTable(w, f, i, user))
  {
    hide Links, UserPaths;
  }

  lemma SharePlaces(w: World, f: nat, i: nat, user: bool)
    requires CanFollow(w, f, i, user) && At(w.tables, f, i).present
    ensures Places(ShareTable(w, f, i, user))
  {
    hide Links, UserPaths, SharedHalf;
    var w' := ShareTable(w, f, i, user);
    forall g <- w'.owner ensures GoodPlace(w', g) {
      assert GoodPlace(w, g);
    }
  }

  lemma ShareLinks(w: World, f: nat, i: nat, user: bool)
    requires CanFollow(w, f, i, user) && At(w.tables, f, i).present
    ensures Links(ShareTable(w, f, i, user))
  {
    hide UserPaths, SharedHalf;
    var w' := ShareTable(w, f, i, user);
    forall g, j | IsTable(w', g) && At(w'.tables, g, j).present ensures GoodLink(w', g, j) {
      assert IsTable(w, g) && GoodLink(w, g, j);
    }
  }

  lemma ShareUserPaths(w: World, f: nat, i: nat, user: bool)
    requires CanFollow(w, f, i, user) && At(w.tables, f, i).present
    ensures UserPaths(ShareTable(w, f, i, user))
  {
    var w' := ShareTable(w, f, i, user);
    forall g, j, k | IsUpper(w', g) && At(w'.tables, g, j).present && UserEntry(w'.tables, At(w'.tables, g, j).frame, k)
      ensures At(w'.tables, g, j).user
    {
      var d := At(w.tables, g, j).frame;
      OnlyLink(w, g, j, d);
      if d == f && k == i {
        if !At(w.tables, f, i).user {
          assert user;
        } else {
          assert UserEntry(w.tables, d, k);
        }
      } else {
        assert UserEntry(w.tables, d, k);
      }
    }
  }

  lemma ShareSupervisor(w: World, f: nat, i: nat, user: bool)
    requires CanFollow(w, f, i, user) && At(w.tables, f, i).present
    ensures Supervisor(ShareTable(w, f, i, user))
  {
    hide Places, Links, UserPaths, SharedHalf;
    var w' := ShareTable(w, f, i, user);
    forall g, j | HighSlot(w', g, j) ensures !UserEntry(w'.tables, g, j) {
      assert HighSlot(w, g, j) && !UserEntry(w.tables, g, j);
    }
  }

  /** Following a slot keeps the invariant, finds a table at the slot's place, and leaves a
      link that lets the next level carry the same user bit. */
  lemma NextTableKeepsInv(w: World, f: nat, i: nat, user: bool)
    requires CanFollow(w, f, i, user)
    ensures var (w', r) := NextTable(w, f, i, user);
      && Inv(w')
      && w'.kernel == w.kernel && w'.loose == w.loose && |w'.used| == |w.used|
      && (forall g <- w.owner :: g in w'.owner && w'.owner[g] == w.owner[g])
      && (r.None? <==> !At(w.tables, f, i).present && FirstFree(w.used).None?)
      && (r.Some? ==>
        && r.value in w'.owner && w'.owner[r.value] == Child(w, f, i) && |w'.owner[r.value].path| == |w.owner[f].path| + 1
        && At(w'.tables, w'.owner[r.value].parent, i).frame == r.value
        && (user ==> At(w'.tables, w'.owner[r.value].parent, i).user))
  {
    hide Inv;
    if At(w.tables, f, i).present {
      PresentLink(w, f, i, user);
      ShareKeepsInv(w, f, i, user);
    } else if FirstFree(w.used).Some? {
      LinkKeepsInv(w, f, i, user, FirstFree(w.used).value);
    }
  }

  lemma PresentLink(w: World, f: nat, i: nat, user: bool)
    requires CanFollow(w, f, i, user) && At(w.tables, f, i).present
    ensures At(w.tables, f, i).frame in w.owner && w.owner[At(w.tables, f, i).frame] == Child(w, f, i) && Child(w, f, i).parent == f
  {
    assert GoodLink(w, f, i);
  }

  lemma LinkKeepsInv(w: World, f: nat, i: nat, user: bool, c: nat)
    requires CanLink(w, f, i, user, c)
    ensures f in w.tables && c !in w.owner && Inv(LinkTable(w, f, i, user, c))
    ensures Child(w, f, i).parent == f
  {
    LinkFrames(w, f, i, user, c);
    LinkPlaces(w, f, i, user, c);
    LinkLinks(w, f, i, user, c);
    LinkUserPaths(w, f, i, user, c);
    LinkSharedHalf(w, f, i, user, c);
    LinkSupervisor(w, f, i, user, c);
    hide Places, Links, UserPaths, SharedHalf, Supervisor;
  }

  // ---------- translations ----------

  /** Below a link without the user bit no walk ends with user rights. */
  lemma NoUserBelow(w: World, f: nat, i: nat, p: seq<nat>)
    requires Inv(w) && IsUpper(w, f) && At(w.tables, f, i).present && !At(w.tables, f, i).user && |p| > 0
    ensures var r := Resolve(w.tables, At(w.tables, f, i).frame, p); r.Some? ==> !r.value.user
  {
    assert !UserEntry(w.tables, At(w.tables, f, i).frame, p[0]);
  }

  ghost predicate NoUserWalk(t: Tables, f: nat, p: seq<nat>)
    requires |p| > 0
  {
    var r := Resolve(t, f, p);
    r.Some? ==> !r.value.user
  }

  lemma {:induction false} ShareWalk(w: World, f: nat, i: nat, user: bool, g: nat, p: seq<nat>)
    requires Links(w) && IsUpper(w, f) && f in w.tables && i < ENTRIES && At(w.tables, f, i).present
    requires At(w.tables, f, i).user || forall q: seq<nat> | |q| > 0 :: NoUserWalk(w.tables, At(w.tables, f, i).frame, q)
    requires IsTable(w, g) && |p| == 4 - |w.owner[g].path|
    ensures Resolve(ShareTable(w, f, i, user).tables, g, p) == Resolve(w.tables, g, p)
    decreases |p|
  {
    var t' := ShareTable(w, f, i, user).tables;
    var e := At(w.tables, g, p[0]);
    if e.present && |p| > 1 {
      assert GoodLink(w, g, p[0]);
      ShareWalk(w, f, i, user, e.frame, p[1..]);
      if g == f && p[0] == i && !e.user {
        assert NoUserWalk(w.tables, e.frame, p[1..]);
      }
    }
  }

  lemma ShareKeepsWalks(w: World, f: nat, i: nat, user: bool, g: nat, p: seq<nat>)
    requires CanFollow(w, f, i, user) && At(w.tables, f, i).present && IsTable(w, g) && |p| == 4 - |w.owner[g].path|
    ensures Resolve(ShareTable(w, f, i, user).tables, g, p) == Resolve(w.tables, g, p)
  {
    if !At(w.tables, f, i).user {
      forall q: seq<nat> | |q| > 0 ensures NoUserWalk(w.tables, At(w.tables, f, i).frame, q) {
        NoUserBelow(w, f, i, q);
      }
    }
    ShareWalk(w, f, i, user, g, p);
  }

  lemma {:induction false} LinkKeepsWalks(w: World, f: nat, i: nat, user: bool, c: nat, g: nat, p: seq<nat>)
    requires CanLink(w, f, i, user, c) && IsTable(w, g) && |p| == 4 - |w.owner[g].path|
    ensures Resolve(LinkTable(w, f, i, user, c).tables, g, p) == Resolve(w.tables, g, p)
    decreases |p|
  {
    var t' := LinkTable(w, f, i, user, c).tables;
    var e := At(w.tables, g, p[0]);
    if e.present && |p| > 1 {
      assert GoodLink(w, g, p[0]);
      LinkKeepsWalks(w, f, i, user, c, e.frame, p[1..]);
    } else if !e.present && g == f && p[0] == i {
      assert At(t', c, p[1..][0]) == ABSENT;
    }
  }

  /** No walk from an owned table sees that a slot was followed. */
  lemma NextTableKeepsWalks(w: World, f: nat, i: nat, user: bool, g: nat, p: seq<nat>)
    requires CanFollow(w, f, i, user) && IsTable(w, g) && |p| == 4 - |w.owner[g].path|
    ensures Resolve(NextTable(w, f, i, user).0.tables, g, p) == Resolve(w.tables, g, p)
  {
    if At(w.tables, f, i).present {
      ShareKeepsWalks(w, f, i, user, g, p);
    } else if FirstFree(w.used).Some? {
      LinkKeepsWalks(w, f, i, user, FirstFree(w.used).value, g, p);
    }
  }

  // ---------- paths ----------

  lemma PathStep(path: seq<nat>, p: seq<nat>)
    requires p != []
    ensures path + [p[0]] + p[1..] == path + p
    ensures (path + p)[0] == if path == [] then p[0] else path[0]
  {
  }

  lemma PathSplit(path: seq<nat>, p: seq<nat>)
    requires p != []
    ensures (path + p)[..|path|] == path && (path + p)[|path|] == p[0]
    ensures (path + p)[..|path| + 1] + p[1..] == path + p
    ensures |p| == 1 ==> (path + p)[..|path| + 1] == path + p
  {
  }

  // ---------- one frame, one place ----------

  /** No two owned frames have the same place. */
  lemma {:induction false} OnePlace(w: World, f: nat, g: nat)
    requires Places(w) && f in w.owner && g in w.owner
    requires w.owner[f].space == w.owner[g].space && w.owner[f].path == w.owner[g].path
    ensures f == g
    decreases |w.owner[f].path|
  {
    assert GoodPlace(w, f) && GoodPlace(w, g);
    if w.owner[f].path != [] {
      OnePlace(w, w.owner[f].parent, w.owner[g].parent);
    }
  }

  /** A table above `f` in the same space links to the next frame on the way to `f`. */
  lemma {:induction false} OnTheWay(w: World, g: nat, f: nat)
    requires Places(w) && g in w.owner && f in w.owner
    requires w.owner[g].space == w.owner[f].space && |w.owner[g].path| < |w.owner[f].path|
    requires w.owner[g].path == w.owner[f].path[..|w.owner[g].path|]
    ensures var k := |w.owner[g].path|;
      var e := At(w.tables, g, w.owner[f].path[k]);
      && e.present && e.frame in w.owner
      && w.owner[e.frame].space == w.owner[f].space && w.owner[e.frame].path == w.owner[f].path[..k + 1]
    decreases |w.owner[f].path|
  {
    var n := w.owner[f];
    var k := |w.owner[g].path|;
    assert GoodPlace(w, f);
    if |n.path| == k + 1 {
      OnePlace(w, g, n.parent);
      assert n.path[..k + 1] == n.path;
    } else {
      var q := w.owner[n.parent].path;
      assert q[..k] == n.path[..k] && q[..k + 1] == n.path[..k + 1] && q[k] == n.path[k];
      OnTheWay(w, g, n.parent);
    }
  }

  // ---------- leaves ----------

  /** The last entry of the walk from `f` along `p`, when all the tables are there. */
  function LeafOf(t: Tables, f: nat, p: seq<nat>): (r: Option<Entry>)
    requires |p| > 0
    decreases |p|
  {
    var e := At(t, f, p[0]);
    if |p| == 1 then Some(e)
    else if !e.present then None
    else LeafOf(t, e.frame, p[1..])
  }

  function RightsOf(leaf: Entry): Option<Access> {
    if leaf.present then Some(Access(leaf.frame, leaf.writable, leaf.user)) else None
  }

  /** An upper table links to a table of the next level, writably. */
  lemma TableBelow(w: World, g: nat, i: nat)
    requires Inv(w) && IsUpper(w, g) && At(w.tables, g, i).present
    ensures var e := At(w.tables, g, i);
      IsTable(w, e.frame) && |w.owner[e.frame].path| == |w.owner[g].path| + 1 && e.writable
  {
    hide Frames, Places, UserPaths;
    hide SharedHalf;
    assert GoodLink(w, g, i);
  }

  /** Access rights are decided by the leaf alone. */
  lemma {:induction false} LeafDecides(w: World, g: nat, p: seq<nat>)
    requires Inv(w) && IsTable(w, g) && |p| == 4 - |w.owner[g].path|
    ensures Resolve(w.tables, g, p) ==
      match LeafOf(w.tables, g, p) case None => None case Some(e) => RightsOf(e)
    decreases |p|
  {
    hide Inv, At;
    var e := At(w.tables, g, p[0]);
    if e.present && |p| > 1 {
      TableBelow(w, g, p[0]);
      LeafDecides(w, e.frame, p[1..]);
      if !e.user {
        NoUserBelow(w, g, p[0], p[1..]);
      }
    }
  }

  /** Slot `i` of the last-level table `f` set to `leaf`. In the low half the frame that was there
      becomes loose and the new one takes the place. */
  ghost function SetLeaf(w: World, f: nat, i: nat, leaf: Entry): World
    requires IsTable(w, f) && |w.owner[f].path| == 3 && f in w.tables && i < ENTRIES
  {
    var old_ := At(w.tables, f, i);
    var t := Put(w.tables, f, i, leaf);
    if KernelLeaf(w, f) then World(w.kernel, w.used, t, w.owner, w.reserved, w.loose)
    else
      var gone: set<nat> := if old_.present then {old_.frame} else {};
      var come: set<nat> := if leaf.present then {leaf.frame} else {};
      World(w.kernel, w.used, t,
            if leaf.present then (w.owner - gone)[leaf.frame := Child(w, f, i)] else w.owner - gone,
            w.reserved, w.loose + gone - come)
  }

  ghost predicate CanSetLeaf(w: World, f: nat, i: nat, leaf: Entry) {
    && MayEdit(w, f, i, leaf.present && leaf.user)
    && |w.owner[f].path| == 3
    && (leaf.present && !KernelLeaf(w, f) ==> leaf.frame in w.loose)
  }

  lemma SetLeafFrames(w: World, f: nat, i: nat, leaf: Entry)
    requires CanSetLeaf(w, f, i, leaf)
    ensures Frames(SetLeaf(w, f, i, leaf))
  {
    assert At(w.tables, f, i).present ==> GoodLink(w, f, i);
  }

  /** Who owns what after the leaf was set. */
  lemma SetLeafOwner(w: World, f: nat, i: nat, leaf: Entry, g: nat)
    requires CanSetLeaf(w, f, i, leaf)
    ensures var w' := SetLeaf(w, f, i, leaf); var e := At(w.tables, f, i);
      && w'.kernel == w.kernel
      && (g in w'.owner <==>
        if KernelLeaf(w, f) then g in w.owner
        else (g in w.owner && !(e.present && g == e.frame)) || (leaf.present && g == leaf.frame))
      && (g in w.owner && g in w'.owner ==> w'.owner[g] == w.owner[g])
      && (g !in w.owner && g in w'.owner ==> w'.owner[g] == Child(w, f, i))
      && (g in w.owner && |w.owner[g].path| <= 3 ==> g in w'.owner)
      && (e.present && !KernelLeaf(w, f) ==> e.frame in w.owner && w.owner[e.frame] == Child(w, f, i))
  {
    assert At(w.tables, f, i).present ==> GoodLink(w, f, i);
  }

  lemma SetLeafOldPlace(w: World, f: nat, i: nat, leaf: Entry, g: nat)
    requires CanSetLeaf(w, f, i, leaf) && g in w.owner && g in SetLeaf(w, f, i, leaf).owner
    ensures GoodPlace(SetLeaf(w, f, i, leaf), g)
  {
    hide Frames, Links;
    hide UserPaths, SharedHalf;
    var n := w.owner[g];
    assert GoodPlace(w, g);
    SetLeafOwner(w, f, i, leaf, g);
    if n.path != [] {
      assert |w.owner[n.parent].path| <= 3;
      SetLeafOwner(w, f, i, leaf, n.parent);
      assert n.parent == f ==> |n.path| == 4 && n.path[..3] == w.owner[f].path && n.path[0] == w.owner[f].path[0];
    }
  }

  lemma SetLeafNewPlace(w: World, f: nat, i: nat, leaf: Entry, g: nat)
    requires CanSetLeaf(w, f, i, leaf) && g !in w.owner && g in SetLeaf(w, f, i, leaf).owner
    ensures GoodPlace(SetLeaf(w, f, i, leaf), g)
  {
    hide Frames, Links;
    hide UserPaths, SharedHalf;
    SetLeafOwner(w, f, i, leaf, g);
    SetLeafOwner(w, f, i, leaf, f);
    assert GoodPlace(w, f);
  }

  lemma SetLeafPlaces(w: World, f: nat, i: nat, leaf: Entry)
    requires CanSetLeaf(w, f, i, leaf)
    ensures Places(SetLeaf(w, f, i, leaf))
  {
    var w' := SetLeaf(w, f, i, leaf);
    SetLeafOwner(w, f, i, leaf, w.kernel);
    hide Frames, Links;
    hide UserPaths, SharedHalf, SetLeaf, GoodPlace;
    forall g <- w'.owner ensures GoodPlace(w', g) {
      if g in w.owner {
        SetLeafOldPlace(w, f, i, leaf, g);
      } else {
        SetLeafNewPlace(w, f, i, leaf, g);
      }
    }
  }

  lemma SetLeafSharedHalf(w: World, f: nat, i: nat, leaf: Entry)
    requires CanSetLeaf(w, f, i, leaf)
    ensures SharedHalf(SetLeaf(w, f, i, leaf))
  {
    var w' := SetLeaf(w, f, i, leaf);
    forall r, j | IsRoot(w', r) && j >= KERNEL_SLOT && At(w'.tables, r, j).present
      ensures At(w'.tables, r, j) == At(w'.tables, w'.kernel, j)
    {
      assert IsRoot(w, r);
    }
  }

  lemma SetLeafLink(w: World, f: nat, i: nat, leaf: Entry, g: nat, j: nat)
    requires CanSetLeaf(w, f, i, leaf)
    requires var w' := SetLeaf(w, f, i, leaf); IsTable(w', g) && At(w'.tables, g, j).present
    ensures GoodLink(SetLeaf(w, f, i, leaf), g, j)
  {
    hide Frames, UserPaths;
    hide SharedHalf;
    var d := At(SetLeaf(w, f, i, leaf).tables, g, j).frame;
    SetLeafOwner(w, f, i, leaf, f);
    SetLeafOwner(w, f, i, leaf, g);
    SetLeafOwner(w, f, i, leaf, d);
    assert IsTable(w, g);
    if g != f || j != i {
      assert GoodLink(w, g, j);
    }
  }

  lemma SetLeafLinks(w: World, f: nat, i: nat, leaf: Entry)
    requires CanSetLeaf(w, f, i, leaf)
    ensures Links(SetLeaf(w, f, i, leaf))
  {
    var w' := SetLeaf(w, f, i, leaf);
    forall g, j | IsTable(w', g) && At(w'.tables, g, j).present ensures GoodLink(w', g, j) {
      SetLeafLink(w, f, i, leaf, g, j);
    }
  }

  lemma SetLeafUserPaths(w: World, f: nat, i: nat, leaf: Entry)
    requires CanSetLeaf(w, f, i, leaf)
    ensures UserPaths(SetLeaf(w, f, i, leaf))
  {
    var w' := SetLeaf(w, f, i, leaf);
    forall g, j, k | IsUpper(w', g) && At(w'.tables, g, j).present && UserEntry(w'.tables, At(w'.tables, g, j).frame, k)
      ensures At(w'.tables, g, j).user
    {
      assert IsUpper(w, g);
      var d := At(w.tables, g, j).frame;
      OnlyLink(w, g, j, d);
      assert (d == f && k == i) || UserEntry(w.tables, d, k);
    }
  }

  lemma SetLeafSupervisor(w: World, f: nat, i: nat, leaf: Entry)
    requires CanSetLeaf(w, f, i, leaf)
    ensures Supervisor(SetLeaf(w, f, i, leaf))
  {
    hide Places, Links, UserPaths, SharedHalf;
    var w' := SetLeaf(w, f, i, leaf);
    forall g, j | HighSlot(w', g, j) ensures !UserEntry(w'.tables, g, j) {
      SetLeafOwner(w, f, i, leaf, g);
      assert HighSlot(w, g, j) && !UserEntry(w.tables, g, j);
    }
  }

  lemma SetLeafKeepsInv(w: World, f: nat, i: nat, leaf: Entry)
    requires CanSetLeaf(w, f, i, leaf)
    ensures Inv(SetLeaf(w, f, i, leaf))
  {
    SetLeafFrames(w, f, i, leaf);
    SetLeafPlaces(w, f, i, leaf);
    SetLeafLinks(w, f, i, leaf);
    SetLeafUserPaths(w, f, i, leaf);
    SetLeafSharedHalf(w, f, i, leaf);
    SetLeafSupervisor(w, f, i, leaf);
  }

  /** The walk from `g` along `p` ends in slot `i` of `f`. */
  ghost predicate EndsIn(w: World, g: nat, p: seq<nat>, f: nat, i: nat)
    requires g in w.owner && f in w.owner && |p| > 0
  {
    && w.owner[g].path + p == w.owner[f].path + [i]
    && (w.owner[g].space == w.owner[f].space ||
        (w.owner[g].path == [] && p[0] >= KERNEL_SLOT && w.owner[f].space == w.kernel && At(w.tables, g, p[0]).present))
  }

  lemma {:induction false} SetLeafWalk(w: World, f: nat, i: nat, leaf: Entry, g: nat, p: seq<nat>)
    requires CanSetLeaf(w, f, i, leaf) && IsTable(w, g) && |p| == 4 - |w.owner[g].path| && IsPath(p)
    ensures LeafOf(SetLeaf(w, f, i, leaf).tables, g, p) ==
      if EndsIn(w, g, p, f, i) then Some(leaf) else LeafOf(w.tables, g, p)
    decreases |p|
  {
    if |p| == 1 {
      if EndsIn(w, g, p, f, i) {
        assert w.owner[g].path == (w.owner[g].path + p)[..3] == w.owner[f].path;
        OnePlace(w, g, f);
      }
    } else {
      var e := At(w.tables, g, p[0]);
      if EndsIn(w, g, p, f, i) {
        StepIsPresent(w, f, i, g, p);
      }
      if e.present {
        SetLeafStep(w, f, i, g, p);
        SetLeafWalk(w, f, i, leaf, e.frame, p[1..]);
      }
    }
  }

  /** A walk that ends in slot `i` of `f` finds its next table present. */
  lemma StepIsPresent(w: World, f: nat, i: nat, g: nat, p: seq<nat>)
    requires Inv(w) && f in w.owner && |w.owner[f].path| == 3
    requires IsUpper(w, g) && |p| == 4 - |w.owner[g].path| && EndsIn(w, g, p, f, i)
    ensures At(w.tables, g, p[0]).present
  {
    if w.owner[g].space == w.owner[f].space {
      var k := |w.owner[g].path|;
      assert w.owner[g].path == (w.owner[g].path + p)[..k] == w.owner[f].path[..k];
      assert (w.owner[g].path + p)[k] == p[0];
      OnTheWay(w, g, f);
    }
  }

  /** One step down keeps whether the walk ends in slot `i` of `f`. */
  lemma SetLeafStep(w: World, f: nat, i: nat, g: nat, p: seq<nat>)
    requires Inv(w) && f in w.owner && |w.owner[f].path| == 3
    requires IsUpper(w, g) && |p| == 4 - |w.owner[g].path| && At(w.tables, g, p[0]).present
    ensures var c := At(w.tables, g, p[0]).frame;
      && IsTable(w, c) && |w.owner[c].path| == |w.owner[g].path| + 1
      && (EndsIn(w, g, p, f, i) <==> EndsIn(w, c, p[1..], f, i))
  {
    hide Frames, UserPaths;
    hide SharedHalf;
    var c := At(w.tables, g, p[0]).frame;
    assert GoodLink(w, g, p[0]) && GoodPlace(w, g) && GoodPlace(w, f);
    assert w.owner[c].path == w.owner[g].path + [p[0]];
    PathStep(w.owner[g].path, p);
    PathStep(w.owner[f].path, [i]);
  }
}
