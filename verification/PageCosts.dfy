/** How many frames a list of pages takes: in the low half one a page, and in both halves one for each
    table that is not there yet, counted once. */
module PageCosts {
  import opened Common
  import opened PageTables
  import opened Mappings
  import opened Isolation
  import opened PageWords

  /** The places of the lower tables of space `r`. */
  ghost function TablesOf(w: World, r: nat): set<seq<nat>> {
    set f | f in w.owner && w.owner[f].space == r && 1 <= |w.owner[f].path| <= 3 :: w.owner[f].path
  }

  /** Of the tables on the way to `p`, from level `k` on, those not among `there`. */
  function Absent(there: set<seq<nat>>, p: seq<nat>, k: nat): (n: nat)
    requires |p| == 4
    ensures k <= 4 ==> n <= 4 - k
    decreases 4 - k
  {
    if k > 3 then 0 else (if p[..k] in there then 0 else 1) + Absent(there, p, k + 1)
  }

  /** The frames that one page takes. */
  function Cost(there: set<seq<nat>>, p: seq<nat>): (n: nat)
    requires |p| == 4
    ensures 1 <= n <= 4
  {
    1 + Absent(there, p, 1)
  }

  function Prefixes(p: seq<nat>): set<seq<nat>>
    requires |p| == 4
  {
    {p[..1], p[..2], p[..3]}
  }

  predicate ArePages(pages: seq<seq<nat>>) {
    forall p <- pages :: |p| == 4
  }

  /** The frames that the pages take, mapped one after the other. */
  function Needed(there: set<seq<nat>>, pages: seq<seq<nat>>): nat
    requires ArePages(pages)
    decreases |pages|
  {
    if pages == [] then 0 else Cost(there, pages[0]) + Needed(there + Prefixes(pages[0]), pages[1..])
  }

  /** The pages from `virt` on, as paths. */
  function Paths(virt: nat, n: nat): (s: seq<seq<nat>>)
    ensures |s| == n && ArePages(s) && forall k :: 0 <= k < n ==> s[k] == PathOf(virt + k * PAGE)
  {
    seq(n, k requires 0 <= k < n => PathOf(virt + k * PAGE))
  }

  lemma PathsStart(virt: nat, n: nat, k: nat)
    requires k <= n
    ensures Paths(virt, n)[..k] == Paths(virt, k)
    ensures Paths(virt, n + 1) == Paths(virt, n) + [PathOf(virt + n * PAGE)]
  {
    hide PathOf;
  }

  /** The tables among them: the kernel maps frames that it need not allocate. */
  function TablesNeeded(there: set<seq<nat>>, pages: seq<seq<nat>>): (n: nat)
    requires ArePages(pages)
    ensures n + |pages| == Needed(there, pages)
    decreases |pages|
  {
    if pages == [] then 0 else Absent(there, pages[0], 1) + TablesNeeded(there + Prefixes(pages[0]), pages[1..])
  }

  function AllPrefixes(pages: seq<seq<nat>>): set<seq<nat>>
    requires ArePages(pages)
  {
    if pages == [] then {} else Prefixes(pages[0]) + AllPrefixes(pages[1..])
  }

  lemma {:induction false} NeededSplit(there: set<seq<nat>>, a: seq<seq<nat>>, b: seq<seq<nat>>)
    requires ArePages(a) && ArePages(b)
    ensures ArePages(a + b) && AllPrefixes(a + b) == AllPrefixes(a) + AllPrefixes(b)
    ensures Needed(there, a + b) == Needed(there, a) + Needed(there + AllPrefixes(a), b)
    decreases |a|
  {
    hide Cost, Prefixes;
    if a == [] {
      assert a + b == b && there + {} == there;
    } else {
      assert (a + b)[1..] == a[1..] + b;
      NeededSplit(there + Prefixes(a[0]), a[1..], b);
      assert there + Prefixes(a[0]) + AllPrefixes(a[1..]) == there + AllPrefixes(a);
    }
  }

  lemma NeededOne(there: set<seq<nat>>, pages: seq<seq<nat>>, p: seq<nat>)
    requires ArePages(pages) && |p| == 4
    ensures ArePages(pages + [p]) && AllPrefixes(pages + [p]) == AllPrefixes(pages) + Prefixes(p)
    ensures Needed(there, pages + [p]) == Needed(there, pages) + Cost(there + AllPrefixes(pages), p)
  {
    hide Cost, Prefixes;
    NeededSplit(there, pages, [p]);
    assert [p][1..] == [] && AllPrefixes([p]) == Prefixes(p);
  }

  lemma NeededGrows(there: set<seq<nat>>, pages: seq<seq<nat>>, i: nat, k: nat)
    requires ArePages(pages) && i <= k <= |pages|
    ensures ArePages(pages[..i]) && ArePages(pages[..k]) && Needed(there, pages[..i]) <= Needed(there, pages[..k])
  {
    assert pages[..k] == pages[..i] + pages[i..k];
    NeededSplit(there, pages[..i], pages[i..k]);
  }

  /** A page behind a table that is there takes its own frame only. */
  lemma AllThere(there: set<seq<nat>>, p: seq<nat>, q: seq<nat>)
    requires |p| == 4 && |q| == 4 && p[..3] == q[..3] && Prefixes(p) <= there
    ensures Cost(there, q) == 1
  {
    assert q[..1] == q[..3][..1] == p[..1] && q[..2] == q[..3][..2] == p[..2];
    assert Absent(there, q, 4) == 0 && Absent(there, q, 3) == 0 && Absent(there, q, 2) == 0;
  }

  lemma TablesSplit(there: set<seq<nat>>, a: seq<seq<nat>>, b: seq<seq<nat>>)
    requires ArePages(a) && ArePages(b)
    ensures ArePages(a + b) && AllPrefixes(a + b) == AllPrefixes(a) + AllPrefixes(b)
    ensures TablesNeeded(there, a + b) == TablesNeeded(there, a) + TablesNeeded(there + AllPrefixes(a), b)
  {
    hide TablesNeeded, AllPrefixes, Needed;
    NeededSplit(there, a, b);
  }

  lemma TablesOne(there: set<seq<nat>>, pages: seq<seq<nat>>, p: seq<nat>)
    requires ArePages(pages) && |p| == 4
    ensures ArePages(pages + [p]) && AllPrefixes(pages + [p]) == AllPrefixes(pages) + Prefixes(p)
    ensures TablesNeeded(there, pages + [p]) == TablesNeeded(there, pages) + Absent(there + AllPrefixes(pages), p, 1)
  {
    hide TablesNeeded, AllPrefixes, Needed, Prefixes, Absent;
    NeededOne(there, pages, p);
  }

  // ---------- when the frames run out ----------

  /** The tables of a space, and how many frames are free. */
  datatype Stock = Stock(there: set<seq<nat>>, free: nat)

  /** The tables after those missing on the way to `p`, from level `k` on, were made as far as `free`
      frames go. */
  function Reach(there: set<seq<nat>>, p: seq<nat>, k: nat, free: nat): set<seq<nat>>
    requires |p| == 4
    decreases 4 - k
  {
    if k > 3 then there
    else if p[..k] in there then Reach(there, p, k + 1, free)
    else if free == 0 then there
    else Reach(there + {p[..k]}, p, k + 1, free - 1)
  }

  /** After one page: its frame first, then the tables; when a map fails no frame is left. */
  function AfterOne(s: Stock, p: seq<nat>): Stock
    requires |p| == 4
  {
    Stock(Reach(s.there, p, 1, if s.free > 0 then s.free - 1 else 0),
          if Cost(s.there, p) <= s.free then s.free - Cost(s.there, p) else 0)
  }

  function After(s: Stock, pages: seq<seq<nat>>): Stock
    requires ArePages(pages)
    decreases |pages|
  {
    if pages == [] then s else After(AfterOne(s, pages[0]), pages[1..])
  }

  /** No page of the list finds no frame and yet all its tables. */
  predicate SafePages(s: Stock, pages: seq<seq<nat>>)
    requires ArePages(pages)
    decreases |pages|
  {
    pages == [] || ((s.free > 0 || Cost(s.there, pages[0]) > 1) && SafePages(AfterOne(s, pages[0]), pages[1..]))
  }

  lemma {:induction false} AfterSplit(s: Stock, a: seq<seq<nat>>, b: seq<seq<nat>>)
    requires ArePages(a) && ArePages(b)
    ensures ArePages(a + b) && After(s, a + b) == After(After(s, a), b)
    ensures SafePages(s, a + b) <==> SafePages(s, a) && SafePages(After(s, a), b)
    decreases |a|
  {
    hide AfterOne, Cost;
    if a == [] {
      assert a + b == b;
    } else {
      assert (a + b)[1..] == a[1..] + b;
      AfterSplit(AfterOne(s, a[0]), a[1..], b);
    }
  }

  lemma {:induction false} ReachAll(there: set<seq<nat>>, p: seq<nat>, k: nat, free: nat)
    requires |p| == 4 && 1 <= k <= 4 && free >= Absent(there, p, k)
    ensures forall q :: q in Reach(there, p, k, free) <==> q in there || (k <= |q| <= 3 && q == p[..|q|])
    decreases 4 - k
  {
    if k <= 3 {
      if p[..k] in there {
        ReachAll(there, p, k + 1, free);
      } else {
        AbsentLonger(there, p, k, k + 1);
        ReachAll(there + {p[..k]}, p, k + 1, free - 1);
      }
    }
  }

  lemma {:induction false} AbsentLonger(there: set<seq<nat>>, p: seq<nat>, j: nat, k: nat)
    requires |p| == 4 && j < k <= 4
    ensures Absent(there + {p[..j]}, p, k) == Absent(there, p, k)
    decreases 4 - k
  {
    if k <= 3 {
      assert |p[..k]| != |p[..j]|;
      AbsentLonger(there, p, j, k + 1);
    }
  }

  lemma ReachPrefixes(there: set<seq<nat>>, p: seq<nat>, free: nat)
    requires |p| == 4 && Absent(there, p, 1) <= free
    ensures Reach(there, p, 1, free) == there + Prefixes(p)
  {
    ReachAll(there, p, 1, free);
    forall q ensures q in Reach(there, p, 1, free) <==> q in there + Prefixes(p) {
    }
  }

  lemma AfterOneEnough(s: Stock, p: seq<nat>)
    requires |p| == 4 && Cost(s.there, p) <= s.free
    ensures AfterOne(s, p) == Stock(s.there + Prefixes(p), s.free - Cost(s.there, p))
  {
    ReachPrefixes(s.there, p, s.free - 1);
  }

  /** With frames enough every page gets its own, otherwise none is left in the end. */
  lemma {:induction false} NeededDecides(s: Stock, pages: seq<seq<nat>>)
    requires ArePages(pages)
    ensures Needed(s.there, pages) <= s.free ==>
      SafePages(s, pages) && After(s, pages) == Stock(s.there + AllPrefixes(pages), s.free - Needed(s.there, pages))
    ensures Needed(s.there, pages) > s.free ==> After(s, pages).free == 0
    decreases |pages|
  {
    hide Prefixes, Reach, Cost;
    if pages == [] {
      assert s.there + AllPrefixes(pages) == s.there;
    } else {
      NeededDecides(AfterOne(s, pages[0]), pages[1..]);
      if Cost(s.there, pages[0]) <= s.free {
        AfterOneEnough(s, pages[0]);
        assert s.there + Prefixes(pages[0]) + AllPrefixes(pages[1..]) == s.there + AllPrefixes(pages);
      } else {
        NoneLeft(AfterOne(s, pages[0]), pages[1..]);
      }
    }
  }

  lemma {:induction false} NoneLeft(s: Stock, pages: seq<seq<nat>>)
    requires ArePages(pages) && s.free == 0
    ensures After(s, pages).free == 0
    decreases |pages|
  {
    hide Reach, Cost;
    if pages != [] {
      NoneLeft(AfterOne(s, pages[0]), pages[1..]);
    }
  }

  /** One page more fits exactly if it fits what the others leave. */
  lemma OneMoreFits(s: Stock, pages: seq<seq<nat>>, p: seq<nat>)
    requires ArePages(pages) && |p| == 4
    ensures ArePages(pages + [p]) && After(s, pages + [p]) == AfterOne(After(s, pages), p)
    ensures Needed(s.there, pages + [p]) <= s.free <==> Cost(After(s, pages).there, p) <= After(s, pages).free
  {
    hide Cost, AfterOne, AllPrefixes;
    NeededDecides(s, pages);
    NeededOne(s.there, pages, p);
    AfterSplit(s, pages, [p]);
    AfterLast(After(s, pages), p);
  }

  lemma AfterLast(s: Stock, p: seq<nat>)
    requires |p| == 4
    ensures After(s, [p]) == AfterOne(s, p)
  {
    assert [p][1..] == [];
  }

  // ---------- the tables that are there ----------

  lemma AllAbsent(there: set<seq<nat>>, p: seq<nat>, k: nat)
    requires |p| == 4 && k <= 4 && forall j :: k <= j <= 3 ==> p[..j] !in there
    ensures Absent(there, p, k) == 4 - k
    decreases 4 - k
  {
    if k <= 3 {
      AllAbsent(there, p, k + 1);
    }
  }

  lemma InTables(w: World, f: nat)
    requires f in w.owner && 1 <= |w.owner[f].path| <= 3
    ensures w.owner[f].path in TablesOf(w, w.owner[f].space)
  {
  }

  /** The walk along `p` from `g` stays among the tables of one space: it is in the low half, or starts in
      the kernel's own tables. */
  ghost predicate InOneSpace(w: World, g: nat, p: seq<nat>)
    requires g in w.owner && |p| > 0
  {
    (w.owner[g].path + p)[0] < KERNEL_SLOT || w.owner[g].space == w.kernel
  }

  /** One step of such a walk above the last level. */
  lemma OwnLink(w: World, g: nat, p: seq<nat>)
    requires Inv(w) && IsUpper(w, g) && |p| == 4 - |w.owner[g].path| && InOneSpace(w, g, p)
    requires At(w.tables, g, p[0]).present
    ensures var c := At(w.tables, g, p[0]).frame;
      && c in w.owner && w.owner[c].space == w.owner[g].space && w.owner[c].path == w.owner[g].path + [p[0]]
      && w.owner[c].path + p[1..] == w.owner[g].path + p
  {
    hide Frames, UserPaths;
    hide SharedHalf, Supervisor;
    PathStep(w.owner[g].path, p);
    assert GoodPlace(w, g);
    hide Places;
    assert GoodLink(w, g, p[0]);
  }

  /** The missing tables are those not among the places. */
  lemma {:induction false} MissingIsAbsent(w: World, g: nat, p: seq<nat>)
    requires Inv(w) && IsTable(w, g) && |p| == 4 - |w.owner[g].path| && InOneSpace(w, g, p)
    ensures Missing(w.tables, g, p) == Absent(TablesOf(w, w.owner[g].space), w.owner[g].path + p, |w.owner[g].path| + 1)
    decreases |p|
  {
    hide Inv, TablesOf;
    var path := w.owner[g].path;
    var there := TablesOf(w, w.owner[g].space);
    if |p| > 1 {
      PathSplit(path, p);
      if At(w.tables, g, p[0]).present {
        OwnLink(w, g, p);
        var c := At(w.tables, g, p[0]).frame;
        InTables(w, c);
        assert (path + p)[..|path| + 1] == path + [p[0]];
        MissingIsAbsent(w, c, p[1..]);
      } else {
        forall j | |path| + 1 <= j <= 3 ensures (path + p)[..j] !in there {
          NothingBelow(w, g, p, j);
        }
        AllAbsent(there, path + p, |path| + 1);
      }
    }
  }

  lemma NothingBelow(w: World, g: nat, p: seq<nat>, j: nat)
    requires Inv(w) && IsTable(w, g) && |p| == 4 - |w.owner[g].path| && !At(w.tables, g, p[0]).present
    requires |w.owner[g].path| < j <= 3
    ensures (w.owner[g].path + p)[..j] !in TablesOf(w, w.owner[g].space)
  {
    hide Links, UserPaths, SharedHalf, PageTables.Frames;
    var path := w.owner[g].path;
    var q := (path + p)[..j];
    if q in TablesOf(w, w.owner[g].space) {
      var f :| f in w.owner && w.owner[f].space == w.owner[g].space && w.owner[f].path == q;
      PartOfPath(path, p, j);
      OnTheWay(w, g, f);
    }
  }

  lemma PartOfPath(path: seq<nat>, p: seq<nat>, j: nat)
    requires |path| < j <= |path| + |p|
    ensures (path + p)[..j][..|path|] == path && (path + p)[..j][|path|] == p[0]
  {
  }

  lemma CostIsMissing(w: World, r: nat, p: seq<nat>)
    requires Inv(w) && IsRoot(w, r) && LowPage(p)
    ensures Cost(TablesOf(w, r), p) == 1 + Missing(w.tables, r, p)
  {
    hide TablesOf;
    assert w.owner[r].path + p == p;
    RootSpace(w, r);
    MissingIsAbsent(w, r, p);
  }

  lemma RootSpace(w: World, r: nat)
    requires Inv(w) && IsRoot(w, r)
    ensures w.owner[r].space == r
  {
    assert GoodPlace(w, r);
  }

  ghost function StockOf(w: World, r: nat): Stock {
    Stock(TablesOf(w, r), FreeCount(w.used))
  }

  lemma NullSafeStock(w: World, r: nat, p: seq<nat>)
    requires Inv(w) && IsRoot(w, r) && LowPage(p)
    ensures NullSafe(w, r, p) <==> StockOf(w, r).free > 0 || Cost(StockOf(w, r).there, p) > 1
  {
    CostIsMissing(w, r, p);
    NoneFree(w.used);
  }

  lemma OneMoreOwner(w: World, w': World, c: nat, n: Node)
    requires w'.owner == w.owner[c := n] && (c in w.owner ==> w.owner[c] == n) && 1 <= |n.path| <= 3
    ensures TablesOf(w', n.space) == TablesOf(w, n.space) + {n.path}
  {
    forall q | q in TablesOf(w, n.space) ensures q in TablesOf(w', n.space) {
      var g :| g in w.owner && w.owner[g].space == n.space && 1 <= |w.owner[g].path| <= 3 && w.owner[g].path == q;
      assert g in w'.owner && w'.owner[g] == w.owner[g];
    }
    assert c in w'.owner;
  }

  lemma NextTableOwner(w: World, f: nat, i: nat, user: bool)
    requires CanFollow(w, f, i, user) && NextTable(w, f, i, user).1.Some?
    ensures var (w', c) := NextTable(w, f, i, user);
      w'.owner == w.owner[c.value := Child(w, f, i)] && (c.value in w.owner ==> w.owner[c.value] == Child(w, f, i))
  {
    hide UserPaths, SharedHalf, Places;
    if At(w.tables, f, i).present {
      assert GoodLink(w, f, i);
      assert w.owner == w.owner[At(w.tables, f, i).frame := Child(w, f, i)];
    }
  }

  lemma ChildInSpace(w: World, f: nat, p: seq<nat>)
    requires Inv(w) && f in w.owner && p != [] && InOneSpace(w, f, p)
    ensures Child(w, f, p[0]).space == w.owner[f].space && Child(w, f, p[0]).path == w.owner[f].path + [p[0]]
  {
    assert GoodPlace(w, f);
  }

  lemma NextTableTables(w: World, f: nat, p: seq<nat>, user: bool)
    requires p != [] && CanFollow(w, f, p[0], user) && |p| == 4 - |w.owner[f].path| && InOneSpace(w, f, p)
    requires NextTable(w, f, p[0], user).1.Some?
    ensures var s := w.owner[f].space;
      TablesOf(NextTable(w, f, p[0], user).0, s) == TablesOf(w, s) + {(w.owner[f].path + p)[..|w.owner[f].path| + 1]}
  {
    hide NextTable, TablesOf;
    var (w', c) := NextTable(w, f, p[0], user);
    var path := w.owner[f].path;
    PathStep(path, p);
    assert (path + p)[..|path| + 1] == path + [p[0]];
    NextTableOwner(w, f, p[0], user);
    ChildInSpace(w, f, p);
    OneMoreOwner(w, w', c.value, Child(w, f, p[0]));
  }

  lemma SetLeafTables(w: World, f: nat, i: nat, leaf: Entry, s: nat)
    requires CanSetLeaf(w, f, i, leaf) && IsTable(w, f) && f in w.tables && i < ENTRIES
    ensures TablesOf(SetLeaf(w, f, i, leaf), s) == TablesOf(w, s)
  {
    hide Inv, SetLeaf;
    var w' := SetLeaf(w, f, i, leaf);
    SetLeafChild(w, f, i);
    forall q ensures q in TablesOf(w', s) <==> q in TablesOf(w, s) {
      if q in TablesOf(w, s) {
        var g :| g in w.owner && w.owner[g].space == s && 1 <= |w.owner[g].path| <= 3 && w.owner[g].path == q;
        SetLeafOwner(w, f, i, leaf, g);
      }
      if q in TablesOf(w', s) {
        var g :| g in w'.owner && w'.owner[g].space == s && 1 <= |w'.owner[g].path| <= 3 && w'.owner[g].path == q;
        SetLeafOwner(w, f, i, leaf, g);
      }
    }
  }

  lemma SetLeafChild(w: World, f: nat, i: nat)
    requires f in w.owner && |w.owner[f].path| == 3
    ensures |Child(w, f, i).path| == 4
  {
  }

  lemma CanSetTable(w: World, f: nat, i: nat, leaf: Entry)
    requires CanSetLeaf(w, f, i, leaf)
    ensures IsTable(w, f) && f in w.tables && i < ENTRIES
  {
  }

  /** The tables after a map, whether it succeeds or not: the missing ones as far as the frames go. */
  lemma {:induction false} MapReaches(w: World, f: nat, p: seq<nat>, leaf: Entry)
    requires CanMap(w, f, p, leaf) && InOneSpace(w, f, p)
    ensures var s := w.owner[f].space;
      TablesOf(Map(w, f, p, leaf).0, s) ==
      Reach(TablesOf(w, s), w.owner[f].path + p, |w.owner[f].path| + 1, FreeCount(w.used))
    decreases |p|
  {
    hide Inv, TablesOf, NextTable, SetLeaf, MayEdit, FreeCount;
    var s, path := w.owner[f].space, w.owner[f].path;
    if |p| == 1 {
      CanSetLast(w, f, p, leaf);
      CanSetTable(w, f, p[0], leaf);
      SetLeafTables(w, f, p[0], leaf, s);
    } else {
      MapStep(w, f, p, leaf);
      CanMapFollows(w, f, p, leaf);
      NextTableReaches(w, f, p, leaf.user);
      var (w1, c) := NextTable(w, f, p[0], leaf.user);
      if c.Some? {
        CanMapBelow(w, f, p, leaf);
        MapReaches(w1, c.value, p[1..], leaf);
      }
    }
  }

  lemma NextTableReaches(w: World, f: nat, p: seq<nat>, user: bool)
    requires |p| > 1 && CanFollow(w, f, p[0], user) && |p| == 4 - |w.owner[f].path| && InOneSpace(w, f, p)
    ensures var (w', c) := NextTable(w, f, p[0], user); var s := w.owner[f].space;
      var full, k, there, free := w.owner[f].path + p, |w.owner[f].path| + 1, TablesOf(w, s), FreeCount(w.used);
      if c.None? then w' == w && Reach(there, full, k, free) == there
      else Reach(there, full, k, free) == Reach(TablesOf(w', s), full, k + 1, FreeCount(w'.used))
  {
    hide Inv, TablesOf, FreeCount, CanFollow;
    CanFollowInv(w, f, p[0], user);
    var path, s := w.owner[f].path, w.owner[f].space;
    var (w', c) := NextTable(w, f, p[0], user);
    var q := (path + p)[..|path| + 1];
    NoneFree(w.used);
    if At(w.tables, f, p[0]).present {
      NextTableTables(w, f, p, user);
      PresentInTables(w, f, p);
      assert TablesOf(w, s) + {q} == TablesOf(w, s);
    } else {
      NothingBelow(w, f, p, |path| + 1);
      if c.Some? {
        NextTableTables(w, f, p, user);
        TakeOne(w.used, c.value);
      }
    }
  }

  lemma CanFollowInv(w: World, f: nat, i: nat, user: bool)
    requires CanFollow(w, f, i, user)
    ensures Inv(w) && IsTable(w, f) && f in w.tables && i < ENTRIES
  {
  }

  lemma PresentInTables(w: World, g: nat, p: seq<nat>)
    requires Inv(w) && IsTable(w, g) && |p| == 4 - |w.owner[g].path| && |p| > 1 && InOneSpace(w, g, p)
    requires At(w.tables, g, p[0]).present
    ensures (w.owner[g].path + p)[..|w.owner[g].path| + 1] in TablesOf(w, w.owner[g].space)
  {
    OwnLink(w, g, p);
    InTables(w, At(w.tables, g, p[0]).frame);
    assert (w.owner[g].path + p)[..|w.owner[g].path| + 1] == w.owner[g].path + [p[0]];
  }

  lemma CanMapFollows(w: World, f: nat, p: seq<nat>, leaf: Entry)
    requires CanMap(w, f, p, leaf) && |p| > 1
    ensures CanFollow(w, f, p[0], leaf.user)
    ensures NextTable(w, f, p[0], leaf.user).1.Some? ==>
      var c := NextTable(w, f, p[0], leaf.user).1.value; var w' := NextTable(w, f, p[0], leaf.user).0;
      c in w'.owner && |w'.owner[c].path| == |w.owner[f].path| + 1 && w'.kernel == w.kernel
  {
    NextTableKeepsInv(w, f, p[0], leaf.user);
  }

  lemma RootMapReaches(w: World, r: nat, p: seq<nat>, leaf: Entry)
    requires CanMap(w, r, p, leaf) && IsRoot(w, r) && LowPage(p)
    ensures TablesOf(Map(w, r, p, leaf).0, r) == Reach(TablesOf(w, r), p, 1, FreeCount(w.used))
  {
    hide Map, CanMap, TablesOf, Inv, FreeCount;
    CanMapInv(w, r, p, leaf);
    RootSpace(w, r);
    assert w.owner[r].path + p == p;
    MapReaches(w, r, p, leaf);
  }

  // ---------- the kernel's own half ----------

  lemma KernelMissing(w: World, p: seq<nat>)
    requires Inv(w) && HighPage(p)
    ensures Missing(w.tables, w.kernel, p) == Absent(TablesOf(w, w.kernel), p, 1)
  {
    hide TablesOf;
    RootPath(w, w.kernel, p);
    RootSpace(w, w.kernel);
    MissingIsAbsent(w, w.kernel, p);
  }

  /** Where a table is missing nothing is translated. */
  lemma {:induction false} MissingIsNone(t: Tables, f: nat, p: seq<nat>)
    requires |p| > 0 && Missing(t, f, p) > 0
    ensures Resolve(t, f, p).None?
    decreases |p|
  {
    if |p| > 1 && At(t, f, p[0]).present {
      MissingIsNone(t, At(t, f, p[0]).frame, p[1..]);
    }
  }

  /** The tables of the kernel root after a map that succeeds. */
  lemma KernelMapReaches(w: World, p: seq<nat>, leaf: Entry)
    requires Inv(w) && HighPage(p) && CanMap(w, w.kernel, p, leaf) && Map(w, w.kernel, p, leaf).1
    ensures TablesOf(Map(w, w.kernel, p, leaf).0, w.kernel) == TablesOf(w, w.kernel) + Prefixes(p)
  {
    hide Map, CanMap, TablesOf, Inv, FreeCount;
    RootPath(w, w.kernel, p);
    RootSpace(w, w.kernel);
    KernelMissing(w, p);
    MapTakesMissing(w, w.kernel, p, leaf);
    MapReaches(w, w.kernel, p, leaf);
    ReachPrefixes(TablesOf(w, w.kernel), p, FreeCount(w.used));
  }

  lemma CanMapInv(w: World, f: nat, p: seq<nat>, leaf: Entry)
    requires CanMap(w, f, p, leaf)
    ensures Inv(w)
  {
  }
}
