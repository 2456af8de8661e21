/** The HOT! loader, and what a program converted by elf2hot looks like once loaded. */
module HotLoader {
  import opened Bits
  import opened Common
  import opened FrameBitmap
  import opened PageTables
  import Mappings
  import Isolation
  import opened PageCosts
  import opened PageWords
  import opened MemoryViews
  import RawTables
  import NullFrame
  import opened SpareFrames
  import AddressSpaces
  import opened MemoryServices
  import opened HotFormat

  const BAD_MAGIC: nat := WORD_LIMIT - 1

  /** x & ~0xFFF */
  function PageDown(x: nat): (r: nat)
    ensures r % PAGE == 0 && r <= x < r + PAGE
  {
    x / PAGE * PAGE
  }

  function First(g: Segment): nat {
    PageDown(g.vaddr)
  }

  /** The pages the segment needs; none when it has no memory size. */
  function PageCount(g: Segment): nat {
    if g.memsz == 0 then 0 else (PageDown(g.vaddr + g.memsz + (PAGE - 1)) - First(g)) / PAGE
  }

  /** What the loader demands of a segment: its data inside the file and its pages in the low half. */
  ghost predicate Loadable(data: seq<UInt8>, g: Segment) {
    && g.offset + g.filesz <= |data|
    && g.vaddr + g.memsz + PAGE < LOW_LIMIT
  }

  /** The byte that the segment puts at address `va`: file data, then zeros. */
  function SegmentByte(data: seq<UInt8>, g: Segment, va: nat): UInt8
    requires g.offset + g.filesz <= |data|
  {
    if g.vaddr <= va < g.vaddr + g.filesz then data[g.offset + (va - g.vaddr)] else 0
  }

  /** The page image at `address`. */
  function PageImage(data: seq<UInt8>, g: Segment, address: nat): (p: Page)
    requires g.offset + g.filesz <= |data|
    ensures forall k :: 0 <= k < PAGE ==> p[k] == SegmentByte(data, g, address + k)
  {
    var s := seq(PAGE, k requires 0 <= k < PAGE => SegmentByte(data, g, address + k));
    assert forall k :: 0 <= k < PAGE ==> s[k] == SegmentByte(data, g, address + k);
    s
  }

  ghost function Image(data: seq<UInt8>, g: Segment, n: nat): (s: seq<Page>)
    requires g.offset + g.filesz <= |data|
    ensures |s| == n && forall k :: 0 <= k < n ==> s[k] == PageImage(data, g, First(g) + k * PAGE)
  {
    seq(n, k requires 0 <= k < n => PageImage(data, g, First(g) + k * PAGE))
  }

  /** The copy into one cleared page: the part of the file data that falls into it. */
  method PageContents(data: seq<UInt8>, g: Segment, address: nat) returns (page: Page)
    requires g.offset + g.filesz <= |data|
    ensures page == PageImage(data, g, address)
  {
    page := ZeroPage();
    var from_ := if address > g.vaddr then address else g.vaddr;
    var end := if address + PAGE < g.vaddr + g.filesz then address + PAGE else g.vaddr + g.filesz;
    if from_ < end {
      var source := g.offset + (from_ - g.vaddr);
      page := Splice(page, from_ - address, data[source..source + (end - from_)]);
    }
  }

  /** The pages of the segment, as paths. */
  function SegmentPaths(g: Segment): (s: seq<seq<nat>>)
    ensures ArePages(s)
  {
    Paths(First(g), PageCount(g))
  }

  /** The pages from `i` on are safe exactly if the next one is, and those after it. */
  lemma NextIsSafe(w: World, root: nat, virt: nat, i: nat, n: nat)
    requires Inv(w) && IsRoot(w, root) && i < n && virt + i * PAGE < LOW_LIMIT
    ensures Isolation.LowPage(PathOf(virt + i * PAGE))
    ensures ArePages(Paths(virt, n)[i..]) && ArePages(Paths(virt, n)[i + 1..])
    ensures SafePages(StockOf(w, root), Paths(virt, n)[i..]) <==>
      && Isolation.NullSafe(w, root, PathOf(virt + i * PAGE))
      && SafePages(AfterOne(StockOf(w, root), PathOf(virt + i * PAGE)), Paths(virt, n)[i + 1..])
  {
    hide PathOf, Cost, AfterOne, StockOf, Isolation.NullSafe;
    LowAddress(virt + i * PAGE);
    NullSafeStock(w, root, PathOf(virt + i * PAGE));
    assert Paths(virt, n)[i..][0] == PathOf(virt + i * PAGE);
    assert Paths(virt, n)[i..][1..] == Paths(virt, n)[i + 1..];
  }

  /** The state of the loader: the machine is in order, or no frame is free and a page is on frame 0. In
      both cases nothing has changed since (`w0`, `m0`) but `pages`. */
  ghost predicate Loading(w0: World, m0: Memory, w: World, m: Memory, root: nat, pages: set<(nat, seq<nat>)>) {
    if Inv(w) then |w.used| == |w0.used| && (forall g :: IsRoot(w0, g) ==> IsRoot(w, g)) && KeepsOthers(w0, m0, w, m, pages)
    else OutOfFrames(w0, m0, w, m, root, pages)
  }

  /** What the loader does with one page. */
  ghost predicate PageTried(w: World, m: Memory, w': World, m': Memory, root: nat, virt: nat, contents: Page) {
    && w'.reserved == w.reserved && |w'.used| == |w.used| && IsRoot(w, root) && Isolation.LowPage(PathOf(virt))
    && if Inv(w) && Isolation.NullSafe(w, root, PathOf(virt)) then Inv(w') && PageAdded(w, m, w', m', root, virt, contents)
       else
         && w' == Mappings.Overwrite(NullFrame.MapNull(w, root, PathOf(virt)), 0, TableOf(contents))
         && RawTables.InMemory(RawTables.Of(w), root, PathOf(virt), true)
         && BytesBut(m, m', RawTables.Edited(RawTables.Of(w), root, PathOf(virt), true) + {0})
  }

  /** One page more, from either state. */
  lemma LoadingStep(w0: World, m0: Memory, w: World, m: Memory, w': World, m': Memory, root: nat, pages: set<(nat, seq<nat>)>,
                    virt: nat, x: Page)
    requires Loading(w0, m0, w, m, root, pages) && PageTried(w, m, w', m', root, virt, x) && 0 in w.reserved
    ensures Loading(w0, m0, w', m', root, pages + {(root, PathOf(virt))})
    ensures Inv(w') <==> Inv(w) && Isolation.NullSafe(w, root, PathOf(virt))
    ensures IsRoot(w', root)
  {
    hide Inv, PageAdded, OutOfFrames, Isolation.NullSafe, PathOf, TableOf, KeepsOthers;
    hide RawTables.InMemory, RawTables.Edited, Isolation.LowPage;
    var p := PathOf(virt);
    if Inv(w) && Isolation.NullSafe(w, root, p) {
      AddedKeepsRoots(w, m, w', m', root, virt, x);
      KeepsOthersTwice(w0, m0, w, m, w', m', pages, {(root, p)});
    } else {
      if Inv(w) {
        FirstNull(w0, m0, w, m, m', root, pages, p, TableOf(x));
      } else {
        NextNull(w0, m0, w, m, m', root, pages, p, TableOf(x));
      }
      OutBreaks(w0, m0, w', m', root, pages + {(root, p)});
    }
  }

  lemma AddedKeepsRoots(w: World, m: Memory, w': World, m': Memory, root: nat, virt: nat, x: Page)
    requires PageAdded(w, m, w', m', root, virt, x)
    ensures KeepsOthers(w, m, w', m', {(root, PathOf(virt))}) && IsRoot(w', root)
    ensures forall g :: IsRoot(w, g) ==> IsRoot(w', g)
  {
    hide UserPage, AfterOne, Resolve, PathOf;
    KeepsOthersWider(w, m, w', m', OnePage(root, PathOf(virt), Fits(w, root, virt)), {(root, PathOf(virt))});
    forall g: nat | IsRoot(w, g) ensures IsRoot(w', g) {
      var p: seq<nat> := if PathOf(virt) == [0, 0, 0, 0] then [0, 0, 0, 1] else [0, 0, 0, 0];
      assert Isolation.LowPage(p) && (g, p) !in {(root, PathOf(virt))};
      assert KeepsPage(w, m, w', m', g, p);
    }
  }

  /** The loop body: one page, in whatever state the loader is. */
  method LoadPage(spaces: AddressSpaces.AddressSpaces, root: nat, data: seq<UInt8>, g: Segment, address: nat,
                  ghost w0: World, ghost m0: Memory, ghost pages: set<(nat, seq<nat>)>)
    requires spaces.Coherent() && IsRoot(spaces.world, root) && 0 in spaces.world.reserved && Isolation.LowPage(PathOf(address))
    requires g.offset + g.filesz <= |data| && Loading(w0, m0, spaces.world, spaces.memory, root, pages)
    modifies spaces`memory, spaces`world, spaces.frames.bitmap
    ensures spaces.Coherent() && spaces.frames.bitmap == old(spaces.frames.bitmap)
    ensures PageTried(old(spaces.world), old(spaces.memory), spaces.world, spaces.memory, root, address, PageImage(data, g, address))
  {
    hide Inv, OutOfFrames, View, PathOf, TableOf, PageImage, Isolation.LoadedWorld, FrameFilled, PageAdded, KeepsOthers;
    hide RawTables.InMemory, RawTables.Edited, NullFrame.MapNull, Isolation.LowPage;
    if !Inv(spaces.world) {
      OutInMemory(w0, m0, spaces.world, spaces.memory, root, pages, PathOf(address));
    }
    var contents := PageContents(data, g, address);
    AddFilledPage(spaces, root, address, contents);
  }

  /** The page loop for one segment: it goes on when a frame or a table could not be had. A page that
      finds no frame and yet all its tables is mapped to frame 0; the machine is in order afterwards
      exactly if it was before and there is no such page. */
  method LoadSegment(spaces: AddressSpaces.AddressSpaces, root: nat, data: seq<UInt8>, g: Segment,
                     ghost w0: World, ghost m0: Memory, ghost pages: set<(nat, seq<nat>)>)
    requires spaces.Coherent() && IsRoot(spaces.world, root) && Loadable(data, g) && 0 in spaces.world.reserved
    requires Loading(w0, m0, spaces.world, spaces.memory, root, pages)
    modifies spaces`memory, spaces`world, spaces.frames.bitmap
    ensures spaces.Coherent() && spaces.frames.bitmap == old(spaces.frames.bitmap) && 0 in spaces.world.reserved
    ensures IsRoot(spaces.world, root)
    ensures Loading(w0, m0, spaces.world, spaces.memory, root, pages + Range(root, First(g), PageCount(g)))
    ensures spaces.Valid() <==> old(spaces.Valid()) && SafePages(StockOf(old(spaces.world), root), SegmentPaths(g))
    ensures spaces.Valid() ==>
      PagesAdded(old(spaces.world), old(spaces.memory), spaces.world, spaces.memory, root, First(g), Image(data, g, PageCount(g)))
  {
    hide Inv, PagesAdded, PageAdded, View, Isolation.NullSafe, Loading, KeepsOthers;
    hide Mappings.FreeCount, PageImage, AfterOne, PathOf, TablesOf, StockOf, TableOf, Isolation.LowPage;
    hide PageCount, PageDown, SafePages, IsRoot, Range, PageTried, Paths, Image;
    SegmentEnd(g);
    ghost var w1, m1 := spaces.world, spaces.memory;
    ghost var n := PageCount(g);
    ghost var paths := Paths(First(g), n);
    if Inv(w1) {
      NoPagesAdded(w1, m1, root, First(g));
    }
    RangeGrows(root, First(g), 0);
    assert pages + {} == pages && Image(data, g, 0) == [] && paths[0..] == paths && paths[n..] == [];
    EmptyIsSafe(StockOf(w1, root));
    if g.memsz == 0 {
      return;
    }
    var address := First(g);
    var end := PageDown(g.vaddr + g.memsz + (PAGE - 1));
    ghost var i := 0;
    while address < end
      invariant spaces.Coherent() && spaces.frames.bitmap == old(spaces.frames.bitmap) && 0 in spaces.world.reserved
      invariant i <= n && address == First(g) + i * PAGE && IsRoot(spaces.world, root)
      invariant Loading(w0, m0, spaces.world, spaces.memory, root, pages + Range(root, First(g), i))
      invariant Inv(spaces.world) ==> Inv(w1) && PagesAdded(w1, m1, spaces.world, spaces.memory, root, First(g), Image(data, g, i))
      invariant Inv(spaces.world) && SafePages(StockOf(spaces.world, root), paths[i..]) <==>
        Inv(w1) && SafePages(StockOf(w1, root), paths)
      decreases end - address
    {
      ghost var w2, m2 := spaces.world, spaces.memory;
      LowAddress(address);
      if Inv(w2) {
        NextIsSafe(w2, root, First(g), i, n);
      }
      LoadPage(spaces, root, data, g, address, w0, m0, pages + Range(root, First(g), i));
      OnePageLoaded(w0, m0, w1, m1, w2, m2, spaces.world, spaces.memory, root, data, g, i, pages);
      address := address + PAGE;
      i := i + 1;
    }
    EmptyIsSafe(StockOf(spaces.world, root));
  }

  lemma EmptyIsSafe(s: Stock)
    ensures SafePages(s, [])
  {
  }

  /** What one turn of that loop adds. */
  lemma OnePageLoaded(w0: World, m0: Memory, w1: World, m1: Memory, w2: World, m2: Memory, w: World, m: Memory,
                      root: nat, data: seq<UInt8>, g: Segment, i: nat, pages: set<(nat, seq<nat>)>)
    requires Loadable(data, g) && i < PageCount(g) && IsRoot(w1, root) && 0 in w2.reserved
    requires Loading(w0, m0, w2, m2, root, pages + Range(root, First(g), i))
    requires Inv(w2) ==> Inv(w1) && PagesAdded(w1, m1, w2, m2, root, First(g), Image(data, g, i))
    requires PageTried(w2, m2, w, m, root, First(g) + i * PAGE, PageImage(data, g, First(g) + i * PAGE))
    ensures Loading(w0, m0, w, m, root, pages + Range(root, First(g), i + 1)) && IsRoot(w, root) && 0 in w.reserved
    ensures Inv(w) <==> Inv(w2) && Isolation.NullSafe(w2, root, PathOf(First(g) + i * PAGE))
    ensures Inv(w) ==>
      && PagesAdded(w1, m1, w, m, root, First(g), Image(data, g, i + 1))
      && StockOf(w, root) == AfterOne(StockOf(w2, root), PathOf(First(g) + i * PAGE))
  {
    hide Inv, PagesAdded, PageAdded, Isolation.NullSafe, Loading, PageImage, AfterOne, PathOf, StockOf, TableOf;
    hide PageCount, IsRoot, Range, Isolation.LowPage, RawTables.InMemory, RawTables.Edited, NullFrame.MapNull;
    hide PageDown;
    var address := First(g) + i * PAGE;
    var contents := PageImage(data, g, address);
    SegmentEnd(g);
    RangeGrows(root, First(g), i);
    LoadingStep(w0, m0, w2, m2, w, m, root, pages + Range(root, First(g), i), address, contents);
    assert pages + Range(root, First(g), i + 1) == pages + Range(root, First(g), i) + {(root, PathOf(address))};
    if Inv(w) {
      AddedStock(w2, m2, w, m, root, address, contents);
      OneMorePage(w1, m1, w2, m2, w, m, root, First(g), Image(data, g, i), contents);
      assert Image(data, g, i) + [contents] == Image(data, g, i + 1);
    }
  }

  lemma SegmentEnd(g: Segment)
    ensures g.memsz == 0 ==> PageCount(g) == 0
    ensures g.memsz > 0 ==> PageDown(g.vaddr + g.memsz + (PAGE - 1)) == First(g) + PageCount(g) * PAGE
    ensures g.vaddr + g.memsz + PAGE < LOW_LIMIT ==> First(g) + PageCount(g) * PAGE < LOW_LIMIT
  {
  }

  lemma AddedStock(w: World, m: Memory, w': World, m': Memory, root: nat, virt: nat, contents: Page)
    requires PageAdded(w, m, w', m', root, virt, contents)
    ensures IsRoot(w', root) && StockOf(w', root) == AfterOne(StockOf(w, root), PathOf(virt))
  {
    hide PathOf, AfterOne;
  }

  // ---------- the whole file ----------

  ghost predicate HasTable(data: seq<UInt8>) {
    |data| >= HEADER_SIZE && HEADER_SIZE + SegmentCount(data) * SEGMENT_SIZE <= |data|
  }

  ghost predicate LoadableFile(data: seq<UInt8>) {
    && HasTable(data)
    && (forall i :: 0 <= i < SegmentCount(data) ==> Loadable(data, SegmentAt(data, i)))
  }
  /** The pages of the first `n` segments, in the order in which they are mapped. */
  ghost function FilePages(data: seq<UInt8>, n: nat): (s: seq<seq<nat>>)
    requires HasTable(data) && n <= SegmentCount(data)
    ensures ArePages(s)
  {
    if n == 0 then [] else FilePages(data, n - 1) + SegmentPaths(SegmentAt(data, n - 1))
  }

  /** The same pages with the space that they are in. */
  ghost function Ranges(data: seq<UInt8>, root: nat, n: nat): set<(nat, seq<nat>)>
    requires HasTable(data) && n <= SegmentCount(data)
  {
    if n == 0 then {}
    else Ranges(data, root, n - 1) + Range(root, First(SegmentAt(data, n - 1)), PageCount(SegmentAt(data, n - 1)))
  }

  /** The segment has the page at this address. */
  predicate HasPage(g: Segment, page: nat) {
    First(g) <= page < First(g) + PageCount(g) * PAGE
  }

  /** Of the first `n` segments the last one with this page. */
  ghost function Last(data: seq<UInt8>, n: nat, page: nat): (r: Option<nat>)
    requires HasTable(data) && n <= SegmentCount(data)
    ensures r.Some? ==> r.value < n && HasPage(SegmentAt(data, r.value), page)
    ensures forall i: nat :: i < n && HasPage(SegmentAt(data, i), page) ==> r.Some? && i <= r.value
  {
    if n == 0 then None
    else if HasPage(SegmentAt(data, n - 1), page) then Some(n - 1)
    else Last(data, n - 1, page)
  }

  /** The page of the first `n` segments at this address is in the space's memory: as the last segment
      that has it says, because the loader maps a page anew for every segment. */
  ghost predicate PageLoaded(w: World, m: Memory, root: nat, data: seq<UInt8>, n: nat, page: nat)
    requires LoadableFile(data) && n <= SegmentCount(data)
  {
    var i := Last(data, n, page);
    i.Some? ==> UserPage(w, m, root, PathOf(page), PageImage(data, SegmentAt(data, i.value), page))
  }

  ghost predicate Loaded(w: World, m: Memory, root: nat, data: seq<UInt8>, n: nat)
    requires LoadableFile(data) && n <= SegmentCount(data)
  {
    forall page: nat :: page % PAGE == 0 ==> PageLoaded(w, m, root, data, n, page)
  }

  lemma PagesBelow(g: Segment, k: nat)
    requires g.vaddr + g.memsz + PAGE < LOW_LIMIT && k < PageCount(g)
    ensures First(g) + k * PAGE < LOW_LIMIT
    ensures First(g) + k * PAGE <= g.vaddr + g.memsz + (PAGE - 1) - PAGE
  {
  }

  /** A page of the image that is not among the `n` pages worked on stays loaded. */
  lemma PageKept(w: World, m: Memory, w': World, m': Memory, root: nat, data: seq<UInt8>, k: nat, page: nat, virt: nat, n: nat)
    requires LoadableFile(data) && k <= SegmentCount(data) && IsRoot(w, root) && page % PAGE == 0
    requires PageLoaded(w, m, root, data, k, page)
    requires virt % PAGE == 0 && (n > 0 ==> virt + (n - 1) * PAGE < LOW_LIMIT)
    requires page < virt || virt + n * PAGE <= page
    requires KeepsOthers(w, m, w', m', Range(root, virt, n))
    ensures PageLoaded(w', m', root, data, k, page)
  {
    hide PathOf, Resolve, PageImage, PageCount, SegmentAt, SegmentCount;
    if Last(data, k, page).Some? {
      var g := SegmentAt(data, Last(data, k, page).value);
      assert Loadable(data, g);
      PageIsLow(g, page);
      LowAddress(page);
      forall i: nat | i < n ensures PathOf(virt + i * PAGE) != PathOf(page) {
        PathsDiffer(page, virt + i * PAGE);
      }
      assert (root, PathOf(page)) !in Range(root, virt, n);
      assert KeepsPage(w, m, w', m', root, PathOf(page));
    }
  }

  lemma PageIsLow(g: Segment, page: nat)
    requires g.vaddr + g.memsz + PAGE < LOW_LIMIT && HasPage(g, page)
    ensures page < LOW_LIMIT
  {
  }

  /** One segment more: its own pages are its own, the others stay. */
  lemma SegmentAdded(w: World, m: Memory, w': World, m': Memory, root: nat, data: seq<UInt8>, n: nat)
    requires LoadableFile(data) && n < SegmentCount(data) && IsRoot(w, root) && Loaded(w, m, root, data, n)
    requires PagesAdded(w, m, w', m', root, First(SegmentAt(data, n)), Image(data, SegmentAt(data, n), PageCount(SegmentAt(data, n))))
    requires Enough(w, root, First(SegmentAt(data, n)), PageCount(SegmentAt(data, n)))
    ensures Loaded(w', m', root, data, n + 1)
  {
    hide PageCount, SegmentAt, Resolve, PathOf, Enough;
    hide KeepsOthers, SegmentCount, PageImage, Mappings.FreeCount;
    var g := SegmentAt(data, n);
    assert Loadable(data, g);
    AddedPages(w, m, w', m', root, First(g), Image(data, g, PageCount(g)));
    if PageCount(g) > 0 {
      PagesBelow(g, PageCount(g) - 1);
    }
    forall page: nat | page % PAGE == 0 ensures PageLoaded(w', m', root, data, n + 1, page) {
      if HasPage(g, page) {
        var k := (page - First(g)) / PAGE;
        assert page == First(g) + k * PAGE;
        assert UserPage(w', m', root, PathOf(First(g) + k * PAGE), Image(data, g, PageCount(g))[k]);
      } else {
        assert PageLoaded(w, m, root, data, n, page);
        PageKept(w, m, w', m', root, data, n, page, First(g), PageCount(g));
      }
    }
  }

  /** With segment `i` the frames still suffice exactly if they did before and it fits what is left. */
  lemma SegmentFits(s: Stock, data: seq<UInt8>, i: nat)
    requires HasTable(data) && i < SegmentCount(data)
    ensures var pages := SegmentPaths(SegmentAt(data, i)); var s' := After(s, FilePages(data, i));
      && After(s, FilePages(data, i + 1)) == After(s', pages)
      && (SafePages(s, FilePages(data, i + 1)) <==> SafePages(s, FilePages(data, i)) && SafePages(s', pages))
      && (Needed(s.there, FilePages(data, i + 1)) <= s.free ==>
        && Needed(s.there, FilePages(data, i)) <= s.free && Needed(s'.there, pages) <= s'.free
        && SafePages(s, FilePages(data, i + 1)))
  {
    hide SegmentPaths, SegmentAt, SegmentCount, After, SafePages, Needed, AllPrefixes;
    var pages := SegmentPaths(SegmentAt(data, i));
    AfterSplit(s, FilePages(data, i), pages);
    NeededSplit(s.there, FilePages(data, i), pages);
    NeededDecides(s, FilePages(data, i));
    NeededDecides(s, FilePages(data, i + 1));
  }

  /** HOTLoad: a file with another magic changes nothing. For a loadable file no low-half page of any
      space has changed but those of the file; and with frames for its pages and their tables they are all
      in memory, where segments share one as the last of them says. The machine stays in order exactly if
      no page of the file finds no frame and yet all its tables; otherwise such a page is on frame 0 in
      the end, and no frame is left. */
  method Load(spaces: AddressSpaces.AddressSpaces, root: nat, data: seq<UInt8>) returns (entry: nat)
    requires spaces.Valid() && IsRoot(spaces.world, root) && |data| >= HEADER_SIZE && 0 in spaces.world.reserved
    requires Magic(data) == HOT_MAGIC ==> LoadableFile(data)
    modifies spaces`memory, spaces`world, spaces.frames.bitmap
    ensures spaces.Coherent() && IsRoot(spaces.world, root) && 0 in spaces.world.reserved
    ensures spaces.frames.bitmap == old(spaces.frames.bitmap)
    ensures Magic(data) != HOT_MAGIC ==>
      entry == BAD_MAGIC && spaces.world == old(spaces.world) && spaces.memory == old(spaces.memory) && spaces.Valid()
    ensures Magic(data) == HOT_MAGIC ==>
      var pages := FilePages(data, SegmentCount(data)); var stock := StockOf(old(spaces.world), root);
      && entry == EntryPoint(data)
      && KeepsOthers(old(spaces.world), old(spaces.memory), spaces.world, spaces.memory, Ranges(data, root, SegmentCount(data)))
      && (spaces.Valid() <==> SafePages(stock, pages))
      && (if spaces.Valid() then
          && StockOf(spaces.world, root) == After(stock, pages)
          && (Needed(stock.there, pages) <= stock.free ==> Loaded(spaces.world, spaces.memory, root, data, SegmentCount(data)))
        else
          && FirstFree(spaces.world.used).None? && OnNullFrame(spaces.world, root, Ranges(data, root, SegmentCount(data)))
          && Needed(stock.there, pages) > stock.free)
  {
    hide Inv, View, Mappings.FreeCount, StockOf, SafePages, After, Needed, TablesOf, SegmentPaths;
    hide Magic, EntryPoint, SegmentCount, SegmentAt, PageCount, KeepsOthers, PageImage;
    hide Range, Resolve, PathOf, PagesAdded, OutOfFrames, OnNullFrame;
    if Magic(data) != HOT_MAGIC {
      return BAD_MAGIC;
    }
    ghost var w0, m0 := spaces.world, spaces.memory;
    ghost var stock := StockOf(w0, root);
    KeepsSelf(w0, m0, {});
    NothingAfter(stock);
    var count := SegmentCount(data);
    for i := 0 to count
      invariant spaces.Coherent() && IsRoot(spaces.world, root) && spaces.frames.bitmap == old(spaces.frames.bitmap)
      invariant 0 in spaces.world.reserved
      invariant Loading(w0, m0, spaces.world, spaces.memory, root, Ranges(data, root, i))
      invariant Inv(spaces.world) <==> SafePages(stock, FilePages(data, i))
      invariant Inv(spaces.world) ==> StockOf(spaces.world, root) == After(stock, FilePages(data, i))
      invariant Needed(stock.there, FilePages(data, i)) <= stock.free ==>
        Inv(spaces.world) && Loaded(spaces.world, spaces.memory, root, data, i)
    {
      ghost var w1, m1 := spaces.world, spaces.memory;
      var g := SegmentAt(data, i);
      assert Loadable(data, g);
      SegmentFits(stock, data, i);
      LoadSegment(spaces, root, data, g, w0, m0, Ranges(data, root, i));
      if Inv(spaces.world) {
        SegmentStock(w1, m1, spaces.world, spaces.memory, root, data, g);
        if Needed(stock.there, FilePages(data, i + 1)) <= stock.free {
          SegmentAdded(w1, m1, spaces.world, spaces.memory, root, data, i);
        }
      }
    }
    if !Inv(spaces.world) {
      OutFacts(w0, m0, spaces.world, spaces.memory, root, Ranges(data, root, count));
    }
    return EntryPoint(data);
  }

  lemma NothingAfter(s: Stock)
    ensures After(s, []) == s && Needed(s.there, []) == 0 && SafePages(s, [])
  {
  }

  lemma SegmentStock(w: World, m: Memory, w': World, m': Memory, root: nat, data: seq<UInt8>, g: Segment)
    requires g.offset + g.filesz <= |data|
    requires PagesAdded(w, m, w', m', root, First(g), Image(data, g, PageCount(g)))
    ensures IsRoot(w', root) && StockOf(w', root) == After(StockOf(w, root), SegmentPaths(g))
    ensures KeepsOthers(w, m, w', m', Range(root, First(g), PageCount(g)))
    ensures Enough(w, root, First(g), PageCount(g)) <==> Needed(StockOf(w, root).there, SegmentPaths(g)) <= StockOf(w, root).free
  {
    hide KeepsOthers, After, PathOf, PageCount, Needed, TablesOf, Mappings.FreeCount;
  }

  // ---------- an ELF file, converted and loaded ----------

  /** The byte a process reads at `va`. */
  ghost function ByteAt(w: World, m: Memory, root: nat, va: nat): Option<UInt8> {
    var a := Resolve(w.tables, root, PathOf(va));
    if a.Some? && a.value.user && a.value.frame in m then Some(m[a.value.frame][va % PAGE]) else None
  }

  /** What the PT_LOAD header says about the page of `va`: the file's byte, or zero outside the file
      size. */
  function ElfByte(elf: Elf, h: ProgramHeader, va: nat): UInt8
    requires InFile(elf, h)
  {
    if h.vaddr <= va < h.vaddr + h.filesz then elf.bytes[h.offset + (va - h.vaddr)] else 0
  }

  /** The loadable segments of the ELF file are in the low half. */
  ghost predicate ElfLoadable(elf: Elf) {
    forall h :: h in elf.headers && h.load ==> h.vaddr + h.memsz + PAGE < LOW_LIMIT
  }

  /** Header `i` is a PT_LOAD header that has some of its memory in the page. */
  predicate OnPage(hs: seq<ProgramHeader>, i: nat, page: nat) {
    && i < |hs| && hs[i].load && hs[i].memsz != 0
    && page % 0x1000 == 0 && hs[i].vaddr < page + 0x1000 && page < hs[i].vaddr + hs[i].memsz
  }

  /** The loader maps the pages that hold memory of the segment, and no others. */
  lemma PagesOverlap(g: Segment, page: nat)
    requires page % PAGE == 0
    ensures HasPage(g, page) <==> g.memsz != 0 && g.vaddr < page + PAGE && page < g.vaddr + g.memsz
  {
  }

  /** No page belongs to two of the PT_LOAD segments. */
  ghost predicate OwnPages(hs: seq<ProgramHeader>) {
    forall i: nat, j: nat, page: nat :: OnPage(hs, i, page) && OnPage(hs, j, page) ==> i == j
  }

  /** The last PT_LOAD header of the file whose segment has the page. */
  function LastOn(hs: seq<ProgramHeader>, page: nat): (r: Option<nat>)
    ensures r.Some? ==> OnPage(hs, r.value, page)
    ensures forall i: nat :: OnPage(hs, i, page) ==> r.Some? && i <= r.value
  {
    if hs == [] then None
    else
      var n := |hs| - 1;
      assert forall i: nat :: i < n ==> (OnPage(hs[..n], i, page) <==> OnPage(hs, i, page));
      if OnPage(hs, n, page) then Some(n) else LastOn(hs[..n], page)
  }

  /** The converter's output is a file the loader accepts. */
  lemma ConvertedIsLoadable(data: seq<UInt8>, elf: Elf)
    requires HotOf(data, elf) && ElfLoadable(elf)
    ensures LoadableFile(data) && Magic(data) == HOT_MAGIC
  {
    hide Magic, EntryPoint, SegmentAt, Picks;
    var f :| HotBy(data, elf, f);
    forall i | 0 <= i < SegmentCount(data) ensures Loadable(data, SegmentAt(data, i)) {
      PickedLoads(elf.headers, f, i);
      assert Carries(data, SegmentAt(data, i), elf, elf.headers[f[i]]);
    }
  }

  lemma PickedLoads(hs: seq<ProgramHeader>, f: seq<nat>, i: nat)
    requires Picks(hs, f) && i < |f|
    ensures f[i] < |hs| && hs[f[i]].load && hs[f[i]] in hs
  {
  }

  lemma CarriedPage(data: seq<UInt8>, g: Segment, elf: Elf, i: nat, page: nat)
    requires i < |elf.headers| && elf.headers[i].load && Carries(data, g, elf, elf.headers[i]) && page % PAGE == 0
    ensures HasPage(g, page) <==> OnPage(elf.headers, i, page)
  {
    hide HasPage;
    PagesOverlap(g, page);
  }

  /** The last segment of the file with a page is that of the last PT_LOAD header with it. */
  lemma LastIsLastOn(data: seq<UInt8>, elf: Elf, f: seq<nat>, page: nat)
    requires HotBy(data, elf, f) && page % PAGE == 0
    ensures HasTable(data)
    ensures var last := Last(data, |f|, page);
      LastOn(elf.headers, page) == if last.None? then None else Some(f[last.value])
  {
    hide Magic, EntryPoint, SegmentAt, SegmentCount, HasPage, OnPage, Carries, Last, LastOn;
    var hs := elf.headers;
    var last, on := Last(data, |f|, page), LastOn(hs, page);
    if on.Some? {
      assert hs[on.value].load by { OnPageLoads(hs, on.value, page); }
      var j :| 0 <= j < |f| && f[j] == on.value;
      assert Carries(data, SegmentAt(data, j), elf, hs[f[j]]);
      CarriedPage(data, SegmentAt(data, j), elf, f[j], page);
      assert last.Some? && j <= last.value;
    }
    if last.Some? {
      var i := last.value;
      assert Carries(data, SegmentAt(data, i), elf, hs[f[i]]);
      CarriedPage(data, SegmentAt(data, i), elf, f[i], page);
    }
  }

  lemma OnPageLoads(hs: seq<ProgramHeader>, i: nat, page: nat)
    requires OnPage(hs, i, page)
    ensures i < |hs| && hs[i].load
  {
  }

  /** `va` is in the memory of PT_LOAD header `i`. */
  ghost predicate InSegment(elf: Elf, i: nat, va: nat) {
    i < |elf.headers| && elf.headers[i].load && elf.headers[i].vaddr <= va < elf.headers[i].vaddr + elf.headers[i].memsz
  }

  /** Where a segment has memory, some header is the last with that page. */
  lemma LastOfByte(data: seq<UInt8>, elf: Elf, f: seq<nat>, i: nat, va: nat)
    requires HotBy(data, elf, f) && InSegment(elf, i, va)
    ensures var hs := elf.headers; var last := LastOn(hs, PageDown(va));
      && InFile(elf, hs[i]) && last.Some? && i <= last.value && InFile(elf, hs[last.value])
      && (OwnPages(hs) ==> last.value == i)
      && SegmentCount(data) == |f| && HasTable(data)
      && var at := Last(data, |f|, PageDown(va));
      at.Some? && f[at.value] == last.value && Carries(data, SegmentAt(data, at.value), elf, hs[last.value])
  {
    hide Magic, EntryPoint, SegmentAt, SegmentCount, OnPage, Last, LastOn, PageDown;
    var hs, page := elf.headers, PageDown(va);
    InPage(hs, i, va);
    LastIsLastOn(data, elf, f, page);
    var at := Last(data, |f|, page).value;
    assert Carries(data, SegmentAt(data, at), elf, hs[f[at]]);
    var j :| 0 <= j < |f| && f[j] == i;
    assert Carries(data, SegmentAt(data, j), elf, hs[f[j]]);
  }

  /** After loading the converted file, a process reads at every address of every PT_LOAD segment, at
      any offset of the segment in its first page, what the last PT_LOAD header of the ELF file with that
      page demands there; so it reads what the segment itself demands exactly when these two bytes are
      equal, and always when no later header has the page. */
  lemma LoadedImageIsElfImage(w: World, m: Memory, root: nat, data: seq<UInt8>, elf: Elf, i: nat, va: nat)
    requires HotOf(data, elf) && ElfLoadable(elf) && LoadableFile(data)
    requires PageLoaded(w, m, root, data, SegmentCount(data), PageDown(va)) && InSegment(elf, i, va)
    ensures EntryPoint(data) == elf.entry
    ensures var hs := elf.headers; var last := LastOn(hs, PageDown(va));
      && InFile(elf, hs[i]) && last.Some? && i <= last.value && InFile(elf, hs[last.value])
      && ByteAt(w, m, root, va) == Some(ElfByte(elf, hs[last.value], va))
      && (OwnPages(hs) ==> last.value == i)
  {
    hide Magic, EntryPoint, SegmentAt, Resolve, Picks;
    hide PageImage, ByteAt, Last, PageDown, OwnPages, LastOn;
    var f :| HotBy(data, elf, f);
    LastOfByte(data, elf, f, i, va);
    var hs := elf.headers;
    var at, last := Last(data, |f|, PageDown(va)).value, LastOn(hs, PageDown(va)).value;
    assert Loadable(data, SegmentAt(data, at));
    ByteOfPage(w, m, root, data, SegmentAt(data, at), va);
    CarriedByte(data, SegmentAt(data, at), elf, hs[last], va);
  }

  lemma InPage(hs: seq<ProgramHeader>, i: nat, va: nat)
    requires i < |hs| && hs[i].load && hs[i].vaddr <= va < hs[i].vaddr + hs[i].memsz
    ensures OnPage(hs, i, PageDown(va))
  {
  }

  lemma CarriedByte(data: seq<UInt8>, g: Segment, elf: Elf, h: ProgramHeader, va: nat)
    requires Carries(data, g, elf, h)
    ensures SegmentByte(data, g, va) == ElfByte(elf, h, va)
  {
    if h.vaddr <= va < h.vaddr + h.filesz {
      assert data[g.offset..g.offset + g.filesz][va - h.vaddr] == DataOf(elf, h)[va - h.vaddr];
    }
  }

  lemma ByteOfPage(w: World, m: Memory, root: nat, data: seq<UInt8>, g: Segment, va: nat)
    requires Loadable(data, g) && UserPage(w, m, root, PathOf(PageDown(va)), PageImage(data, g, PageDown(va)))
    ensures ByteAt(w, m, root, va) == Some(SegmentByte(data, g, va))
  {
    hide PathOf, Resolve;
    var page := PageDown(va);
    assert page <= va < page + PAGE && va % PAGE == va - page;
    SamePath(page, va);
    assert PageImage(data, g, page)[va - page] == SegmentByte(data, g, va);
  }

  lemma SamePath(page: nat, va: nat)
    requires page % PAGE == 0 && page <= va < page + PAGE
    ensures PathOf(page) == PathOf(va)
  {
    hide PathOf;
    PathOfPage(page, va);
    assert page / PAGE == va / PAGE;
  }

  /** Two segments of one byte each on one page: after loading, the process reads 0 where the first one
      has its byte, because the second has the page anew. */
  lemma SharedPageIsLost(w: World, m: Memory, root: nat, data: seq<UInt8>, elf: Elf)
    requires elf == Elf(0x1000, [ProgramHeader(true, true, 0, 0x1000, 1, 1), ProgramHeader(true, false, 1, 0x1800, 1, 1)], [7, 8])
    ensures ElfLoadable(elf) && ElfByte(elf, elf.headers[0], 0x1000) == 7
    ensures HotOf(data, elf) && LoadableFile(data) && PageLoaded(w, m, root, data, SegmentCount(data), PageDown(0x1000)) ==>
      ByteAt(w, m, root, 0x1000) == Some(0)
  {
    hide HotOf, PageLoaded, ByteAt, Loadable;
    assert OnPage(elf.headers, 1, 0x1000);
    assert LastOn(elf.headers, 0x1000) == Some(1);
    if HotOf(data, elf) && LoadableFile(data) && PageLoaded(w, m, root, data, SegmentCount(data), PageDown(0x1000)) {
      LoadedImageIsElfImage(w, m, root, data, elf, 0, 0x1000);
    }
  }
}
