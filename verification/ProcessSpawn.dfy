/** A new process: its address space, its image and its stack. */
module ProcessSpawn {
  import opened Bits
  import opened Common
  import FrameBitmap
  import opened PageTables
  import opened Mappings
  import opened Isolation
  import opened PageCosts
  import PageWords
  import opened MemoryViews
  import opened SpareFrames
  import AddressSpaces
  import opened MemoryServices
  import opened HotFormat
  import opened HotLoader

  predicate InStack(virt: nat) {
    STACK_BOTTOM <= virt < STACK_TOP
  }

  /** The image but for the pages of the user stack. */
  ghost predicate LoadedOffStack(w: World, m: Memory, root: nat, data: seq<UInt8>)
    requires LoadableFile(data)
  {
    forall page: nat :: page % PAGE == 0 && !InStack(page) ==> PageLoaded(w, m, root, data, SegmentCount(data), page)
  }

  ghost function StackPages(root: nat): set<(nat, seq<nat>)> {
    Range(root, STACK_BOTTOM, 4)
  }

  /** The free frames left once the root table has its own. */
  ghost function AfterRoot(w: World): nat {
    if FreeCount(w.used) > 0 then FreeCount(w.used) - 1 else 0
  }

  /** A new space: its low half is empty, and no page of another space has changed. */
  lemma NewSpace(w: World, m: Memory, r: nat, m': Memory)
    requires Inv(w) && Covered(w, m) && r < |w.used| && !w.used[r] && r in m' && m' == m[r := m'[r]] && w.kernel in w.tables
    ensures IsRoot(CreateSpace(w, r), r) && r !in w.owner
    ensures KeepsOthers(w, m, CreateSpace(w, r), m', {})
    ensures AbsentBut(CreateSpace(w, r), r, {})
    ensures StockOf(CreateSpace(w, r), r) == Stock({}, AfterRoot(w))
  {
    var w' := CreateSpace(w, r);
    TakeOne(w.used, r);
    NoTablesYet(w, r);
    NewSpaceOwner(w, r);
    hide Inv, CreateSpace, Resolve, TablesOf, KeepsPage, Covered;
    forall p | LowPage(p) ensures Resolve(w'.tables, r, p) == None {
      CreateTranslations(w, r, r, p);
    }
    forall g: nat, p: seq<nat> | IsRoot(w, g) && LowPage(p) ensures KeepsPage(w, m, w', m', g, p) {
      OldPageKept(w, m, r, m', g, p);
    }
  }

  lemma NewSpaceOwner(w: World, r: nat)
    requires Inv(w) && r < |w.used| && !w.used[r]
    ensures IsRoot(CreateSpace(w, r), r) && r !in w.owner && CreateSpace(w, r).used == w.used[r := true]
  {
  }

  lemma OldPageKept(w: World, m: Memory, r: nat, m': Memory, g: nat, p: seq<nat>)
    requires Inv(w) && Covered(w, m) && r < |w.used| && !w.used[r] && r in m' && m' == m[r := m'[r]]
    requires IsRoot(w, g) && LowPage(p)
    ensures KeepsPage(w, m, CreateSpace(w, r), m', g, p)
  {
    hide Resolve;
    CreateTranslations(w, r, g, p);
    if Resolve(w.tables, g, p).Some? { PageIsOwned(w, g, p); }
  }

  lemma NoTablesYet(w: World, r: nat)
    requires Inv(w) && r < |w.used| && !w.used[r] && w.kernel in w.tables
    ensures TablesOf(CreateSpace(w, r), r) == {}
  {
    forall f | f in w.owner ensures w.owner[f].space != r {
      SpaceIsRoot(w, f);
    }
  }

  lemma {:induction false} RangesOfRoot(data: seq<UInt8>, root: nat, n: nat)
    requires HasTable(data) && n <= SegmentCount(data)
    ensures forall x :: x in Ranges(data, root, n) ==> x.0 == root
  {
    hide PageCount, SegmentAt, SegmentCount;
    if n > 0 {
      RangesOfRoot(data, root, n - 1);
    }
  }

  /** What only touches pages of a new space leaves the old spaces alone. */
  lemma OnlyNewSpace(w: World, m: Memory, w': World, m': Memory, root: nat, touched: set<(nat, seq<nat>)>)
    requires KeepsOthers(w, m, w', m', touched) && root !in w.owner && forall x :: x in touched ==> x.0 == root
    ensures KeepsOthers(w, m, w', m', {})
  {
  }

  /** The stack takes its own pages from the loaded image and no others. */
  lemma ImageKept(w: World, m: Memory, w': World, m': Memory, root: nat, data: seq<UInt8>)
    requires LoadableFile(data) && IsRoot(w, root)
    requires Loaded(w, m, root, data, SegmentCount(data)) && KeepsOthers(w, m, w', m', StackPages(root))
    ensures LoadedOffStack(w', m', root, data)
  {
    hide PageCount, SegmentAt, SegmentCount, PageLoaded, KeepsOthers, Range;
    forall page: nat | page % PAGE == 0 && !InStack(page) ensures PageLoaded(w', m', root, data, SegmentCount(data), page) {
      assert PageLoaded(w, m, root, data, SegmentCount(data), page);
      PageKept(w, m, w', m', root, data, SegmentCount(data), page, STACK_BOTTOM, 4);
    }
  }

  /** The address space of a started process: the image, the stack, where both have a page the stack,
      and nothing else. */
  ghost predicate Started(w: World, m: Memory, root: nat, data: seq<UInt8>)
    requires LoadableFile(data)
  {
    && IsRoot(w, root)
    && LoadedOffStack(w, m, root, data)
    && UserPages(w, m, root, STACK_BOTTOM, Zeroed(4))
    && forall p :: LowPage(p) && (root, p) !in Ranges(data, root, SegmentCount(data)) && (root, p) !in StackPages(root) ==>
      Resolve(w.tables, root, p) == None
  }

  /** The pages of the image; none for a file with another magic. */
  ghost function ImagePages(data: seq<UInt8>): (s: seq<seq<nat>>)
    requires |data| >= HEADER_SIZE && (Magic(data) == HOT_MAGIC ==> LoadableFile(data))
    ensures ArePages(s)
  {
    if Magic(data) == HOT_MAGIC then FilePages(data, SegmentCount(data)) else []
  }

  /** All pages of a new process, in the order in which they are mapped. */
  ghost function ProcessPages(data: seq<UInt8>): (s: seq<seq<nat>>)
    requires |data| >= HEADER_SIZE && (Magic(data) == HOT_MAGIC ==> LoadableFile(data))
    ensures ArePages(s)
  {
    ImagePages(data) + Paths(STACK_BOTTOM, 4)
  }

  /** The image and the stack fit together exactly if the stack fits what the image leaves; and when the
      image does not fit, nothing is left. */
  lemma StackFits(free: nat, image: seq<seq<nat>>, stack: seq<seq<nat>>)
    requires ArePages(image) && ArePages(stack) && stack != []
    ensures ArePages(image + stack)
    ensures var s := After(Stock({}, free), image);
      && (Needed({}, image + stack) <= free <==> Needed(s.there, stack) <= s.free)
      && (Needed({}, image + stack) <= free ==> Needed({}, image) <= free)
  {
    hide Cost;
    NeededDecides(Stock({}, free), image);
    NeededSplit({}, image, stack);
  }

  /** The low-half pages of the image in its space. */
  ghost function ImageRanges(data: seq<UInt8>, root: nat): set<(nat, seq<nat>)>
    requires |data| >= HEADER_SIZE && (Magic(data) == HOT_MAGIC ==> LoadableFile(data))
  {
    if Magic(data) == HOT_MAGIC then Ranges(data, root, SegmentCount(data)) else {}
  }

  ghost predicate AbsentBut(w: World, root: nat, pages: set<(nat, seq<nat>)>) {
    forall p :: LowPage(p) && (root, p) !in pages ==> Resolve(w.tables, root, p) == None
  }

  /** The new space with its image. */
  method SpawnImage(spaces: AddressSpaces.AddressSpaces, data: seq<UInt8>) returns (root: nat, entry: nat)
    requires spaces.Valid() && |data| >= HEADER_SIZE && 0 in spaces.world.reserved
    requires Magic(data) == HOT_MAGIC ==> LoadableFile(data)
    requires FrameBitmap.FirstFree(spaces.world.used).Some?
    modifies spaces`memory, spaces`world, spaces.frames.bitmap
    ensures spaces.Coherent() && spaces.frames.bitmap == old(spaces.frames.bitmap) && IsRoot(spaces.world, root)
    ensures entry == (if Magic(data) == HOT_MAGIC then EntryPoint(data) else BAD_MAGIC) && root !in old(spaces.world.owner)
    ensures KeepsOthers(old(spaces.world), old(spaces.memory), spaces.world, spaces.memory, {})
    ensures AbsentBut(spaces.world, root, ImageRanges(data, root))
    ensures spaces.Valid() <==> SafePages(Stock({}, AfterRoot(old(spaces.world))), ImagePages(data))
    ensures if spaces.Valid() then
        && StockOf(spaces.world, root) == After(Stock({}, AfterRoot(old(spaces.world))), ImagePages(data))
        && (Magic(data) == HOT_MAGIC && Needed({}, ImagePages(data)) <= AfterRoot(old(spaces.world)) ==>
          Loaded(spaces.world, spaces.memory, root, data, SegmentCount(data)))
      else NullImage(spaces.world, root, data) && Needed({}, ImagePages(data)) > AfterRoot(old(spaces.world))
  {
    hide Inv, View, FreeCount, Resolve, CreateSpace, StockOf, After, SafePages, Needed, FilePages, AfterRoot;
    hide KeepsOthers, Loaded, Magic, EntryPoint, SegmentCount, Ranges, Range, OnNullFrame;
    ghost var w0, m0 := spaces.world, spaces.memory;
    var created := spaces.CreateAddressSpace();
    root := created.value;
    KernelIsUsed(w0);
    NewSpace(w0, m0, root, spaces.memory);
    CreateKeepsReserved(w0, root);
    ghost var w1, m1 := spaces.world, spaces.memory;
    entry := Load(spaces, root, data);
    ghost var image := ImageRanges(data, root);
    if Magic(data) == HOT_MAGIC {
      RangesOfRoot(data, root, SegmentCount(data));
    } else {
      KeepsSelf(w1, m1, {});
      NothingAfter(StockOf(w1, root));
    }
    KeepsOthersTwice(w0, m0, w1, m1, spaces.world, spaces.memory, {}, image);
    OnlyNewSpace(w0, m0, spaces.world, spaces.memory, root, {} + image);
    NothingElse(w1, m1, spaces.world, spaces.memory, root, {}, image);
    assert {} + image == image;
  }

  /** A page of the image is on the null frame, and no frame is left. */
  ghost predicate NullImage(w: World, root: nat, data: seq<UInt8>)
    requires |data| >= HEADER_SIZE && (Magic(data) == HOT_MAGIC ==> LoadableFile(data))
  {
    FrameBitmap.FirstFree(w.used).None? && OnNullFrame(w, root, ImageRanges(data, root))
  }

  /** The memory side of OSLoaderProcessSpawn. A file with another magic is not refused: the process
      gets its stack, nothing else, and the error code for an entry point. An entry point of 0 is the
      loader's refusal. Every other space keeps all its low-half pages. The process has all its pages,
      or the kernel panics (`ok` is false), exactly as the frames suffice for all of them or not. So a
      process that is started has no page on the null frame, although its image may have had one before
      the panic, or after the refusal. */
  method Spawn(spaces: AddressSpaces.AddressSpaces, data: seq<UInt8>) returns (root: nat, entry: nat, ok: bool)
    requires spaces.Valid() && |data| >= HEADER_SIZE && 0 in spaces.world.reserved
    requires Magic(data) == HOT_MAGIC ==> LoadableFile(data)
    requires FrameBitmap.FirstFree(spaces.world.used).Some?
    modifies spaces`memory, spaces`world, spaces.frames.bitmap
    ensures spaces.Coherent() && spaces.frames.bitmap == old(spaces.frames.bitmap)
    ensures entry == (if Magic(data) == HOT_MAGIC then EntryPoint(data) else BAD_MAGIC) && root !in old(spaces.world.owner)
    ensures KeepsOthers(old(spaces.world), old(spaces.memory), spaces.world, spaces.memory, {})
    ensures ok <==> entry == 0 || Needed({}, ProcessPages(data)) <= AfterRoot(old(spaces.world))
    ensures spaces.Valid() <==> SafePages(Stock({}, AfterRoot(old(spaces.world))), ImagePages(data))
    ensures !spaces.Valid() ==> NullImage(spaces.world, root, data) && (entry == 0 || !ok)
    ensures Magic(data) == HOT_MAGIC && entry != 0 && ok ==> Started(spaces.world, spaces.memory, root, data)
    ensures Magic(data) != HOT_MAGIC && ok ==> StackOnly(spaces.world, spaces.memory, root)
  {
    hide Inv, View, FreeCount, Resolve, StackOnly, StockOf, After, SafePages, Needed, FilePages, AfterRoot, ImagePages;
    hide KeepsOthers, Loaded, LoadedOffStack, UserPages, Magic, EntryPoint, SegmentCount, Ranges, Range, Demand;
    hide PagesAdded, AbsentBut, Started, Enough, NullImage;
    ghost var w0, m0 := spaces.world, spaces.memory;
    root, entry := SpawnImage(spaces, data);
    ghost var w2, m2 := spaces.world, spaces.memory;
    StackFits(AfterRoot(w0), ImagePages(data), Paths(STACK_BOTTOM, 4));
    if entry == 0 {
      return root, entry, true;
    }
    StackEnough(w2, root);
    NoneIfNull(w2, root, data);
    ok := SetupUserStack(spaces, root);
    if Inv(w2) {
      StackKeepsOthers(w2, m2, spaces.world, spaces.memory, root);
      StackOfRoot(root);
      KeepsOthersTwice(w0, m0, w2, m2, spaces.world, spaces.memory, {}, StackPages(root));
      OnlyNewSpace(w0, m0, spaces.world, spaces.memory, root, {} + StackPages(root));
    }
    if !ok {
      return;
    }
    StackStands(w2, m2, spaces.world, spaces.memory, root);
    NothingElse(w2, m2, spaces.world, spaces.memory, root, ImageRanges(data, root), StackPages(root));
    if Magic(data) == HOT_MAGIC {
      ImageKept(w2, m2, spaces.world, spaces.memory, root, data);
      IsStarted(spaces.world, spaces.memory, root, data);
    } else {
      assert {} + StackPages(root) == StackPages(root);
      StackAlone(spaces.world, spaces.memory, root);
    }
  }

  lemma NoneIfNull(w: World, root: nat, data: seq<UInt8>)
    requires |data| >= HEADER_SIZE && (Magic(data) == HOT_MAGIC ==> LoadableFile(data))
    ensures NullImage(w, root, data) ==> FrameBitmap.FirstFree(w.used).None?
  {
  }

  lemma IsStarted(w: World, m: Memory, root: nat, data: seq<UInt8>)
    requires LoadableFile(data) && IsRoot(w, root) && LoadedOffStack(w, m, root, data)
    requires UserPages(w, m, root, STACK_BOTTOM, Zeroed(4))
    requires AbsentBut(w, root, Ranges(data, root, SegmentCount(data)) + StackPages(root))
    ensures Started(w, m, root, data)
  {
    hide Resolve, Ranges, StackPages, LoadedOffStack, UserPages, SegmentCount;
  }

  /** The four stack pages that were added. */
  lemma StackStands(w: World, m: Memory, w': World, m': Memory, root: nat)
    requires PagesAdded(w, m, w', m', root, STACK_BOTTOM, Zeroed(4)) && Enough(w, root, STACK_BOTTOM, 4)
    ensures IsRoot(w', root) && UserPages(w', m', root, STACK_BOTTOM, Zeroed(4))
  {
    hide KeepsOthers, PageResult, Demand, FreeCount, TablesOf;
    AddedPages(w, m, w', m', root, STACK_BOTTOM, Zeroed(4));
  }

  lemma CreateKeepsReserved(w: World, r: nat)
    requires r < |w.used| && w.kernel in w.tables
    ensures CreateSpace(w, r).reserved == w.reserved
  {
  }

  lemma StackEnough(w: World, root: nat)
    ensures Enough(w, root, STACK_BOTTOM, 4) <==> Needed(StockOf(w, root).there, Paths(STACK_BOTTOM, 4)) <= StockOf(w, root).free
  {
  }

  /** Stack pages, as many as there were frames for, are no others' pages. */
  lemma StackKeepsOthers(w: World, m: Memory, w': World, m': Memory, root: nat)
    requires exists n: nat | n <= 4 :: PagesAdded(w, m, w', m', root, STACK_BOTTOM, Zeroed(n))
    ensures KeepsOthers(w, m, w', m', StackPages(root))
  {
    hide KeepsOthers, PageResult, PageWords.PathOf;
    var n: nat :| n <= 4 && PagesAdded(w, m, w', m', root, STACK_BOTTOM, Zeroed(n));
    KeepsOthersWider(w, m, w', m', Range(root, STACK_BOTTOM, n), StackPages(root));
  }

  /** The stack and nothing else. */
  ghost predicate StackOnly(w: World, m: Memory, root: nat) {
    && IsRoot(w, root) && UserPages(w, m, root, STACK_BOTTOM, Zeroed(4))
    && forall p :: LowPage(p) && (root, p) !in StackPages(root) ==> Resolve(w.tables, root, p) == None
  }

  lemma StackAlone(w: World, m: Memory, root: nat)
    requires IsRoot(w, root) && UserPages(w, m, root, STACK_BOTTOM, Zeroed(4)) && AbsentBut(w, root, StackPages(root))
    ensures StackOnly(w, m, root)
  {
    hide Resolve, StackPages, UserPages;
  }

  lemma StackOfRoot(root: nat)
    ensures forall x :: x in StackPages(root) ==> x.0 == root
  {
    hide PageWords.PathOf;
  }

  /** Absent pages that were not touched stay absent. */
  lemma NothingElse(w: World, m: Memory, w': World, m': Memory, root: nat, there: set<(nat, seq<nat>)>, touched: set<(nat, seq<nat>)>)
    requires KeepsOthers(w, m, w', m', touched) && IsRoot(w, root) && AbsentBut(w, root, there)
    ensures AbsentBut(w', root, there + touched)
  {
    hide Resolve;
    forall p | LowPage(p) && (root, p) !in there + touched ensures Resolve(w'.tables, root, p) == None {
      assert KeepsPage(w, m, w', m', root, p);
    }
  }

  /** A process started from a converted ELF file reads, at every address of every PT_LOAD segment,
      what the last segment with that page demands, and zeros where the stack is. */
  lemma StartedImageIsElfImage(w: World, m: Memory, root: nat, data: seq<UInt8>, elf: Elf, i: nat, va: nat)
    requires HotOf(data, elf) && ElfLoadable(elf) && LoadableFile(data) && Started(w, m, root, data)
    requires InSegment(elf, i, va)
    ensures InStack(va) ==> ByteAt(w, m, root, va) == Some(0)
    ensures var hs := elf.headers; var last := LastOn(hs, PageDown(va));
      && last.Some? && i <= last.value && InFile(elf, hs[last.value])
      && (!InStack(va) ==> ByteAt(w, m, root, va) == Some(ElfByte(elf, hs[last.value], va)))
      && (OwnPages(hs) ==> last.value == i)
  {
    hide HotBy, ElfLoadable, Loadable, ByteAt, PageLoaded, OwnPages, UserPages;
    PageInStack(va);
    if InStack(va) {
      StackByte(w, m, root, va);
      var f :| HotBy(data, elf, f);
      LastOfByte(data, elf, f, i, va);
    } else {
      assert PageLoaded(w, m, root, data, SegmentCount(data), PageDown(va));
      LoadedImageIsElfImage(w, m, root, data, elf, i, va);
    }
  }

  lemma PageInStack(va: nat)
    ensures InStack(PageDown(va)) <==> InStack(va)
    ensures InStack(va) ==> (PageDown(va) - STACK_BOTTOM) / PAGE < 4
    ensures InStack(va) ==> PageDown(va) == STACK_BOTTOM + (PageDown(va) - STACK_BOTTOM) / PAGE * PAGE
  {
  }

  lemma StackByte(w: World, m: Memory, root: nat, va: nat)
    requires UserPages(w, m, root, STACK_BOTTOM, Zeroed(4)) && InStack(va)
    ensures ByteAt(w, m, root, va) == Some(0)
  {
    hide PageWords.PathOf, Resolve;
    PageInStack(va);
    var k := (PageDown(va) - STACK_BOTTOM) / PAGE;
    assert UserPage(w, m, root, PageWords.PathOf(STACK_BOTTOM + k * PAGE), Zeroed(4)[k]);
    SamePath(PageDown(va), va);
  }
}
