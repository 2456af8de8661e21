/** The page-table editor over byte-addressed physical memory. */
module AddressSpaces {
  import opened Bits
  import opened Common
  import opened FrameBitmap
  import opened PageTables
  import opened Mappings
  import opened RawTables
  import Isolation
  import opened PageWords
  import opened MemoryViews

  class AddressSpaces {
    const frames: FrameAllocator
    var memory: Memory
    var kernelRoot: nat
    ghost var world: World

    /** The ghost world is what the bitmap and the bytes of memory say. */
    ghost predicate Coherent()
      reads this, frames, frames.bitmap
    {
      && frames.Valid()
      && world.used == frames.Used() && |world.used| <= FRAME_LIMIT
      && world.tables == View(memory)
      && world.kernel == kernelRoot
      && forall f :: 0 <= f < |world.used| ==> f in memory
    }

    ghost predicate Valid()
      reads this, frames, frames.bitmap
    {
      Coherent() && Inv(world)
    }

    /** The kernel's empty root table, the first step of VMVirtualMemoryInitialize. */
    constructor (frames: FrameAllocator, memory: Memory)
      requires frames.Valid() && FirstFree(frames.Used()).Some? && |frames.Used()| <= FRAME_LIMIT
      requires forall f :: 0 <= f < |frames.Used()| ==> f in memory
      modifies frames.bitmap
      ensures Valid() && this.frames == frames && frames.bitmap == old(frames.bitmap)
      ensures world == BootWorld(old(frames.Used()), View(memory), FirstFree(old(frames.Used())).value)
    {
      hide BitsOf, TableOf, Resolve;
      hide Inv;
      var page := frames.AllocatePage();
      var root := page / PAGE;
      this.frames := frames;
      this.memory := memory[root := ZeroPage()];
      kernelRoot := root;
      world := BootWorld(old(frames.Used()), View(memory), root);
      new;
      ViewOfZero(memory, root);
      BootKeepsInv(old(frames.Used()), View(memory), root);
    }

    method StoreWord(f: nat, i: nat, word: nat)
      requires f in memory && i < ENTRIES && word < WORD_LIMIT
      modifies this`memory
      ensures f in memory && memory == old(memory)[f := memory[f]]
      ensures View(memory) == Put(View(old(memory)), f, i, EntryOf(word))
    {
      ViewOfStore(memory, f, i, word);
      memory := memory[f := Put64(memory[f], 8 * i, word)];
    }

    method LoadWord(f: nat, i: nat) returns (word: nat)
      requires Coherent() && f < |world.used| && i < ENTRIES
      ensures word == Get64(memory[f], 8 * i) && word < WORD_LIMIT && At(world.tables, f, i) == EntryOf(word)
    {
      TableAt(memory[f]);
      return Get64(memory[f], 8 * i);
    }

    /** A free frame, zeroed and linked behind the slot. */
    method MakeTable(table: nat, index: nat, flags: nat) returns (child: Option<nat>)
      requires Coherent() && flags < 8 && index < ENTRIES && table < |world.used| && table in world.tables
      requires !At(world.tables, table, index).present
      modifies this`memory, this`world, frames.bitmap
      ensures Coherent() && frames.bitmap == old(frames.bitmap)
      ensures (Of(world), child) == Follow(old(Of(world)), table, index, Bit(flags, 2)) && world == On(old(world), Of(world))
      ensures child.None? ==> memory == old(memory)
      ensures child.Some? ==> memory.Keys == old(memory).Keys && BytesBut(old(memory), memory, {table, child.value})
    {
      hide BitsOf, TableOf, EntryOf, Bit;
      hide Or, And, Resolve, Get64, Put64, Follow, View, At, ZeroPage;
      FollowMakes(Of(world), table, index, Bit(flags, 2));
      var page := frames.AllocatePage();
      if page == 0 {
        return None;
      }
      var c := page / PAGE;
      ViewOfZero(memory, c);
      memory := memory[c := ZeroPage()];
      NewTableWord(c, flags);
      StoreWord(table, index, Or(page, Or(3, And(flags, PTE_USER))));
      world := On(world, Follow(Of(world), table, index, Bit(flags, 2)).0);
      return Some(c);
    }

    /** One of the three table steps of the map: find, or allocate and link, the next table. */
    method NextLevel(table: nat, index: nat, flags: nat) returns (child: Option<nat>)
      requires Coherent() && flags < 8 && index < ENTRIES && table < |world.used| && table in world.tables
      modifies this`memory, this`world, frames.bitmap
      ensures Coherent() && frames.bitmap == old(frames.bitmap)
      ensures (Of(world), child) == Follow(old(Of(world)), table, index, Bit(flags, 2)) && world == On(old(world), Of(world))
      ensures memory.Keys == old(memory).Keys
      ensures BytesBut(old(memory), memory, if child.None? then {} else {table, child.value})
    {
      hide BitsOf, TableOf, Bit;
      hide Or, And, Resolve;
      var word := LoadWord(table, index);
      PresentBit(word);
      if And(word, PTE_PRESENT) == 0 {
        child := MakeTable(table, index, flags);
      } else {
        AddUser(table, index, word, flags);
        child := Some(Address(word) / PAGE);
      }
    }

    /** One level of the map, as a step of the specification. */
    method MapLevel(table: nat, ghost p: seq<nat>, index: nat, flags: nat, ghost leaf: Entry) returns (child: Option<nat>)
      requires Coherent() && flags < 8 && leaf.user == Bit(flags, 2)
      requires InMemory(Of(world), table, p, leaf.user) && |p| > 1 && index == p[0]
      modifies this`memory, this`world, frames.bitmap
      ensures Coherent() && frames.bitmap == old(frames.bitmap) && world == On(old(world), Of(world))
      ensures memory.Keys == old(memory).Keys
      ensures child.None? ==> RawMap(old(Of(world)), table, p, leaf) == (Of(world), false) && memory == old(memory)
      ensures child.Some? ==>
        && InMemory(Of(world), child.value, p[1..], leaf.user)
        && RawMap(old(Of(world)), table, p, leaf) == RawMap(Of(world), child.value, p[1..], leaf)
        && Edited(old(Of(world)), table, p, leaf.user) == {table} + Edited(Of(world), child.value, p[1..], leaf.user)
        && BytesBut(old(memory), memory, {table} + Edited(Of(world), child.value, p[1..], leaf.user))
    {
      hide Follow, View, Bit;
      FirstInMemory(Of(world), table, p, leaf.user);
      child := NextLevel(table, index, flags);
      if child.Some? {
        EditsFirst(Of(world), child.value, p[1..], leaf.user);
      }
    }

    /** The page-table entry itself. */
    method SetEntry(table: nat, index: nat, word: nat, ghost leaf: Entry)
      requires Coherent() && IsTable(world, table) && |world.owner[table].path| == 3 && table < |world.used|
      requires index < ENTRIES && word < WORD_LIMIT && EntryOf(word) == leaf
      modifies this`memory, this`world
      ensures Coherent() && world == SetLeaf(old(world), table, index, leaf)
      ensures table in memory && memory == old(memory)[table := memory[table]]
    {
      hide TableOf, BitsOf;
      StoreWord(table, index, word);
      world := SetLeaf(world, table, index, leaf);
    }

    /** The last level of the map. */
    method MapLast(table: nat, ghost p: seq<nat>, index: nat, phys: nat, flags: nat)
      requires Coherent() && flags < 8 && phys % PAGE == 0 && phys / PAGE < FRAME_LIMIT
      requires InMemory(Of(world), table, p, LeafEntry(phys, flags).user) && |p| == 1 && index == p[0]
      modifies this`memory, this`world
      ensures Coherent() && world == On(old(world), Of(world))
      ensures RawMap(old(Of(world)), table, p, LeafEntry(phys, flags)) == (Of(world), true)
      ensures memory.Keys == old(memory).Keys
      ensures BytesBut(old(memory), memory, Edited(old(Of(world)), table, p, LeafEntry(phys, flags).user))
    {
      hide View, Or, TableOf, BitsOf;
      ghost var leaf := LeafEntry(phys, flags);
      ghost var w, m := world, memory;
      MakeEntry(phys / PAGE, flags);
      StoreWord(table, index, Or(phys, flags));
      world := On(w, RawMap(Of(w), table, p, leaf).0);
    }

    /** VMVirtualMemoryMapPage: false when a table could not be allocated. Whatever the tables are, and
        whatever page the caller asks for, it does to them what `RawMap` says, as long as the walk does not
        leave the memory. When the caller may map the page, that is the map of the specification, and the
        tables stay in order. */
    method MapPage(root: nat, phys: nat, virt: nat, flags: nat) returns (ok: bool)
      requires Coherent() && flags < 8 && phys % PAGE == 0 && phys / PAGE < FRAME_LIMIT
      requires CanMap(world, root, PathOf(virt), LeafEntry(phys, flags)) || InMemory(Of(world), root, PathOf(virt), Bit(flags, 2))
      modifies this`memory, this`world, frames.bitmap
      ensures Coherent() && frames.bitmap == old(frames.bitmap)
      ensures InMemory(old(Of(world)), root, PathOf(virt), LeafEntry(phys, flags).user)
      ensures (Of(world), ok) == RawMap(old(Of(world)), root, PathOf(virt), LeafEntry(phys, flags))
      ensures memory.Keys == old(memory).Keys
      ensures BytesBut(old(memory), memory, Edited(old(Of(world)), root, PathOf(virt), LeafEntry(phys, flags).user))
      ensures if old(CanMap(world, root, PathOf(virt), LeafEntry(phys, flags))) then
          && Valid() && (world, ok) == Map(old(world), root, PathOf(virt), LeafEntry(phys, flags))
          && KeepsData(old(world), old(memory), world, memory)
        else world == On(old(world), Of(world))
    {
      hide Inv, Map, CanMap, InMemory, RawMap, Edited, View, LeafEntry, KeepsData;
      ghost var leaf := LeafEntry(phys, flags);
      ghost var w, m := world, memory;
      LeafUser(phys, flags);
      var p := PathOf(virt);
      if CanMap(w, root, p, leaf) {
        MapIsRaw(w, root, p, leaf);
      }
      ok := MapWalk(root, phys, virt, flags);
      if CanMap(w, root, p, leaf) {
        OwnMapDone(w, m, memory, root, p, leaf);
        world := Map(w, root, p, leaf).0;
      }
    }

    /** The walk: three tables, then the entry. */
    method MapWalk(root: nat, phys: nat, virt: nat, flags: nat) returns (ok: bool)
      requires Coherent() && flags < 8 && phys % PAGE == 0 && phys / PAGE < FRAME_LIMIT
      requires InMemory(Of(world), root, PathOf(virt), LeafEntry(phys, flags).user)
      modifies this`memory, this`world, frames.bitmap
      ensures Coherent() && frames.bitmap == old(frames.bitmap) && world == On(old(world), Of(world))
      ensures (Of(world), ok) == RawMap(old(Of(world)), root, PathOf(virt), LeafEntry(phys, flags))
      ensures memory.Keys == old(memory).Keys
      ensures BytesBut(old(memory), memory, Edited(old(Of(world)), root, PathOf(virt), LeafEntry(phys, flags).user))
    {
      hide InMemory, RawMap, Edited, View, LeafEntry, Of;
      ghost var leaf := LeafEntry(phys, flags);
      LeafUser(phys, flags);
      var p := PathOf(virt);
      var l3 := MapLevel(root, p, p[0], flags, leaf);
      if l3.None? {
        return false;
      }
      var l2 := MapLevel(l3.value, p[1..], p[1], flags, leaf);
      if l2.None? {
        return false;
      }
      var l1 := MapLevel(l2.value, p[1..][1..], p[2], flags, leaf);
      if l1.None? {
        return false;
      }
      MapLast(l1.value, p[1..][1..][1..], p[3], phys, flags);
      return true;
    }

    /** One level of the unmap walk. */
    method LookUp(table: nat, ghost p: seq<nat>, index: nat) returns (child: Option<nat>)
      requires Valid() && CanUnmap(world, table, p) && |p| > 1 && index == p[0]
      ensures child.None? ==> Unmap(world, table, p) == world
      ensures child.Some? ==> CanUnmap(world, child.value, p[1..])
      ensures child.Some? ==> Unmap(world, table, p) == Unmap(world, child.value, p[1..])
    {
      UnmapStep(world, table, p);
      hide CanUnmap, Unmap;
      hide View, TableOf, Get64, And;
      var word := LoadWord(table, index);
      PresentBit(word);
      if And(word, PTE_PRESENT) == 0 {
        return None;
      }
      return Some(Address(word) / PAGE);
    }

    /** VMVirtualMemoryUnmapPage */
    method UnmapPage(root: nat, virt: nat)
      requires Valid() && CanUnmap(world, root, PathOf(virt))
      modifies this`memory, this`world
      ensures Valid() && world == Unmap(old(world), root, PathOf(virt))
      ensures KeepsData(old(world), old(memory), world, memory)
    {
      hide CanUnmap, Unmap, CanSetLeaf, SetLeaf;
      hide View, TableOf, PathOf;
      UnmapKeepsInv(world, root, PathOf(virt));
      var p := PathOf(virt);
      var l3 := LookUp(root, p, p[0]);
      if l3.None? {
        return;
      }
      var l2 := LookUp(l3.value, p[1..], p[1]);
      if l2.None? {
        return;
      }
      var l1 := LookUp(l2.value, p[1..][1..], p[2]);
      if l1.None? {
        return;
      }
      ghost var w, m := world, memory;
      UnmapLast(world, l1.value, p[1..][1..][1..]);
      ZeroWord();
      SetEntry(l1.value, p[3], 0, ABSENT);
      SetEntryKeepsData(w, m, memory, l1.value, p[3], ABSENT);
    }

    method AddUser(table: nat, index: nat, word: nat, flags: nat)
      requires Coherent() && flags < 8 && index < ENTRIES && table < |world.used| && table in world.tables
      requires word < WORD_LIMIT && At(world.tables, table, index) == EntryOf(word) && EntryOf(word).present
      modifies this`memory, this`world
      ensures Coherent() && world == On(old(world), Follow(old(Of(world)), table, index, Bit(flags, 2)).0)
      ensures memory.Keys == old(memory).Keys && BytesBut(old(memory), memory, {table})
    {
      hide BitsOf, TableOf, EntryOf, Bit;
      hide Or, And, Resolve, Put64, Follow, View, At;
      FollowShares(Of(world), table, index, Bit(flags, 2));
      AddUserBit(word, flags);
      StoreWord(table, index, Or(word, And(flags, PTE_USER)));
      world := On(world, Follow(Of(world), table, index, Bit(flags, 2)).0);
    }

    /** A frame from the allocator, in the caller's hands. */
    method TakeFrame() returns (page: nat)
      requires Coherent()
      modifies this`world, frames.bitmap
      ensures Coherent() && frames.bitmap == old(frames.bitmap) && (old(Valid()) ==> Valid())
      ensures match FirstFree(old(world.used))
        case None => page == 0 && world == old(world)
        case Some(c) => c > 0 && page == c * PAGE && world == Isolation.Take(old(world), c)
    {
      hide Inv, View, BitsOf;
      page := frames.AllocatePage();
      if page != 0 {
        if Inv(world) {
          Isolation.TakeKeepsInv(world, page / PAGE);
        }
        world := Isolation.Take(world, page / PAGE);
      }
    }

    /** A write of a whole page through the direct map. */
    method FillFrame(frame: nat, page: Page)
      requires Coherent() && frame < |world.used|
      modifies this`world, this`memory
      ensures Coherent() && memory == old(memory)[frame := page] && world == Overwrite(old(world), frame, TableOf(page))
      ensures old(Valid()) && !IsTable(old(world), frame) ==> Valid()
    {
      hide Inv, BitsOf, TableOf;
      if Inv(world) && !IsTable(world, frame) {
        OverwriteKeepsInv(world, frame, TableOf(page));
      }
      memory := memory[frame := page];
      world := Overwrite(world, frame, TableOf(page));
    }

    /** VMVirtualMemoryCreateAddressSpace: the frame of the new root, if there is one. */
    method CreateAddressSpace() returns (root: Option<nat>)
      requires Valid()
      modifies this`world, this`memory, frames.bitmap
      ensures Valid() && frames.bitmap == old(frames.bitmap) && root == FirstFree(old(world.used))
      ensures world == if root.None? then old(world) else CreateSpace(old(world), root.value)
      ensures root.None? ==> memory == old(memory)
      ensures root.Some? ==> root.value > 0 && root.value in memory && memory == old(memory)[root.value := memory[root.value]]
    {
      hide Inv, View, BitsOf, NewRoot;
      ghost var w, m := world, memory;
      var page := frames.AllocatePage();
      if page == 0 {
        return None;
      }
      var r := page / PAGE;
      CreateKeepsInv(w, r);
      KernelIsUsed(w);
      CopyKernelHalf(r);
      ViewOfNewRoot(w, m, memory, r);
      world := CreateSpace(world, r);
      return Some(r);
    }

    /** The copy loop over the kernel's 256 high slots, into a zeroed page. */
    method CopyKernelHalf(r: nat)
      requires r in memory && kernelRoot in memory && r != kernelRoot
      modifies this`memory
      ensures r in memory && memory == old(memory)[r := memory[r]]
      ensures TableOf(memory[r]) == NewRoot(TableOf(memory[kernelRoot]))
    {
      hide TableOf, EntryOf, Get64, Put64;
      hide Copied, NewRoot;
      ghost var k := TableOf(memory[kernelRoot]);
      memory := memory[r := ZeroPage()];
      CopyStart(k);
      for i := 256 to 512
        invariant r in memory && memory == old(memory)[r := memory[r]]
        invariant Copied(memory[r], k, i)
      {
        var word := Get64(memory[kernelRoot], 8 * i);
        CopyStep(memory[r], memory[kernelRoot], i);
        memory := memory[r := Put64(memory[r], 8 * i, word)];
      }
      CopyDone(memory[r], k);
    }
  }
}
