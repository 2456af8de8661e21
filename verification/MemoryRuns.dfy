/** Whole runs over the bytes of memory: address-space creation, fresh user pages, kernel maps and
    stores in any order, from boot on. */
module MemoryRuns {
  import opened Common
  import FrameBitmap
  import opened PageTables
  import opened Mappings
  import opened Isolation
  import opened PageWords
  import opened MemoryViews
  import NullFrame
  import RawTables
  import AddressSpaces
  import MemoryServices
  import KernelMap

  /** What is on the machine: the tables with their owners, and every byte. */
  datatype State = State(world: World, memory: Memory)

  /** What the kernel and the processes do after boot. `MapFresh` is the step that the user stack and
      SYS_MEM repeat; `LoadPage` the loop body of the program loader, with the page as it is in the
      end; `Fill` is a write through the direct map to a frame that
      is mapped nowhere; `UserWrite` is any store to the frame behind a page that the process may
      write, at whatever address, by the process or, while it fills a page it has just mapped, by the kernel. */
  datatype Step =
    | Create
    | MapFresh(space: nat, virt: nat)
    | LoadPage(space: nat, virt: nat, contents: Page)
    | KernelMap(phys: nat, virt: nat, flags: nat)
    | KernelUnmap(virt: nat)
    | Fill(frame: nat, contents: Page)
    | UserWrite(space: nat, virt: nat, frame: nat, contents: Page)

  /** The step without the bytes it stores. */
  ghost function Decoded(s: Step): Isolation.Step {
    match s
    case Create => Isolation.Create
    case MapFresh(r, virt) => Isolation.MapFresh(r, PathOf(virt))
    case LoadPage(r, virt, page) => Isolation.LoadPage(r, PathOf(virt), TableOf(page))
    case KernelMap(phys, virt, flags) => Isolation.KernelMap(PathOf(virt), LeafEntry(phys, flags))
    case KernelUnmap(virt) => Isolation.KernelUnmap(PathOf(virt))
    case Fill(f, page) => Isolation.Fill(f, TableOf(page))
    case UserWrite(r, virt, f, page) => Isolation.UserWrite(r, PathOf(virt), TableOf(page))
  }

  ghost predicate Legal(w: World, s: Step) {
    && Isolation.Enabled(w, Decoded(s))
    && (s.KernelMap? ==> s.phys % PAGE == 0 && s.phys / PAGE < FRAME_LIMIT && s.flags < 8)
    && (s.UserWrite? ==> Resolve(w.tables, s.space, PathOf(s.virt)).value.frame == s.frame)
  }

  /** The tables are the bytes read as tables, the owners are in order, and frame 0 is reserved. */
  ghost predicate Coherent(t: State) {
    Inv(t.world) && 0 in t.world.reserved && t.world.tables == View(t.memory)
  }

  /** `u` may be the state after step `s` in state `t`: the tables follow the specification, and the
      bytes change as little as the map, the copy and the stores allow. */
  ghost predicate Next(t: State, s: Step, u: State) {
    && Coherent(t) && Legal(t.world, s)
    && u.world == Isolation.Apply(t.world, Decoded(s)) && u.world.tables == View(u.memory)
    && match s
      case Create => KeepsAllBut(t.memory, u.memory, FrameBitmap.FirstFree(t.world.used))
      case MapFresh(_, _) =>
        if FrameBitmap.FirstFree(t.world.used).None? then u.memory == t.memory
        else KeepsData(Take(t.world, FrameBitmap.FirstFree(t.world.used).value), t.memory, u.world, u.memory)
      case LoadPage(_, _, page) => MemoryServices.FrameFilled(t.world, t.memory, u.world, u.memory, page)
      case KernelMap(_, _, _) => KeepsData(t.world, t.memory, u.world, u.memory)
      case KernelUnmap(_) => KeepsData(t.world, t.memory, u.world, u.memory)
      case Fill(f, page) => u.memory == t.memory[f := page]
      case UserWrite(_, _, f, page) => u.memory == t.memory[f := page]
  }

  /** Every byte is kept but those of the frame `c`, if there is one. */
  ghost predicate KeepsAllBut(m: Memory, m': Memory, c: Option<nat>) {
    forall f <- m :: c != Some(f) ==> f in m' && m'[f] == m[f]
  }

  lemma NextIsCoherent(t: State, s: Step, u: State)
    requires Next(t, s, u)
    ensures Coherent(u) && |u.world.used| == |t.world.used| && u.world.reserved == t.world.reserved
  {
    ApplyKeepsInv(t.world, Decoded(s));
  }

  /** The step maps the page at `p` of space `r` anew or writes to it. */
  ghost predicate Touches(s: Step, r: nat, p: seq<nat>) {
    (s.MapFresh? || s.LoadPage? || s.UserWrite?) && s.space == r && PathOf(s.virt) == p
  }

  /** The frame behind another page than the step's keeps its bytes. */
  lemma StepKeepsBytes(t: State, s: Step, u: State, r: nat, p: seq<nat>)
    requires Next(t, s, u) && IsRoot(t.world, r) && LowPage(p) && !Touches(s, r, p)
    requires Resolve(t.world.tables, r, p).Some?
    ensures SameBytesAt(t.memory, u.memory, Resolve(t.world.tables, r, p).value.frame)
  {
    hide Inv, Isolation.Apply, PathOf, TableOf, LeafEntry, Take;
    var f := Resolve(t.world.tables, r, p).value.frame;
    PageIsOwned(t.world, r, p);
    OwnedIsMemory(t.world, f);
    match s
    case MapFresh(_, _) =>
      if FrameBitmap.FirstFree(t.world.used).Some? {
        TakeKeepsOwners(t.world, FrameBitmap.FirstFree(t.world.used).value);
        assert IsData(Take(t.world, FrameBitmap.FirstFree(t.world.used).value), f);
      }
    case LoadPage(_, _, _) =>
      UsedIsNotFree(t.world, f);
      assert IsData(t.world, f);
    case UserWrite(r', virt', f', page') =>
      StoreIsLow(t.world, r', PathOf(virt'), TableOf(page'));
      if f' == f {
        OneFrameOnePage(t.world, r, p, r', PathOf(virt'));
      }
    case Fill(f', _) =>
      LooseIsUnowned(t.world, f');
    case _ =>
      assert IsData(t.world, f);
  }

  lemma UsedIsNotFree(w: World, f: nat)
    requires Inv(w) && f in w.owner
    ensures FrameBitmap.FirstFree(w.used) != Some(f) && f !in w.reserved
  {
  }

  lemma TakeKeepsOwners(w: World, c: nat)
    requires c < |w.used|
    ensures Take(w, c).owner == w.owner
  {
  }

  lemma LooseIsUnowned(w: World, f: nat)
    requires Inv(w) && f in w.loose
    ensures f !in w.owner
  {
  }

  /** One step of anyone leaves every other low-half page of every space its translation and its
      bytes. */
  lemma StepKeepsPage(t: State, s: Step, u: State, r: nat, p: seq<nat>)
    requires Next(t, s, u) && IsRoot(t.world, r) && LowPage(p) && !Touches(s, r, p)
    ensures KeepsPage(t.world, t.memory, u.world, u.memory, r, p)
  {
    hide Inv, Isolation.Apply, PathOf, Resolve, Next;
    NextFacts(t, s, u);
    Isolation.StepKeepsPage(t.world, Decoded(s), r, p);
    if Resolve(t.world.tables, r, p).Some? {
      StepKeepsBytes(t, s, u, r, p);
    }
  }

  lemma NextFacts(t: State, s: Step, u: State)
    requires Next(t, s, u)
    ensures Inv(t.world) && Isolation.Enabled(t.world, Decoded(s)) && u.world == Isolation.Apply(t.world, Decoded(s))
  {
  }

  /** The states of a run, one more than its steps. */
  ghost predicate Run(states: seq<State>, steps: seq<Step>) {
    |states| == |steps| + 1 && forall i :: 0 <= i < |steps| ==> Next(states[i], steps[i], states[i + 1])
  }

  /** Over any run a low-half page keeps its translation and every byte behind it, unless the run maps
      that page anew or its own process writes to it. */
  lemma {:induction false} RunIsolates(states: seq<State>, steps: seq<Step>, r: nat, p: seq<nat>)
    requires Run(states, steps) && Coherent(states[0]) && IsRoot(states[0].world, r) && LowPage(p)
    requires forall s <- steps :: !Touches(s, r, p)
    ensures var t, u := states[0], states[|steps|];
      Coherent(u) && KeepsPage(t.world, t.memory, u.world, u.memory, r, p)
    decreases |steps|
  {
    hide Inv, Resolve, Next, Touches;
    if steps == [] {
      StandsStill(states[0], r, p);
    } else {
      var n := |steps| - 1;
      RunIsolates(states[..n + 1], steps[..n], r, p);
      assert Next(states[n], steps[n], states[n + 1]) && steps[n] in steps;
      NextIsCoherent(states[n], steps[n], states[n + 1]);
      StepKeepsPage(states[n], steps[n], states[n + 1], r, p);
    }
  }

  lemma StandsStill(t: State, r: nat, p: seq<nat>)
    requires Coherent(t) && IsRoot(t.world, r) && LowPage(p)
    ensures KeepsPage(t.world, t.memory, t.world, t.memory, r, p)
  {
    if Resolve(t.world.tables, r, p).Some? {
      PageIsOwned(t.world, r, p);
      OwnedIsMemory(t.world, Resolve(t.world.tables, r, p).value.frame);
    }
  }

  // ---------- the code takes these steps ----------

  /** The loader's step. */
  method PerformLoad(spaces: AddressSpaces.AddressSpaces, r: nat, virt: nat, page: Page)
    requires spaces.Valid() && 0 in spaces.world.reserved && Legal(spaces.world, Step.LoadPage(r, virt, page))
    modifies spaces`memory, spaces`world, spaces.frames.bitmap
    ensures spaces.Valid() && spaces.frames.bitmap == old(spaces.frames.bitmap)
    ensures Next(State(old(spaces.world), old(spaces.memory)), Step.LoadPage(r, virt, page), State(spaces.world, spaces.memory))
  {
    hide Inv, LoadedWorld, View, PathOf, TableOf, Resolve, NullSafe, LowPage;
    hide RawTables.InMemory, RawTables.Edited, NullFrame.MapNull, MemoryServices.PageAdded, MemoryServices.FrameFilled;
    MemoryServices.AddFilledPage(spaces, r, virt, page);
  }

  /** Each step, done by the table editor on the bytes of memory. */
  method Perform(spaces: AddressSpaces.AddressSpaces, s: Step)
    requires spaces.Valid() && 0 in spaces.world.reserved && Legal(spaces.world, s)
    modifies spaces`memory, spaces`world, spaces.frames.bitmap
    ensures spaces.Valid() && spaces.frames.bitmap == old(spaces.frames.bitmap)
    ensures Next(State(old(spaces.world), old(spaces.memory)), s, State(spaces.world, spaces.memory))
  {
    hide Inv, Map, Unmap, CanMap, CanUnmap, View, PathOf, LeafEntry, TableOf, KeepsData, Resolve, CreateSpace, Take, Overwrite;
    hide RawTables.InMemory, RawTables.Edited, RawTables.RawMap, NullFrame.MapNull;
    hide MemoryServices.PageAdded, MemoryServices.FrameFilled, LoadedWorld, NullSafe;
    ghost var w, m := spaces.world, spaces.memory;
    match s
    case Create =>
      var root := spaces.CreateAddressSpace();
    case MapFresh(r, virt) =>
      var page := spaces.TakeFrame();
      if page != 0 {
        MapFreshAllowed(w, r, PathOf(virt), page / PAGE);
        MemoryServices.UserLeaf(page);
        MemoryServices.TakeKeepsRoots(w, page / PAGE, r);
        var ok := spaces.MapPage(r, page, virt, MemoryServices.USER_FLAGS);
      }
    case LoadPage(r, virt, page) =>
      PerformLoad(spaces, r, virt, page);
    case KernelMap(phys, virt, flags) =>
      KernelMapAllowed(w, PathOf(virt), LeafEntry(phys, flags));
      KernelMap.KernelIsRoot(w, []);
      var ok := spaces.MapPage(spaces.kernelRoot, phys, virt, flags);
    case KernelUnmap(virt) =>
      KernelMapAllowed(w, PathOf(virt), ABSENT);
      spaces.UnmapPage(spaces.kernelRoot, virt);
    case Fill(f, page) =>
      LooseIsUnowned(w, f);
      FrameIsUsed(w, f);
      spaces.FillFrame(f, page);
    case UserWrite(r, virt, f, page) =>
      StoreIsLow(w, r, PathOf(virt), TableOf(page));
      FrameIsUsed(w, f);
      spaces.FillFrame(f, page);
  }

  lemma FrameIsUsed(w: World, f: nat)
    requires Inv(w) && (f in w.loose || f in w.owner)
    ensures f < |w.used| && w.used[f]
  {
  }

  // ---------- from boot on ----------

  /** The machine when the kernel has its empty root table `k` and nothing else is mapped. */
  ghost function Boot(used: seq<bool>, memory: Memory, k: nat): State
    requires k < |used|
  {
    State(BootWorld(used, View(memory), k), memory[k := ZeroPage()])
  }

  lemma BootIsCoherent(used: seq<bool>, memory: Memory, k: nat)
    requires k < |used| && !used[k] && used[0] && forall f :: 0 <= f < |used| ==> f in memory
    ensures Coherent(Boot(used, memory, k))
  {
    hide TableOf, Resolve;
    BootKeepsInv(used, View(memory), k);
    ViewOfZero(memory, k);
  }

  /** No step of the run finds the frames used up or maps a page that is mapped already. */
  ghost predicate Smooth(states: seq<State>, steps: seq<Step>)
    requires Run(states, steps)
  {
    forall i :: 0 <= i < |steps| ==> SmoothStep(states[i], steps[i], states[i + 1])
  }

  ghost predicate SmoothStep(t: State, s: Step, u: State)
    requires Next(t, s, u)
  {
    Isolation.Smooth(t.world, Decoded(s))
  }

  lemma {:induction false} SmoothRunKeepsLoose(states: seq<State>, steps: seq<Step>)
    requires Run(states, steps) && Smooth(states, steps) && Coherent(states[0])
    ensures var w, w' := states[0].world, states[|steps|].world;
      Coherent(states[|steps|]) && w'.loose == w.loose && |w'.used| == |w.used| && w'.reserved == w.reserved
    decreases |steps|
  {
    hide Inv, Resolve, Next, Isolation.Smooth;
    if steps != [] {
      var n := |steps| - 1;
      var t, s, u := states[n], steps[n], states[n + 1];
      assert Next(t, s, u) && SmoothStep(t, s, u);
      assert forall i :: 0 <= i < n ==> SmoothStep(states[i], steps[i], states[i + 1]);
      SmoothRunKeepsLoose(states[..n + 1], steps[..n]);
      NextFacts(t, s, u);
      NextIsCoherent(t, s, u);
      SmoothKeepsLoose(t.world, Decoded(s));
    }
  }

  /** The frame is mapped at the low-half page that its place names, and at no other page of any space. */
  ghost predicate MappedOnce(w: World, f: nat)
    requires f in w.owner
  {
    var n := w.owner[f];
    && IsRoot(w, n.space) && LowPage(n.path)
    && Resolve(w.tables, n.space, n.path).Some? && Resolve(w.tables, n.space, n.path).value.frame == f
    && forall r, p :: IsRoot(w, r) && LowPage(p) && Resolve(w.tables, r, p).Some? && Resolve(w.tables, r, p).value.frame == f
         ==> r == n.space && p == n.path
  }

  /** Frame ownership over whole runs: from boot on, while no allocation fails and no page is mapped
      twice, a frame is in use exactly if it was in use at boot or is one table page or one mapped
      low-half page; and each is only one of these. */
  lemma FramesFromBoot(used: seq<bool>, memory: Memory, k: nat, states: seq<State>, steps: seq<Step>, f: nat)
    requires k < |used| && !used[k] && used[0] && forall g :: 0 <= g < |used| ==> g in memory
    requires Run(states, steps) && states[0] == Boot(used, memory, k) && Smooth(states, steps)
    requires f < |used|
    ensures var w := states[|steps|].world;
      && |w.used| == |used|
      && (w.used[f] <==> used[f] || f in w.owner) && !(used[f] && f in w.owner)
      && (f in w.owner ==> IsTable(w, f) || MappedOnce(w, f))
  {
    hide Inv, Resolve, Next, Smooth, View;
    BootIsCoherent(used, memory, k);
    SmoothRunKeepsLoose(states, steps);
    FrameAccount(states[|steps|].world, f);
  }

  /** From boot on, whatever happens and whichever allocations fail, every state is in order, as long as
      the loader maps no page to the null frame. */
  lemma {:induction false} RunFromBoot(used: seq<bool>, memory: Memory, k: nat, states: seq<State>, steps: seq<Step>)
    requires k < |used| && !used[k] && used[0] && forall g :: 0 <= g < |used| ==> g in memory
    requires Run(states, steps) && states[0] == Boot(used, memory, k)
    ensures Coherent(states[|steps|])
    decreases |steps|
  {
    hide Inv, Next, View, Boot;
    if steps == [] {
      BootIsCoherent(used, memory, k);
    } else {
      var n := |steps| - 1;
      assert Next(states[n], steps[n], states[n + 1]);
      NextIsCoherent(states[n], steps[n], states[n + 1]);
    }
  }
}
