/** Spinlocks and interrupts on one processor, one instruction at a time: tasks in kernel code, the
    timer and keyboard handlers that interrupt them, and task switches. */
module LockDiscipline {
  datatype Hold = Hold(lock: nat, saved: bool)

  /** Where a task's code is between two instructions of LockIRQ or UnlockIRQ. */
  datatype Pc =
    | Idle
    | FlagsRead(lock: nat, saved: bool)   // after pushfq, before cli
    | Masked(lock: nat, saved: bool)      // after cli, at the exchange
    | Released(saved: bool)               // after the store of UnlockIRQ, before its sti

  /** The locks the code holds, outermost first, each with its OSSpinlockState. */
  datatype Code = Code(held: seq<Hold>, pc: Pc)

  datatype Phase = Entered | Locked | Unlocked

  /** An interrupt frame, with the interrupt flag it saved and the lock its handler takes. */
  datatype Handler = Handler(saved: bool, lock: nat, phase: Phase)

  /** A kernel stack: the task's code, and the handlers on top of it, the last one innermost. */
  datatype Task = Task(code: Code, handlers: seq<Handler>)

  datatype Machine = Machine(enabled: bool, taken: set<nat>, tasks: map<nat, Task>, current: nat)

  const SCHEDULER_LOCK: nat := 0
  const KEYBOARD_LOCK: nat := 1

  datatype Vector = Timer | Keyboard

  function LockOf(v: Vector): nat {
    if v.Timer? then SCHEDULER_LOCK else KEYBOARD_LOCK
  }

  datatype Step =
    | ReadFlags(lock: nat)
    | Cli
    | Exchange
    | Store
    | Restore
    | Sti
    | Interrupt(vector: Vector)
    | SoftInterrupt
    | HandlerLock
    | HandlerUnlock
    | Return(target: nat)
    | Spawn(id: nat)

  function LocksOf(held: seq<Hold>): set<nat> {
    set h | h in held :: h.lock
  }

  function Top(t: Task): Handler
    requires t.handlers != []
  {
    t.handlers[|t.handlers| - 1]
  }

  /** What the hardware and the kernel's code may do next: no function takes a lock it holds, and
      none calls `int $32` or `sti` while it holds one. A hardware interrupt may come wherever the
      flag is set. The keyboard handler returns to the code it interrupted, the timer handler to the
      task that the scheduler chose. */
  ghost predicate Enabled(m: Machine, s: Step) {
    m.current in m.tasks &&
    var t := m.tasks[m.current];
    var inCode := t.handlers == [];
    match s
    case ReadFlags(l) => inCode && t.code.pc.Idle? && l !in LocksOf(t.code.held)
    case Cli => inCode && t.code.pc.FlagsRead?
    case Exchange => inCode && t.code.pc.Masked?
    case Store => inCode && t.code.pc.Idle? && t.code.held != []
    case Restore => inCode && t.code.pc.Released?
    case Sti => inCode && t.code.pc.Idle? && t.code.held == []
    case Interrupt(_) => m.enabled
    case SoftInterrupt => inCode && t.code.pc.Idle? && t.code.held == []
    case HandlerLock => !inCode && Top(t).phase.Entered?
    case HandlerUnlock => !inCode && Top(t).phase.Locked?
    case Return(u) => !inCode && Top(t).phase.Unlocked? && u in m.tasks && (u == m.current || Top(t).lock == SCHEDULER_LOCK)
    case Spawn(id) => inCode && t.code.pc.Idle? && id !in m.tasks
  }

  /** The step is an exchange on a lock word that is already set: it spins. */
  ghost predicate Spins(m: Machine, s: Step)
    requires Enabled(m, s)
  {
    var t := m.tasks[m.current];
    (s.Exchange? && t.code.pc.lock in m.taken) || (s.HandlerLock? && Top(t).lock in m.taken)
  }

  function SetCode(m: Machine, enabled: bool, taken: set<nat>, held: seq<Hold>, pc: Pc): Machine
    requires m.current in m.tasks
  {
    Machine(enabled, taken, m.tasks[m.current := Task(Code(held, pc), m.tasks[m.current].handlers)], m.current)
  }

  function SetHandlers(m: Machine, enabled: bool, taken: set<nat>, handlers: seq<Handler>): Machine
    requires m.current in m.tasks
  {
    Machine(enabled, taken, m.tasks[m.current := Task(m.tasks[m.current].code, handlers)], m.current)
  }

  ghost function Apply(m: Machine, s: Step): Machine
    requires Enabled(m, s)
  {
    var t := m.tasks[m.current];
    var held, pc, hs := t.code.held, t.code.pc, t.handlers;
    match s
    case ReadFlags(l) => SetCode(m, m.enabled, m.taken, held, FlagsRead(l, m.enabled))
    case Cli => SetCode(m, false, m.taken, held, Masked(pc.lock, pc.saved))
    case Exchange => SetCode(m, m.enabled, m.taken + {pc.lock}, held + [Hold(pc.lock, pc.saved)], Idle)
    case Store =>
      var last := held[|held| - 1];
      SetCode(m, m.enabled, m.taken - {last.lock}, held[..|held| - 1], Released(last.saved))
    case Restore => SetCode(m, if pc.saved then true else m.enabled, m.taken, held, Idle)
    case Sti => SetCode(m, true, m.taken, held, pc)
    case Interrupt(v) => SetHandlers(m, false, m.taken, hs + [Handler(m.enabled, LockOf(v), Entered)])
    case SoftInterrupt => SetHandlers(m, false, m.taken, hs + [Handler(m.enabled, SCHEDULER_LOCK, Entered)])
    case HandlerLock =>
      SetHandlers(m, m.enabled, m.taken + {Top(t).lock}, hs[|hs| - 1 := Handler(Top(t).saved, Top(t).lock, Locked)])
    case HandlerUnlock =>
      SetHandlers(m, m.enabled, m.taken - {Top(t).lock}, hs[|hs| - 1 := Handler(Top(t).saved, Top(t).lock, Unlocked)])
    case Return(u) => Resume(Machine(m.enabled, m.taken, m.tasks, u))
    case Spawn(id) =>
      Machine(m.enabled, m.taken, m.tasks[id := Task(Code([], Idle), [Handler(true, SCHEDULER_LOCK, Unlocked)])], m.current)
  }

  /** iretq on the current task's stack. */
  function Resume(m: Machine): Machine
    requires m.current in m.tasks
  {
    var hs := m.tasks[m.current].handlers;
    if hs == [] then m else SetHandlers(m, hs[|hs| - 1].saved, m.taken, hs[..|hs| - 1])
  }

  // ---------- the invariant ----------

  /** The code of an interrupted task holds no lock, and if it was between pushfq and cli, the flag
      it read was set. */
  ghost predicate Interrupted(c: Code, saved: bool) {
    c.held == [] && (c.pc.Idle? || (c.pc.FlagsRead? && c.pc.saved && saved))
  }

  /** A task that is not current waits at the end of a timer handler. */
  ghost predicate Suspended(t: Task) {
    |t.handlers| == 1 && t.handlers[0].phase.Unlocked? && Interrupted(t.code, t.handlers[0].saved)
  }

  /** Interrupts are off while the code holds a lock; the flag saved by an inner lock is clear. */
  ghost predicate CodeRuns(enabled: bool, taken: set<nat>, c: Code) {
    && taken == LocksOf(c.held)
    && (forall i, j :: 0 <= i < j < |c.held| ==> c.held[i].lock != c.held[j].lock)
    && (forall i :: 1 <= i < |c.held| ==> !c.held[i].saved)
    && (c.held != [] ==> !enabled)
    && (c.pc.FlagsRead? ==> c.pc.saved == enabled && c.pc.lock !in taken)
    && (c.pc.Masked? ==> !enabled && c.pc.lock !in taken && (c.held != [] ==> !c.pc.saved))
    && (c.pc.Released? ==> !enabled && (c.held != [] ==> !c.pc.saved))
  }

  ghost predicate HandlerRuns(enabled: bool, taken: set<nat>, t: Task) {
    && |t.handlers| == 1 && !enabled && Interrupted(t.code, t.handlers[0].saved)
    && taken == if t.handlers[0].phase.Locked? then {t.handlers[0].lock} else {}
  }

  ghost predicate Inv(m: Machine) {
    && m.current in m.tasks
    && (forall t :: t in m.tasks && t != m.current ==> Suspended(m.tasks[t]))
    && var t := m.tasks[m.current];
      if t.handlers == [] then CodeRuns(m.enabled, m.taken, t.code) else HandlerRuns(m.enabled, m.taken, t)
  }

  lemma TakenOne(held: seq<Hold>, h: Hold)
    ensures LocksOf(held + [h]) == LocksOf(held) + {h.lock}
  {
    forall l ensures l in LocksOf(held + [h]) <==> l in LocksOf(held) + {h.lock} {
      if l in LocksOf(held) {
        var x :| x in held && x.lock == l;
        assert x in held + [h];
      }
      assert h in held + [h];
    }
  }

  lemma ReleasedOne(held: seq<Hold>)
    requires held != [] && forall i, j :: 0 <= i < j < |held| ==> held[i].lock != held[j].lock
    ensures LocksOf(held[..|held| - 1]) == LocksOf(held) - {held[|held| - 1].lock}
  {
    var n := |held| - 1;
    TakenOne(held[..n], held[n]);
    assert held == held[..n] + [held[n]];
  }

  /** A held lock means that interrupts are off; so no step ever spins, and the target of a task
      switch is a task that waits at the end of a handler. */
  lemma NeverSpins(m: Machine, s: Step)
    requires Inv(m) && Enabled(m, s)
    ensures m.taken != {} ==> !m.enabled
    ensures !Spins(m, s)
    ensures s.Return? ==> m.tasks[s.target].handlers != [] && Top(m.tasks[s.target]).phase.Unlocked?
  {
  }

  lemma StepKeepsInv(m: Machine, s: Step)
    requires Inv(m) && Enabled(m, s)
    ensures Inv(Apply(m, s))
  {
    hide LocksOf;
    var c := m.tasks[m.current].code;
    NeverSpins(m, s);
    match s
    case Exchange => TakenOne(c.held, Hold(c.pc.lock, c.pc.saved)); NotHeld(c.held, c.pc.lock);
    case Store => ReleasedOne(c.held);
    case _ => NothingHeld();
  }

  lemma NothingHeld()
    ensures LocksOf([]) == {}
  {
  }

  lemma NotHeld(held: seq<Hold>, lock: nat)
    requires lock !in LocksOf(held)
    ensures forall i :: 0 <= i < |held| ==> held[i].lock != lock
  {
    forall i | 0 <= i < |held| ensures held[i].lock != lock {
      assert held[i] in held;
    }
  }

  ghost predicate Runs(m: Machine, ss: seq<Step>)
    decreases |ss|
  {
    ss == [] || (Enabled(m, ss[0]) && Runs(Apply(m, ss[0]), ss[1..]))
  }

  ghost function After(m: Machine, ss: seq<Step>): Machine
    requires Runs(m, ss)
    decreases |ss|
  {
    if ss == [] then m else After(Apply(m, ss[0]), ss[1..])
  }

  /** In every interleaving: a held lock implies that interrupts are off, and nothing that can
      happen next spins. */
  lemma {:induction false} RunNeverSpins(m: Machine, ss: seq<Step>, s: Step)
    requires Inv(m) && Runs(m, ss)
    ensures Inv(After(m, ss))
    ensures After(m, ss).taken != {} ==> !After(m, ss).enabled
    ensures Enabled(After(m, ss), s) ==> !Spins(After(m, ss), s)
    decreases |ss|
  {
    if ss == [] {
      if Enabled(m, s) {
        NeverSpins(m, s);
      }
    } else {
      StepKeepsInv(m, ss[0]);
      RunNeverSpins(Apply(m, ss[0]), ss[1..], s);
    }
  }

  /** The kernel's own code before interrupts are first enabled. */
  function Boot(): Machine {
    Machine(false, {}, map[0 := Task(Code([], Idle), [])], 0)
  }

  lemma NothingSpinsAfterBoot(ss: seq<Step>, s: Step)
    requires Runs(Boot(), ss) && Enabled(After(Boot(), ss), s)
    ensures !Spins(After(Boot(), ss), s)
    ensures After(Boot(), ss).taken != {} ==> !After(Boot(), ss).enabled
  {
    NothingHeld();
    RunNeverSpins(Boot(), ss, s);
  }

  // ---------- UnlockIRQ restores the flag ----------

  /** Task `t` is between LockIRQ, which read the flag `flag` while `held` was held, and the end of
      the matching UnlockIRQ. */
  ghost predicate InSection(m: Machine, t: nat, held: seq<Hold>, lock: nat, flag: bool) {
    t in m.tasks &&
    var c := m.tasks[t].code;
    || (c.held == held && (c.pc == FlagsRead(lock, flag) || c.pc == Masked(lock, flag) || c.pc == Released(flag)))
    || (|c.held| > |held| && c.held[..|held| + 1] == held + [Hold(lock, flag)])
  }

  /** Task `t` runs, has just the locks `held`, and the interrupt flag is `flag`. */
  ghost predicate Left(m: Machine, t: nat, held: seq<Hold>, flag: bool) {
    m.current == t && t in m.tasks && m.tasks[t] == Task(Code(held, Idle), []) && m.enabled == flag
  }

  predicate EditsCode(s: Step) {
    s.ReadFlags? || s.Cli? || s.Exchange? || s.Store? || s.Restore?
  }

  lemma CodeIsKept(m: Machine, s: Step, t: nat)
    requires Enabled(m, s) && t in m.tasks && (t != m.current || !EditsCode(s))
    ensures t in Apply(m, s).tasks && Apply(m, s).tasks[t].code == m.tasks[t].code
  {
  }

  lemma StepInSection(m: Machine, s: Step, t: nat, held: seq<Hold>, lock: nat, flag: bool)
    requires Inv(m) && Enabled(m, s) && InSection(m, t, held, lock, flag)
    ensures InSection(Apply(m, s), t, held, lock, flag) || Left(Apply(m, s), t, held, flag)
  {
    hide LocksOf;
    var c, d := m.tasks[t].code, Apply(m, s).tasks[t].code;
    if t != m.current || !EditsCode(s) {
      CodeIsKept(m, s, t);
    } else if s.Store? {
      if |c.held| > |held| + 1 {
        assert d.held[..|held| + 1] == c.held[..|held| + 1];
      } else {
        assert c.held == held + [Hold(lock, flag)];
        assert d.held == held;
      }
    } else if s.Exchange? && |c.held| > |held| {
      assert d.held[..|held| + 1] == c.held[..|held| + 1];
    }
  }

  /** The section has been left in some state of the run, with the flag `flag`. */
  ghost predicate Leaves(m: Machine, ss: seq<Step>, t: nat, held: seq<Hold>, flag: bool)
    requires Runs(m, ss)
    decreases |ss|
  {
    Left(m, t, held, flag) || (ss != [] && Leaves(Apply(m, ss[0]), ss[1..], t, held, flag))
  }

  lemma {:induction false} SectionLeaves(m: Machine, ss: seq<Step>, t: nat, held: seq<Hold>, lock: nat, flag: bool)
    requires Inv(m) && Runs(m, ss) && InSection(m, t, held, lock, flag)
    ensures InSection(After(m, ss), t, held, lock, flag) || Leaves(m, ss, t, held, flag)
    decreases |ss|
  {
    if ss != [] {
      StepKeepsInv(m, ss[0]);
      StepInSection(m, ss[0], t, held, lock, flag);
      var n := Apply(m, ss[0]);
      if InSection(n, t, held, lock, flag) {
        SectionLeaves(n, ss[1..], t, held, lock, flag);
      } else {
        assert Leaves(n, ss[1..], t, held, flag);
      }
    }
  }

  /** A pair of LockIRQ and UnlockIRQ, however deeply nested and whatever interrupts it or nests in
      it, ends with the locks and the interrupt flag it started with. */
  lemma UnlockRestoresFlag(m: Machine, lock: nat, ss: seq<Step>)
    requires Inv(m) && Enabled(m, ReadFlags(lock)) && Runs(Apply(m, ReadFlags(lock)), ss)
    ensures var n := Apply(m, ReadFlags(lock)); var held := m.tasks[m.current].code.held;
      || InSection(After(n, ss), m.current, held, lock, m.enabled)
      || Leaves(n, ss, m.current, held, m.enabled)
  {
    StepKeepsInv(m, ReadFlags(lock));
    SectionLeaves(Apply(m, ReadFlags(lock)), ss, m.current, m.tasks[m.current].code.held, lock, m.enabled);
  }
}
