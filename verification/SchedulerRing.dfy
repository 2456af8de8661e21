/** The round-robin scheduler as a ring of task records, the running task first. */
module SchedulerRing {
  import opened Common

  datatype Status = Dead | Running | Ready | Blocked | Sleeping

  /** `tid` stands for the task's identity, its node in memory; `pid` for its process id. */
  datatype Task = Task(tid: nat, pid: nat, ticks: nat, status: Status, stack: nat, stackTop: nat, pml4: nat, waitingFor: int)

  type Ring = seq<Task>

  const NOBODY: int := -1
  const U32: nat := 0x1_0000_0000

  ghost predicate Distinct(r: Ring) {
    forall i, j :: 0 <= i < j < |r| ==> r[i].tid != r[j].tid
  }

  function WithStatus(t: Task, s: Status): Task {
    Task(t.tid, t.pid, t.ticks, s, t.stack, t.stackTop, t.pml4, t.waitingFor)
  }

  function WithTicks(t: Task, n: nat): Task {
    Task(t.tid, t.pid, n, t.status, t.stack, t.stackTop, t.pml4, t.waitingFor)
  }

  function WithStack(t: Task, sp: nat): Task {
    Task(t.tid, t.pid, t.ticks, t.status, sp, t.stackTop, t.pml4, t.waitingFor)
  }

  function Less(n: nat): nat {
    if n > 0 then n - 1 else 0
  }

  /** May be dispatched from another task: running, or asleep with no ticks left. */
  predicate Runnable(t: Task) {
    t.status == Running || (t.status == Sleeping && t.ticks == 0)
  }

  function Woken(t: Task): Task {
    if t.status == Sleeping && t.ticks == 0 then WithStatus(t, Running) else t
  }

  // ---------- Next ----------

  /** Every task loses one tick, the running one two. */
  function Tick(r: Ring): (r': Ring)
    ensures |r'| == |r|
  {
    seq(|r|, i requires 0 <= i < |r| =>
      WithTicks(r[i], if i == 0 then Less(Less(r[i].ticks)) else Less(r[i].ticks)))
  }

  /** The first runnable task from index `k` on. */
  function FirstRunnable(r: Ring, k: nat): (i: nat)
    requires k <= |r|
    ensures k <= i <= |r| && (i < |r| ==> Runnable(r[i])) && forall j :: k <= j < i ==> !Runnable(r[j])
    decreases |r| - k
  {
    if k == |r| || Runnable(r[k]) then k else FirstRunnable(r, k + 1)
  }

  /** The index of the task to dispatch: the first runnable one after the running task, else the
      running task itself if it is still marked running; None is the panic. A lone task is
      also woken when its ticks are used up. */
  function Choice(r: Ring): (c: Option<nat>)
    requires r != []
    ensures c.Some? ==> c.value < |r|
  {
    var i := FirstRunnable(r, 1);
    if i < |r| then Some(i)
    else if r[0].status == Running || (|r| == 1 && Runnable(r[0])) then Some(0)
    else None
  }

  /** The ring seen from its task `i`, which starts to run. */
  function Dispatch(r: Ring, i: nat): (r': Ring)
    requires i < |r|
    ensures |r'| == |r|
  {
    [Woken(r[i])] + r[i + 1..] + r[..i]
  }

  function Turned<T>(s: seq<T>, i: nat): (r: seq<T>)
    requires i < |s|
    ensures |r| == |s| && multiset(r) == multiset(s)
    ensures forall k :: 0 <= k < |s| ==> r[k] == s[if i + k < |s| then i + k else i + k - |s|]
  {
    assert s == s[..i] + s[i..];
    s[i..] + s[..i]
  }

  /** The state after the search: the chosen task is marked running. */
  function Chosen(r: Ring): (r': Ring)
    requires r != []
    ensures |r'| == |r|
  {
    match Choice(r)
    case None => r
    case Some(i) => r[i := Woken(r[i])]
  }

  lemma DispatchChosen(r: Ring)
    requires r != [] && Choice(r).Some?
    ensures Turned(Chosen(r), Choice(r).value) == Dispatch(r, Choice(r).value)
  {
  }

  /** The running task's stack pointer is saved, and the ring ticks. */
  function Preempted(r: Ring, sp: nat): (r': Ring)
    requires r != []
    ensures |r'| == |r|
  {
    Tick(r[0 := WithStack(r[0], sp)])
  }

  /** OSSchedulerNext: None is the panic. */
  function Next(r: Ring, sp: nat): (r': Option<Ring>)
    requires r != []
    ensures r'.Some? ==> |r'.value| == |r|
  {
    var t := Preempted(r, sp);
    match Choice(t)
    case None => None
    case Some(i) => Some(Dispatch(t, i))
  }

  // ---------- the other operations ----------

  function Sleep(r: Ring, ticks: nat): Ring
    requires r != []
  {
    r[0 := WithStatus(WithTicks(r[0], ticks % U32), Sleeping)]
  }

  function Int32(x: nat): int {
    if x % U32 < U32 / 2 then x % U32 else x % U32 - U32
  }

  function Block(r: Ring, pid: nat): Ring
    requires r != []
  {
    r[0 := Task(r[0].tid, r[0].pid, r[0].ticks, Blocked, r[0].stack, r[0].stackTop, r[0].pml4, Int32(pid))]
  }

  function WakeOne(t: Task, pid: nat): Task {
    if t.status == Blocked && t.waitingFor == Int32(pid) then
      Task(t.tid, t.pid, t.ticks, Running, t.stack, t.stackTop, t.pml4, NOBODY)
    else t
  }

  function Wakeup(r: Ring, pid: nat): (r': Ring)
    ensures |r'| == |r|
  {
    seq(|r|, i requires 0 <= i < |r| => WakeOne(r[i], pid))
  }

  function SignalOne(t: Task, collector: Option<nat>): Task {
    if Some(t.tid) == collector then WithStatus(WithTicks(t, 0), Running) else t
  }

  /** The garbage collector's task, once there is one, is made runnable at once. */
  function Signal(r: Ring, collector: Option<nat>): (r': Ring)
    ensures |r'| == |r|
  {
    seq(|r|, i requires 0 <= i < |r| => SignalOne(r[i], collector))
  }

  /** OSSchedulerTerminate up to its interrupt. */
  function Terminate(r: Ring, collector: Option<nat>): Ring
    requires r != []
  {
    Signal(Wakeup(r[0 := WithStatus(r[0], Dead)], r[0].pid), collector)
  }

  function Spawn(r: Ring, t: Task): Ring
    requires r != []
  {
    [r[0], t] + r[1..]
  }

  /** One uninterrupted sweep of the garbage collector, which runs as r[0]. */
  function Alive(r: Ring): Ring {
    if r == [] then [] else (if r[0].status == Dead then [] else [r[0]]) + Alive(r[1..])
  }

  function Sweep(r: Ring): Ring
    requires r != []
  {
    [r[0]] + Alive(r[1..])
  }

  // ---------- what Next does ----------

  /** Next panics exactly when the running task cannot go on and no other task is runnable after
      the tick; so one task marked running rules the panic out. A lone task also goes on when it
      sleeps for at most two ticks. */
  lemma PanicsWithoutTasks(r: Ring, sp: nat)
    requires r != []
    ensures |r| > 1 ==> (Next(r, sp).None? <==>
      r[0].status != Running && forall i :: 1 <= i < |r| ==> r[i].status != Running && !(r[i].status == Sleeping && r[i].ticks <= 1))
    ensures |r| == 1 ==> (Next(r, sp).None? <==> r[0].status != Running && !(r[0].status == Sleeping && r[0].ticks <= 2))
  {
    var t := Preempted(r, sp);
    assert forall i :: 1 <= i < |r| ==> (Runnable(t[i]) <==> r[i].status == Running || (r[i].status == Sleeping && r[i].ticks <= 1));
    if Next(r, sp).None? {
      forall i | 1 <= i < |r| ensures !Runnable(t[i]) {
      }
    }
  }

  lemma RunningTaskMeansNoPanic(r: Ring, sp: nat, i: nat)
    requires i < |r| && r[i].status == Running
    ensures Next(r, sp).Some?
  {
    var t := Preempted(r, sp);
    assert t[i].status == Running;
  }

  /** A blocked task and a sleeper with ticks left: the panic. */
  lemma SleepersPanic(sp: nat)
    ensures Next([Task(0, 0, 0, Blocked, 0, 0, 0, 7), Task(1, 1, 5, Sleeping, 0, 0, 0, NOBODY)], sp).None?
  {
    PanicsWithoutTasks([Task(0, 0, 0, Blocked, 0, 0, 0, 7), Task(1, 1, 5, Sleeping, 0, 0, 0, NOBODY)], sp);
  }

  // ---------- yielding ----------

  ghost predicate IsAt(r: Ring, tid: nat, d: nat) {
    d < |r| && r[d].tid == tid
  }

  /** A task that yields for `n` ticks is still in the ring when another task runs, with two ticks gone
      where each other task lost one. So it has the `n - 1` ticks left that a call worth one tick would
      leave exactly when `n` is 0 or 1; from 2^32 on, the count is cut to 32 bits as well. */
  lemma YieldLosesTwoTicks(r: Ring, n: nat, sp: nat)
    requires |r| > 1 && Next(Sleep(r, n), sp).Some?
    ensures var r' := Next(Sleep(r, n), sp).value;
      exists d :: 1 <= d && IsAt(r', r[0].tid, d) && r'[d].status == Sleeping
        && r'[d].ticks == Less(Less(n % U32)) && (r'[d].ticks == Less(n) <==> n <= 1)
  {
    var t := Preempted(Sleep(r, n), sp);
    var c := Choice(t).value;
    var r' := Dispatch(t, c);
    assert c > 0;
    assert r'[|r| - c] == t[0];
    assert IsAt(r', r[0].tid, |r| - c);
    CutTicks(n);
  }

  lemma CutTicks(n: nat)
    ensures Less(Less(n % U32)) == Less(n) <==> n <= 1
  {
    if n < U32 {
      assert n % U32 == n;
    } else {
      assert n % U32 < n;
    }
  }

  /** The garbage collector's 200 ticks become 198. */
  lemma CollectorSleepsShort()
    ensures Less(Less(200 % U32)) == 198
  {
  }

  // ---------- no starvation ----------

  /** A runnable task at ring distance `d` is dispatched by Next, or comes strictly closer and is
      still runnable; Next does not panic. */
  lemma NextApproaches(r: Ring, sp: nat, d: nat)
    requires 1 <= d < |r| && Runnable(r[d])
    ensures Next(r, sp).Some?
    ensures var r' := Next(r, sp).value;
      || r'[0].tid == r[d].tid
      || exists d' :: 1 <= d' < d && IsAt(r', r[d].tid, d') && Runnable(r'[d'])
  {
    var t := Preempted(r, sp);
    var i := FirstRunnable(t, 1);
    assert Runnable(t[d]) && i <= d;
    var r' := Dispatch(t, i);
    if i < d {
      assert r'[d - i] == t[d];
      assert IsAt(r', r[d].tid, d - i);
    }
  }

  // ---------- events ----------

  /** What the collector remembers between reading `previous.next` and writing it, with interrupts on:
      two tasks, the second right behind the first when it looked. */
  datatype Seen = Seen(previous: nat, next: nat)

  /** The ring, the collector's task, and where the collector stands. */
  datatype State = State(ring: Ring, gc: nat, seen: Option<Seen>)

  /** What happens: timer interrupts, the calls the running task makes, and the two halves of the
      collector's removal of a dead task. */
  datatype Event =
    | Timer(sp: nat)
    | DoSleep(ticks: nat)
    | DoBlock(pid: nat)
    | DoWakeup(pid: nat)
    | DoTerminate(collector: Option<nat>)
    | DoSpawn(task: Task)
    | Look(index: nat)
    | Cut

  /** The index of the task, or the length of the ring. */
  function IndexOf(r: Ring, tid: nat): (i: nat)
    ensures i <= |r| && (i < |r| ==> r[i].tid == tid) && forall j :: 0 <= j < i ==> r[j].tid != tid
  {
    if r == [] then 0 else if r[0].tid == tid then 0 else 1 + IndexOf(r[1..], tid)
  }

  /** Going round from index `i`, which itself is left out, index `k` comes no later than `j`. */
  predicate InArc(i: nat, j: nat, k: nat) {
    if i < j then i < k <= j else k > i || k <= j
  }

  /** Task `k` stands between the two that the collector remembers, or is the second of them. */
  predicate Reached(s: State, k: nat) {
    s.seen.Some? && InArc(IndexOf(s.ring, s.seen.value.previous), IndexOf(s.ring, s.seen.value.next), k)
  }

  /** Strictly between them: it came there after the collector looked. */
  predicate Exposed(s: State, k: nat) {
    Reached(s, k) && k != IndexOf(s.ring, s.seen.value.next)
  }

  /** Tasks are told apart, the remembered ones are in the ring, and the collector itself is not
      between them. */
  ghost predicate Sound(s: State) {
    && s.ring != [] && Distinct(s.ring)
    && (s.seen.Some? ==>
      && IndexOf(s.ring, s.seen.value.previous) < |s.ring| && IndexOf(s.ring, s.seen.value.next) < |s.ring|
      && s.seen.value.previous != s.seen.value.next
      && IndexOf(s.ring, s.gc) < |s.ring| && !Reached(s, IndexOf(s.ring, s.gc)))
  }

  /** Looking and cutting are done by the collector, of a dead task at the cut. */
  ghost predicate Enabled(s: State, e: Event) {
    match e
    case DoSpawn(t) => forall i :: 0 <= i < |s.ring| ==> s.ring[i].tid != t.tid
    case Timer(sp) => s.ring != [] && Next(s.ring, sp).Some?
    case Look(i) => i + 1 < |s.ring| && s.ring[0].tid == s.gc
    case Cut =>
      && s.seen.Some? && s.ring != [] && s.ring[0].tid == s.gc
      && var j := IndexOf(s.ring, s.seen.value.next); j < |s.ring| && s.ring[j].status == Dead
    case _ => true
  }

  /** previous.next = next.next: all that stands behind task `i` up to task `j` leaves the ring. */
  function CutOut(r: Ring, i: nat, j: nat): Ring {
    if i < j < |r| then r[..i + 1] + r[j + 1..] else r
  }

  /** Task `i` leaves the ring, and no other. */
  function Removed(r: Ring, i: nat): Ring {
    if i < |r| then r[..i] + r[i + 1..] else r
  }

  function ApplyRing(r: Ring, e: Event): (r': Ring)
    requires r != []
    ensures r' != []
  {
    match e
    case Timer(sp) => if Next(r, sp).Some? then Next(r, sp).value else r
    case DoSleep(n) => Sleep(r, n)
    case DoBlock(pid) => Block(r, pid)
    case DoWakeup(pid) => Wakeup(r, pid)
    case DoTerminate(gc) => Terminate(r, gc)
    case DoSpawn(t) => Spawn(r, t)
    case _ => r
  }

  function Apply(s: State, e: Event): (s': State)
    requires s.ring != []
    ensures s'.ring != []
  {
    match e
    case Look(i) =>
      if i + 1 < |s.ring| then State(s.ring, s.gc, Some(Seen(s.ring[i].tid, s.ring[i + 1].tid))) else s
    case Cut =>
      if s.seen.None? then s
      else State(CutOut(s.ring, IndexOf(s.ring, s.seen.value.previous), IndexOf(s.ring, s.seen.value.next)), s.gc, None)
    case _ => State(ApplyRing(s.ring, e), s.gc, s.seen)
  }

  /** The event is a timer interrupt that dispatches the task. */
  predicate Dispatches(s: State, e: Event, tid: nat)
    requires s.ring != []
  {
    e.Timer? && Apply(s, e).ring[0].tid == tid
  }

  function Cost(e: Event): int {
    if e.Timer? then -1 else if e.DoSpawn? then 1 else 0
  }

  // ---------- the collector's race ----------

  lemma IndexIs(r: Ring, i: nat)
    requires Distinct(r) && i < |r|
    ensures IndexOf(r, r[i].tid) == i
  {
  }

  /** Where the events that are not a cut put the task at index `k`. */
  function Moved(r: Ring, e: Event, k: nat): nat
    requires r != [] && k < |r|
  {
    match e
    case Timer(sp) =>
      if Next(r, sp).None? then k
      else var c := Choice(Preempted(r, sp)).value; if k >= c then k - c else k - c + |r|
    case DoSpawn(t) => if k == 0 then 0 else k + 1
    case _ => k
  }

  lemma MovedTask(r: Ring, e: Event, k: nat)
    requires k < |r| && !e.Look? && !e.Cut?
    ensures Moved(r, e, k) < |ApplyRing(r, e)| && ApplyRing(r, e)[Moved(r, e, k)].tid == r[k].tid
  {
    hide Choice;
    match e
    case Timer(sp) =>
      if Next(r, sp).Some? {
        var t := Preempted(r, sp);
        DispatchedAt(t, Choice(t).value, k);
      }
    case _ =>
  }

  lemma DispatchedAt(t: Ring, c: nat, k: nat)
    requires c < |t| && k < |t|
    ensures var k' := if k >= c then k - c else k - c + |t|; Dispatch(t, c)[k'].tid == t[k].tid
  {
  }

  lemma KeepsDistinct(r: Ring, e: Event)
    requires r != [] && Distinct(r) && !e.Look? && !e.Cut?
    requires e.DoSpawn? ==> forall i :: 0 <= i < |r| ==> r[i].tid != e.task.tid
    ensures Distinct(ApplyRing(r, e))
  {
    if e.Timer? && Next(r, e.sp).Some? {
      TimerKeepsDistinct(r, e.sp);
    }
  }

  lemma TimerKeepsDistinct(r: Ring, sp: nat)
    requires r != [] && Distinct(r) && Next(r, sp).Some?
    ensures Distinct(Next(r, sp).value)
  {
    hide Choice;
    var t := Preempted(r, sp);
    assert forall i :: 0 <= i < |t| ==> t[i].tid == r[i].tid;
    var c := Choice(t).value;
    var r' := Dispatch(t, c);
    assert forall j :: 0 <= j < |t| ==> r'[j].tid == t[if c + j < |t| then c + j else c + j - |t|].tid;
  }

  /** The order of the ring is that of before, whatever happens but a cut; only a task spawned by the
      first of the remembered ones, or by one between them, comes between them. */
  lemma EventKeepsArc(s: State, e: Event)
    requires Sound(s) && Enabled(s, e) && !e.Look? && !e.Cut?
    ensures Sound(Apply(s, e))
    ensures forall k :: 0 <= k < |s.ring| ==>
      (Reached(Apply(s, e), Moved(s.ring, e, k)) <==> Reached(s, k)) && (Exposed(Apply(s, e), Moved(s.ring, e, k)) <==> Exposed(s, k))
    ensures e.DoSpawn? ==>
      (Exposed(Apply(s, e), 1) <==> Exposed(s, 0) || (s.seen.Some? && s.seen.value.previous == s.ring[0].tid))
  {
    hide IndexOf, Choice, ApplyRing;
    var r, r' := s.ring, ApplyRing(s.ring, e);
    KeepsDistinct(r, e);
    if s.seen.Some? {
      var i, j, g := IndexOf(r, s.seen.value.previous), IndexOf(r, s.seen.value.next), IndexOf(r, s.gc);
      MovedIndex(r, e, i);
      MovedIndex(r, e, j);
      MovedIndex(r, e, g);
      IndexIs(r, 0);
      forall k | 0 <= k < |r| ensures InArc(Moved(r, e, i), Moved(r, e, j), Moved(r, e, k)) <==> InArc(i, j, k) {
        MovedArc(r, e, i, j, k);
      }
      forall k | 0 <= k < |r| ensures Moved(r, e, k) == Moved(r, e, j) <==> k == j {
        MovedApart(r, e, k, j);
      }
    }
  }

  lemma MovedIndex(r: Ring, e: Event, k: nat)
    requires Distinct(r) && k < |r| && !e.Look? && !e.Cut? && Distinct(ApplyRing(r, e))
    ensures Moved(r, e, k) < |ApplyRing(r, e)| && IndexOf(ApplyRing(r, e), r[k].tid) == Moved(r, e, k)
  {
    hide IndexOf, Choice, ApplyRing, Moved;
    MovedTask(r, e, k);
    IndexIs(ApplyRing(r, e), Moved(r, e, k));
  }

  lemma MovedArc(r: Ring, e: Event, i: nat, j: nat, k: nat)
    requires i < |r| && j < |r| && k < |r| && i != j
    ensures InArc(Moved(r, e, i), Moved(r, e, j), Moved(r, e, k)) <==> InArc(i, j, k)
  {
    hide Choice;
  }

  lemma MovedApart(r: Ring, e: Event, i: nat, k: nat)
    requires i < |r| && k < |r|
    ensures Moved(r, e, i) == Moved(r, e, k) <==> i == k
  {
    hide Choice;
  }

  lemma LookIsSound(s: State, i: nat)
    requires s.ring != [] && Distinct(s.ring) && Enabled(s, Look(i))
    ensures Sound(Apply(s, Look(i))) && forall k :: 0 <= k < |s.ring| ==> !Exposed(Apply(s, Look(i)), k)
    ensures Behind(Apply(s, Look(i)))
  {
    hide IndexOf;
    IndexIs(s.ring, 0);
    IndexIs(s.ring, i);
    IndexIs(s.ring, i + 1);
  }

  /** The second remembered task is still right behind the first. */
  predicate Behind(s: State) {
    && s.seen.Some?
    && var i, j := IndexOf(s.ring, s.seen.value.previous), IndexOf(s.ring, s.seen.value.next);
      j == if i + 1 < |s.ring| then i + 1 else 0
  }

  lemma BehindMeansNone(s: State)
    requires Sound(s) && s.seen.Some?
    ensures Behind(s) <==> forall k :: 0 <= k < |s.ring| ==> !Exposed(s, k)
  {
    hide IndexOf;
    var i, j := IndexOf(s.ring, s.seen.value.previous), IndexOf(s.ring, s.seen.value.next);
    if !Behind(s) {
      assert Exposed(s, if i + 1 < |s.ring| then i + 1 else 0);
    }
  }

  /** The first remembered task spawns another. */
  predicate PreviousSpawns(s: State, e: Event) {
    e.DoSpawn? && s.seen.Some? && s.ring != [] && s.ring[0].tid == s.seen.value.previous
  }

  lemma EventKeepsBehind(s: State, e: Event)
    requires Sound(s) && Enabled(s, e) && !e.Look? && !e.Cut? && s.seen.Some?
    ensures Behind(Apply(s, e)) <==> Behind(s) && !PreviousSpawns(s, e)
  {
    hide IndexOf, Choice, ApplyRing, Moved, Exposed, Behind;
    var s' := Apply(s, e);
    EventKeepsArc(s, e);
    BehindMeansNone(s);
    BehindMeansNone(s');
    forall k | 0 <= k < |s.ring| && Exposed(s, k) ensures !Behind(s') {
      MovedTask(s.ring, e, k);
    }
    forall k' | 0 <= k' < |s'.ring| && Exposed(s', k') && !(e.DoSpawn? && k' == 1) ensures !Behind(s) {
      var k := CameFrom(s.ring, e, k');
      assert Exposed(s, k);
    }
  }

  lemma CameFrom(r: Ring, e: Event, k': nat) returns (k: nat)
    requires r != [] && k' < |ApplyRing(r, e)| && !e.Look? && !e.Cut? && !(e.DoSpawn? && k' == 1)
    ensures k < |r| && Moved(r, e, k) == k'
  {
    hide Choice;
    match e
    case Timer(sp) =>
      if Next(r, sp).None? {
        k := k';
      } else {
        var c := Choice(Preempted(r, sp)).value;
        k := if k' + c < |r| then k' + c else k' + c - |r|;
      }
    case DoSpawn(_) => k := if k' == 0 then 0 else k' - 1;
    case _ => k := k';
  }

  ghost predicate Runs(s: State, es: seq<Event>)
    requires s.ring != []
    decreases |es|
  {
    es == [] || (Enabled(s, es[0]) && Runs(Apply(s, es[0]), es[1..]))
  }

  function End(s: State, es: seq<Event>): (s': State)
    requires s.ring != []
    ensures s'.ring != []
    decreases |es|
  {
    if es == [] then s else End(Apply(s, es[0]), es[1..])
  }

  ghost predicate PreviousSpawned(s: State, es: seq<Event>)
    requires s.ring != []
    decreases |es|
  {
    es != [] && (PreviousSpawns(s, es[0]) || PreviousSpawned(Apply(s, es[0]), es[1..]))
  }

  ghost predicate NoCollector(es: seq<Event>) {
    forall e :: e in es ==> !e.Look? && !e.Cut?
  }

  lemma {:induction false} BehindWithoutSpawn(s: State, es: seq<Event>)
    requires Sound(s) && s.seen.Some? && Runs(s, es) && NoCollector(es)
    ensures Sound(End(s, es)) && End(s, es).seen == s.seen && End(s, es).gc == s.gc
    ensures Behind(End(s, es)) <==> Behind(s) && !PreviousSpawned(s, es)
    decreases |es|
  {
    hide Enabled, Behind, Apply, PreviousSpawns;
    if es != [] {
      assert es[0] in es;
      EventKeepsBehind(s, es[0]);
      EventKeepsArc(s, es[0]);
      SeenStays(s, es[0]);
      BehindWithoutSpawn(Apply(s, es[0]), es[1..]);
    }
  }

  lemma SeenStays(s: State, e: Event)
    requires s.ring != [] && !e.Look? && !e.Cut?
    ensures Apply(s, e).seen == s.seen && Apply(s, e).gc == s.gc
  {
  }

  /** What the cut takes out: the dead task and all that came before it since the look, so the dead
      task alone exactly if it is still right behind the remembered one. */
  lemma CutRemoves(s: State)
    requires Sound(s) && Enabled(s, Cut)
    ensures var i, j := IndexOf(s.ring, s.seen.value.previous), IndexOf(s.ring, s.seen.value.next);
      && i < j < |s.ring| && (forall k :: 0 <= k < |s.ring| ==> (Reached(s, k) <==> i < k <= j))
      && Apply(s, Cut).ring == s.ring[..i + 1] + s.ring[j + 1..]
      && (Apply(s, Cut).ring == Removed(s.ring, j) <==> Behind(s))
    ensures Sound(Apply(s, Cut))
  {
    hide IndexOf;
    IndexIs(s.ring, 0);
    var i, j := IndexOf(s.ring, s.seen.value.previous), IndexOf(s.ring, s.seen.value.next);
    if !Behind(s) {
      assert |Removed(s.ring, j)| != |s.ring[..i + 1] + s.ring[j + 1..]|;
    }
  }

  /** The collector's two halves with anything in between remove the dead task and no other exactly
      if the task before it has spawned none meanwhile. */
  lemma CollectsOneWithoutSpawn(s: State, i: nat, es: seq<Event>)
    requires s.ring != [] && Distinct(s.ring) && Enabled(s, Look(i))
    requires NoCollector(es) && Runs(Apply(s, Look(i)), es) && Enabled(End(Apply(s, Look(i)), es), Cut)
    ensures var t := End(Apply(s, Look(i)), es);
      && Sound(t) && t.seen == Some(Seen(s.ring[i].tid, s.ring[i + 1].tid))
      && (Apply(t, Cut).ring == Removed(t.ring, IndexOf(t.ring, s.ring[i + 1].tid)) <==> !PreviousSpawned(Apply(s, Look(i)), es))
  {
    hide Sound, Behind, PreviousSpawned, Runs, NoCollector, IndexOf, CutOut;
    LookIsSound(s, i);
    BehindWithoutSpawn(Apply(s, Look(i)), es);
    CutRemoves(End(Apply(s, Look(i)), es));
  }

  /** A task between the remembered ones is out of the ring after the cut. */
  lemma ExposedIsLost(s: State, d: nat)
    requires Sound(s) && Enabled(s, Cut) && d < |s.ring| && Exposed(s, d)
    ensures IndexOf(Apply(s, Cut).ring, s.ring[d].tid) == |Apply(s, Cut).ring|
  {
    hide IndexOf;
    CutRemoves(s);
  }

  /** A task out of the ring is never dispatched again. */
  lemma {:induction false} LostIsNeverDispatched(s: State, es: seq<Event>, tid: nat)
    requires s.ring != [] && IndexOf(s.ring, tid) == |s.ring| && Runs(s, es)
    requires forall e :: e in es && e.DoSpawn? ==> e.task.tid != tid
    ensures !Dispatched(s, es, tid)
    decreases |es|
  {
    hide IndexOf, Apply;
    if es != [] {
      assert es[0] in es;
      LostStaysLost(s, es[0], tid);
      LostIsNeverDispatched(Apply(s, es[0]), es[1..], tid);
    }
  }

  lemma LostStaysLost(s: State, e: Event, tid: nat)
    requires s.ring != [] && IndexOf(s.ring, tid) == |s.ring| && (e.DoSpawn? ==> e.task.tid != tid)
    ensures IndexOf(Apply(s, e).ring, tid) == |Apply(s, e).ring| && Apply(s, e).ring[0].tid != tid
  {
    hide IndexOf, ApplyRing, Moved;
    var r, r' := s.ring, Apply(s, e).ring;
    assert forall k :: 0 <= k < |r| ==> r[k].tid != tid;
    if !e.Look? && !e.Cut? {
      forall k | 0 <= k < |r'| && !(e.DoSpawn? && k == 1) ensures r'[k].tid != tid {
        var was := CameFrom(r, e, k);
        MovedTask(r, e, was);
      }
      if e.DoSpawn? { SpawnedIsSecond(r, e.task); }
    }
  }

  lemma SpawnedIsSecond(r: Ring, t: Task)
    requires r != []
    ensures |ApplyRing(r, DoSpawn(t))| > 1 && ApplyRing(r, DoSpawn(t))[1] == t
  {
  }

  // ---------- no starvation ----------

  /** One event keeps a waiting runnable task runnable and in the ring, unless it stands between the
      two tasks that the collector remembers; its distance grows only by a spawn. */
  lemma EventApproaches(s: State, e: Event, d: nat)
    requires Sound(s) && 1 <= d < |s.ring| && Runnable(s.ring[d]) && !Exposed(s, d) && Enabled(s, e)
    ensures var s' := Apply(s, e);
      && Sound(s')
      && (Dispatches(s, e, s.ring[d].tid)
          || exists d' :: 1 <= d' <= d + Cost(e) && IsAt(s'.ring, s.ring[d].tid, d') && Runnable(s'.ring[d']) && !Exposed(s', d'))
  {
    hide IndexOf, ApplyRing, Moved, Exposed, Next, Behind, Reached;
    var r, s' := s.ring, Apply(s, e);
    match e
    case Look(i) =>
      LookIsSound(s, i);
      assert IsAt(s'.ring, r[d].tid, d);
    case Cut =>
      CutRemoves(s);
      CutKeeps(s, d);
      CutForgets(s);
    case _ =>
      EventKeepsArc(s, e);
      OtherApproaches(r, e, d);
      if !Dispatches(s, e, r[d].tid) {
        var d' := Moved(r, e, d);
        assert IsAt(s'.ring, r[d].tid, d') && !Exposed(s', d');
      }
  }

  lemma OtherApproaches(r: Ring, e: Event, d: nat)
    requires 1 <= d < |r| && Runnable(r[d]) && Distinct(r) && !e.Look? && !e.Cut? && Distinct(ApplyRing(r, e))
    requires e.Timer? ==> Next(r, e.sp).Some?
    ensures var r' := ApplyRing(r, e); var d' := Moved(r, e, d);
      (e.Timer? && r'[0].tid == r[d].tid) || (1 <= d' <= d + Cost(e) && IsAt(r', r[d].tid, d') && Runnable(r'[d']))
  {
    MovedTask(r, e, d);
    if e.Timer? {
      NextApproaches(r, e.sp, d);
      var r' := ApplyRing(r, e);
      if r'[0].tid != r[d].tid {
        var d' :| 1 <= d' < d && IsAt(r', r[d].tid, d') && Runnable(r'[d']);
        assert d' == Moved(r, e, d);
      }
    }
  }

  lemma CutForgets(s: State)
    requires s.ring != [] && Enabled(s, Cut)
    ensures Apply(s, Cut).seen.None? && forall k :: !Exposed(Apply(s, Cut), k)
  {
  }

  /** A task that is neither dead nor between the remembered ones stays through the cut. */
  lemma CutKeeps(s: State, d: nat)
    requires Sound(s) && Enabled(s, Cut) && d < |s.ring| && !Exposed(s, d) && s.ring[d].status != Dead
    ensures var r' := Apply(s, Cut).ring;
      exists d': nat :: d' <= d && (d > 0 ==> d' > 0) && IsAt(r', s.ring[d].tid, d') && r'[d'] == s.ring[d]
  {
    hide IndexOf;
    CutRemoves(s);
    var i, j := IndexOf(s.ring, s.seen.value.previous), IndexOf(s.ring, s.seen.value.next);
    var r' := Apply(s, Cut).ring;
    if d <= i {
      assert IsAt(r', s.ring[d].tid, d);
    } else {
      assert r'[d - (j - i)] == s.ring[d];
      assert IsAt(r', s.ring[d].tid, d - (j - i));
    }
  }

  /** Task `tid` is dispatched by some timer interrupt of the run. */
  ghost predicate Dispatched(s: State, es: seq<Event>, tid: nat)
    requires s.ring != []
    decreases |es|
  {
    es != [] && (Dispatches(s, es[0], tid) || Dispatched(Apply(s, es[0]), es[1..], tid))
  }

  function Timers(es: seq<Event>): nat {
    if es == [] then 0 else (if es[0].Timer? then 1 else 0) + Timers(es[1..])
  }

  function Spawns(es: seq<Event>): nat {
    if es == [] then 0 else (if es[0].DoSpawn? then 1 else 0) + Spawns(es[1..])
  }

  /** No starvation: a runnable task at distance `d` is dispatched within `d` timer interrupts, plus
      one for each task spawned meanwhile, whatever else happens, unless it came between the two
      tasks that the collector remembers. */
  lemma {:induction false} NoStarvation(s: State, es: seq<Event>, d: nat)
    requires Sound(s) && 1 <= d < |s.ring| && Runnable(s.ring[d]) && !Exposed(s, d) && Runs(s, es)
    requires Timers(es) >= d + Spawns(es)
    ensures Dispatched(s, es, s.ring[d].tid)
    decreases |es|
  {
    hide Sound, Exposed, Enabled;
    if es != [] {
      EventApproaches(s, es[0], d);
      var s' := Apply(s, es[0]);
      if !Dispatches(s, es[0], s.ring[d].tid) {
        var d' :| 1 <= d' <= d + Cost(es[0]) && IsAt(s'.ring, s.ring[d].tid, d') && Runnable(s'.ring[d']) && !Exposed(s', d');
        NoStarvation(s', es[1..], d');
      }
    }
  }

  /** The race: while the collector, task 0, remembers tasks 1 and 2, task 1 spawns task 3, which runs
      once; the cut of task 2 takes task 3 along, and no run ever dispatches it again. */
  lemma SpawnedTaskIsLost(sp: nat, es: seq<Event>)
    ensures var s := State([Runner(0, 0), Runner(1, 0), Remains(2)], 0, None);
      var race := [Look(1), Timer(sp), DoSpawn(Runner(3, 0)), Timer(sp), Timer(sp)];
      && Sound(s) && Runs(s, race) && Dispatched(s, race, 3)
      && End(s, race) == State([Runner(0, sp), Runner(1, sp), Runner(3, sp), Remains(2)], 0, Some(Seen(1, 2)))
      && Enabled(End(s, race), Cut) && var t := Apply(End(s, race), Cut);
      && t == State([Runner(0, sp), Runner(1, sp)], 0, None)
      && (Runs(t, es) && (forall e :: e in es && e.DoSpawn? ==> e.task.tid != 3) ==> !Dispatched(t, es, 3))
  {
    hide Next, Runs, End, Dispatched, Apply, Enabled;
    var s := State([Runner(0, 0), Runner(1, 0), Remains(2)], 0, None);
    var s1 := State(s.ring, 0, Some(Seen(1, 2)));
    var s2 := State([Runner(1, 0), Remains(2), Runner(0, sp)], 0, s1.seen);
    var s3 := State([Runner(1, 0), Runner(3, 0), Remains(2), Runner(0, sp)], 0, s1.seen);
    var s4 := State([Runner(3, 0), Remains(2), Runner(0, sp), Runner(1, sp)], 0, s1.seen);
    var s5 := State([Runner(0, sp), Runner(1, sp), Runner(3, sp), Remains(2)], 0, s1.seen);
    RaceLook(s);
    TurnTo(s1, sp, 1, s2);
    RaceSpawn(sp);
    TurnTo(s3, sp, 1, s4);
    TurnTo(s4, sp, 2, s5);
    RaceCut(sp);
    var es4 := [Timer(sp)];
    var es3 := [Timer(sp), Timer(sp)];
    var es2 := [DoSpawn(Runner(3, 0)), Timer(sp), Timer(sp)];
    var es1 := [Timer(sp), DoSpawn(Runner(3, 0)), Timer(sp), Timer(sp)];
    assert [Timer(sp)] + [] == es4 && [Timer(sp)] + es4 == es3 && [DoSpawn(Runner(3, 0))] + es3 == es2;
    assert [Timer(sp)] + es2 == es1;
    assert [Look(1)] + es1 == [Look(1), Timer(sp), DoSpawn(Runner(3, 0)), Timer(sp), Timer(sp)];
    NoEvent(s5);
    OneEvent(s4, s5, Timer(sp), []);
    OneEvent(s3, s4, Timer(sp), es4);
    OneEvent(s2, s3, DoSpawn(Runner(3, 0)), es3);
    OneEvent(s1, s2, Timer(sp), es2);
    OneEvent(s, s1, Look(1), es1);
    var t := State([Runner(0, sp), Runner(1, sp)], 0, None);
    if Runs(t, es) && forall e :: e in es && e.DoSpawn? ==> e.task.tid != 3 {
      LostIsNeverDispatched(t, es, 3);
    }
  }

  function Runner(tid: nat, stack: nat): Task {
    Task(tid, tid, 0, Running, stack, 0, 0, NOBODY)
  }

  function Remains(tid: nat): Task {
    Task(tid, tid, 0, Dead, 0, 0, 0, NOBODY)
  }

  lemma OneEvent(s: State, s': State, e: Event, es: seq<Event>)
    requires s.ring != [] && s'.ring != [] && Apply(s, e) == s' && Enabled(s, e)
    ensures Runs(s', es) ==> Runs(s, [e] + es)
    ensures End(s, [e] + es) == End(s', es)
    ensures forall tid :: Dispatched(s, [e] + es, tid) <==> (e.Timer? && s'.ring[0].tid == tid) || Dispatched(s', es, tid)
  {
    assert ([e] + es)[1..] == es;
  }

  lemma NoEvent(s: State)
    requires s.ring != []
    ensures Runs(s, []) && End(s, []) == s
  {
  }

  lemma RaceLook(s: State)
    requires s == State([Runner(0, 0), Runner(1, 0), Remains(2)], 0, None)
    ensures Sound(s) && Enabled(s, Look(1)) && Apply(s, Look(1)) == State(s.ring, 0, Some(Seen(1, 2)))
  {
  }

  lemma RaceSpawn(sp: nat)
    ensures var seen := Some(Seen(1, 2));
      var s := State([Runner(1, 0), Remains(2), Runner(0, sp)], 0, seen);
      && Enabled(s, DoSpawn(Runner(3, 0)))
      && Apply(s, DoSpawn(Runner(3, 0))) == State([Runner(1, 0), Runner(3, 0), Remains(2), Runner(0, sp)], 0, seen)
  {
  }

  lemma RaceCut(sp: nat)
    ensures var s := State([Runner(0, sp), Runner(1, sp), Runner(3, sp), Remains(2)], 0, Some(Seen(1, 2)));
      Enabled(s, Cut) && Apply(s, Cut) == State([Runner(0, sp), Runner(1, sp)], 0, None)
    ensures IndexOf([Runner(0, sp), Runner(1, sp)], 3) == 2
  {
    var r := [Runner(0, sp), Runner(1, sp), Runner(3, sp), Remains(2)];
    IndexIs(r, 1);
    IndexIs(r, 3);
    assert r[..2] + r[4..] == [Runner(0, sp), Runner(1, sp)];
  }

  /** A timer interrupt that dispatches task `c`, the tasks in between being dead; all ticks are used up. */
  lemma TurnTo(s: State, sp: nat, c: nat, s': State)
    requires 1 <= c < |s.ring| && s.ring[c].status == Running && forall i :: 1 <= i < c ==> s.ring[i].status == Dead
    requires forall i :: 0 <= i < |s.ring| ==> s.ring[i].ticks == 0
    requires s'.gc == s.gc && s'.seen == s.seen
    requires s'.ring == s.ring[c..] + [WithStack(s.ring[0], sp)] + s.ring[1..c]
    ensures Enabled(s, Timer(sp)) && Apply(s, Timer(sp)) == s'
  {
    hide Dispatch, FirstRunnable, Preempted;
    var t := Preempted(s.ring, sp);
    StillTicks(s.ring, sp);
    FirstIs(t, c);
    DispatchIs(t, c, s'.ring);
  }

  lemma StillTicks(r: Ring, sp: nat)
    requires r != [] && forall i :: 0 <= i < |r| ==> r[i].ticks == 0
    ensures Preempted(r, sp) == [WithStack(r[0], sp)] + r[1..]
  {
  }

  lemma FirstIs(t: Ring, c: nat)
    requires 1 <= c < |t| && t[c].status == Running && forall i :: 1 <= i < c ==> t[i].status == Dead
    ensures FirstRunnable(t, 1) == c
  {
    assert Runnable(t[c]);
  }

  lemma DispatchIs(t: Ring, c: nat, r: Ring)
    requires 1 <= c < |t| && t[c].status == Running && r == t[c..] + [t[0]] + t[1..c]
    ensures Dispatch(t, c) == r
  {
  }

  // ---------- no panic ----------

  /** Task `tid` is in the ring, marked running and not about to be cut, at index `i`. */
  ghost predicate RunningAt(s: State, tid: nat, i: nat) {
    i < |s.ring| && s.ring[i].tid == tid && s.ring[i].status == Running && !Exposed(s, i)
  }

  predicate GivesUp(e: Event) {
    e.DoSleep? || e.DoBlock? || e.DoTerminate?
  }

  /** A run in which the idle task only idles; timer interrupts may come in any state. */
  ghost predicate RunsWithIdle(s: State, es: seq<Event>, idle: nat)
    requires s.ring != []
    decreases |es|
  {
    es == [] || (
      && (es[0].Timer? || Enabled(s, es[0]))
      && (GivesUp(es[0]) ==> s.ring[0].tid != idle)
      && RunsWithIdle(Apply(s, es[0]), es[1..], idle))
  }

  lemma StaysRunning(r: Ring, e: Event, i: nat)
    requires i < |r| && r[i].status == Running && (GivesUp(e) ==> i != 0) && !e.Look? && !e.Cut?
    requires e.Timer? ==> Next(r, e.sp).Some?
    ensures Moved(r, e, i) < |ApplyRing(r, e)| && ApplyRing(r, e)[Moved(r, e, i)].tid == r[i].tid
    ensures ApplyRing(r, e)[Moved(r, e, i)].status == Running
  {
    hide Choice;
    match e
    case Timer(sp) =>
      var t := Preempted(r, sp);
      assert t[i].status == Running && t[i].tid == r[i].tid;
      DispatchedRuns(t, Choice(t).value, i);
    case _ =>
  }

  lemma DispatchedRuns(t: Ring, c: nat, k: nat)
    requires c < |t| && k < |t| && t[k].status == Running
    ensures var k' := if k >= c then k - c else k - c + |t|;
      Dispatch(t, c)[k'].tid == t[k].tid && Dispatch(t, c)[k'].status == Running
  {
  }

  lemma IdleKeepsRunning(s: State, e: Event, idle: nat, i: nat)
    requires Sound(s) && RunningAt(s, idle, i) && (e.Timer? || Enabled(s, e)) && (GivesUp(e) ==> s.ring[0].tid != idle)
    ensures Enabled(s, e) && Sound(Apply(s, e)) && exists j :: RunningAt(Apply(s, e), idle, j)
  {
    hide IndexOf, ApplyRing, Moved, Exposed, Next, Behind;
    var s' := Apply(s, e);
    if e.Timer? { RunningTaskMeansNoPanic(s.ring, e.sp, i); }
    match e
    case Look(k) =>
      LookIsSound(s, k);
      assert RunningAt(s', idle, i);
    case Cut =>
      CutRemoves(s);
      CutKeeps(s, i);
      CutForgets(s);
      var j: nat :| j <= i && IsAt(s'.ring, idle, j) && s'.ring[j] == s.ring[i];
      assert RunningAt(s', idle, j);
    case _ =>
      EventKeepsArc(s, e);
      StaysRunning(s.ring, e, i);
      assert RunningAt(s', idle, Moved(s.ring, e, i));
  }

  /** With an idle task that is always running, no timer interrupt of any run panics. */
  lemma {:induction false} RunNeverPanics(s: State, es: seq<Event>, idle: nat, i: nat)
    requires Sound(s) && RunningAt(s, idle, i) && RunsWithIdle(s, es, idle)
    ensures Runs(s, es)
    decreases |es|
  {
    hide Sound, Enabled, RunningAt;
    if es != [] {
      assert i < |s.ring| by { RunningIsThere(s, idle, i); }
      IdleKeepsRunning(s, es[0], idle, i);
      var s' := Apply(s, es[0]);
      var j :| RunningAt(s', idle, j);
      RunNeverPanics(s', es[1..], idle, j);
    }
  }

  lemma RunningIsThere(s: State, tid: nat, i: nat)
    requires RunningAt(s, tid, i)
    ensures i < |s.ring|
  {
  }

  // ---------- sleepers ----------

  /** Ticks until the task may be dispatched. */
  function Wait(t: Task): nat {
    if t.status == Running then 0 else t.ticks
  }

  predicate WillRun(t: Task) {
    t.status == Running || t.status == Sleeping
  }

  /** Timer interrupts that suffice for the waiting task at index `d`. */
  function Bound(r: Ring, d: nat): nat
    requires d < |r|
  {
    Wait(r[d]) + if Wait(r[d]) > 0 then |r| - 1 else d
  }

  lemma TickedSleeper(r: Ring, sp: nat, d: nat)
    requires 1 <= d < |r| && WillRun(r[d]) && Wait(r[d]) > 0 && Next(r, sp).Some?
    ensures var r' := Next(r, sp).value;
      || r'[0].tid == r[d].tid
      || exists d' :: 1 <= d' && IsAt(r', r[d].tid, d') && WillRun(r'[d']) && Bound(r', d') + 1 <= Bound(r, d)
  {
    var t := Preempted(r, sp);
    var i := Choice(t).value;
    var r' := Dispatch(t, i);
    if i < d {
      assert r'[d - i] == t[d];
      assert IsAt(r', r[d].tid, d - i);
    } else if i > d {
      assert r'[|r| - i + d] == t[d];
      assert IsAt(r', r[d].tid, |r| - i + d);
    }
  }

  lemma OtherApproachesSleeper(r: Ring, e: Event, d: nat)
    requires 1 <= d < |r| && WillRun(r[d]) && Distinct(r) && !e.Look? && !e.Cut? && Distinct(ApplyRing(r, e))
    requires e.Timer? ==> Next(r, e.sp).Some?
    ensures var r' := ApplyRing(r, e); var d' := Moved(r, e, d);
      (e.Timer? && r'[0].tid == r[d].tid)
      || (1 <= d' && IsAt(r', r[d].tid, d') && WillRun(r'[d']) && Bound(r', d') <= Bound(r, d) + Cost(e))
  {
    MovedTask(r, e, d);
    var r' := ApplyRing(r, e);
    if e.Timer? && r'[0].tid != r[d].tid {
      if Wait(r[d]) > 0 {
        TickedSleeper(r, e.sp, d);
        var d' :| 1 <= d' && IsAt(r', r[d].tid, d') && WillRun(r'[d']) && Bound(r', d') + 1 <= Bound(r, d);
        assert d' == Moved(r, e, d);
      } else {
        NextApproaches(r, e.sp, d);
        var d' :| 1 <= d' < d && IsAt(r', r[d].tid, d') && Runnable(r'[d']);
        assert d' == Moved(r, e, d);
      }
    }
  }

  lemma EventApproachesSleeper(s: State, e: Event, d: nat)
    requires Sound(s) && 1 <= d < |s.ring| && WillRun(s.ring[d]) && !Exposed(s, d) && Enabled(s, e)
    ensures var s' := Apply(s, e);
      && Sound(s')
      && (Dispatches(s, e, s.ring[d].tid)
          || exists d' :: 1 <= d' && IsAt(s'.ring, s.ring[d].tid, d') && WillRun(s'.ring[d'])
               && Bound(s'.ring, d') <= Bound(s.ring, d) + Cost(e) && !Exposed(s', d'))
  {
    hide IndexOf, ApplyRing, Moved, Exposed, Next, Behind, Reached;
    var r, s' := s.ring, Apply(s, e);
    match e
    case Look(i) =>
      LookIsSound(s, i);
      assert IsAt(s'.ring, r[d].tid, d);
    case Cut =>
      CutRemoves(s);
      CutKeeps(s, d);
      CutForgets(s);
    case _ =>
      EventKeepsArc(s, e);
      OtherApproachesSleeper(r, e, d);
      if !Dispatches(s, e, r[d].tid) {
        var d' := Moved(r, e, d);
        assert IsAt(s'.ring, r[d].tid, d') && !Exposed(s', d');
      }
  }

  /** A task asleep for `k` ticks is dispatched within `k` timer interrupts and one turn of the
      ring, plus one for each task spawned meanwhile, unless it came between the two tasks that the
      collector remembers. */
  lemma {:induction false} SleeperIsDispatched(s: State, es: seq<Event>, d: nat)
    requires Sound(s) && 1 <= d < |s.ring| && WillRun(s.ring[d]) && !Exposed(s, d) && Runs(s, es)
    requires Timers(es) >= Bound(s.ring, d) + Spawns(es)
    ensures Dispatched(s, es, s.ring[d].tid)
    decreases |es|
  {
    hide Sound, Exposed, Enabled;
    if es != [] {
      EventApproachesSleeper(s, es[0], d);
      var s' := Apply(s, es[0]);
      if !Dispatches(s, es[0], s.ring[d].tid) {
        var d' :| 1 <= d' && IsAt(s'.ring, s.ring[d].tid, d') && WillRun(s'.ring[d'])
          && Bound(s'.ring, d') <= Bound(s.ring, d) + Cost(es[0]) && !Exposed(s', d');
        SleeperIsDispatched(s', es[1..], d');
      }
    }
  }

  // ---------- waiting for a process ----------

  /** The process ids are the same in the 32 bits that the scheduler compares. */
  predicate SameProcess(x: nat, y: nat) {
    x % 0x1_0000_0000 == y % 0x1_0000_0000
  }

  lemma Int32Apart(x: nat, y: nat)
    ensures Int32(x) == Int32(y) <==> SameProcess(x, y)
    ensures x < 0x1_0000_0000 && y < 0x1_0000_0000 ==> (SameProcess(x, y) <==> x == y)
    ensures -0x8000_0000 <= Int32(x) < 0x8000_0000 && (x < 0x8000_0000 ==> Int32(x) == x)
  {
  }

  /** The task, if it is in the ring, is blocked and waits for process `pid`. */
  ghost predicate Waits(r: Ring, tid: nat, pid: nat) {
    forall k :: 0 <= k < |r| && r[k].tid == tid ==> r[k].status == Blocked && r[k].waitingFor == Int32(pid)
  }

  /** A task of process `pid` terminates, or a wakeup of that process comes. */
  predicate Ends(s: State, e: Event, pid: nat)
    requires s.ring != []
  {
    (e.DoTerminate? && SameProcess(s.ring[0].pid, pid)) || (e.DoWakeup? && SameProcess(e.pid, pid))
  }

  /** It does not; and the task is not the collector, whose signal would run it, and makes no call itself:
      while it is the current one, only timer interrupts come. */
  predicate Quiet(s: State, e: Event, tid: nat, pid: nat)
    requires s.ring != []
  {
    && !Ends(s, e, pid)
    && (e.DoTerminate? ==> e.collector != Some(tid))
    && (e.DoSpawn? ==> e.task.tid != tid)
    && (s.ring[0].tid == tid ==> e.Timer?)
  }

  ghost predicate QuietRun(s: State, es: seq<Event>, tid: nat, pid: nat)
    requires s.ring != []
    decreases |es|
  {
    es == [] || (Quiet(s, es[0], tid, pid) && QuietRun(Apply(s, es[0]), es[1..], tid, pid))
  }

  lemma BlockWaits(s: State, pid: nat)
    requires s.ring != [] && Distinct(s.ring)
    ensures Waits(Apply(s, DoBlock(pid)).ring, s.ring[0].tid, pid)
    ensures var t := Apply(s, DoBlock(pid)).ring;
      t[0].status == Blocked && t[0].ticks == s.ring[0].ticks && t[1..] == s.ring[1..]
  {
  }

  lemma QuietKeepsWaiting(s: State, e: Event, tid: nat, pid: nat)
    requires s.ring != [] && Waits(s.ring, tid, pid) && Enabled(s, e) && Quiet(s, e, tid, pid)
    ensures Waits(Apply(s, e).ring, tid, pid) && !Dispatches(s, e, tid)
  {
    hide Int32, IndexOf;
    match e
    case Timer(sp) =>
      TimerKeepsWaiting(s.ring, sp, tid, pid);
    case DoTerminate(c) =>
      Int32Apart(s.ring[0].pid, pid);
    case DoWakeup(q) =>
      Int32Apart(q, pid);
    case _ =>
  }

  lemma TimerKeepsWaiting(r: Ring, sp: nat, tid: nat, pid: nat)
    requires r != [] && Waits(r, tid, pid) && Next(r, sp).Some?
    ensures Waits(Next(r, sp).value, tid, pid) && Next(r, sp).value[0].tid != tid
  {
    hide Int32, Choice, Dispatch;
    var t := Preempted(r, sp);
    assert forall k :: 0 <= k < |r| ==> t[k].tid == r[k].tid && t[k].status == r[k].status && t[k].waitingFor == r[k].waitingFor;
    var c := Choice(t).value;
    ChosenRuns(t);
    DispatchKeepsWaiting(t, c, tid, pid);
  }

  lemma ChosenRuns(t: Ring)
    requires t != [] && Choice(t).Some?
    ensures Woken(t[Choice(t).value]).status == Running && t[Choice(t).value].status != Blocked
  {
  }

  lemma DispatchKeepsWaiting(t: Ring, c: nat, tid: nat, pid: nat)
    requires c < |t| && Waits(t, tid, pid) && t[c].status != Blocked
    ensures Waits(Dispatch(t, c), tid, pid) && Dispatch(t, c)[0].tid != tid
  {
    hide Int32;
    var r' := Dispatch(t, c);
    forall k | 0 <= k < |r'| && r'[k].tid == tid ensures r'[k].status == Blocked && r'[k].waitingFor == Int32(pid) {
      if k > 0 {
        assert r'[k] == t[if c + k < |t| then c + k else c + k - |t|];
      }
    }
  }

  /** The task that Next gives the processor is marked running. */
  lemma DispatchedIsRunning(r: Ring, sp: nat)
    requires r != [] && Next(r, sp).Some?
    ensures Next(r, sp).value[0].status == Running
  {
    ChosenRuns(Preempted(r, sp));
  }

  lemma {:induction false} QuietRunKeepsWaiting(s: State, es: seq<Event>, tid: nat, pid: nat)
    requires s.ring != [] && Waits(s.ring, tid, pid) && Runs(s, es) && QuietRun(s, es, tid, pid)
    ensures Waits(End(s, es).ring, tid, pid) && !Dispatched(s, es, tid)
    decreases |es|
  {
    hide Waits, Enabled, Apply, Quiet, Dispatches;
    if es != [] {
      QuietKeepsWaiting(s, es[0], tid, pid);
      QuietRunKeepsWaiting(Apply(s, es[0]), es[1..], tid, pid);
    }
  }

  ghost predicate HasStatus(r: Ring, tid: nat, status: Status) {
    forall k :: 0 <= k < |r| && r[k].tid == tid ==> r[k].status == status
  }

  /** Waiting for process `pid`: the task is blocked and is not dispatched, whatever happens, until a task
      of that process terminates or a wakeup of it comes; with that it runs. The termination of a task of
      another process leaves it blocked. */
  lemma WaitsForProcess(s: State, pid: nat, es: seq<Event>)
    requires s.ring != [] && Distinct(s.ring)
    requires var t := Apply(s, DoBlock(pid)); Runs(t, es) && QuietRun(t, es, s.ring[0].tid, pid)
    ensures var t, tid := Apply(s, DoBlock(pid)), s.ring[0].tid;
      var u := End(t, es);
      && !Dispatched(t, es, tid) && HasStatus(t.ring, tid, Blocked) && HasStatus(u.ring, tid, Blocked)
      && (forall e :: Ends(u, e, pid) && (u.ring[0].tid == tid ==> e.DoWakeup?) ==> HasStatus(Apply(u, e).ring, tid, Running))
      && (forall c :: c != Some(tid) && u.ring[0].tid != tid && !SameProcess(u.ring[0].pid, pid) ==>
        HasStatus(Apply(u, DoTerminate(c)).ring, tid, Blocked))
  {
    hide Int32, Dispatched, Runs, QuietRun;
    var t, tid := Apply(s, DoBlock(pid)), s.ring[0].tid;
    BlockWaits(s, pid);
    QuietRunKeepsWaiting(t, es, tid, pid);
    var u := End(t, es);
    forall e | Ends(u, e, pid) && (u.ring[0].tid == tid ==> e.DoWakeup?) ensures HasStatus(Apply(u, e).ring, tid, Running) {
      EndWakes(u, e, tid, pid);
    }
    forall c | c != Some(tid) && u.ring[0].tid != tid && !SameProcess(u.ring[0].pid, pid)
      ensures HasStatus(Apply(u, DoTerminate(c)).ring, tid, Blocked)
    {
      QuietKeepsWaiting(u, DoTerminate(c), tid, pid);
    }
  }

  lemma EndWakes(s: State, e: Event, tid: nat, pid: nat)
    requires s.ring != [] && Waits(s.ring, tid, pid) && Ends(s, e, pid) && (s.ring[0].tid == tid ==> e.DoWakeup?)
    ensures HasStatus(Apply(s, e).ring, tid, Running)
  {
    hide Int32;
    if e.DoTerminate? {
      Int32Apart(s.ring[0].pid, pid);
    } else {
      Int32Apart(e.pid, pid);
    }
  }

  /** Once a task of the process has terminated, the waiting task is dispatched within its distance in the
      ring, plus one for each task spawned meanwhile, like every task that may run. */
  lemma WaitIsOver(s: State, c: Option<nat>, es: seq<Event>, d: nat, pid: nat)
    requires Sound(s) && 1 <= d < |s.ring| && !Exposed(s, d) && Waits(s.ring, s.ring[d].tid, pid)
    requires SameProcess(s.ring[0].pid, pid)
    requires var t := Apply(s, DoTerminate(c)); Runs(t, es) && Timers(es) >= d + Spawns(es)
    ensures Dispatched(Apply(s, DoTerminate(c)), es, s.ring[d].tid)
  {
    hide Exposed, Int32, Runs, Dispatched;
    var t := Apply(s, DoTerminate(c));
    EventKeepsArc(s, DoTerminate(c));
    assert s.ring[0].tid != s.ring[d].tid;
    EndWakes(s, DoTerminate(c), s.ring[d].tid, pid);
    assert Moved(s.ring, DoTerminate(c), d) == d && t.ring[d].tid == s.ring[d].tid;
    NoStarvation(t, es, d);
  }

  // ---------- what a task owns ----------

  /** The stack pointer that a task gave last, and what it was spawned with: its stack, its space and
      its process. */
  datatype Own = Own(stack: nat, stackTop: nat, pml4: nat, pid: nat)

  ghost predicate Owns(t: Task, own: Own) {
    t.stack == own.stack && t.stackTop == own.stackTop && t.pml4 == own.pml4 && t.pid == own.pid
  }

  ghost predicate Saved(r: Ring, given: map<nat, Own>) {
    forall i :: 0 <= i < |r| ==> r[i].tid in given && Owns(r[i], given[r[i].tid])
  }

  /** What each task owns after the event: a preempted one gives its stack pointer. */
  ghost function Given(r: Ring, e: Event, given: map<nat, Own>): map<nat, Own>
    requires r != [] && Saved(r, given)
  {
    match e
    case Timer(sp) => var own := given[r[0].tid]; given[r[0].tid := Own(sp, own.stackTop, own.pml4, own.pid)]
    case DoSpawn(t) => given[t.tid := Own(t.stack, t.stackTop, t.pml4, t.pid)]
    case _ => given
  }

  lemma EventKeepsSaved(s: State, e: Event, given: map<nat, Own>)
    requires s.ring != [] && Distinct(s.ring) && Saved(s.ring, given) && Enabled(s, e)
    ensures Distinct(Apply(s, e).ring) && Saved(Apply(s, e).ring, Given(s.ring, e, given))
  {
    match e
    case Timer(sp) =>
      TimerKeepsSaved(s.ring, sp, given);
    case DoSpawn(t) =>
      SpawnKeepsSaved(s.ring, t, given);
    case Cut =>
    case _ =>
      assert SameTasks(s.ring, Apply(s, e).ring);
  }

  /** The same tasks with what they own. */
  ghost predicate SameTasks(r: Ring, r': Ring) {
    |r'| == |r| && forall i :: 0 <= i < |r| ==>
      r'[i].tid == r[i].tid && Owns(r'[i], Own(r[i].stack, r[i].stackTop, r[i].pml4, r[i].pid))
  }

  lemma TimerKeepsSaved(r: Ring, sp: nat, given: map<nat, Own>)
    requires r != [] && Distinct(r) && Saved(r, given) && Next(r, sp).Some?
    ensures Distinct(Next(r, sp).value) && Saved(Next(r, sp).value, Given(r, Timer(sp), given))
  {
    hide Dispatch, Choice;
    var t := Preempted(r, sp);
    forall i | 0 <= i < |t|
      ensures t[i].tid == r[i].tid && Owns(t[i], Own(if i == 0 then sp else r[i].stack, r[i].stackTop, r[i].pml4, r[i].pid))
    {
    }
    DispatchKeepsSaved(t, Choice(t).value, Given(r, Timer(sp), given));
  }

  lemma SpawnKeepsSaved(r: Ring, t: Task, given: map<nat, Own>)
    requires r != [] && Distinct(r) && Saved(r, given) && forall i :: 0 <= i < |r| ==> r[i].tid != t.tid
    ensures Distinct(Spawn(r, t)) && Saved(Spawn(r, t), Given(r, DoSpawn(t), given))
  {
  }

  lemma DispatchKeepsSaved(t: Ring, i: nat, given: map<nat, Own>)
    requires i < |t| && Distinct(t) && Saved(t, given)
    ensures Distinct(Dispatch(t, i)) && Saved(Dispatch(t, i), given)
  {
    var r' := Dispatch(t, i);
    var n := |t|;
    forall j | 0 <= j < n ensures var x := t[if i + j < n then i + j else i + j - n];
      r'[j].tid == x.tid && Owns(r'[j], Own(x.stack, x.stackTop, x.pml4, x.pid))
    {
    }
  }

  /** The state after a run, with what each task owns then. */
  ghost function RunGiven(s: State, es: seq<Event>, given: map<nat, Own>): (State, map<nat, Own>)
    requires s.ring != [] && Distinct(s.ring) && Saved(s.ring, given) && Runs(s, es)
    decreases |es|
  {
    if es == [] then (s, given)
    else
      EventKeepsSaved(s, es[0], given);
      RunGiven(Apply(s, es[0]), es[1..], Given(s.ring, es[0], given))
  }

  /** In every reachable state each task's saved stack pointer is the one it gave last, and its page
      table, the top of its stack and its process are those it was spawned with; so are those that
      Next takes over for the dispatched task, the first of the ring. */
  lemma {:induction false} RunKeepsSaved(s: State, es: seq<Event>, given: map<nat, Own>)
    requires s.ring != [] && Distinct(s.ring) && Saved(s.ring, given) && Runs(s, es)
    ensures var (s', given') := RunGiven(s, es, given);
      s' == End(s, es) && Distinct(s'.ring) && Saved(s'.ring, given')
    decreases |es|
  {
    hide Distinct, Saved, Enabled, Apply, Given;
    if es != [] {
      EventKeepsSaved(s, es[0], given);
      RunKeepsSaved(Apply(s, es[0]), es[1..], Given(s.ring, es[0], given));
    }
  }

  // ---------- termination and collection ----------

  /** Nobody waits for the dying process any more; a task other than the dying one and the
      collector has changed only if it was waiting for it, and then it runs. */
  lemma TerminateWakesWaiters(r: Ring, collector: Option<nat>)
    requires r != []
    ensures var r' := Terminate(r, collector); var pid := r[0].pid;
      && |r'| == |r|
      && (Some(r[0].tid) != collector ==> r'[0].status == Dead)
      && (forall i :: 0 <= i < |r| ==> r'[i].tid == r[i].tid)
      && (forall i :: 0 <= i < |r| && Some(r[i].tid) != collector ==> !(r'[i].status == Blocked && r'[i].waitingFor == Int32(pid)))
      && (forall i :: 1 <= i < |r| && Some(r[i].tid) != collector ==>
        r'[i] == r[i] || (r[i].status == Blocked && r[i].waitingFor == Int32(pid) && r'[i].status == Running))
      && (forall i :: 0 <= i < |r| && Some(r[i].tid) == collector ==> r'[i].status == Running && r'[i].ticks == 0)
  {
  }

  lemma {:induction false} AliveParts(a: Ring, b: Ring)
    ensures Alive(a + b) == Alive(a) + Alive(b)
  {
    if a == [] {
      assert a + b == b;
    } else {
      assert (a + b)[1..] == a[1..] + b;
      AliveParts(a[1..], b);
    }
  }

  /** Removing one dead task, as the collector does, does not change what is alive. */
  lemma UnlinkKeepsAlive(r: Ring, i: nat)
    requires 1 <= i < |r| && r[i].status == Dead
    ensures Sweep(Removed(r, i)) == Sweep(r)
  {
    hide Alive;
    assert Alive([r[i]]) == [] by { DeadAlone(r[i]); }
    assert r[1..] == r[1..i] + ([r[i]] + r[i + 1..]);
    assert (r[..i] + r[i + 1..])[1..] == r[1..i] + r[i + 1..];
    AliveParts(r[1..i], [r[i]] + r[i + 1..]);
    AliveParts(r[1..i], r[i + 1..]);
    AliveParts([r[i]], r[i + 1..]);
  }

  lemma DeadAlone(t: Task)
    requires t.status == Dead
    ensures Alive([t]) == []
  {
    assert [t][1..] == [];
  }

  lemma {:induction false} AllAlive(r: Ring)
    requires r != [] && forall i :: 1 <= i < |r| ==> r[i].status != Dead
    ensures Sweep(r) == r
    decreases |r|
  {
    if |r| > 1 {
      AllAlive(r[1..]);
      assert Alive(r[1..]) == [r[1]] + Alive(r[1..][1..]);
      assert r == [r[0]] + r[1..];
    }
  }

  lemma {:induction false} AliveIsAlive(r: Ring)
    ensures forall t :: t in Alive(r) <==> t in r && t.status != Dead
  {
    if r != [] {
      AliveIsAlive(r[1..]);
    }
  }
}
