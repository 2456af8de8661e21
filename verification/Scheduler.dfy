/** The scheduler over its circular list of task nodes. */
module Scheduler {
  import opened Common
  import opened SchedulerRing

  class TaskNode {
    const tid: nat
    const pid: nat
    const stackBase: nat
    const stackTop: nat
    const pml4: nat
    var ticks: nat
    var status: Status
    var stack: nat
    var waitingFor: int
    var next: TaskNode?

    constructor (tid: nat, pid: nat, stack: nat, stackBase: nat, stackTop: nat, pml4: nat)
      ensures Value() == Task(tid, pid, 0, Running, stack, stackTop, pml4, NOBODY) && next == this
    {
      this.tid, this.pid, this.stackBase, this.stackTop, this.pml4 := tid, pid, stackBase, stackTop, pml4;
      this.stack := stack;
      ticks, status, waitingFor := 0, Running, NOBODY;
      next := this;
    }

    function Value(): Task
      reads this
    {
      Task(tid, pid, ticks, status, stack, stackTop, pml4, waitingFor)
    }
  }

  ghost function ValuesOf(nodes: seq<TaskNode>): (r: Ring)
    reads nodes
    ensures |r| == |nodes| && forall i :: 0 <= i < |nodes| ==> r[i] == nodes[i].Value()
  {
    seq(|nodes|, i requires 0 <= i < |nodes| reads nodes => nodes[i].Value())
  }

  function After(i: nat, n: nat): nat
    requires i < n
  {
    if i + 1 < n then i + 1 else 0
  }

  ghost predicate Unique(nodes: seq<TaskNode>) {
    forall i, j :: 0 <= i < j < |nodes| ==> nodes[i].tid != nodes[j].tid
  }

  /** The nodes are linked in a circle, in this order. */
  ghost predicate Circle(nodes: seq<TaskNode>)
    reads nodes`next
  {
    && (forall i, j :: 0 <= i < j < |nodes| ==> nodes[i] != nodes[j])
    && (forall i :: 0 <= i < |nodes| ==> nodes[i].next == nodes[After(i, |nodes|)])
  }

  /** Walking the circle from behind the first node comes back there after all the nodes. */
  lemma CircleSteps(nodes: seq<TaskNode>, j: nat)
    requires Circle(nodes) && j < |nodes|
    ensures nodes[j].next == nodes[After(j, |nodes|)]
    ensures forall i :: 0 <= i < |nodes| && i != j ==> nodes[i] != nodes[j]
  {
  }

  lemma CircleStep(nodes: seq<TaskNode>, j: nat)
    requires Circle(nodes) && j < |nodes|
    ensures var n := |nodes|; var after := nodes[After(j, n)].next;
      && (j + 1 < n ==> after == nodes[After(j + 1, n)] && after != nodes[After(0, n)])
      && (j + 1 == n ==> after == nodes[After(0, n)])
  {
  }

  /** The do-while of OSSchedulerWakeup: once around the circle, who waits for `pid` is woken. */
  method WakeCircle(start: TaskNode, ghost nodes: seq<TaskNode>, pid: nat)
    requires nodes != [] && Circle(nodes) && start == nodes[0]
    modifies nodes`status, nodes`waitingFor
    ensures forall i :: 0 <= i < |nodes| ==> nodes[i].Value() == WakeOne(old(nodes[i].Value()), pid)
  {
    ghost var n := |nodes|;
    ghost var j := 0;
    var it := start;
    var around := false;
    while !around
      invariant j <= n && around == (j == n)
      invariant j < n ==> it == nodes[j]
      invariant forall i :: 0 <= i < n ==>
        nodes[i].Value() == if i < j then WakeOne(old(nodes[i].Value()), pid) else old(nodes[i].Value())
      decreases n - j
    {
      if it.status == Blocked && it.waitingFor == Int32(pid) {
        it.status := Running;
        it.waitingFor := NOBODY;
      }
      it := it.next;
      j := j + 1;
      around := it == start;
    }
  }

  /** The do-while of OSSchedulerNext: once around the circle, each task loses a tick; then the
      current one loses another. */
  method TickCircle(current: TaskNode, ghost nodes: seq<TaskNode>)
    requires nodes != [] && Circle(nodes) && current == nodes[0]
    modifies nodes`ticks
    ensures forall i :: 0 <= i < |nodes| ==>
      nodes[i].Value() == WithTicks(old(nodes[i].Value()), if i == 0 then Less(Less(old(nodes[i].ticks))) else Less(old(nodes[i].ticks)))
  {
    ghost var n := |nodes|;
    var start := current.next;
    var it := start;
    ghost var j := 0;
    var around := false;
    while !around
      invariant j <= n && around == (j == n)
      invariant j < n ==> it == nodes[After(j, n)]
      invariant forall i :: 0 <= i < n ==>
        nodes[i].ticks == if 1 <= i <= j || j == n then Less(old(nodes[i].ticks)) else old(nodes[i].ticks)
      decreases n - j
    {
      if it.ticks > 0 {
        it.ticks := it.ticks - 1;
      }
      CircleStep(nodes, j);
      it := it.next;
      j := j + 1;
      around := it == start;
    }
    if current.ticks > 0 {
      current.ticks := current.ticks - 1;
    }
  }

  lemma FirstRunnableIs(r: Ring, k: nat, i: nat)
    requires k <= i <= |r| && (forall j :: k <= j < i ==> !Runnable(r[j])) && (i < |r| ==> Runnable(r[i]))
    ensures FirstRunnable(r, k) == i
  {
  }

  /** The search of OSSchedulerNext; null is the panic. */
  method PickCircle(current: TaskNode, ghost nodes: seq<TaskNode>) returns (task: TaskNode?)
    requires nodes != [] && Circle(nodes) && current == nodes[0]
    modifies nodes`status
    ensures var c := Choice(old(ValuesOf(nodes)));
      && (task == null) == c.None?
      && (c.Some? ==> task == nodes[c.value])
      && forall i :: 0 <= i < |nodes| ==>
        nodes[i].Value() == if c == Some(i) then Woken(old(nodes[i].Value())) else old(nodes[i].Value())
  {
    hide Circle, ValuesOf;
    ghost var n := |nodes|;
    ghost var r := ValuesOf(nodes);
    ghost var j := 0;
    CircleSteps(nodes, j);
    task := current.next;
    j := After(0, n);
    while true
      invariant j < n && task == nodes[j] && (j == 0 ==> n == 1)
      invariant forall i :: 1 <= i < j ==> !Runnable(r[i])
      invariant forall i :: 0 <= i < n ==> nodes[i].Value() == r[i]
      decreases n - j
    {
      if task.status == Sleeping && task.ticks == 0 {
        task.status := Running;
      }
      CircleSteps(nodes, j);
      if task.status == Running {
        FirstRunnableIs(r, 1, if j == 0 then 1 else j);
        return;
      }
      task := task.next;
      if task == current {
        FirstRunnableIs(r, 1, n);
        if current.status == Running {
          return;
        }
        return null;
      }
      j := j + 1;
    }
  }

  /** The circle may be read from any of its nodes. */
  lemma CircleTurned(nodes: seq<TaskNode>, i: nat)
    requires Circle(nodes) && i < |nodes|
    ensures Circle(Turned(nodes, i))
    ensures Unique(nodes) ==> Unique(Turned(nodes, i))
  {
    hide Turned, Unique, Circle;
    var n := |nodes|;
    var turned := Turned(nodes, i);
    forall k | 0 <= k < n ensures turned[k].next == turned[After(k, n)] {
      CircleSteps(nodes, if i + k < n then i + k else i + k - n);
    }
    TurnedApart(nodes, i);
    CircleIs(turned);
  }

  lemma TurnedApart(nodes: seq<TaskNode>, i: nat)
    requires Circle(nodes) && i < |nodes|
    ensures var turned := Turned(nodes, i); forall j, k :: 0 <= j < k < |turned| ==> turned[j] != turned[k]
    ensures Unique(nodes) ==> Unique(Turned(nodes, i))
  {
    hide Turned;
  }

  lemma CircleIs(nodes: seq<TaskNode>)
    requires forall i, j :: 0 <= i < j < |nodes| ==> nodes[i] != nodes[j]
    requires forall i :: 0 <= i < |nodes| ==> nodes[i].next == nodes[After(i, |nodes|)]
    ensures Circle(nodes)
  {
  }

  lemma TurnedValues(nodes: seq<TaskNode>, i: nat)
    requires i < |nodes|
    ensures ValuesOf(Turned(nodes, i)) == Turned(ValuesOf(nodes), i)
  {
    hide ValuesOf, Turned;
  }

  lemma TurnedMembers(nodes: seq<TaskNode>, i: nat)
    requires i < |nodes|
    ensures forall x :: x in nodes ==> x in Turned(nodes, i)
    ensures multiset(Turned(nodes, i)) == multiset(nodes)
  {
    hide Turned;
    forall x | x in nodes ensures x in Turned(nodes, i) {
      assert x in multiset(nodes);
    }
  }

  lemma TurnedStart(nodes: seq<TaskNode>, i: nat)
    requires i < |nodes|
    ensures Turned(nodes, i) != [] && Turned(nodes, i)[0] == nodes[i]
  {
  }

  function Without<T>(s: seq<T>, i: nat): (r: seq<T>)
    requires i < |s|
    ensures |r| == |s| - 1 && multiset(r) + multiset{s[i]} == multiset(s)
    ensures forall k :: 0 <= k < |s| - 1 ==> r[k] == s[if k < i then k else k + 1]
  {
    assert s == s[..i] + [s[i]] + s[i + 1..];
    s[..i] + s[i + 1..]
  }

  /** The collector's relinking: the node behind `previous` leaves the circle. */
  method UnlinkAfter(previous: TaskNode, ghost nodes: seq<TaskNode>, ghost p: nat)
    requires Circle(nodes) && p + 1 < |nodes| && previous == nodes[p]
    modifies previous`next
    ensures Circle(Without(nodes, p + 1)) && previous.next == Without(nodes, p + 1)[After(p, |nodes| - 1)]
  {
    hide Without;
    previous.next := previous.next.next;
  }

  lemma UnlinkedValues(nodes: seq<TaskNode>, i: nat)
    requires 1 <= i < |nodes| && nodes[i].status == Dead
    ensures SchedulerRing.Sweep(ValuesOf(Without(nodes, i))) == SchedulerRing.Sweep(ValuesOf(nodes))
  {
    hide ValuesOf, SchedulerRing.Sweep;
    var r := ValuesOf(nodes);
    UnlinkKeepsAlive(r, i);
    assert ValuesOf(Without(nodes, i)) == r[..i] + r[i + 1..];
  }

  /** The addresses freed for a dead task: its kernel stack, if it has one, and its node. */
  function Frees(t: TaskNode): seq<nat> {
    (if t.stackBase != 0 then [t.stackBase] else []) + [t.tid]
  }

  function FreesOf(nodes: seq<TaskNode>): (r: seq<nat>)
    ensures nodes == [] ==> r == []
  {
    if nodes == [] then [] else FreesOf(nodes[..|nodes| - 1]) + Frees(nodes[|nodes| - 1])
  }

  lemma FreesAppend(dead: seq<TaskNode>, t: TaskNode)
    ensures FreesOf(dead + [t]) == (if t.stackBase != 0 then FreesOf(dead) + [t.stackBase] else FreesOf(dead)) + [t.tid]
  {
    assert (dead + [t])[..|dead|] == dead;
  }

  /** The node and the stack are blocks of the kernel heap: `a` is one of this task's. */
  ghost predicate Belongs(a: nat, t: TaskNode) {
    a == t.tid || (a == t.stackBase && a != 0)
  }

  /** The tasks have their blocks each for itself, and the node of a task is not its stack. */
  ghost predicate Apart(nodes: seq<TaskNode>) {
    && (forall i :: 0 <= i < |nodes| ==> nodes[i].tid != nodes[i].stackBase)
    && (forall i, j, a :: 0 <= i < j < |nodes| && Belongs(a, nodes[i]) ==> !Belongs(a, nodes[j]))
  }

  ghost predicate NoneTwice(s: seq<nat>) {
    forall i, j :: 0 <= i < j < |s| ==> s[i] != s[j]
  }

  lemma NoneTwiceTogether(s: seq<nat>, t: seq<nat>)
    requires NoneTwice(s) && NoneTwice(t) && forall a :: a in s ==> a !in t
    ensures NoneTwice(s + t)
  {
    forall i, j | 0 <= i < j < |s + t| ensures (s + t)[i] != (s + t)[j] {
      if i < |s| <= j {
        assert (s + t)[i] in s && (s + t)[j] in t;
      }
    }
  }

  /** Freed are exactly the blocks of the dead tasks, and none of them twice. */
  lemma {:induction false} FreesTheirBlocks(nodes: seq<TaskNode>)
    ensures forall a :: a in FreesOf(nodes) <==> exists i :: 0 <= i < |nodes| && Belongs(a, nodes[i])
    ensures Apart(nodes) ==> NoneTwice(FreesOf(nodes))
  {
    if nodes != [] {
      var n := |nodes| - 1;
      FreesTheirBlocks(nodes[..n]);
      forall a ensures a in FreesOf(nodes) <==> exists i :: 0 <= i < |nodes| && Belongs(a, nodes[i]) {
        assert a in Frees(nodes[n]) <==> Belongs(a, nodes[n]);
        if a in FreesOf(nodes[..n]) {
          var i :| 0 <= i < n && Belongs(a, nodes[..n][i]);
          assert Belongs(a, nodes[i]);
        }
        if i :| 0 <= i < n && Belongs(a, nodes[i]) {
          assert Belongs(a, nodes[..n][i]);
        }
      }
      if Apart(nodes) {
        forall a | a in FreesOf(nodes[..n]) ensures a !in Frees(nodes[n]) {
          var i :| 0 <= i < n && Belongs(a, nodes[..n][i]);
          assert a in Frees(nodes[n]) ==> Belongs(a, nodes[n]);
        }
        assert forall i :: 0 <= i < n ==> nodes[..n][i] == nodes[i];
        assert Apart(nodes[..n]) && NoneTwice(Frees(nodes[n]));
        NoneTwiceTogether(FreesOf(nodes[..n]), Frees(nodes[n]));
      }
    }
  }

  class Scheduler {
    var current: TaskNode
    var collector: TaskNode?
    var cr3: nat
    var rsp0: nat
    ghost var ring: seq<TaskNode>

    /** `ring` lists the circular list from the current task on. */
    ghost predicate Valid()
      reads this, ring
    {
      && ring != [] && ring[0] == current
      && Unique(ring) && Circle(ring)
      && cr3 == current.pml4
      && (collector != null ==> collector in ring)
    }

    ghost function Values(): (r: Ring)
      reads this, ring
      ensures |r| == |ring|
    {
      ValuesOf(ring)
    }

    /** OSSchedulerInitialize: the kernel's own task, alone in the ring. */
    constructor (kernel: TaskNode, kernelPml4: nat)
      requires kernel.next == kernel && kernel.pml4 == kernelPml4
      ensures Valid() && ring == [kernel] && collector == null
    {
      current := kernel;
      collector := null;
      cr3 := kernelPml4;
      rsp0 := 0;
      ring := [kernel];
    }

    /** The new task goes right behind the running one. */
    method Spawn(task: TaskNode)
      requires Valid() && forall t <- ring :: t.tid != task.tid
      modifies this`ring, current`next, task`next
      ensures Valid() && Values() == SchedulerRing.Spawn(old(Values()), old(task.Value()))
      ensures ring == [old(ring)[0], task] + old(ring)[1..]
    {
      hide ValuesOf;
      task.next := current.next;
      current.next := task;
      ring := [ring[0], task] + ring[1..];
    }

    method SetSleep(n: nat)
      requires Valid()
      modifies current`ticks, current`status
      ensures Valid() && Values() == Sleep(old(Values()), n)
    {
      current.ticks := n % U32;
      current.status := Sleeping;
    }

    method SetBlocked(pid: nat)
      requires Valid()
      modifies current`status, current`waitingFor
      ensures Valid() && Values() == SchedulerRing.Block(old(Values()), pid)
    {
      current.status := Blocked;
      current.waitingFor := Int32(pid);
    }

    /** Once around the ring, from the current task. */
    method WakeupAll(pid: nat)
      requires Valid()
      modifies ring
      ensures Valid() && Values() == Wakeup(old(Values()), pid) && ring == old(ring)
    {
      hide Circle, ValuesOf;
      WakeCircle(current, ring, pid);
    }

    ghost function CollectorId(): Option<nat>
      reads this
    {
      if collector == null then None else Some(collector.tid)
    }

    /** sOSSchedulerPostGarbageCollectorSignal */
    method PostCollectorSignal()
      requires Valid()
      modifies collector
      ensures Valid()
      ensures Values() == Signal(old(Values()), CollectorId())
    {
      if collector == null {
        return;
      }
      collector.status := Running;
      collector.ticks := 0;
    }

    /** OSSchedulerTerminate up to its interrupt. */
    method TerminateCurrent()
      requires Valid()
      modifies ring
      ensures Valid() && ring == old(ring) && Values() == SchedulerRing.Terminate(old(Values()), CollectorId())
    {
      ghost var r := Values();
      current.status := Dead;
      ghost var r1 := Values();
      assert r1 == r[0 := WithStatus(r[0], Dead)];
      WakeupAll(current.pid);
      PostCollectorSignal();
    }

    // ---------- Next ----------

    /** OSSchedulerNext up to its search. */
    method Preempt(sp: nat)
      requires Valid()
      modifies current`stack, ring`ticks
      ensures Valid() && Values() == Preempted(old(Values()), sp)
    {
      hide Circle, ValuesOf;
      current.stack := sp;
      TickCircle(current, ring);
    }

    method Pick() returns (task: TaskNode?)
      requires Valid()
      modifies ring`status
      ensures Valid() && Values() == Chosen(old(Values()))
      ensures var c := Choice(old(Values())); (task == null) == c.None? && (c.Some? ==> task == ring[c.value])
    {
      hide Circle, ValuesOf, Choice, Woken;
      task := PickCircle(current, ring);
    }

    /** The end of OSSchedulerNext: `task`, at index `i`, becomes the current one. */
    method SwitchTo(task: TaskNode, ghost i: nat)
      requires Valid() && i < |ring| && task == ring[i]
      modifies this
      ensures Valid() && Values() == Turned(old(Values()), i)
      ensures multiset(ring) == multiset(old(ring)) && collector == old(collector)
      ensures cr3 == current.pml4 && rsp0 == current.stackTop
    {
      hide Circle, Turned, ValuesOf, Unique;
      ghost var turned := Turned(ring, i);
      CircleTurned(ring, i);
      TurnedValues(ring, i);
      TurnedMembers(ring, i);
      TurnedStart(ring, i);
      if task.pml4 != current.pml4 {
        cr3 := task.pml4;
      }
      current := task;
      rsp0 := current.stackTop;
      ring := turned;
    }

    /** The state is the one after `r`, its first task has the processor, and `stack` is the stack
        pointer it is resumed with; None is the panic. */
    ghost predicate Resumed(r: Option<Ring>, stack: Option<nat>)
      reads this, ring
    {
      && (stack.None? <==> r.None?)
      && (r.Some? ==>
        && Valid() && Values() == r.value && stack == Some(current.stack)
        && cr3 == current.pml4 && rsp0 == current.stackTop)
    }

    lemma CurrentIsFirst()
      requires Valid()
      ensures ring != [] && ring[0] == current && Values() != []
    {
    }

    /** OSSchedulerNext. */
    method Next(sp: nat) returns (stack: Option<nat>)
      requires Valid()
      modifies this, ring
      ensures Resumed(SchedulerRing.Next(old(Values()), sp), stack)
      ensures collector == old(collector) && multiset(ring) == multiset(old(ring))
    {
      hide Values, Turned, Choice, Chosen, Preempted, Dispatch, Valid;
      CurrentIsFirst();
      ghost var t := Preempted(Values(), sp);
      Preempt(sp);
      var task := Pick();
      if task == null {
        return None;
      }
      DispatchChosen(t);
      SwitchTo(task, Choice(t).value);
      stack := Some(current.stack);
    }

    // The three calls that give up the processor by an interrupt; `sp` is the stack pointer that
    // the interrupt's entry code passes on.

    method Yield(ticks: nat, sp: nat) returns (stack: Option<nat>)
      requires Valid()
      modifies this, ring
      ensures Resumed(SchedulerRing.Next(Sleep(old(Values()), ticks), sp), stack)
    {
      SetSleep(ticks);
      stack := Next(sp);
    }

    method Block(pid: nat, sp: nat) returns (stack: Option<nat>)
      requires Valid()
      modifies this, ring
      ensures Resumed(SchedulerRing.Next(SchedulerRing.Block(old(Values()), pid), sp), stack)
    {
      SetBlocked(pid);
      stack := Next(sp);
    }

    method Terminate(sp: nat) returns (stack: Option<nat>)
      requires Valid()
      modifies this, ring
      ensures Resumed(SchedulerRing.Next(SchedulerRing.Terminate(old(Values()), old(CollectorId())), sp), stack)
    {
      TerminateCurrent();
      stack := Next(sp);
    }

    // ---------- the garbage collector ----------

    /** The sweep has come to `task`, right behind `previous`, at index `p`, with no dead task left
        before. */
    ghost predicate Scanned(previous: TaskNode, task: TaskNode?, p: nat)
      reads this, ring
    {
      && Valid() && (collector == null || collector == current)
      && p < |ring| && previous == ring[p] && task == ring[After(p, |ring|)]
      && forall i :: 1 <= i <= p ==> ring[i].status != Dead
    }

    lemma StartSweep()
      requires Valid() && (collector == null || collector == current)
      ensures Scanned(current, current.next, 0)
    {
    }

    lemma PassTask(previous: TaskNode, task: TaskNode?, p: nat)
      requires Scanned(previous, task, p) && task != current
      ensures task != null && p + 1 < |ring| && previous in ring && task == ring[p + 1]
      ensures task.status != Dead ==> Scanned(task, task.next, p + 1)
    {
    }

    lemma EndSweep(previous: TaskNode, p: nat)
      requires Scanned(previous, current, p)
      ensures Valid() && SchedulerRing.Sweep(Values()) == Values()
    {
      hide ValuesOf, SchedulerRing.Sweep;
      AllAlive(Values());
    }

    /** The dead task behind `previous` leaves the ring. */
    method CollectAfter(previous: TaskNode, ghost p: nat)
      requires p + 1 < |ring| && Scanned(previous, ring[p + 1], p) && ring[p + 1].status == Dead
      modifies `ring, previous`next
      ensures ring != [] && Scanned(previous, previous.next, p)
      ensures multiset(ring) + multiset{old(ring[p + 1])} == multiset(old(ring))
      ensures SchedulerRing.Sweep(Values()) == SchedulerRing.Sweep(old(Values()))
    {
      hide Circle, ValuesOf, Without, SchedulerRing.Sweep;
      UnlinkedValues(ring, p + 1);
      ghost var left := ValuesOf(Without(ring, p + 1));
      UnlinkAfter(previous, ring, p);
      ring := Without(ring, p + 1);
      assert Values() == left;
      assert ring[0] == current;
    }

    /** One uninterrupted sweep of OSSchedulerGarbageCollector; `frees` are the addresses it gives
        to VMHeapFree. */
    method Sweep() returns (frees: seq<nat>, ghost dead: seq<TaskNode>)
      requires Valid() && (collector == null || collector == current)
      modifies `ring, ring`next
      ensures Valid() && Values() == SchedulerRing.Sweep(old(Values()))
      ensures multiset(ring) + multiset(dead) == multiset(old(ring))
      ensures forall t <- dead :: t.status == Dead
      ensures forall a :: a in frees <==> exists i :: 0 <= i < |dead| && Belongs(a, dead[i])
      ensures Apart(dead) ==> NoneTwice(frees)
    {
      hide Valid, Values, Scanned, SchedulerRing.Sweep, FreesOf, Frees, Belongs, Apart, NoneTwice;
      var self := current;
      var previous: TaskNode := self;
      var task: TaskNode? := previous.next;
      ghost var p := 0;
      frees, dead := [], [];
      StartSweep();
      CurrentIsFirst();
      while task != self
        invariant ring != [] && Scanned(previous, task, p)
        invariant SchedulerRing.Sweep(Values()) == SchedulerRing.Sweep(old(Values()))
        invariant multiset(ring) + multiset(dead) == multiset(old(ring))
        invariant frees == FreesOf(dead) && forall t <- dead :: t.status == Dead
        decreases |ring| - p
      {
        PassTask(previous, task, p);
        assert previous in multiset(ring) && previous in multiset(old(ring));
        if task.status == Dead {
          CollectAfter(previous, p);
          FreesAppend(dead, task);
          if task.stackBase != 0 {
            frees := frees + [task.stackBase];
          }
          frees := frees + [task.tid];
          dead := dead + [task];
          task := previous.next;
        } else {
          previous := task;
          task := task.next;
          p := p + 1;
        }
      }
      EndSweep(previous, p);
      FreesTheirBlocks(dead);
    }
  }
}
