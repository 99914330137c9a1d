/**
 Tasks and context switches of kernel/src/scheduler/mod.rs. Each operation is one step; the hardware's
 page-table register is the field `cr3`.
 */
module Scheduling {
  import opened Prelude
  import opened RunQueues

  const DEFAULT_PRIO: nat := 4
  const STACK_FRAMES: nat := 4
  const PID_LIMIT: nat := U32

  datatype TaskState = Runnable | Running | Blocked | Zombie

  /** `isolated` lists the frames a user task gives back besides its stacks; None for a kernel thread. */
  datatype Task = Task(
    state: TaskState, prio: nat, cr3: nat, stackBase: nat, isolated: Option<seq<nat>>, userStack: nat)

  datatype Sched = Sched(tasks: map<Pid, Task>, queue: Queue, current: Pid, nextPid: Pid, cr3: nat)

  // ----- The operations, on values -----

  function SetState(s: Sched, pid: Pid, st: TaskState): Sched
    requires pid in s.tasks
  {
    s.(tasks := s.tasks[pid := s.tasks[pid].(state := st)])
  }

  function Spawn(s: Sched, stackBase: nat): Sched
    requires |s.queue.levels| == LEVELS
  {
    s.(tasks := s.tasks[s.nextPid := Task(Runnable, DEFAULT_PRIO, s.cr3, stackBase, None, 0)],
       queue := Push(s.queue, s.nextPid, DEFAULT_PRIO),
       nextPid := s.nextPid + 1)
  }

  function SpawnIsolated(s: Sched, stackBase: nat, root: nat, frames: seq<nat>, userStack: nat): Sched
    requires |s.queue.levels| == LEVELS
  {
    var t := Spawn(s, stackBase);
    var task := t.tasks[s.nextPid].(cr3 := root, isolated := Some(frames), userStack := userStack);
    t.(tasks := t.tasks[s.nextPid := task])
  }

  function Demote(s: Sched, prev: Pid): Sched
    requires |s.queue.levels| == LEVELS
  {
    if prev != 0 && prev in s.tasks && s.tasks[prev].state == Running then
      SetState(s, prev, Runnable).(queue := Push(s.queue, prev, s.tasks[prev].prio))
    else s
  }

  function Resume(s: Sched, next: Pid): Sched {
    if next in s.tasks then SetState(s, next, Running).(cr3 := s.tasks[next].cr3) else s
  }

  function SwitchTo(s: Sched, next: Pid): Sched
    requires |s.queue.levels| == LEVELS
  {
    if s.current == next then s
    else Resume(Demote(s.(current := next), s.current), next)
  }

  /** `yield_now`, a timer tick that got its locks, and one turn of the boot loop. */
  function Yield(s: Sched): Sched
    requires |s.queue.levels| == LEVELS
  {
    match Pop(s.queue)
    case (_, None) => s
    case (q, Some(next)) => SwitchTo(s.(queue := q), next)
  }

  /** None is the panic: no task left, or a queued pid without a task. */
  function Exit(s: Sched): Option<Sched>
    requires |s.queue.levels| == LEVELS
  {
    var z := if s.current != 0 && s.current in s.tasks then SetState(s, s.current, Zombie) else s;
    match Pop(z.queue)
    case (_, None) => None
    case (q, Some(next)) => if next in z.tasks then Some(Resume(z.(queue := q, current := next), next)) else None
  }

  /** None is the panic: no such task, or one that is not a zombie. */
  function Reap(s: Sched, pid: Pid): Option<Sched> {
    if pid in s.tasks && s.tasks[pid].state == Zombie then Some(s.(tasks := s.tasks - {pid})) else None
  }

  // ----- The invariant -----

  function Ready(s: Sched): seq<Pid>
    requires |s.queue.levels| == LEVELS
  {
    s.queue.levels[DEFAULT_PRIO]
  }

  ghost predicate Inv(s: Sched) {
    && |s.queue.levels| == LEVELS && Consistent(s.queue)
    && (forall l :: 0 <= l < LEVELS && l != DEFAULT_PRIO ==> s.queue.levels[l] == [])
    && NoDup(Ready(s))
    && (forall p: Pid :: p in Ready(s) <==> p in s.tasks && s.tasks[p].state == Runnable)
    && 0 !in s.tasks && s.nextPid >= 1
    && (forall p :: p in s.tasks ==> p < s.nextPid && s.tasks[p].prio == DEFAULT_PRIO && s.tasks[p].state != Blocked)
    && (forall p :: p in s.tasks ==> (s.tasks[p].state == Running <==> p == s.current))
    && (s.current != 0 ==> s.current in s.tasks && s.cr3 == s.tasks[s.current].cr3)
  }

  lemma ReadyPop(s: Sched)
    requires Inv(s)
    ensures Ready(s) == [] ==> Pop(s.queue) == (s.queue, None)
    ensures Ready(s) != [] ==>
              var (q, next) := Pop(s.queue);
              && next == Some(Ready(s)[0]) && Consistent(q)
              && q.levels == s.queue.levels[DEFAULT_PRIO := Ready(s)[1..]]
  {
    PopSpec(s.queue);
  }

  lemma SpawnInv(s: Sched, stackBase: nat)
    requires Inv(s)
    ensures Inv(Spawn(s, stackBase))
    ensures Ready(Spawn(s, stackBase)) == Ready(s) + [s.nextPid]
    ensures var (t, pid) := (Spawn(s, stackBase), s.nextPid);
            && t.nextPid == pid + 1 && t.current == s.current && t.cr3 == s.cr3
            && t.tasks.Keys == s.tasks.Keys + {pid} && (forall p :: p in s.tasks ==> t.tasks[p] == s.tasks[p])
            && t.tasks[pid].state == Runnable && t.tasks[pid].cr3 == s.cr3 && t.tasks[pid].stackBase == stackBase
            && t.tasks[pid].isolated.None?
  {
    hide Consistent, Push;
    PushSpec(s.queue, s.nextPid, DEFAULT_PRIO);
    NoDupAppend(Ready(s), s.nextPid);
  }

  lemma SpawnIsolatedInv(s: Sched, stackBase: nat, root: nat, frames: seq<nat>, userStack: nat)
    requires Inv(s)
    ensures Inv(SpawnIsolated(s, stackBase, root, frames, userStack))
    ensures Ready(SpawnIsolated(s, stackBase, root, frames, userStack)) == Ready(s) + [s.nextPid]
  {
    SpawnInv(s, stackBase);
  }

  /** The oldest ready task runs; the one that was running goes to the back of the queue. */
  lemma YieldInv(s: Sched)
    requires Inv(s)
    ensures Inv(Yield(s))
    ensures Ready(s) == [] ==> Yield(s) == s
    ensures Ready(s) != [] ==>
              var s' := Yield(s);
              && s'.current == Ready(s)[0]
              && Ready(s') == Ready(s)[1..] + if s.current != 0 then [s.current] else []
    ensures Yield(s).tasks.Keys == s.tasks.Keys && Yield(s).nextPid == s.nextPid
    ensures forall p :: p in s.tasks ==> Yield(s).tasks[p] == s.tasks[p].(state := Yield(s).tasks[p].state)
    ensures forall p :: p in s.tasks ==> (Yield(s).tasks[p].state == Zombie <==> s.tasks[p].state == Zombie)
  {
    hide Consistent, Push, Pop;
    ReadyPop(s);
    if Ready(s) != [] {
      var next, rest := Ready(s)[0], Ready(s)[1..];
      NoDupTail(Ready(s));
      if s.current != 0 {
        PushSpec(Pop(s.queue).0, s.current, DEFAULT_PRIO);
        NoDupAppend(rest, s.current);
        assert Ready(Yield(s)) == rest + [s.current];
      } else {
        assert rest + [] == rest;
      }
    }
  }

  lemma ExitState(s: Sched)
    requires Inv(s)
    ensures Ready(s) == [] ==> Exit(s) == None
    ensures Ready(s) != [] ==>
              var next := Ready(s)[0];
              && next in s.tasks && next != s.current
              && var dead :=
                   if s.current == 0 then s.tasks else s.tasks[s.current := s.tasks[s.current].(state := Zombie)];
              && Exit(s) == Some(s.(tasks := dead[next := s.tasks[next].(state := Running)], queue := Pop(s.queue).0,
                                    current := next, cr3 := s.tasks[next].cr3))
  {
    hide Consistent, Pop, NoDup;
    ReadyPop(s);
    assert Ready(s) != [] ==> Ready(s)[0] in Ready(s);
  }

  /** The exiting task becomes a zombie for good; it panics exactly when nothing is ready. */
  lemma ExitInv(s: Sched)
    requires Inv(s)
    ensures Exit(s).None? <==> Ready(s) == []
    ensures Exit(s).Some? ==>
              var s' := Exit(s).value;
              && Inv(s') && s'.current == Ready(s)[0] && Ready(s') == Ready(s)[1..]
              && s'.tasks.Keys == s.tasks.Keys && s'.nextPid == s.nextPid
              && (forall p :: p in s.tasks ==> s'.tasks[p] == s.tasks[p].(state := s'.tasks[p].state))
              && (forall p :: p in s.tasks ==>
                    (s'.tasks[p].state == Zombie <==> s.tasks[p].state == Zombie || p == s.current))
  {
    hide Consistent, Pop, Exit, NoDup;
    ReadyPop(s);
    ExitState(s);
    if Ready(s) != [] {
      NoDupTail(Ready(s));
    }
  }

  lemma ReapInv(s: Sched, pid: Pid)
    requires Inv(s)
    ensures Reap(s, pid).Some? ==>
              && Inv(Reap(s, pid).value) && Ready(Reap(s, pid).value) == Ready(s)
              && pid != s.current && pid !in Ready(s)
  {
  }

  // ----- Runs -----

  datatype Event =
    | SpawnThread(stackBase: nat)
    | SpawnUser(stackBase: nat, root: nat, frames: seq<nat>, userStack: nat)
    | YieldNow
    | Tick(skipped: bool)
    | ExitCurrent
    | ReapTask(pid: Pid)

  function Next(s: Sched, e: Event): Option<Sched>
    requires |s.queue.levels| == LEVELS
  {
    match e
    case SpawnThread(base) => Some(Spawn(s, base))
    case SpawnUser(base, root, frames, userStack) => Some(SpawnIsolated(s, base, root, frames, userStack))
    case YieldNow => Some(Yield(s))
    case Tick(skipped) => Some(if skipped then s else Yield(s))
    case ExitCurrent => Exit(s)
    case ReapTask(pid) => Reap(s, pid)
  }

  predicate IsSwitch(e: Event) { e.YieldNow? || (e.Tick? && !e.skipped) || e.ExitCurrent? }

  function Switches(es: seq<Event>): nat {
    if es == [] then 0 else (if IsSwitch(es[0]) then 1 else 0) + Switches(es[1..])
  }

  lemma NextInv(s: Sched, e: Event)
    requires Inv(s) && Next(s, e).Some?
    ensures Inv(Next(s, e).value)
  {
    match e
    case SpawnThread(base) => SpawnInv(s, base);
    case SpawnUser(base, root, frames, userStack) => SpawnIsolatedInv(s, base, root, frames, userStack);
    case YieldNow => YieldInv(s);
    case Tick(skipped) => YieldInv(s);
    case ExitCurrent => ExitInv(s);
    case ReapTask(pid) => ReapInv(s, pid);
  }

  /** The state after a run, None if some step panicked. */
  ghost function Run(s: Sched, es: seq<Event>): (r: Option<Sched>)
    requires Inv(s)
    ensures r.Some? ==> Inv(r.value)
    decreases |es|
  {
    if es == [] then Some(s)
    else match Next(s, es[0])
      case None => None
      case Some(t) => NextInv(s, es[0]); Run(t, es[1..])
  }

  /** One step and the task at position `k` of the queue. */
  lemma OneStepNearer(s: Sched, e: Event, k: nat)
    requires Inv(s) && Next(s, e).Some? && k < |Ready(s)|
    ensures Inv(Next(s, e).value)
    ensures var t := Next(s, e).value;
            if !IsSwitch(e) then k < |Ready(t)| && Ready(t)[k] == Ready(s)[k]
            else if k == 0 then t.current == Ready(s)[0]
            else k - 1 < |Ready(t)| && Ready(t)[k - 1] == Ready(s)[k]
  {
    hide Consistent, NoDup, Yield, Exit, Spawn;
    match e
    case SpawnThread(base) => SpawnInv(s, base);
    case SpawnUser(base, root, frames, userStack) => SpawnIsolatedInv(s, base, root, frames, userStack);
    case YieldNow => YieldInv(s);
    case Tick(skipped) => YieldInv(s);
    case ExitCurrent => ExitInv(s);
    case ReapTask(pid) => ReapInv(s, pid);
  }

  /**
   Bounded waiting: in any run, a task at position `k` of the queue moves up by one with every switch,
   and the switch after the `k`-th runs it.
   */
  lemma {:induction false} BoundedWaiting(s: Sched, es: seq<Event>, k: nat)
    requires Inv(s) && Run(s, es).Some? && k < |Ready(s)|
    ensures Switches(es) <= k ==>
              k - Switches(es) < |Ready(Run(s, es).value)| && Ready(Run(s, es).value)[k - Switches(es)] == Ready(s)[k]
    ensures Switches(es) == k + 1 && IsSwitch(Last(es)) ==> Run(s, es).value.current == Ready(s)[k]
    decreases |es|
  {
    hide Next;
    if es != [] {
      OneStepNearer(s, es[0], k);
      var t := Next(s, es[0]).value;
      if IsSwitch(es[0]) {
        if k == 0 {
          if es[1..] != [] && IsSwitch(Last(es)) {
            assert Last(es[1..]) == Last(es);
            LastSwitchCounts(es[1..]);
          }
        } else {
          BoundedWaiting(t, es[1..], k - 1);
        }
      } else {
        BoundedWaiting(t, es[1..], k);
      }
    }
  }

  lemma {:induction false} LastSwitchCounts(es: seq<Event>)
    requires es != [] && IsSwitch(Last(es))
    ensures Switches(es) >= 1
    decreases |es|
  {
    if |es| > 1 {
      LastSwitchCounts(es[1..]);
    }
  }

  /** `pid` was used and its task is a zombie or already reaped. */
  predicate Dead(s: Sched, pid: Pid) {
    0 < pid < s.nextPid && (pid in s.tasks ==> s.tasks[pid].state == Zombie)
  }

  lemma DeadStep(s: Sched, e: Event, pid: Pid)
    requires Inv(s) && Dead(s, pid) && Next(s, e).Some?
    ensures Dead(Next(s, e).value, pid)
  {
    match e
    case SpawnThread(base) =>
    case SpawnUser(base, root, frames, userStack) =>
    case YieldNow => YieldInv(s);
    case Tick(skipped) => YieldInv(s);
    case ExitCurrent => ExitInv(s);
    case ReapTask(p) =>
  }

  /** A dead task is never queued and never runs again, in any run. */
  lemma {:induction false} DeadForever(s: Sched, es: seq<Event>, pid: Pid)
    requires Inv(s) && Dead(s, pid) && Run(s, es).Some?
    ensures var t := Run(s, es).value; Dead(t, pid) && t.current != pid && pid !in Ready(t)
    decreases |es|
  {
    hide Next;
    if es != [] {
      DeadStep(s, es[0], pid);
      NextInv(s, es[0]);
      DeadForever(Next(s, es[0]).value, es[1..], pid);
    }
  }
}
