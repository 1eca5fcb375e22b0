/** What holds in every run of processes that use semaphores (src/common/sem.c:12-82,
src/kernel/sched.c:73-195). */
module SemaphoreTheorems {
  import opened Basics
  import opened Scheduler
  import opened Semaphore
  import opened SemaphoreRuns

  ghost predicate Step(idle: seq<nat>, a: State, act: Action, b: State) {
    Sizes(a) && RunOk(idle, a.run) && Enabled(idle, a, act) && b == Do(idle, a, act)
  }

  lemma StepInv(idle: seq<nat>, init: seq<int>, a: State, act: Action, b: State)
    requires Inv(idle, init, a) && Step(idle, a, act, b)
    ensures Inv(idle, init, b)
  {
    match act
    case Lock(p, s) => LockInv(idle, init, a, p, s, b);
    case Unlock(p) => UnlockInv(idle, init, a, p, b);
    case Get(p) => GetInv(idle, init, a, p, b);
    case WaitFast(p) => WaitFastInv(idle, init, a, p, b);
    case WaitSlow(p, deep) => WaitSlowInv(idle, init, a, p, deep, b);
    case TakeRunLock(p) => TakeRunLockInv(idle, init, a, p, b);
    case DropLock(p) => DropLockInv(idle, init, a, p, b);
    case Post(p) => PostInv(idle, init, a, p, b);
    case Wake(p) => WakeInv(idle, init, a, p, b);
    case Yield(p) => YieldInv(idle, init, a, p, b);
    case Exit(p) => ExitInv(idle, init, a, p, b);
    case Switch(p, cpu, next, panicking, after) => SwitchInv(idle, init, a, p, cpu, next, panicking, after, b);
    case Release(p) => ReleaseInv(idle, init, a, p, b);
    case Return(p) => ReturnInv(idle, init, a, p, b);
    case Kill(p) => KillInv(idle, init, a, p, b);
    case Rouse(p, onalert) => RouseInv(idle, init, a, p, onalert, b);
  }

  // ---- Runs ----

  /** No lock is taken, nobody waits, and every process is in user code, or suspended by
      yield, or has not begun. */
  ghost predicate Start(idle: seq<nat>, init: seq<int>, a: State) {
    && Sizes(a) && RunOk(idle, a.run) && |init| == |a.sems| && a.runLock == None && a.killed == {}
    && (forall p | 0 <= p < |a.pc| :: a.pc[p] == if a.run.state[p] == Running then User else Resting)
    && (forall p | 0 <= p < |a.pc| :: a.run.state[p] == Unused || Ready(a.run.state[p]))
    && forall s | 0 <= s < |a.sems| ::
      && a.sems[s] == Sem(init[s], []) && init[s] >= 0 && a.locks[s] == None
      && a.posts[s] == 0 && a.grants[s] == 0 && a.held[s] == {}
  }

  lemma StartInv(idle: seq<nat>, init: seq<int>, a: State)
    requires Start(idle, init, a)
    ensures Inv(idle, init, a)
  {
    forall p: nat | p < |a.pc|
      ensures ProcOk(idle, a, p)
    {
    }
    forall s: nat | s < |a.sems|
      ensures SemaOk(init, a, s)
    {
    }
  }

  ghost predicate StepAt(idle: seq<nat>, run: seq<State>, acts: seq<Action>, i: nat)
    requires i < |acts| && |run| == |acts| + 1
  {
    Step(idle, run[i], acts[i], run[i + 1])
  }

  ghost predicate IsRun(idle: seq<nat>, init: seq<int>, run: seq<State>, acts: seq<Action>) {
    && |run| == |acts| + 1 && Start(idle, init, run[0])
    && forall i: nat | i < |acts| :: StepAt(idle, run, acts, i)
  }

  lemma {:induction false} RunInv(idle: seq<nat>, init: seq<int>, run: seq<State>, acts: seq<Action>, k: nat)
    requires IsRun(idle, init, run, acts) && k < |run|
    ensures Inv(idle, init, run[k])
  {
    if k == 0 {
      StartInv(idle, init, run[0]);
    } else {
      var j := k - 1;
      RunInv(idle, init, run, acts, j);
      assert StepAt(idle, run, acts, j);
      StepInv(idle, init, run[j], acts[j], run[k]);
    }
  }

  // ---- The scheduler ----

  /** In every state of every run the run queue holds each ready process but the idle ones
      exactly once and counts them, and the running processes are those current on the
      CPUs, each on one. */
  lemma SchedulerExclusive(idle: seq<nat>, init: seq<int>, run: seq<State>, acts: seq<Action>, k: nat)
    requires IsRun(idle, init, run, acts) && k < |run|
    ensures var r := run[k].run;
      && Unique(r.queue) && r.count == |r.queue| && |r.current| == |idle| && Unique(r.current)
      && (forall p: nat | p < |r.state| :: p in r.queue <==> p !in idle && Ready(r.state[p]))
      && (forall p: nat | p < |r.state| :: p in r.current <==> r.state[p] == Running)
  {
    RunInv(idle, init, run, acts, k);
    var r := run[k].run;
    forall p: nat | p < |r.state| && p in r.current
      ensures r.state[p] == Running
    {
      var c :| 0 <= c < |r.current| && r.current[c] == p;
    }
  }

  /** A process that takes a CPU was waiting for one. The idle process takes it only when no
      queued process could, save in a panic. */
  lemma SwitchFair(idle: seq<nat>, init: seq<int>, run: seq<State>, acts: seq<Action>, k: nat)
    requires IsRun(idle, init, run, acts) && k < |acts| && acts[k].Switch? && run[k + 1].runLock == Some(acts[k].next)
    ensures var r, r', act := run[k].run, run[k + 1].run, acts[k];
      && act.next < |r.state| == |r'.state| && r'.state[act.next] == Running
      && (act.next != act.p ==> r.state[act.next] == Runnable)
      && (act.next in idle && !act.panicking ==> forall p <- r'.queue :: p < |r'.state| && r'.state[p] == Running)
  {
    RunInv(idle, init, run, acts, k);
    assert StepAt(idle, run, acts, k);
    var a, act := run[k], acts[k];
    assert ProcOk(idle, a, act.p);
    ScheduledStates(idle, a.run, act.cpu, Target(a.pc[act.p]), act.panicking, act.next, act.after);
    RunInv(idle, init, run, acts, k + 1);
  }

  // ---- Semaphores ----

  /** The length of a sleep list is what the counter is short of zero. So the assertion of
      _post_sem holds, and that of _wait_sem. */
  lemma SleepListLength(idle: seq<nat>, init: seq<int>, run: seq<State>, acts: seq<Action>, k: nat, s: nat)
    requires IsRun(idle, init, run, acts) && k < |run| && s < |run[k].sems|
    ensures var m := run[k].sems[s];
      && |m.waiting| == Max(0, -m.val)
      && (m.val + 1 <= 0 ==> m.waiting != [])
      && (forall p <- m.waiting :: m.val + 1 <= 0)
  {
    RunInv(idle, init, run, acts, k);
    assert SemaOk(init, run[k], s);
  }

  /** While the lock of its semaphore is free, a process in _wait_sem is on the sleep list
      or has been posted for; in the second case it does not sleep. */
  ghost predicate NoneForgotten(a: State)
    requires Sizes(a)
  {
    forall p | 0 <= p < |a.pc| && IsWaiting(a.pc[p]) && a.locks[a.pc[p].sem] == None ::
      && (a.up[p] <==> p !in a.sems[a.pc[p].sem].waiting)
      && (a.up[p] ==> Ready(a.run.state[p]))
  }

  /** No wakeup is lost in any run. */
  lemma NoLostWakeup(idle: seq<nat>, init: seq<int>, run: seq<State>, acts: seq<Action>, k: nat)
    requires IsRun(idle, init, run, acts) && k < |run|
    ensures Sizes(run[k]) && NoneForgotten(run[k])
  {
    RunInv(idle, init, run, acts, k);
    var a := run[k];
    forall p | 0 <= p < |a.pc| && IsWaiting(a.pc[p]) && a.locks[a.pc[p].sem] == None
      ensures a.up[p] <==> p !in a.sems[a.pc[p].sem].waiting
      ensures a.up[p] ==> Ready(a.run.state[p])
    {
      assert ProcOk(idle, a, p) && SemaOk(init, a, a.pc[p].sem);
    }
  }

  /** A wait fails exactly if nobody has posted for it, so that it is still on the sleep list;
      one that cannot be alerted fails only in a process that has been killed. */
  lemma UnalertableWait(idle: seq<nat>, init: seq<int>, run: seq<State>, acts: seq<Action>, k: nat)
    requires IsRun(idle, init, run, acts) && k < |acts| && acts[k].Return?
    ensures var a, p := run[k], acts[k].p;
      && Sizes(a) && p < |a.pc| && a.pc[p].Back?
      && (a.up[p] <==> p !in a.sems[a.pc[p].sem].waiting)
      && (a.pc[p].deep ==> a.up[p] || Kill(p) in acts[..k])
  {
    RunInv(idle, init, run, acts, k);
    KilledMeans(idle, init, run, acts, k, acts[k].p);
    assert StepAt(idle, run, acts, k);
    assert ProcOk(idle, run[k], acts[k].p) && SemaOk(init, run[k], run[k].pc[acts[k].p].sem);
  }

  lemma Extend(idle: seq<nat>, init: seq<int>, run: seq<State>, acts: seq<Action>, act: Action) returns (b: State)
    requires IsRun(idle, init, run, acts)
    requires Sizes(run[|acts|]) && RunOk(idle, run[|acts|].run) && Enabled(idle, run[|acts|], act)
    ensures b == Do(idle, run[|acts|], act) && IsRun(idle, init, run + [b], acts + [act]) && Inv(idle, init, b)
  {
    b := Do(idle, run[|acts|], act);
    var run', acts' := run + [b], acts + [act];
    forall i: nat | i < |acts'|
      ensures StepAt(idle, run', acts', i)
    {
      if i < |acts| {
        assert StepAt(idle, run, acts, i);
      }
    }
    RunInv(idle, init, run', acts', |acts'|);
  }

  /** Whoever waits for a semaphore that is not up comes to the point of leaving the CPU. */
  lemma GoesToSleep(idle: seq<nat>, init: seq<int>, a: State, p: nat, s: nat) returns (run: seq<State>, acts: seq<Action>)
    requires Start(idle, init, a) && p < |a.pc| && p !in idle && a.run.state[p] == Running && s < |init| && init[s] == 0
    ensures IsRun(idle, init, run, acts) && run[0] == a
    ensures var b := run[|acts|]; Inv(idle, init, b) && p < |b.pc| && b.pc[p] == Leaving(s, true) && !b.up[p] && b.locks[s] == None
  {
    run, acts := [a], [];
    var b := Extend(idle, init, run, acts, Lock(p, s));
    run, acts := run + [b], acts + [Lock(p, s)];
    b := Extend(idle, init, run, acts, WaitSlow(p, true));
    run, acts := run + [b], acts + [WaitSlow(p, true)];
    b := Extend(idle, init, run, acts, TakeRunLock(p));
    run, acts := run + [b], acts + [TakeRunLock(p)];
    b := Extend(idle, init, run, acts, DropLock(p));
    run, acts := run + [b], acts + [DropLock(p)];
  }

  /** And such a wait does fail: there the waiter can be killed, and returns without the
      semaphore. */
  lemma KilledWait(idle: seq<nat>, init: seq<int>, a: State, p: nat, s: nat) returns (run: seq<State>, acts: seq<Action>)
    requires Start(idle, init, a) && p < |a.pc| && p !in idle && a.run.state[p] == Running && s < |init| && init[s] == 0
    ensures IsRun(idle, init, run, acts) && |acts| > 0 && run[0] == a && acts[|acts| - 1] == Return(p)
    ensures var b := run[|acts| - 1]; Sizes(b) && p < |b.pc| && b.pc[p] == Back(s, true) && !b.up[p]
  {
    run, acts := GoesToSleep(idle, init, a, p, s);
    var b := Extend(idle, init, run, acts, Kill(p));
    run, acts := run + [b], acts + [Kill(p)];
    assert ProcOk(idle, b, p) && p in b.run.current;
    var c :| 0 <= c < |idle| && b.run.current[c] == p;
    var stay := Switch(p, c, p, false, b.run);
    b := Extend(idle, init, run, acts, stay);
    run, acts := run + [b], acts + [stay];
    b := Extend(idle, init, run, acts, Return(p));
    run, acts := run + [b], acts + [Return(p)];
  }

  // ---- Processes that have exited ----

  /** Somebody activates `p`, which has exited. */
  ghost predicate RousesGone(run: seq<State>, acts: seq<Action>, j: nat, p: nat)
    requires j < |acts| && |run| == |acts| + 1
  {
    acts[j].Rouse? && acts[j].p == p && p < |run[j].pc| && run[j].pc[p] == Gone
  }

  lemma GoneFits(idle: seq<nat>, init: seq<int>, a: State, p: nat)
    requires Inv(idle, init, a) && p < |a.pc| && a.pc[p] == Gone
    ensures a.run.state[p] == Zombie || Ready(a.run.state[p])
  {
    assert ProcOk(idle, a, p);
  }

  lemma SwitchGone(idle: seq<nat>, init: seq<int>, a: State, act: Action, b: State, p: nat)
    requires Inv(idle, init, a) && Step(idle, a, act, b) && act.Switch? && p < |a.pc| && a.pc[p] == Gone
    ensures p < |b.run.state| && (Ready(b.run.state[p]) <==> Ready(a.run.state[p]))
  {
    assert ProcOk(idle, a, act.p);
    if !(act.p in a.killed && !a.pc[act.p].Exiting?) {
      ScheduledStates(idle, a.run, act.cpu, Target(a.pc[act.p]), act.panicking, act.next, act.after);
    }
  }

  /** One step of a process that has exited: it stays so, and sleeps until it is roused. */
  lemma GoneStep(idle: seq<nat>, init: seq<int>, a: State, act: Action, b: State, p: nat)
    requires Inv(idle, init, a) && Step(idle, a, act, b) && Inv(idle, init, b) && p < |a.pc| && a.pc[p] == Gone
    ensures p < |b.pc| && b.pc[p] == Gone
    ensures Ready(b.run.state[p]) <==> Ready(a.run.state[p]) || (act.Rouse? && act.p == p)
    ensures a.killed <= b.killed && (act.Rouse? && act.p == p ==> p in a.killed || act == Rouse(p, true))
  {
    assert ProcOk(idle, a, p) && ProcOk(idle, b, p);
    if act.Switch? {
      SwitchGone(idle, init, a, act, b, p);
    } else if act.Wake? {
      assert ProcOk(idle, a, act.p);
    }
  }

  /** A process exits in one step, asleep for good. */
  lemma GoneBegins(idle: seq<nat>, init: seq<int>, a: State, act: Action, b: State, p: nat)
    requires Inv(idle, init, a) && Step(idle, a, act, b) && p < |a.pc| == |b.pc| && a.pc[p] != Gone && b.pc[p] == Gone
    ensures p < |b.run.state| && b.run.state[p] == Zombie
  {
    assert act.Switch? && act.p == p && a.pc[p].Exiting?;
    assert ProcOk(idle, a, p);
    ScheduledStates(idle, a.run, act.cpu, Zombie, act.panicking, act.next, act.after);
  }

  lemma {:induction false} GoneForGood(idle: seq<nat>, init: seq<int>, run: seq<State>, acts: seq<Action>, j: nat, k: nat, p: nat)
    requires IsRun(idle, init, run, acts) && j <= k < |run| && p < |run[j].pc| && run[j].pc[p] == Gone
    ensures p < |run[k].pc| && run[k].pc[p] == Gone
    decreases k
  {
    if j == k {
    } else {
      GoneForGood(idle, init, run, acts, j, k - 1, p);
      assert StepAt(idle, run, acts, k - 1);
      RunInv(idle, init, run, acts, k - 1);
      RunInv(idle, init, run, acts, k);
      GoneStep(idle, init, run[k - 1], acts[k - 1], run[k], p);
    }
  }

  /** What a run so far says of a process `p` that has exited: it is ready to run again
      exactly if somebody has activated it since, and then it has been killed or alerted. */
  ghost predicate AsleepUnlessRoused(run: seq<State>, acts: seq<Action>, k: nat, p: nat)
    requires |run| == |acts| + 1 && k < |run| && p < |run[k].run.state|
  {
    && (Ready(run[k].run.state[p]) <==> exists j: nat :: j < k && RousesGone(run, acts, j, p))
    && (Ready(run[k].run.state[p]) ==> p in run[k].killed || exists j: nat :: j < k && acts[j] == Rouse(p, true))
  }

  lemma RousedNext(idle: seq<nat>, init: seq<int>, run: seq<State>, acts: seq<Action>, i: nat, p: nat)
    requires |run| == |acts| + 1 && i < |acts| && Inv(idle, init, run[i]) && Inv(idle, init, run[i + 1])
    requires Step(idle, run[i], acts[i], run[i + 1]) && p < |run[i].pc| && run[i].pc[p] == Gone
    requires AsleepUnlessRoused(run, acts, i, p)
    ensures p < |run[i + 1].run.state| && AsleepUnlessRoused(run, acts, i + 1, p)
  {
    GoneStep(idle, init, run[i], acts[i], run[i + 1], p);
    if j: nat :| j < i + 1 && RousesGone(run, acts, j, p) {
      assert j == i || j < i;
    }
    assert RousesGone(run, acts, i, p) <==> acts[i].Rouse? && acts[i].p == p;
  }

  lemma NotRousedBefore(idle: seq<nat>, init: seq<int>, run: seq<State>, acts: seq<Action>, i: nat, p: nat)
    requires IsRun(idle, init, run, acts) && i < |acts| && p < |run[i].pc| && run[i].pc[p] != Gone
    ensures forall j: nat | j < i + 1 :: !RousesGone(run, acts, j, p)
  {
    forall j: nat | j < i + 1
      ensures !RousesGone(run, acts, j, p)
    {
      if RousesGone(run, acts, j, p) {
        GoneForGood(idle, init, run, acts, j, i, p);
      }
    }
  }

  lemma GoneNext(idle: seq<nat>, init: seq<int>, run: seq<State>, acts: seq<Action>, i: nat, p: nat)
    requires IsRun(idle, init, run, acts) && i < |acts| && p < |run[i + 1].pc| && run[i + 1].pc[p] == Gone
    requires p < |run[i].pc| && p < |run[i].run.state| && (run[i].pc[p] == Gone ==> AsleepUnlessRoused(run, acts, i, p))
    ensures p < |run[i + 1].run.state| && AsleepUnlessRoused(run, acts, i + 1, p)
  {
    RunInv(idle, init, run, acts, i);
    RunInv(idle, init, run, acts, i + 1);
    assert StepAt(idle, run, acts, i);
    if run[i].pc[p] == Gone {
      RousedNext(idle, init, run, acts, i, p);
    } else {
      GoneBegins(idle, init, run[i], acts[i], run[i + 1], p);
      NotRousedBefore(idle, init, run, acts, i, p);
    }
  }

  lemma StepSizes(idle: seq<nat>, init: seq<int>, run: seq<State>, acts: seq<Action>, i: nat)
    requires IsRun(idle, init, run, acts) && i < |acts|
    ensures |run[i].pc| == |run[i].run.state| == |run[i + 1].pc| == |run[i + 1].run.state|
  {
    RunInv(idle, init, run, acts, i);
    RunInv(idle, init, run, acts, i + 1);
    assert StepAt(idle, run, acts, i);
  }

  /** In every run a process that has exited is a zombie until somebody activates it. */
  lemma {:induction false} GoneUntilRoused(idle: seq<nat>, init: seq<int>, run: seq<State>, acts: seq<Action>, k: nat, p: nat)
    requires IsRun(idle, init, run, acts) && k < |run| && p < |run[k].pc| && run[k].pc[p] == Gone
    ensures p < |run[k].run.state| && (run[k].run.state[p] == Zombie || Ready(run[k].run.state[p]))
    ensures AsleepUnlessRoused(run, acts, k, p)
    decreases k
  {
    RunInv(idle, init, run, acts, k);
    GoneFits(idle, init, run[k], p);
    if k == 0 {
    } else {
      StepSizes(idle, init, run, acts, k - 1);
      if run[k - 1].pc[p] == Gone {
        GoneUntilRoused(idle, init, run, acts, k - 1, p);
      }
      GoneNext(idle, init, run, acts, k - 1, p);
    }
  }

  /** Whom the scheduler can always pick. */
  lemma SomeNext(idle: seq<nat>, r: RunState, c: nat) returns (next: nat)
    requires RunOk(idle, r) && c < |idle| && r.current[c] !in idle
    ensures next < |r.state| && next != r.current[c] && Pick(idle, Left(r, c, Zombie), c, false, next)
  {
    var l := Left(r, c, Zombie);
    LeftBetween(idle, r, c, Zombie);
    if p :| p in l.queue && p < |l.state| && l.state[p] == Runnable {
      next := p;
    } else {
      next := idle[c];
    }
    NextRunnable(idle, l, c, false, next);
  }

  lemma ExitBegins(idle: seq<nat>, init: seq<int>, a: State, p: nat) returns (b: State, c: nat)
    requires Start(idle, init, a) && p < |a.pc| && p !in idle && a.run.state[p] == Running
    ensures IsRun(idle, init, [a, b], [Exit(p)]) && Inv(idle, init, b) && c < |idle| && b.run.current[c] == p
    ensures b.pc == a.pc[p := Exiting] && b.run == a.run
  {
    assert IsRun(idle, init, [a], []);
    b := Extend(idle, init, [a], [], Exit(p));
    assert [a] + [b] == [a, b] && [] + [Exit(p)] == [Exit(p)];
    assert p in a.run.current;
    c :| 0 <= c < |idle| && b.run.current[c] == p;
  }

  /** Every process can exit. */
  lemma Exits(idle: seq<nat>, init: seq<int>, a: State, p: nat) returns (run: seq<State>, acts: seq<Action>, next: nat)
    requires Start(idle, init, a) && p < |a.pc| && p !in idle && a.run.state[p] == Running
    ensures IsRun(idle, init, run, acts) && |acts| == 2 && run[0] == a
    ensures var b := run[2]; Inv(idle, init, b) && p < |b.pc| && b.pc[p] == Gone && b.run.state[p] == Zombie
    ensures var b := run[2]; next < |b.pc| && On(b, next) && b.pc[next] == Resting
  {
    var b, c := ExitBegins(idle, init, a, p);
    next := SomeNext(idle, b.run, c);
    var leave := Switch(p, c, next, false, Entered(Left(b.run, c, Zombie), c, next));
    var d := Extend(idle, init, [a, b], [Exit(p)], leave);
    run, acts := [a, b] + [d], [Exit(p)] + [leave];
    assert ProcOk(idle, d, next) && ProcOk(idle, d, p);
  }

  /** And one that has exited can be killed, and so be ready to run again. */
  lemma KilledZombie(idle: seq<nat>, init: seq<int>, a: State, p: nat) returns (run: seq<State>, acts: seq<Action>)
    requires Start(idle, init, a) && p < |a.pc| && p !in idle && a.run.state[p] == Running
    ensures IsRun(idle, init, run, acts) && |acts| == 5 && run[0] == a && acts[3] == Kill(p) && acts[4] == Rouse(p, false)
    ensures var b := run[5]; p < |b.pc| == |b.run.state| && b.pc[p] == Gone && b.run.state[p] == Runnable
  {
    var next;
    run, acts, next := Exits(idle, init, a, p);
    var b := Extend(idle, init, run, acts, Release(next));
    run, acts := run + [b], acts + [Release(next)];
    b := Extend(idle, init, run, acts, Kill(p));
    run, acts := run + [b], acts + [Kill(p)];
    b := Extend(idle, init, run, acts, Rouse(p, false));
    run, acts := run + [b], acts + [Rouse(p, false)];
  }

  // ---- Order of service ----

  /** The number of waiters on the sleep list that came before the one at `i`. */
  function Ahead(m: Sem, i: nat): int { |m.waiting| - 1 - i }

  lemma {:induction false} DetachAt(q: seq<nat>, x: nat, i: nat) returns (j: nat)
    requires i < |q| && q[i] != x
    ensures j < |Detach(q, x)| && Detach(q, x)[j] == q[i] && |Detach(q, x)| - j <= |q| - i
  {
    if q[0] == x {
      j := i - 1;
    } else if i == 0 {
      j := 0;
      DetachShorter(q[1..], x);
    } else {
      var j' := DetachAt(q[1..], x, i - 1);
      j := j' + 1;
    }
  }

  lemma DetachShorter(q: seq<nat>, x: nat)
    ensures |Detach(q, x)| <= |q|
  {
  }

  /** A step brings a waiter nearer to the front by the number of posts, or further. */
  lemma AheadStep(idle: seq<nat>, init: seq<int>, a: State, act: Action, b: State, s: nat, i: nat) returns (j: nat)
    requires Inv(idle, init, a) && Step(idle, a, act, b) && s < |a.sems| == |b.sems|
    requires i < |a.sems[s].waiting| && a.sems[s].waiting[i] in b.sems[s].waiting
    ensures j < |b.sems[s].waiting| && b.sems[s].waiting[j] == a.sems[s].waiting[i] && |b.posts| == |a.posts|
    ensures Ahead(b.sems[s], j) + b.posts[s] <= Ahead(a.sems[s], i) + a.posts[s]
  {
    j := i;
    assert SemaOk(init, a, s);
    if act.WaitSlow? && a.pc[act.p].sem == s {
      j := i + 1;
    } else if act.Post? && a.pc[act.p].sem == s {
      PostedKeeps(a.sems[s]);
    } else if act.Return? && a.pc[act.p].sem == s && !a.up[act.p] {
      assert ProcOk(idle, a, act.p);
      CancelledOk(a.sems[s], act.p);
      j := DetachAt(a.sems[s].waiting, act.p, i);
    } else {
      SemStays(idle, a, act, b, s);
    }
  }

  lemma SemStays(idle: seq<nat>, a: State, act: Action, b: State, s: nat)
    requires Step(idle, a, act, b) && s < |a.sems| == |b.sems|
    requires (act.WaitSlow? || act.Post? || (act.Return? && !a.up[act.p])) ==> a.pc[act.p].sem != s
    ensures |b.posts| == |a.posts| && b.posts[s] == a.posts[s] && b.sems[s].waiting == a.sems[s].waiting
  {
  }

  /** From state `i` to state `k` process `p` is on the sleep list of `s` throughout. */
  ghost predicate Stays(run: seq<State>, i: nat, k: nat, s: nat, p: nat) {
    i <= k < |run| && forall j: nat | i <= j <= k :: s < |run[j].sems| && p in run[j].sems[s].waiting
  }

  lemma {:induction false} Nearer(idle: seq<nat>, init: seq<int>, run: seq<State>, acts: seq<Action>, i: nat, k: nat, s: nat, x: nat) returns (y: nat)
    requires IsRun(idle, init, run, acts) && i <= k < |run| && s < |run[i].sems| && x < |run[i].sems[s].waiting|
    requires Stays(run, i, k, s, run[i].sems[s].waiting[x])
    ensures Sizes(run[i]) && Sizes(run[k]) && s < |run[k].sems|
    ensures y < |run[k].sems[s].waiting| && run[k].sems[s].waiting[y] == run[i].sems[s].waiting[x]
    ensures Ahead(run[k].sems[s], y) + run[k].posts[s] <= Ahead(run[i].sems[s], x) + run[i].posts[s]
    decreases k
  {
    RunInv(idle, init, run, acts, k);
    if i == k {
      y := x;
    } else {
      var j := k - 1;
      var z := Nearer(idle, init, run, acts, i, j, s, x);
      RunInv(idle, init, run, acts, j);
      assert StepAt(idle, run, acts, j);
      y := AheadStep(idle, init, run[j], acts[j], run[k], s, z);
    }
  }

  /** Waiters are served in the order of their arrival: a process does not stay on the
      sleep list through more posts than there were waiters before it. */
  lemma ServedInOrder(idle: seq<nat>, init: seq<int>, run: seq<State>, acts: seq<Action>, i: nat, k: nat, s: nat, x: nat)
    requires IsRun(idle, init, run, acts) && i <= k < |run| && s < |init| && s < |run[i].sems| && x < |run[i].sems[s].waiting|
    requires Stays(run, i, k, s, run[i].sems[s].waiting[x])
    ensures PostCount(run, acts, k, s) - PostCount(run, acts, i, s) <= Ahead(run[i].sems[s], x)
  {
    var y := Nearer(idle, init, run, acts, i, k, s, x);
    Counted(idle, init, run, acts, i, s);
    Counted(idle, init, run, acts, k, s);
  }

  // ---- What the actions say ----

  /** In state `a` the action posts semaphore `s`. */
  ghost predicate PostsOn(a: State, act: Action, s: nat) {
    act.Post? && act.p < |a.pc| && a.pc[act.p] == Holding(s)
  }

  /** ... takes it without waiting. */
  ghost predicate TakesOn(a: State, act: Action, s: nat) {
    (act.Get? || act.WaitFast?) && act.p < |a.pc| && a.pc[act.p] == Holding(s)
  }

  /** ... posts it for a process that waits. */
  ghost predicate Serves(a: State, act: Action, s: nat) {
    PostsOn(a, act, s) && s < |a.sems| && a.sems[s].waiting != []
  }

  /** ... grants it to process `p`: who takes it, or who has waited longest. */
  ghost predicate GrantsTo(a: State, act: Action, s: nat, p: nat) {
    || (TakesOn(a, act, s) && act.p == p)
    || (Serves(a, act, s) && a.sems[s].waiting[|a.sems[s].waiting| - 1] == p)
  }

  /** The posts of `s` in the first `k` actions, and the grants. */
  ghost function PostCount(run: seq<State>, acts: seq<Action>, k: nat, s: nat): nat
    requires k <= |acts| < |run|
  {
    if k == 0 then 0 else PostCount(run, acts, k - 1, s) + if PostsOn(run[k - 1], acts[k - 1], s) then 1 else 0
  }

  ghost function GrantCount(run: seq<State>, acts: seq<Action>, k: nat, s: nat): nat
    requires k <= |acts| < |run|
  {
    if k == 0 then 0
    else GrantCount(run, acts, k - 1, s) + if TakesOn(run[k - 1], acts[k - 1], s) || Serves(run[k - 1], acts[k - 1], s) then 1 else 0
  }

  /** What an action does to the history of a semaphore. */
  lemma HistoryStep(idle: seq<nat>, init: seq<int>, a: State, act: Action, b: State, s: nat)
    requires Inv(idle, init, a) && Step(idle, a, act, b) && s < |a.sems|
    ensures s < |b.posts| && s < |b.grants| && s < |b.held|
    ensures b.posts[s] == a.posts[s] + if PostsOn(a, act, s) then 1 else 0
    ensures b.grants[s] == a.grants[s] + if TakesOn(a, act, s) || Serves(a, act, s) then 1 else 0
    ensures forall p: nat :: p in b.held[s] <==> GrantsTo(a, act, s, p) || (p in a.held[s] && !(PostsOn(a, act, s) && act.p == p))
  {
    assert SemaOk(init, a, s);
    if act.Post? {
      PostHistory(idle, init, a, act.p, b, s);
    }
  }

  lemma PostHistory(idle: seq<nat>, init: seq<int>, a: State, p: nat, b: State, s: nat)
    requires Inv(idle, init, a) && Step(idle, a, Post(p), b) && s < |a.sems|
    ensures s < |b.posts| && s < |b.grants| && s < |b.held|
    ensures b.posts[s] == a.posts[s] + if PostsOn(a, Post(p), s) then 1 else 0
    ensures b.grants[s] == a.grants[s] + if Serves(a, Post(p), s) then 1 else 0
    ensures forall q: nat :: q in b.held[s] <==> GrantsTo(a, Post(p), s, q) || (q in a.held[s] && !(PostsOn(a, Post(p), s) && p == q))
  {
    var t := a.pc[p].sem;
    assert SemaOk(init, a, t);
    assert ProcOk(idle, a, p);
    if a.sems[t].waiting != [] {
      var w := a.sems[t].waiting[|a.sems[t].waiting| - 1];
      assert Waits(a.pc[w], t) && w != p;
    }
  }

  lemma HistoryNext(idle: seq<nat>, init: seq<int>, run: seq<State>, acts: seq<Action>, i: nat, s: nat)
    requires IsRun(idle, init, run, acts) && i < |acts| && s < |init|
    ensures |run[i].sems| == |run[i].posts| == |run[i].grants| == |run[i].held| == |init|
    ensures |run[i + 1].sems| == |run[i + 1].posts| == |run[i + 1].grants| == |run[i + 1].held| == |init|
    ensures run[i + 1].posts[s] == run[i].posts[s] + if PostsOn(run[i], acts[i], s) then 1 else 0
    ensures run[i + 1].grants[s] == run[i].grants[s] + if TakesOn(run[i], acts[i], s) || Serves(run[i], acts[i], s) then 1 else 0
    ensures forall p: nat :: p in run[i + 1].held[s] <==>
      GrantsTo(run[i], acts[i], s, p) || (p in run[i].held[s] && !(PostsOn(run[i], acts[i], s) && acts[i].p == p))
  {
    RunInv(idle, init, run, acts, i);
    RunInv(idle, init, run, acts, i + 1);
    assert StepAt(idle, run, acts, i);
    HistoryStep(idle, init, run[i], acts[i], run[i + 1], s);
  }

  lemma {:induction false} Counted(idle: seq<nat>, init: seq<int>, run: seq<State>, acts: seq<Action>, k: nat, s: nat)
    requires IsRun(idle, init, run, acts) && k < |run| && s < |init|
    ensures |run[k].posts| == |run[k].grants| == |init|
    ensures run[k].posts[s] == PostCount(run, acts, k, s) && run[k].grants[s] == GrantCount(run, acts, k, s)
  {
    if k == 0 {
    } else {
      Counted(idle, init, run, acts, k - 1, s);
      HistoryNext(idle, init, run, acts, k - 1, s);
    }
  }

  /** In every run the units of a semaphore are accounted for: what it began with and the
      posts make up its counter, or else the waiters, and the grants. */
  lemma Conservation(idle: seq<nat>, init: seq<int>, run: seq<State>, acts: seq<Action>, k: nat, s: nat)
    requires IsRun(idle, init, run, acts) && k < |run| && s < |init|
    ensures s < |run[k].sems|
    ensures run[k].sems[s].val + |run[k].sems[s].waiting| + GrantCount(run, acts, k, s) == init[s] + PostCount(run, acts, k, s)
  {
    Counted(idle, init, run, acts, k, s);
    RunInv(idle, init, run, acts, k);
    assert SemaOk(init, run[k], s);
  }

  /** After `k` actions `p` holds a unit of `s`: it was granted one, and has not posted `s`
      since. */
  ghost predicate HoldsSince(run: seq<State>, acts: seq<Action>, k: nat, s: nat, p: nat, i: nat)
    requires k <= |acts| < |run|
  {
    && i < k && GrantsTo(run[i], acts[i], s, p)
    && forall m: nat | i < m < k :: !(PostsOn(run[m], acts[m], s) && acts[m].p == p)
  }

  ghost predicate Holds(run: seq<State>, acts: seq<Action>, k: nat, s: nat, p: nat)
    requires k <= |acts| < |run|
  {
    exists i: nat :: HoldsSince(run, acts, k, s, p, i)
  }

  lemma HoldsNext(run: seq<State>, acts: seq<Action>, j: nat, s: nat, p: nat)
    requires j < |acts| < |run|
    ensures Holds(run, acts, j + 1, s, p) <==>
      GrantsTo(run[j], acts[j], s, p) || (Holds(run, acts, j, s, p) && !(PostsOn(run[j], acts[j], s) && acts[j].p == p))
  {
    var k := j + 1;
    if Holds(run, acts, k, s, p) {
      var i: nat :| HoldsSince(run, acts, k, s, p, i);
      if i < j {
        assert HoldsSince(run, acts, j, s, p, i);
      }
    }
    if GrantsTo(run[j], acts[j], s, p) {
      assert HoldsSince(run, acts, k, s, p, j);
    } else if Holds(run, acts, j, s, p) && !(PostsOn(run[j], acts[j], s) && acts[j].p == p) {
      var i: nat :| HoldsSince(run, acts, j, s, p, i);
      assert HoldsSince(run, acts, k, s, p, i);
    }
  }

  lemma {:induction false} HeldMeans(idle: seq<nat>, init: seq<int>, run: seq<State>, acts: seq<Action>, k: nat, s: nat, p: nat)
    requires IsRun(idle, init, run, acts) && k < |run| && s < |init|
    ensures s < |run[k].held| && (p in run[k].held[s] <==> Holds(run, acts, k, s, p))
  {
    if k == 0 {
    } else {
      HeldMeans(idle, init, run, acts, k - 1, s, p);
      HistoryNext(idle, init, run, acts, k - 1, s);
      HoldsNext(run, acts, k - 1, s, p);
    }
  }

  /** A process is marked as killed exactly if somebody has killed it. */
  lemma {:induction false} KilledMeans(idle: seq<nat>, init: seq<int>, run: seq<State>, acts: seq<Action>, k: nat, p: nat)
    requires IsRun(idle, init, run, acts) && k < |run|
    ensures p in run[k].killed <==> Kill(p) in acts[..k]
  {
    if k == 0 {
    } else {
      KilledMeans(idle, init, run, acts, k - 1, p);
      assert StepAt(idle, run, acts, k - 1);
      assert acts[..k] == acts[..k - 1] + [acts[k - 1]];
    }
  }

  // ---- Sleep locks ----

  /** Semaphore `s` is used as a sleep lock: only a holder posts it. */
  ghost predicate AsLock(run: seq<State>, acts: seq<Action>, s: nat)
    requires |run| == |acts| + 1
  {
    forall i: nat | i < |acts| :: PostsHeld(run, acts, i, s)
  }

  ghost predicate PostsHeld(run: seq<State>, acts: seq<Action>, i: nat, s: nat)
    requires i < |acts| < |run|
  {
    PostsOn(run[i], acts[i], s) ==> Holds(run, acts, i, s, acts[i].p)
  }

  /** Those granted the lock that have not posted since are as many as the counter says,
      and a waiter that has been posted for is one of them. */
  ghost predicate HeldOk(a: State, s: nat)
    requires Sizes(a) && s < |a.sems|
  {
    && |a.held[s]| == a.grants[s] - a.posts[s]
    && forall p | 0 <= p < |a.pc| && Waits(a.pc[p], s) && a.up[p] :: p in a.held[s]
  }

  lemma HeldGrant(idle: seq<nat>, init: seq<int>, a: State, act: Action, q: nat, b: State, s: nat)
    requires Inv(idle, init, a) && Step(idle, a, act, b) && Sizes(b) && s < |a.sems| == |b.sems| && init[s] == 1
    requires HeldOk(a, s) && (act == Get(q) || act == WaitFast(q))
    ensures HeldOk(b, s)
  {
    assert SemaOk(init, a, s);
    if a.pc[q].sem == s {
      assert a.held[s] == {};
      assert b.held[s] == {q};
    }
  }

  /** Steps that grant nothing and post nothing. */
  lemma HeldOther(idle: seq<nat>, a: State, act: Action, b: State, s: nat)
    requires Step(idle, a, act, b) && Sizes(b) && s < |a.sems| == |b.sems| && HeldOk(a, s)
    requires !act.Get? && !act.WaitFast? && !act.Post?
    ensures HeldOk(b, s)
  {
    assert b.held == a.held && b.grants == a.grants && b.posts == a.posts;
    assert forall p | 0 <= p < |b.pc| && Waits(b.pc[p], s) && b.up[p] :: Waits(a.pc[p], s) && a.up[p];
  }

  lemma HeldStep(idle: seq<nat>, init: seq<int>, a: State, act: Action, b: State, s: nat)
    requires Inv(idle, init, a) && Step(idle, a, act, b) && Sizes(b) && s < |a.sems| == |b.sems| && init[s] == 1
    requires HeldOk(a, s) && (PostsOn(a, act, s) ==> act.p in a.held[s])
    ensures HeldOk(b, s)
  {
    if act.Get? || act.WaitFast? {
      HeldGrant(idle, init, a, act, act.p, b, s);
    } else if act.Post? {
      if a.pc[act.p].sem == s {
        HeldPost(idle, init, a, act.p, b, s);
      } else {
        assert SemaOk(init, a, a.pc[act.p].sem);
      }
    } else {
      HeldOther(idle, a, act, b, s);
    }
  }

  lemma HeldPost(idle: seq<nat>, init: seq<int>, a: State, q: nat, b: State, s: nat)
    requires Inv(idle, init, a) && Step(idle, a, Post(q), b) && Sizes(b) && s < |a.sems| == |b.sems| && init[s] == 1
    requires HeldOk(a, s) && a.pc[q] == Holding(s) && q in a.held[s]
    ensures HeldOk(b, s)
  {
    assert SemaOk(init, a, s);
    Singleton(a.held[s], q);
    if a.sems[s].waiting != [] {
      var w := a.sems[s].waiting[|a.sems[s].waiting| - 1];
      assert Waits(a.pc[w], s) && w != q;
      assert b.held[s] == {w};
    } else {
      assert b.held[s] == {};
    }
  }

  lemma Singleton(h: set<nat>, q: nat)
    requires q in h && |h| <= 1
    ensures h == {q}
  {
    assert |h - {q}| == |h| - 1;
  }

  lemma {:induction false} HeldOnce(idle: seq<nat>, init: seq<int>, run: seq<State>, acts: seq<Action>, k: nat, s: nat)
    requires IsRun(idle, init, run, acts) && k < |run| && s < |init| && init[s] == 1 && AsLock(run, acts, s)
    ensures Sizes(run[k]) && |run[k].sems| == |init| && HeldOk(run[k], s) && |run[k].held[s]| <= 1
  {
    RunInv(idle, init, run, acts, k);
    assert SemaOk(init, run[k], s);
    if k == 0 {
    } else {
      var j := k - 1;
      HeldOnce(idle, init, run, acts, j, s);
      RunInv(idle, init, run, acts, j);
      assert StepAt(idle, run, acts, j) && PostsHeld(run, acts, j, s);
      HeldMeans(idle, init, run, acts, j, s, acts[j].p);
      HeldStep(idle, init, run[j], acts[j], run[k], s);
    }
  }

  /** A sleep lock has one holder at most, at every moment of every run. */
  lemma SleepLockExclusive(idle: seq<nat>, init: seq<int>, run: seq<State>, acts: seq<Action>, k: nat, s: nat, p: nat, q: nat)
    requires IsRun(idle, init, run, acts) && k < |run| && s < |init| && init[s] == 1 && AsLock(run, acts, s)
    requires Holds(run, acts, k, s, p) && Holds(run, acts, k, s, q)
    ensures p == q
  {
    HeldOnce(idle, init, run, acts, k, s);
    HeldMeans(idle, init, run, acts, k, s, p);
    HeldMeans(idle, init, run, acts, k, s, q);
    Singleton(run[k].held[s], p);
  }

  /** It has one exactly if it is not free to be taken. */
  lemma SleepLockTaken(idle: seq<nat>, init: seq<int>, run: seq<State>, acts: seq<Action>, k: nat, s: nat)
    requires IsRun(idle, init, run, acts) && k < |run| && s < |init| && init[s] == 1 && AsLock(run, acts, s)
    ensures s < |run[k].sems| && (run[k].sems[s].val <= 0 <==> exists p: nat :: Holds(run, acts, k, s, p))
  {
    HeldOnce(idle, init, run, acts, k, s);
    RunInv(idle, init, run, acts, k);
    assert SemaOk(init, run[k], s);
    if p: nat :| p in run[k].held[s] {
      HeldMeans(idle, init, run, acts, k, s, p);
      Singleton(run[k].held[s], p);
    } else {
      assert run[k].held[s] == {};
      forall p: nat
        ensures !Holds(run, acts, k, s, p)
      {
        HeldMeans(idle, init, run, acts, k, s, p);
      }
    }
  }

  lemma {:induction false} CountsGrow(run: seq<State>, acts: seq<Action>, i: nat, j: nat, s: nat)
    requires i <= j <= |acts| < |run| && forall m: nat | i <= m < j :: !PostsOn(run[m], acts[m], s)
    ensures PostCount(run, acts, j, s) == PostCount(run, acts, i, s) && GrantCount(run, acts, j, s) >= GrantCount(run, acts, i, s)
    decreases j
  {
    if i == j {
    } else {
      CountsGrow(run, acts, i, j - 1, s);
    }
  }

  /** Between two grants of a sleep lock it is released. */
  lemma ReleasedBetween(idle: seq<nat>, init: seq<int>, run: seq<State>, acts: seq<Action>, i: nat, j: nat, s: nat, p: nat, q: nat)
    requires IsRun(idle, init, run, acts) && i < j < |acts| && s < |init| && init[s] == 1 && AsLock(run, acts, s)
    requires GrantsTo(run[i], acts[i], s, p) && GrantsTo(run[j], acts[j], s, q)
    ensures exists m: nat :: i < m <= j && PostsOn(run[m], acts[m], s)
  {
    if forall m: nat | i < m <= j :: !PostsOn(run[m], acts[m], s) {
      HeldOnce(idle, init, run, acts, i + 1, s);
      HeldOnce(idle, init, run, acts, j + 1, s);
      Counted(idle, init, run, acts, i + 1, s);
      Counted(idle, init, run, acts, j + 1, s);
      HoldsNext(run, acts, i, s, p);
      HeldMeans(idle, init, run, acts, i + 1, s, p);
      Singleton(run[i + 1].held[s], p);
      CountsGrow(run, acts, i + 1, j, s);
    }
  }
}
