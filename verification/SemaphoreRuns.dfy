/** All interleavings of processes that use semaphores, on any number of CPUs
(src/common/sem.c:48-82 with src/kernel/sched.c:73-195). A section of code under a lock
that touches nothing outside it is one step; taking one lock while holding another, and
handing the run queue lock over to the next process, are steps of their own.

An interrupt handler takes its steps in the name of the process that it interrupts: on a
CPU with nothing to do that is the idle one, which can post but never waits. */
module SemaphoreRuns {
  import opened Basics
  import opened Scheduler
  import opened Semaphore

  /** Where a process is. */
  datatype Pc =
    | User                             // outside all of this code
    | Holding(sem: nat)                // has the lock of `sem`
    | Waking(sem: nat, waiter: nat)    // in _post_sem, about to activate `waiter`
    | Queued(sem: nat, deep: bool)     // in _wait_sem, on the sleep list
    | Both(sem: nat, deep: bool)       // ... and has the run queue lock as well
    | Leaving(sem: nat, deep: bool)    // ... and has released the lock of `sem`
    | Parked(sem: nat, deep: bool)     // ... and has called the scheduler
    | Back(sem: nat, deep: bool)       // ... and is past it
    | Yielding                         // in yield, with the run queue lock
    | Resting                          // ... and has called the scheduler; or has not begun
    | Exiting                          // in exit, with the run queue lock
    | Gone                             // ... and has called the scheduler

  datatype State = State(
    run: RunState, runLock: Option<nat>, killed: set<nat>,
    sems: seq<Sem>, locks: seq<Option<nat>>,
    pc: seq<Pc>, up: seq<bool>,
    // what has happened so far
    posts: seq<int>, grants: seq<int>, held: seq<set<nat>>)

  datatype Action =
    | Lock(p: nat, s: nat) | Unlock(p: nat) | Get(p: nat)
    | WaitFast(p: nat) | WaitSlow(p: nat, deep: bool) | TakeRunLock(p: nat) | DropLock(p: nat)
    | Post(p: nat) | Wake(p: nat)
    | Yield(p: nat) | Exit(p: nat) | Switch(p: nat, cpu: nat, next: nat, panicking: bool, after: RunState)
    | Release(p: nat) | Return(p: nat)
    | Kill(p: nat) | Rouse(p: nat, onalert: bool)

  ghost predicate Sizes(a: State) {
    && |a.pc| == |a.up| == |a.run.state|
    && |a.locks| == |a.posts| == |a.grants| == |a.held| == |a.sems|
    && forall p | 0 <= p < |a.pc| :: InRange(a.pc[p], |a.sems|, |a.pc|)
  }

  ghost predicate InRange(c: Pc, sems: nat, procs: nat) {
    && ((c.Holding? || c.Waking? || c.Queued? || c.Both? || c.Leaving? || c.Parked? || c.Back?) ==> c.sem < sems)
    && (c.Waking? ==> c.waiter < procs)
  }

  ghost predicate HasLock(c: Pc, s: nat) { (c.Holding? || c.Waking? || c.Queued? || c.Both?) && c.sem == s }

  ghost predicate HasRunLock(c: Pc) { c.Both? || c.Leaving? || c.Yielding? || c.Exiting? }

  /** In the scheduler, or before it. */
  ghost predicate Out(c: Pc) { c.Parked? || c.Resting? || c.Gone? }

  ghost predicate Waits(c: Pc, s: nat) { (c.Queued? || c.Both? || c.Leaving? || c.Parked? || c.Back?) && c.sem == s }

  // ---- The steps ----

  /** Process `p` is on a CPU. */
  ghost predicate On(a: State, p: nat) { p < |a.run.state| && a.run.state[p] == Running }

  /** The state that the scheduler is asked for at `c`, and where the process is after it. */
  function Target(c: Pc): ProcState
    requires c.Leaving? || c.Yielding? || c.Exiting?
  {
    match c
    case Leaving(_, deep) => if deep then DeepSleeping else Sleeping
    case Yielding => Runnable
    case Exiting => Zombie
  }

  function Suspended(c: Pc): Pc
    requires c.Leaving? || c.Yielding? || c.Exiting?
  {
    match c
    case Leaving(s, deep) => Parked(s, deep)
    case Yielding => Resting
    case Exiting => Gone
  }

  function Resumed(c: Pc): Pc {
    match c
    case Parked(s, deep) => Back(s, deep)
    case Leaving(s, deep) => Back(s, deep)
    case _ => User
  }

  /** Whether `act` may happen in `a`. */
  ghost predicate Enabled(idle: seq<nat>, a: State, act: Action)
    requires Sizes(a) && RunOk(idle, a.run)
  {
    match act
    case Lock(p, s) => On(a, p) && a.pc[p] == User && s < |a.sems| && a.locks[s] == None
    case Unlock(p) => On(a, p) && a.pc[p].Holding?
    case Get(p) => On(a, p) && a.pc[p].Holding? && a.sems[a.pc[p].sem].val > 0
    case WaitFast(p) => On(a, p) && a.pc[p].Holding? && a.sems[a.pc[p].sem].val > 0
    case WaitSlow(p, _) => On(a, p) && a.pc[p].Holding? && p !in idle && a.sems[a.pc[p].sem].val <= 0
    case TakeRunLock(p) => On(a, p) && a.pc[p].Queued? && a.runLock == None
    case DropLock(p) => On(a, p) && a.pc[p].Both?
    case Post(p) => On(a, p) && a.pc[p].Holding?
    case Wake(p) => On(a, p) && a.pc[p].Waking? && a.runLock == None
    case Yield(p) => On(a, p) && a.pc[p] == User && a.runLock == None
    case Exit(p) => On(a, p) && a.pc[p] == User && p !in idle && a.runLock == None
    case Switch(p, cpu, next, panicking, after) =>
      && On(a, p) && (a.pc[p].Leaving? || a.pc[p].Yielding? || a.pc[p].Exiting?)
      && cpu < |idle| && a.run.current[cpu] == p
      && Scheduled(idle, a.run, cpu, Target(a.pc[p]), panicking, p in a.killed, next, after)
    case Release(p) => On(a, p) && (a.pc[p].Parked? || a.pc[p].Resting?)
    case Return(p) => On(a, p) && a.pc[p].Back? && a.locks[a.pc[p].sem] == None
    case Kill(p) => p < |a.pc|
    case Rouse(p, onalert) => p < |a.pc| && a.runLock == None && (onalert || p in a.killed || a.run.state[p] == Unused)
  }

  ghost function Do(idle: seq<nat>, a: State, act: Action): State
    requires Sizes(a) && RunOk(idle, a.run)
    requires Enabled(idle, a, act)
  {
    match act
    case Lock(p, s) => a.(locks := a.locks[s := Some(p)], pc := a.pc[p := Holding(s)])
    case Unlock(p) => a.(locks := a.locks[a.pc[p].sem := None], pc := a.pc[p := User])
    case Get(p) =>
      var s := a.pc[p].sem;
      a.(sems := a.sems[s := Sem(a.sems[s].val - 1, a.sems[s].waiting)], grants := a.grants[s := a.grants[s] + 1], held := a.held[s := a.held[s] + {p}])
    case WaitFast(p) =>
      var s := a.pc[p].sem;
      a.(sems := a.sems[s := Sem(a.sems[s].val - 1, a.sems[s].waiting)], grants := a.grants[s := a.grants[s] + 1], held := a.held[s := a.held[s] + {p}],
         locks := a.locks[s := None], pc := a.pc[p := User])
    case WaitSlow(p, deep) =>
      var s := a.pc[p].sem;
      a.(sems := a.sems[s := Joined(a.sems[s], p)], pc := a.pc[p := Queued(s, deep)], up := a.up[p := false])
    case TakeRunLock(p) => a.(runLock := Some(p), pc := a.pc[p := Both(a.pc[p].sem, a.pc[p].deep)])
    case DropLock(p) => a.(locks := a.locks[a.pc[p].sem := None], pc := a.pc[p := Leaving(a.pc[p].sem, a.pc[p].deep)])
    case Post(p) =>
      var s := a.pc[p].sem;
      var q := a.sems[s].waiting;
      if q == [] then
        a.(sems := a.sems[s := Posted(a.sems[s])], posts := a.posts[s := a.posts[s] + 1], held := a.held[s := a.held[s] - {p}])
      else if q[|q| - 1] < |a.up| then
        var w := q[|q| - 1];
        a.(sems := a.sems[s := Posted(a.sems[s])], posts := a.posts[s := a.posts[s] + 1], grants := a.grants[s := a.grants[s] + 1],
           held := a.held[s := a.held[s] - {p} + {w}], up := a.up[w := true], pc := a.pc[p := Waking(s, w)])
      else a
    case Wake(p) => a.(run := Activated(a.run, a.pc[p].waiter, false), pc := a.pc[p := Holding(a.pc[p].sem)])
    case Yield(p) => a.(runLock := Some(p), pc := a.pc[p := Yielding])
    case Exit(p) => a.(runLock := Some(p), pc := a.pc[p := Exiting])
    case Switch(p, cpu, next, panicking, after) =>
      if p in a.killed && !a.pc[p].Exiting? then a.(runLock := None, pc := a.pc[p := Resumed(a.pc[p])])
      else a.(run := after, runLock := Some(next), pc := a.pc[p := Suspended(a.pc[p])])
    case Release(p) => a.(runLock := None, pc := a.pc[p := Resumed(a.pc[p])])
    case Return(p) =>
      var s := a.pc[p].sem;
      if a.up[p] then a.(pc := a.pc[p := User])
      else a.(sems := a.sems[s := Cancelled(a.sems[s], p)], pc := a.pc[p := User])
    case Kill(p) => a.(killed := a.killed + {p})
    case Rouse(p, onalert) => a.(run := Activated(a.run, p, onalert))
  }

  // ---- What every step keeps ----

  ghost predicate HasAnyLock(c: Pc) { c.Holding? || c.Waking? || c.Queued? || c.Both? }

  ghost predicate IsWaiting(c: Pc) { c.Queued? || c.Both? || c.Leaving? || c.Parked? || c.Back? }

  ghost predicate Fits(c: Pc, s: ProcState) {
    if c.Parked? then Ready(s) || s == if c.deep then DeepSleeping else Sleeping
    else if c.Resting? then s == Unused || Ready(s)
    else if c.Gone? then s == Zombie || Ready(s)
    else s == Running
  }

  /** The owner of the lock of semaphore `s` is about to wake `w`. */
  ghost predicate AboutToWake(a: State, s: nat, w: nat)
    requires Sizes(a) && s < |a.locks|
  {
    a.locks[s].Some? && a.locks[s].value < |a.pc| && a.pc[a.locks[s].value] == Waking(s, w)
  }

  ghost predicate OwnsRunLock(a: State, p: nat)
    requires Sizes(a) && p < |a.pc|
  {
    HasRunLock(a.pc[p]) || (Out(a.pc[p]) && a.run.state[p] == Running)
  }

  /** Process `p` owns the locks that it should, is on the sleep list that it should be on,
      and, once posted for, does not sleep or is about to be woken. */
  ghost predicate ProcOk(idle: seq<nat>, a: State, p: nat)
    requires Sizes(a) && p < |a.pc|
  {
    var c := a.pc[p];
    && Fits(c, a.run.state[p])
    && (p in idle ==> c.User? || c.Holding? || c.Waking? || c.Yielding? || c.Resting?)
    && (HasAnyLock(c) ==> a.locks[c.sem] == Some(p))
    && (c.Waking? ==> a.up[c.waiter] && Waits(a.pc[c.waiter], c.sem))
    && (OwnsRunLock(a, p) ==> a.runLock == Some(p))
    && (IsWaiting(c) && !a.up[p] ==> p in a.sems[c.sem].waiting)
    && (c.Queued? || c.Both? ==> !a.up[p])
    && (c.Back? || (c.Parked? && Ready(a.run.state[p])) ==> a.up[p] || !c.deep || p in a.killed)
    && (a.up[p] && (c.Leaving? || (c.Parked? && Asleep(a.run.state[p]))) ==> AboutToWake(a, c.sem, p))
  }

  /** The owner of the lock of `s` is where it has it, and those on the sleep list wait and
      have not been posted for; posts are accounted for. */
  ghost predicate SemaOk(init: seq<int>, a: State, s: nat)
    requires Sizes(a) && s < |a.sems| == |init|
  {
    var m := a.sems[s];
    && SemOk(m)
    && (a.locks[s].Some? ==> a.locks[s].value < |a.pc| && HasLock(a.pc[a.locks[s].value], s))
    && (forall i | 0 <= i < |m.waiting| :: m.waiting[i] < |a.pc| && Waits(a.pc[m.waiting[i]], s) && !a.up[m.waiting[i]])
    && m.val + |m.waiting| + a.grants[s] == init[s] + a.posts[s]
  }

  ghost predicate Inv(idle: seq<nat>, init: seq<int>, a: State) {
    && Sizes(a) && RunOk(idle, a.run) && |init| == |a.sems|
    && (a.runLock.Some? ==> a.runLock.value < |a.pc| && OwnsRunLock(a, a.runLock.value))
    && (forall p: nat | p < |a.pc| :: ProcOk(idle, a, p))
    && (forall s: nat | s < |a.sems| :: SemaOk(init, a, s))
  }

  /** A step that moves process `p` only, and leaves its locks and its waiting alone, is
      nothing to a semaphore. */
  lemma SemaMove(init: seq<int>, a: State, b: State, p: nat, c: Pc, t: nat)
    requires Sizes(a) && Sizes(b) && p < |a.pc| && t < |a.sems| == |init| && SemaOk(init, a, t)
    requires b.sems == a.sems && b.locks == a.locks && b.posts == a.posts && b.grants == a.grants && b.up == a.up && b.pc == a.pc[p := c]
    requires (HasLock(a.pc[p], t) ==> HasLock(c, t)) && (Waits(a.pc[p], t) ==> Waits(c, t))
    ensures SemaOk(init, b, t)
  {
  }

  lemma LockInv(idle: seq<nat>, init: seq<int>, a: State, p: nat, s: nat, b: State)
    requires Inv(idle, init, a) && Enabled(idle, a, Lock(p, s)) && b == Do(idle, a, Lock(p, s))
    ensures Inv(idle, init, b)
  {
    assert ProcOk(idle, a, p);
    forall q: nat | q < |a.pc|
      ensures ProcOk(idle, b, q)
    {
      assert ProcOk(idle, a, q);
    }
    forall t: nat | t < |a.sems|
      ensures SemaOk(init, b, t)
    {
      assert SemaOk(init, a, t);
    }
  }

  lemma UnlockInv(idle: seq<nat>, init: seq<int>, a: State, p: nat, b: State)
    requires Inv(idle, init, a) && Enabled(idle, a, Unlock(p)) && b == Do(idle, a, Unlock(p))
    ensures Inv(idle, init, b)
  {
    assert ProcOk(idle, a, p);
    forall q: nat | q < |a.pc|
      ensures ProcOk(idle, b, q)
    {
      assert ProcOk(idle, a, q);
    }
    forall t: nat | t < |a.sems|
      ensures SemaOk(init, b, t)
    {
      assert SemaOk(init, a, t);
    }
  }

  lemma GetInv(idle: seq<nat>, init: seq<int>, a: State, p: nat, b: State)
    requires Inv(idle, init, a) && Enabled(idle, a, Get(p)) && b == Do(idle, a, Get(p))
    ensures Inv(idle, init, b)
  {
    assert ProcOk(idle, a, p);
    forall q: nat | q < |a.pc|
      ensures ProcOk(idle, b, q)
    {
      assert ProcOk(idle, a, q);
    }
    forall t: nat | t < |a.sems|
      ensures SemaOk(init, b, t)
    {
      assert SemaOk(init, a, t);
    }
  }

  lemma WaitFastInv(idle: seq<nat>, init: seq<int>, a: State, p: nat, b: State)
    requires Inv(idle, init, a) && Enabled(idle, a, WaitFast(p)) && b == Do(idle, a, WaitFast(p))
    ensures Inv(idle, init, b)
  {
    assert ProcOk(idle, a, p);
    forall q: nat | q < |a.pc|
      ensures ProcOk(idle, b, q)
    {
      assert ProcOk(idle, a, q);
    }
    forall t: nat | t < |a.sems|
      ensures SemaOk(init, b, t)
    {
      assert SemaOk(init, a, t);
    }
  }

  lemma WaitSlowProc(idle: seq<nat>, a: State, p: nat, s: nat, deep: bool, b: State, q: nat)
    requires Sizes(a) && p < |a.pc| && p !in idle && q < |a.pc| && a.pc[p] == Holding(s) && ProcOk(idle, a, p) && ProcOk(idle, a, q)
    requires b == a.(sems := a.sems[s := Joined(a.sems[s], p)], pc := a.pc[p := Queued(s, deep)], up := a.up[p := false]) && Sizes(b)
    ensures ProcOk(idle, b, q)
  {
    assert p in Joined(a.sems[s], p).waiting;
  }

  lemma WaitSlowSema(init: seq<int>, a: State, p: nat, s: nat, deep: bool, b: State, t: nat)
    requires Sizes(a) && p < |a.pc| && a.pc[p] == Holding(s) && t < |a.sems| == |init| && SemaOk(init, a, t) && a.sems[s].val <= 0
    requires b == a.(sems := a.sems[s := Joined(a.sems[s], p)], pc := a.pc[p := Queued(s, deep)], up := a.up[p := false]) && Sizes(b)
    ensures SemaOk(init, b, t)
  {
    if t == s {
      assert p !in a.sems[s].waiting;
      JoinedOk(a.sems[s], p);
      var q := b.sems[s].waiting;
      assert forall i | 1 <= i < |q| :: q[i] == a.sems[s].waiting[i - 1];
    }
  }

  lemma WaitSlowInv(idle: seq<nat>, init: seq<int>, a: State, p: nat, deep: bool, b: State)
    requires Inv(idle, init, a) && Enabled(idle, a, WaitSlow(p, deep)) && b == Do(idle, a, WaitSlow(p, deep))
    ensures Inv(idle, init, b)
  {
    assert ProcOk(idle, a, p);
    forall q: nat | q < |a.pc|
      ensures ProcOk(idle, b, q)
    {
      assert ProcOk(idle, a, q);
      WaitSlowProc(idle, a, p, a.pc[p].sem, deep, b, q);
    }
    forall t: nat | t < |a.sems|
      ensures SemaOk(init, b, t)
    {
      assert SemaOk(init, a, t);
      WaitSlowSema(init, a, p, a.pc[p].sem, deep, b, t);
    }
  }

  lemma TakeRunLockInv(idle: seq<nat>, init: seq<int>, a: State, p: nat, b: State)
    requires Inv(idle, init, a) && Enabled(idle, a, TakeRunLock(p)) && b == Do(idle, a, TakeRunLock(p))
    ensures Inv(idle, init, b)
  {
    assert ProcOk(idle, a, p);
    forall q: nat | q < |a.pc|
      ensures ProcOk(idle, b, q)
    {
      assert ProcOk(idle, a, q);
    }
    forall t: nat | t < |a.sems|
      ensures SemaOk(init, b, t)
    {
      assert SemaOk(init, a, t);
      SemaMove(init, a, b, p, b.pc[p], t);
    }
  }

  lemma DropLockInv(idle: seq<nat>, init: seq<int>, a: State, p: nat, b: State)
    requires Inv(idle, init, a) && Enabled(idle, a, DropLock(p)) && b == Do(idle, a, DropLock(p))
    ensures Inv(idle, init, b)
  {
    assert ProcOk(idle, a, p);
    forall q: nat | q < |a.pc|
      ensures ProcOk(idle, b, q)
    {
      assert ProcOk(idle, a, q);
    }
    forall t: nat | t < |a.sems|
      ensures SemaOk(init, b, t)
    {
      assert SemaOk(init, a, t);
    }
  }

  /** What Post does when somebody waits. */
  ghost predicate PostsFor(a: State, p: nat, s: nat, w: nat, b: State)
    requires Sizes(a)
  {
    && p < |a.pc| && w < |a.pc| && s < |a.sems| && a.pc[p] == Holding(s)
    && a.sems[s].waiting != [] && w == a.sems[s].waiting[|a.sems[s].waiting| - 1]
    && b.run == a.run && b.runLock == a.runLock && b.killed == a.killed && b.locks == a.locks && |b.held| == |a.held|
    && b.sems == a.sems[s := Posted(a.sems[s])] && b.up == a.up[w := true] && b.pc == a.pc[p := Waking(s, w)]
    && b.posts == a.posts[s := a.posts[s] + 1] && b.grants == a.grants[s := a.grants[s] + 1]
  }

  lemma PostProc(idle: seq<nat>, init: seq<int>, a: State, p: nat, s: nat, w: nat, b: State, q: nat)
    requires Sizes(a) && q < |a.pc| && |init| == |a.sems| && PostsFor(a, p, s, w, b) && Sizes(b)
    requires ProcOk(idle, a, p) && ProcOk(idle, a, w) && ProcOk(idle, a, q) && SemaOk(init, a, s)
    ensures ProcOk(idle, b, q)
  {
    PostedKeeps(a.sems[s]);
    assert Waits(a.pc[w], s) && !HasAnyLock(a.pc[w]);
  }

  lemma PostSema(init: seq<int>, a: State, p: nat, s: nat, w: nat, b: State, t: nat)
    requires Sizes(a) && t < |a.sems| == |init| && PostsFor(a, p, s, w, b) && Sizes(b)
    requires SemaOk(init, a, s) && SemaOk(init, a, t)
    ensures SemaOk(init, b, t)
  {
    PostedKeeps(a.sems[s]);
    assert Waits(a.pc[w], s);
    var q := b.sems[t].waiting;
    forall i | 0 <= i < |q|
      ensures q[i] < |b.pc| && Waits(b.pc[q[i]], t) && !b.up[q[i]]
    {
      assert q[i] == a.sems[t].waiting[i];
      if t == s {
        assert q[i] in q;
      }
    }
  }

  lemma PostNoneInv(idle: seq<nat>, init: seq<int>, a: State, p: nat, s: nat, b: State)
    requires Inv(idle, init, a) && p < |a.pc| && a.pc[p] == Holding(s) && s < |a.sems| && a.sems[s].waiting == []
    requires b == a.(sems := a.sems[s := Posted(a.sems[s])], posts := a.posts[s := a.posts[s] + 1], held := b.held) && |b.held| == |a.held|
    ensures Inv(idle, init, b)
  {
    assert SemaOk(init, a, s);
    forall q: nat | q < |a.pc|
      ensures ProcOk(idle, b, q)
    {
      assert ProcOk(idle, a, q);
    }
    forall t: nat | t < |a.sems|
      ensures SemaOk(init, b, t)
    {
      assert SemaOk(init, a, t);
    }
  }

  lemma PostInv(idle: seq<nat>, init: seq<int>, a: State, p: nat, b: State)
    requires Inv(idle, init, a) && Enabled(idle, a, Post(p)) && b == Do(idle, a, Post(p))
    ensures Inv(idle, init, b)
  {
    var s := a.pc[p].sem;
    assert SemaOk(init, a, s);
    if a.sems[s].waiting == [] {
      PostNoneInv(idle, init, a, p, s, b);
    } else {
      PostOneInv(idle, init, a, p, s, a.sems[s].waiting[|a.sems[s].waiting| - 1], b);
    }
  }

  lemma PostOneInv(idle: seq<nat>, init: seq<int>, a: State, p: nat, s: nat, w: nat, b: State)
    requires Inv(idle, init, a) && PostsFor(a, p, s, w, b)
    ensures Inv(idle, init, b)
  {
    assert ProcOk(idle, a, p) && ProcOk(idle, a, w) && SemaOk(init, a, s);
    assert Sizes(b);
    forall q: nat | q < |a.pc|
      ensures ProcOk(idle, b, q)
    {
      assert ProcOk(idle, a, q);
      PostProc(idle, init, a, p, s, w, b, q);
    }
    forall t: nat | t < |a.sems|
      ensures SemaOk(init, b, t)
    {
      assert SemaOk(init, a, t);
      PostSema(init, a, p, s, w, b, t);
    }
  }

  lemma WakeProc(idle: seq<nat>, a: State, p: nat, s: nat, w: nat, b: State, q: nat)
    requires Sizes(a) && p < |a.pc| && w < |a.pc| && q < |a.pc| && a.pc[p] == Waking(s, w) && a.runLock == None
    requires ProcOk(idle, a, p) && ProcOk(idle, a, w) && ProcOk(idle, a, q)
    requires b == a.(run := Activated(a.run, w, false), pc := a.pc[p := Holding(s)]) && Sizes(b)
    ensures ProcOk(idle, b, q)
  {
  }

  lemma WakeInv(idle: seq<nat>, init: seq<int>, a: State, p: nat, b: State)
    requires Inv(idle, init, a) && Enabled(idle, a, Wake(p)) && b == Do(idle, a, Wake(p))
    ensures Inv(idle, init, b)
  {
    var s, w := a.pc[p].sem, a.pc[p].waiter;
    assert ProcOk(idle, a, p) && ProcOk(idle, a, w);
    ActivatedOk(idle, a.run, w, false);
    forall q: nat | q < |a.pc|
      ensures ProcOk(idle, b, q)
    {
      assert ProcOk(idle, a, q);
      WakeProc(idle, a, p, s, w, b, q);
    }
    forall t: nat | t < |a.sems|
      ensures SemaOk(init, b, t)
    {
      assert SemaOk(init, a, t);
      SemaMove(init, a, b, p, b.pc[p], t);
    }
  }

  lemma YieldInv(idle: seq<nat>, init: seq<int>, a: State, p: nat, b: State)
    requires Inv(idle, init, a) && Enabled(idle, a, Yield(p)) && b == Do(idle, a, Yield(p))
    ensures Inv(idle, init, b)
  {
    assert ProcOk(idle, a, p);
    forall q: nat | q < |a.pc|
      ensures ProcOk(idle, b, q)
    {
      assert ProcOk(idle, a, q);
    }
    forall t: nat | t < |a.sems|
      ensures SemaOk(init, b, t)
    {
      assert SemaOk(init, a, t);
      SemaMove(init, a, b, p, b.pc[p], t);
    }
  }

  lemma ExitInv(idle: seq<nat>, init: seq<int>, a: State, p: nat, b: State)
    requires Inv(idle, init, a) && Enabled(idle, a, Exit(p)) && b == Do(idle, a, Exit(p))
    ensures Inv(idle, init, b)
  {
    assert ProcOk(idle, a, p);
    forall q: nat | q < |a.pc|
      ensures ProcOk(idle, b, q)
    {
      assert ProcOk(idle, a, q);
    }
    forall t: nat | t < |a.sems|
      ensures SemaOk(init, b, t)
    {
      assert SemaOk(init, a, t);
      SemaMove(init, a, b, p, b.pc[p], t);
    }
  }

  lemma SwitchStayInv(idle: seq<nat>, init: seq<int>, a: State, p: nat, b: State)
    requires Inv(idle, init, a) && p < |a.pc| && p in a.killed && (a.pc[p].Leaving? || a.pc[p].Yielding?)
    requires b == a.(runLock := None, pc := a.pc[p := Resumed(a.pc[p])])
    ensures Inv(idle, init, b)
  {
    assert ProcOk(idle, a, p);
    forall q: nat | q < |a.pc|
      ensures ProcOk(idle, b, q)
    {
      assert ProcOk(idle, a, q);
    }
    forall t: nat | t < |a.sems|
      ensures SemaOk(init, b, t)
    {
      assert SemaOk(init, a, t);
      SemaMove(init, a, b, p, b.pc[p], t);
    }
  }

  lemma SwitchProc(idle: seq<nat>, a: State, p: nat, next: nat, after: RunState, b: State, q: nat)
    requires Sizes(a) && p < |a.pc| && next < |a.pc| && q < |a.pc| && (a.pc[p].Leaving? || a.pc[p].Yielding? || a.pc[p].Exiting?)
    requires ProcOk(idle, a, p) && ProcOk(idle, a, next) && ProcOk(idle, a, q)
    requires |after.state| == |a.run.state| && after.state[next] == Running
    requires next == p || (a.run.state[next] == Runnable && after.state[p] == Target(a.pc[p]))
    requires next == p ==> a.pc[p].Yielding?
    requires q != next && q != p ==> after.state[q] == a.run.state[q]
    requires b == a.(run := after, runLock := Some(next), pc := a.pc[p := Suspended(a.pc[p])]) && Sizes(b)
    ensures ProcOk(idle, b, q)
  {
  }

  lemma SwitchAwayInv(idle: seq<nat>, init: seq<int>, a: State, p: nat, next: nat, after: RunState, b: State)
    requires Inv(idle, init, a) && p < |a.pc| && (a.pc[p].Leaving? || a.pc[p].Yielding? || a.pc[p].Exiting?)
    requires RunOk(idle, after) && |after.state| == |a.run.state| && next < |a.pc| && after.state[next] == Running
    requires next == p || (a.run.state[next] == Runnable && after.state[p] == Target(a.pc[p]))
    requires next == p ==> a.pc[p].Yielding?
    requires forall q | 0 <= q < |a.pc| && q != next && q != p :: after.state[q] == a.run.state[q]
    requires b == a.(run := after, runLock := Some(next), pc := a.pc[p := Suspended(a.pc[p])])
    ensures Inv(idle, init, b)
  {
    assert ProcOk(idle, a, p) && ProcOk(idle, a, next);
    forall q: nat | q < |a.pc|
      ensures ProcOk(idle, b, q)
    {
      assert ProcOk(idle, a, q);
      SwitchProc(idle, a, p, next, after, b, q);
    }
    forall t: nat | t < |a.sems|
      ensures SemaOk(init, b, t)
    {
      assert SemaOk(init, a, t);
      SemaMove(init, a, b, p, b.pc[p], t);
    }
  }

  lemma SwitchInv(idle: seq<nat>, init: seq<int>, a: State, p: nat, cpu: nat, next: nat, panicking: bool, after: RunState, b: State)
    requires Inv(idle, init, a) && Enabled(idle, a, Switch(p, cpu, next, panicking, after)) && b == Do(idle, a, Switch(p, cpu, next, panicking, after))
    ensures Inv(idle, init, b)
  {
    assert ProcOk(idle, a, p);
    var killed := p in a.killed && !a.pc[p].Exiting?;
    if killed {
      SwitchStayInv(idle, init, a, p, b);
    } else {
      ScheduledOk(idle, a.run, cpu, Target(a.pc[p]), panicking, false, next, after);
      ScheduledStates(idle, a.run, cpu, Target(a.pc[p]), panicking, next, after);
      SwitchAwayInv(idle, init, a, p, next, after, b);
    }
  }

  lemma ReleaseInv(idle: seq<nat>, init: seq<int>, a: State, p: nat, b: State)
    requires Inv(idle, init, a) && Enabled(idle, a, Release(p)) && b == Do(idle, a, Release(p))
    ensures Inv(idle, init, b)
  {
    assert ProcOk(idle, a, p);
    forall q: nat | q < |a.pc|
      ensures ProcOk(idle, b, q)
    {
      assert ProcOk(idle, a, q);
    }
    forall t: nat | t < |a.sems|
      ensures SemaOk(init, b, t)
    {
      assert SemaOk(init, a, t);
      SemaMove(init, a, b, p, b.pc[p], t);
    }
  }

  lemma ReturnProc(idle: seq<nat>, a: State, p: nat, s: nat, m: Sem, b: State, q: nat)
    requires Sizes(a) && p < |a.pc| && q < |a.pc| && a.pc[p].Back? && s == a.pc[p].sem && ProcOk(idle, a, p) && ProcOk(idle, a, q)
    requires a.locks[s] == None && forall x :: x in a.sems[s].waiting && x != p ==> x in m.waiting
    requires b == a.(sems := a.sems[s := m], pc := a.pc[p := User]) && Sizes(b)
    ensures ProcOk(idle, b, q)
  {
  }

  lemma ReturnSema(init: seq<int>, a: State, p: nat, s: nat, m: Sem, b: State, t: nat)
    requires Sizes(a) && p < |a.pc| && a.pc[p].Back? && s == a.pc[p].sem && t < |a.sems| == |init| && SemaOk(init, a, t)
    requires SemOk(m) && m.val + |m.waiting| == a.sems[s].val + |a.sems[s].waiting|
    requires p !in m.waiting && forall x <- m.waiting :: x in a.sems[s].waiting
    requires t != s ==> p !in a.sems[t].waiting
    requires b == a.(sems := a.sems[s := m], pc := a.pc[p := User]) && Sizes(b)
    ensures SemaOk(init, b, t)
  {
    var q := b.sems[t].waiting;
    forall i | 0 <= i < |q|
      ensures q[i] < |b.pc| && Waits(b.pc[q[i]], t) && !b.up[q[i]]
    {
      assert q[i] in q;
    }
  }

  lemma ReturnInv(idle: seq<nat>, init: seq<int>, a: State, p: nat, b: State)
    requires Inv(idle, init, a) && Enabled(idle, a, Return(p)) && b == Do(idle, a, Return(p))
    ensures Inv(idle, init, b)
  {
    var s := a.pc[p].sem;
    assert ProcOk(idle, a, p) && SemaOk(init, a, s);
    var m := b.sems[s];
    if !a.up[p] {
      CancelledOk(a.sems[s], p);
    }
    assert b.sems == a.sems[s := m];
    forall q: nat | q < |a.pc|
      ensures ProcOk(idle, b, q)
    {
      assert ProcOk(idle, a, q);
      ReturnProc(idle, a, p, s, m, b, q);
    }
    forall t: nat | t < |a.sems|
      ensures SemaOk(init, b, t)
    {
      assert SemaOk(init, a, t);
      ReturnSema(init, a, p, s, m, b, t);
    }
  }

  lemma KillInv(idle: seq<nat>, init: seq<int>, a: State, p: nat, b: State)
    requires Inv(idle, init, a) && Enabled(idle, a, Kill(p)) && b == Do(idle, a, Kill(p))
    ensures Inv(idle, init, b)
  {
    assert ProcOk(idle, a, p);
    forall q: nat | q < |a.pc|
      ensures ProcOk(idle, b, q)
    {
      assert ProcOk(idle, a, q);
    }
    forall t: nat | t < |a.sems|
      ensures SemaOk(init, b, t)
    {
      assert SemaOk(init, a, t);
    }
  }

  lemma RouseInv(idle: seq<nat>, init: seq<int>, a: State, p: nat, onalert: bool, b: State)
    requires Inv(idle, init, a) && Enabled(idle, a, Rouse(p, onalert)) && b == Do(idle, a, Rouse(p, onalert))
    ensures Inv(idle, init, b)
  {
    assert ProcOk(idle, a, p);
    ActivatedOk(idle, a.run, p, onalert);
    forall q: nat | q < |a.pc|
      ensures ProcOk(idle, b, q)
    {
      assert ProcOk(idle, a, q);
    }
    forall t: nat | t < |a.sems|
      ensures SemaOk(init, b, t)
    {
      assert SemaOk(init, a, t);
    }
  }
}
