/** The run queue and the processes' states (src/kernel/sched.c:73-195). */
module Scheduler {
  import opened Basics

  datatype ProcState = Unused | Runnable | Running | Sleeping | DeepSleeping | Zombie

  // ---- Lists without repetition ----

  /** `q` with `p` detached. */
  function Detach(q: seq<nat>, p: nat): seq<nat> {
    if q == [] then []
    else if q[0] == p then q[1..]
    else [q[0]] + Detach(q[1..], p)
  }

  lemma {:induction false} DetachKeeps(q: seq<nat>, p: nat)
    requires Unique(q)
    ensures Unique(Detach(q, p))
    ensures forall x :: x in Detach(q, p) <==> x in q && x != p
    ensures |Detach(q, p)| == |q| - if p in q then 1 else 0
  {
    if q == [] {
    } else {
      assert q == [q[0]] + q[1..];
      if q[0] != p {
        DetachKeeps(q[1..], p);
        assert q[0] !in q[1..];
        assert q[0] !in Detach(q[1..], p);
      }
    }
  }

  /** All others stay in order. */
  lemma {:induction false} DetachOrder(q: seq<nat>, p: nat) returns (i: nat)
    ensures i <= |q| && p !in q[..i] && (p in q <==> i < |q|) && (i < |q| ==> q[i] == p)
    ensures Detach(q, p) == if i < |q| then q[..i] + q[i + 1..] else q
  {
    if q == [] || q[0] == p {
      i := 0;
    } else {
      var j := DetachOrder(q[1..], p);
      i := j + 1;
      assert q == [q[0]] + q[1..] && q[..i] == [q[0]] + q[1..][..j];
      assert i < |q| ==> q[i + 1..] == q[1..][j + 1..];
    }
  }

  // ---- The state under the run queue lock ----

  /** The state of every process, the run queue and its counter, and the process that each
      CPU runs. */
  datatype RunState = RunState(state: seq<ProcState>, queue: seq<nat>, count: int, current: seq<nat>)

  ghost predicate Ready(s: ProcState) { s == Runnable || s == Running }

  ghost predicate Asleep(s: ProcState) { s == Sleeping || s == DeepSleeping }

  /** `idle[c]` is the idle process of CPU `c`. */
  ghost predicate IdleOk(idle: seq<nat>, r: RunState) {
    && |r.current| == |idle| && Unique(idle)
    && forall c | 0 <= c < |idle| :: idle[c] < |r.state| && Ready(r.state[idle[c]])
  }

  /** The run queue holds just the processes ready to run, each of them once. */
  ghost predicate QueueOk(idle: seq<nat>, r: RunState) {
    && Unique(r.queue) && r.count == |r.queue|
    && (forall i | 0 <= i < |r.queue| :: r.queue[i] < |r.state|)
    && forall p: nat {:trigger p in r.queue} | p < |r.state| :: p in r.queue <==> p !in idle && Ready(r.state[p])
  }

  /** The running processes are the current ones, each of them on one CPU. */
  ghost predicate CurrentOk(idle: seq<nat>, r: RunState)
    requires |r.current| == |idle|
  {
    && Unique(r.current)
    && (forall c | 0 <= c < |idle| :: r.current[c] < |r.state| && r.state[r.current[c]] == Running)
    && (forall c | 0 <= c < |idle| :: r.current[c] in idle ==> r.current[c] == idle[c])
    && forall p: nat {:trigger p in r.current} | p < |r.state| && r.state[p] == Running :: p in r.current
  }

  ghost predicate RunOk(idle: seq<nat>, r: RunState) {
    IdleOk(idle, r) && QueueOk(idle, r) && CurrentOk(idle, r)
  }

  // ---- _activate_proc ----

  predicate Wakes(s: ProcState, onalert: bool) {
    s == Sleeping || s == Unused || s == Zombie || (s == DeepSleeping && !onalert)
  }

  function Activated(r: RunState, p: nat, onalert: bool): RunState
    requires p < |r.state|
  {
    if Wakes(r.state[p], onalert) then
      r.(state := r.state[p := Runnable], queue := [p] + r.queue, count := r.count + 1)
    else r
  }

  /** `p` has become RUNNABLE and the first in the queue, and nothing else has changed. */
  ghost predicate FirstInLine(r: RunState, r': RunState, p: nat) {
    && |r'.state| == |r.state| && p < |r.state| && r'.state[p] == Runnable
    && (forall q | 0 <= q < |r.state| && q != p :: r'.state[q] == r.state[q])
    && r'.queue != [] && r'.queue[0] == p && r'.queue[1..] == r.queue && r'.current == r.current
  }

  lemma ActivatedOk(idle: seq<nat>, r: RunState, p: nat, onalert: bool)
    requires RunOk(idle, r) && p < |r.state|
    ensures RunOk(idle, Activated(r, p, onalert))
    ensures !onalert ==> Ready(Activated(r, p, onalert).state[p])
    ensures Activated(r, p, onalert) == r <==> Ready(r.state[p]) || (r.state[p] == DeepSleeping && onalert)
    ensures Activated(r, p, onalert) != r ==> FirstInLine(r, Activated(r, p, onalert), p)
  {
    var r' := Activated(r, p, onalert);
    if Wakes(r.state[p], onalert) {
      assert p !in idle && p !in r.queue;
      assert QueueOk(idle, r');
      assert forall c | 0 <= c < |idle| :: r.current[c] != p;
    }
  }

  // ---- simple_sched ----

  /** update_this_state on CPU `c` */
  function Left(r: RunState, c: nat, newState: ProcState): RunState
    requires c < |r.current| && r.current[c] < |r.state|
  {
    var p := r.current[c];
    if newState == Sleeping || newState == DeepSleeping || newState == Zombie then
      r.(state := r.state[p := newState], queue := Detach(r.queue, p), count := r.count - 1)
    else
      r.(state := r.state[p := newState])
  }

  /** What pick_next may return on CPU `c`: some queued process that is RUNNABLE; idle only
      when there is none, or in a panic. */
  ghost predicate Pick(idle: seq<nat>, r: RunState, c: nat, panicking: bool, next: nat)
    requires c < |idle|
  {
    if next in r.queue then next < |r.state| && r.state[next] == Runnable
    else next == idle[c] && (panicking || forall p <- r.queue :: p < |r.state| && r.state[p] != Runnable)
  }

  /** The index `idx` is that of a queued process that is RUNNABLE. */
  ghost predicate Hits(r: RunState, idx: int) {
    0 <= idx < |r.queue| && r.queue[idx] < |r.state| && r.state[r.queue[idx]] == Runnable
  }

  /** The choice of pick_next when the timer gives `idx`: the process there if it is RUNNABLE,
      and else the last one that is. */
  ghost predicate Chosen(idle: seq<nat>, r: RunState, c: nat, idx: int, panicking: bool, next: nat)
    requires c < |idle|
  {
    if panicking then next == idle[c]
    else if Hits(r, idx) then next == r.queue[idx]
    else if (forall j | 0 <= j < |r.queue| :: !Hits(r, j)) then next == idle[c]
    else exists j | 0 <= j < |r.queue| :: next == r.queue[j] && Hits(r, j) && forall i | j < i < |r.queue| :: !Hits(r, i)
  }

  lemma ChosenPick(idle: seq<nat>, r: RunState, c: nat, idx: int, panicking: bool, next: nat)
    requires Between(idle, r, c) && Chosen(idle, r, c, idx, panicking, next)
    ensures Pick(idle, r, c, panicking, next)
  {
    if next !in r.queue {
      forall p <- r.queue
        ensures panicking || r.state[p] != Runnable
      {
        var j :| 0 <= j < |r.queue| && r.queue[j] == p;
        assert panicking || !Hits(r, j);
      }
    }
  }

  function Entered(r: RunState, c: nat, next: nat): RunState
    requires c < |r.current| && next < |r.state|
  {
    r.(state := r.state[next := Running], current := r.current[c := next])
  }

  /** The states that the caller of sched may ask for. An idle process only yields. */
  ghost predicate MayLeave(idle: seq<nat>, r: RunState, c: nat, newState: ProcState)
    requires c < |r.current|
  {
    newState == Runnable || (r.current[c] !in idle && (Asleep(newState) || newState == Zombie))
  }

  /** Between update_this_state and the choice of the next process: the process of CPU `c`
      no longer runs. */
  ghost predicate Between(idle: seq<nat>, r: RunState, c: nat) {
    && IdleOk(idle, r) && QueueOk(idle, r) && c < |idle| && Unique(r.current)
    && (forall d | 0 <= d < |idle| && d != c :: r.current[d] < |r.state| && r.state[r.current[d]] == Running)
    && (forall d | 0 <= d < |idle| && d != c :: r.current[d] in idle ==> r.current[d] == idle[d])
    && (forall p: nat {:trigger p in r.current} | p < |r.state| && r.state[p] == Running :: p in r.current && p != r.current[c])
  }

  lemma LeftBetween(idle: seq<nat>, r: RunState, c: nat, newState: ProcState)
    requires RunOk(idle, r) && c < |idle| && MayLeave(idle, r, c, newState)
    ensures Between(idle, Left(r, c, newState), c)
  {
    DetachKeeps(r.queue, r.current[c]);
    var r' := Left(r, c, newState);
    forall i | 0 <= i < |r'.queue|
      ensures r'.queue[i] < |r.state|
    {
      assert r'.queue[i] in r'.queue;
    }
    assert forall d | 0 <= d < |idle| && d != c :: r.current[d] != r.current[c];
  }

  /** The assertion of simple_sched holds. */
  lemma NextRunnable(idle: seq<nat>, r: RunState, c: nat, panicking: bool, next: nat)
    requires Between(idle, r, c) && Pick(idle, r, c, panicking, next)
    ensures next < |r.state| && r.state[next] == Runnable && (next in idle ==> next == idle[c])
  {
    if next !in r.queue {
      var elsewhere := idle[c] in r.current;
    }
  }

  lemma EnteredCurrent(idle: seq<nat>, r: RunState, c: nat, next: nat)
    requires Between(idle, r, c) && next < |r.state| && r.state[next] == Runnable && (next in idle ==> next == idle[c])
    ensures CurrentOk(idle, Entered(r, c, next))
  {
    var r' := Entered(r, c, next);
    forall p: nat | p < |r.state| && p != next && r.state[p] == Running
      ensures p in r'.current
    {
      assert p in r.current;
      var d :| 0 <= d < |idle| && r.current[d] == p;
      assert r'.current[d] == p;
    }
    assert r'.current[c] == next;
  }

  /** The next process may run. */
  lemma EnteredOk(idle: seq<nat>, r: RunState, c: nat, panicking: bool, next: nat)
    requires Between(idle, r, c) && Pick(idle, r, c, panicking, next)
    ensures next < |r.state| && r.state[next] == Runnable
    ensures RunOk(idle, Entered(r, c, next))
  {
    NextRunnable(idle, r, c, panicking, next);
    EnteredCurrent(idle, r, c, next);
  }

  /** What simple_sched does on CPU `c`. A killed process does not leave the CPU, except to
      die. */
  ghost predicate Scheduled(idle: seq<nat>, r: RunState, c: nat, newState: ProcState, panicking: bool, killed: bool, next: nat, r': RunState)
    requires c < |idle| && c < |r.current| && r.current[c] < |r.state|
  {
    if killed && newState != Zombie then next == r.current[c] && r' == r
    else Pick(idle, Left(r, c, newState), c, panicking, next) && next < |r.state| && r' == Entered(Left(r, c, newState), c, next)
  }

  lemma ScheduledOk(idle: seq<nat>, r: RunState, c: nat, newState: ProcState, panicking: bool, killed: bool, next: nat, r': RunState)
    requires RunOk(idle, r) && c < |idle| && MayLeave(idle, r, c, newState)
    requires Scheduled(idle, r, c, newState, panicking, killed, next, r')
    ensures RunOk(idle, r') && next == r'.current[c]
  {
    if !killed || newState == Zombie {
      LeftBetween(idle, r, c, newState);
      EnteredOk(idle, Left(r, c, newState), c, panicking, next);
    }
  }

  /** The states that it changes. */
  lemma ScheduledStates(idle: seq<nat>, r: RunState, c: nat, newState: ProcState, panicking: bool, next: nat, r': RunState)
    requires RunOk(idle, r) && c < |idle| && MayLeave(idle, r, c, newState)
    requires Scheduled(idle, r, c, newState, panicking, false, next, r')
    ensures |r'.state| == |r.state| && next < |r.state| && r'.state[next] == Running
    ensures next == r.current[c] || (r.state[next] == Runnable && r'.state[r.current[c]] == newState)
    ensures next == r.current[c] ==> newState == Runnable
    ensures forall q | 0 <= q < |r.state| && q != next && q != r.current[c] :: r'.state[q] == r.state[q]
  {
    LeftBetween(idle, r, c, newState);
    EnteredOk(idle, Left(r, c, newState), c, panicking, next);
  }

  // ---- The code ----

  class RunQueue {
    const idle: seq<nat>
    var state: seq<ProcState>
    var queue: seq<nat>
    var count: int
    var current: seq<nat>
    var killed: set<nat>

    ghost function Run(): RunState
      reads this
    {
      RunState(state, queue, count, current)
    }

    ghost predicate Valid()
      reads this
    {
      RunOk(idle, Run())
    }

    /** The initialisers `rq` and `sched`: every CPU runs its idle process, the queue is
        empty, and `procs` other processes have not begun. */
    constructor (cpus: nat, procs: nat)
      ensures Valid() && |idle| == cpus && current == idle && queue == [] && killed == {}
      ensures |state| == cpus + procs
      ensures forall p | 0 <= p < |state| :: state[p] == if p in idle then Running else Unused
    {
      idle := seq(cpus, c => c);
      current := seq(cpus, c => c);
      state := seq(cpus + procs, p => if p < cpus then Running else Unused);
      queue, count, killed := [], 0, {};
      new;
      forall p: nat | p < cpus
        ensures p in idle && p in current
      {
        assert idle[p] == p && current[p] == p;
      }
    }

    /** _activate_proc, under the run queue lock. */
    method Activate(p: nat, onalert: bool) returns (woken: bool)
      requires Valid() && p < |state|
      modifies `state, `queue, `count
      ensures Valid() && Run() == Activated(old(Run()), p, onalert)
      ensures woken <==> !Ready(old(state)[p]) && Ready(state[p])
    {
      ActivatedOk(idle, Run(), p, onalert);
      woken := Wakes(state[p], onalert);
      if woken {
        state := state[p := Runnable];
        count := count + 1;
        queue := [p] + queue;
      }
    }

    method UpdateThisState(c: nat, newState: ProcState)
      requires Valid() && c < |idle| && MayLeave(idle, Run(), c, newState)
      modifies `state, `queue, `count
      ensures Run() == Left(old(Run()), c, newState) && Between(idle, Run(), c)
    {
      LeftBetween(idle, Run(), c, newState);
      state := state[current[c] := newState];
      if newState == Sleeping || newState == DeepSleeping || newState == Zombie {
        count := count - 1;
        queue := Detach(queue, current[c]);
      }
    }

    /** pick_next, where `idx` is the index that the timer gives. */
    method PickNext(c: nat, idx: int, panicking: bool) returns (next: nat)
      requires Between(idle, Run(), c)
      ensures Pick(idle, Run(), c, panicking, next)
      ensures Chosen(idle, Run(), c, idx, panicking, next)
    {
      next := idle[c];
      if panicking {
        ChosenPick(idle, Run(), c, idx, panicking, next);
        return;
      }
      ghost var last := -1;
      for i := 0 to |queue|
        invariant -1 <= last < i && (last >= 0 ==> Hits(Run(), last)) && forall j | last < j < i :: !Hits(Run(), j)
        invariant next == if last >= 0 then queue[last] else idle[c]
        invariant 0 <= idx < i ==> !Hits(Run(), idx)
      {
        if state[queue[i]] == Runnable {
          next := queue[i];
          last := i;
          if i == idx {
            ChosenPick(idle, Run(), c, idx, panicking, next);
            return;
          }
        }
      }
      ChosenPick(idle, Run(), c, idx, panicking, next);
    }

    /** simple_sched on CPU `c` */
    method Sched(c: nat, newState: ProcState, idx: int, panicking: bool) returns (next: nat)
      requires Valid() && c < |idle| && MayLeave(idle, Run(), c, newState)
      modifies `state, `queue, `count, `current
      ensures Valid() && next == current[c]
      ensures Scheduled(idle, old(Run()), c, newState, panicking, old(current)[c] in killed, next, Run())
      ensures old(current)[c] !in killed || newState == Zombie ==> Chosen(idle, old(Left(Run(), c, newState)), c, idx, panicking, next)
    {
      next := current[c];
      if next in killed && newState != Zombie {
        return;
      }
      UpdateThisState(c, newState);
      next := PickNext(c, idx, panicking);
      EnteredOk(idle, Run(), c, panicking, next);
      current := current[c := next];
      assert state[next] == Runnable;
      state := state[next := Running];
    }
  }
}
