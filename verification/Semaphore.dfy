/** Counting semaphores (src/common/sem.c:12-82) over the run queue. */
module Semaphore {
  import opened Basics
  import opened Scheduler

  /** The counter and the sleep list, the newest waiter first. */
  datatype Sem = Sem(val: int, waiting: seq<nat>)

  ghost predicate SemOk(s: Sem) {
    |s.waiting| == Max(0, -s.val) && Unique(s.waiting)
  }

  /** The slow path of _wait_sem: the caller joins the sleep list. */
  function Joined(s: Sem, p: nat): Sem { Sem(s.val - 1, [p] + s.waiting) }

  /** _wait_sem finds that nobody has posted for it. */
  function Cancelled(s: Sem, p: nat): Sem { Sem(s.val + 1, Detach(s.waiting, p)) }

  /** _post_sem */
  function Posted(s: Sem): Sem {
    Sem(s.val + 1, if s.waiting == [] then [] else s.waiting[..|s.waiting| - 1])
  }

  lemma JoinedOk(s: Sem, p: nat)
    requires SemOk(s) && s.val <= 0 && p !in s.waiting
    ensures SemOk(Joined(s, p))
  {
  }

  lemma CancelledOk(s: Sem, p: nat)
    requires SemOk(s) && p in s.waiting
    ensures SemOk(Cancelled(s, p)) && Cancelled(s, p).val <= 0
    ensures forall x :: x in Cancelled(s, p).waiting <==> x in s.waiting && x != p
  {
    DetachKeeps(s.waiting, p);
  }

  ghost predicate Within(ps: seq<nat>, n: nat) { forall i | 0 <= i < |ps| :: ps[i] < n }

  lemma PostedKeeps(s: Sem)
    requires SemOk(s) && s.waiting != []
    ensures SemOk(Posted(s))
    ensures forall x :: x in Posted(s).waiting <==> x in s.waiting && x != s.waiting[|s.waiting| - 1]
  {
    var q, w := s.waiting[..|s.waiting| - 1], s.waiting[|s.waiting| - 1];
    assert s.waiting == q + [w];
    assert w !in q;
  }

  /** Waking `ps` one after the other, the last first. */
  ghost function ActivateAll(r: RunState, ps: seq<nat>): (r': RunState)
    requires Within(ps, |r.state|)
    ensures |r'.state| == |r.state|
    decreases |ps|
  {
    if ps == [] then r else ActivateAll(Activated(r, ps[|ps| - 1], false), ps[..|ps| - 1])
  }

  lemma {:induction false} ActivateAllReady(r: RunState, ps: seq<nat>, q: nat)
    requires Within(ps, |r.state|) && q < |r.state|
    ensures q in ps || Ready(r.state[q]) ==> Ready(ActivateAll(r, ps).state[q])
    ensures q !in ps ==> ActivateAll(r, ps).state[q] == r.state[q]
    decreases |ps|
  {
    if ps == [] {
    } else {
      assert ps == ps[..|ps| - 1] + [ps[|ps| - 1]];
      ActivateAllReady(Activated(r, ps[|ps| - 1], false), ps[..|ps| - 1], q);
    }
  }

  class Counter {
    var val: int
    var waiting: seq<nat>
    /** The waiters that have been posted for. */
    var up: set<nat>

    ghost function Value(): Sem
      reads this
    {
      Sem(val, waiting)
    }

    ghost predicate Valid(q: RunQueue)
      reads this, q
    {
      SemOk(Value()) && q.Valid() && Within(waiting, |q.state|)
    }

    /** init_sem: the counter must not be negative */
    constructor (v: int)
      ensures val == v && waiting == [] && up == {}
      ensures SemOk(Value()) <==> v >= 0
    {
      val, waiting, up := v, [], {};
    }

    /** _get_sem */
    method Get() returns (got: bool)
      modifies `val
      ensures got <==> old(val) > 0
      ensures val == old(val) - if got then 1 else 0
    {
      got := false;
      if val > 0 {
        val := val - 1;
        got := true;
      }
    }

    method GetAll() returns (n: int)
      modifies `val
      ensures n == Max(0, old(val)) && val == old(val) - n
    {
      n := 0;
      if val > 0 {
        n := val;
        val := 0;
      }
    }

    /** _wait_sem by `p` up to the point where it would sleep. */
    method BeginWait(p: nat) returns (granted: bool)
      requires SemOk(Value()) && p !in waiting
      modifies this
      ensures SemOk(Value()) && (granted <==> old(val) > 0)
      ensures Value() == if granted then Sem(old(val) - 1, old(waiting)) else Joined(old(Value()), p)
      ensures up == if granted then old(up) else old(up) - {p}
    {
      val := val - 1;
      granted := val >= 0;
      if !granted {
        up := up - {p};
        waiting := [p] + waiting;
      }
    }

    /** _wait_sem by `p` after it has slept. */
    method EndWait(p: nat) returns (posted: bool)
      requires SemOk(Value()) && (p in up || p in waiting)
      modifies this
      ensures SemOk(Value()) && up == old(up) && (posted <==> p in up)
      ensures Value() == if posted then old(Value()) else Cancelled(old(Value()), p)
    {
      posted := p in up;
      if !posted {
        CancelledOk(Value(), p);
        val := val + 1;
        assert val <= 0;
        waiting := Detach(waiting, p);
      }
    }

    /** _post_sem: the waiter that has waited longest is marked and made ready. */
    method Post(q: RunQueue)
      requires Valid(q)
      modifies this, q`state, q`queue, q`count
      ensures Valid(q) && Value() == Posted(old(Value()))
      ensures old(waiting) == [] ==> up == old(up) && q.Run() == old(q.Run())
      ensures old(waiting) != [] ==> up == old(up) + {old(waiting)[|old(waiting)| - 1]} && q.Run() == Activated(old(q.Run()), old(waiting)[|old(waiting)| - 1], false)
    {
      val := val + 1;
      if val <= 0 {
        assert waiting != [];
        var w := waiting[|waiting| - 1];
        up := up + {w};
        waiting := waiting[..|waiting| - 1];
        var _ := q.Activate(w, false);
      }
    }

    /** The body of the loop of post_all_sem. */
    method PostGet(q: RunQueue) returns (got: bool)
      requires Valid(q)
      modifies this, q`state, q`queue, q`count
      ensures Valid(q) && got == (old(waiting) == [])
      ensures got ==> Value() == old(Value()) && up == old(up) && q.Run() == old(q.Run())
      ensures !got ==> val == old(val) + 1 && waiting == old(waiting)[..|old(waiting)| - 1]
      ensures !got ==> up + Elems(waiting) == old(up + Elems(waiting))
      ensures !got ==> ActivateAll(q.Run(), waiting) == old(ActivateAll(q.Run(), waiting))
    {
      Post(q);
      got := Get();
      assert !got ==> old(waiting) == waiting + [old(waiting)[|old(waiting)| - 1]];
    }

    /** post_all_sem: it wakes the present waiters, in the order of their arrival, and
        returns their number. */
    method PostAll(q: RunQueue) returns (n: int)
      requires Valid(q)
      modifies this, q`state, q`queue, q`count
      ensures Valid(q) && n == |old(waiting)| && val == Max(0, old(val)) && waiting == []
      ensures up == old(up) + Elems(old(waiting))
      ensures q.Run() == ActivateAll(old(q.Run()), old(waiting))
    {
      n := -1;
      var done := false;
      while !done
        invariant Valid(q) && -1 <= n
        invariant if done then n == |old(waiting)| && waiting == [] && val == Max(0, old(val)) else val == old(val) + n + 1 && |waiting| == |old(waiting)| - n - 1
        invariant up + Elems(waiting) == old(up + Elems(waiting))
        invariant ActivateAll(q.Run(), waiting) == old(ActivateAll(q.Run(), waiting))
        decreases |old(waiting)| - n
      {
        done := PostGet(q);
        n := n + 1;
      }
    }
  }
}
