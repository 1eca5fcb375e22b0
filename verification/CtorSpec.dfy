/** The order in which shared objects are to be constructed (musl/ldso/dynlink.c:1508-1575),
on values. An object is a number greater than 0; 0 is the null pointer. `g[x]` are the
direct dependencies of object `x`. */
module CtorSpec {
  import opened Basics

  type Graph = seq<seq<nat>>

  ghost predicate GraphOk(g: Graph) {
    forall x | 0 <= x < |g| :: forall v <- g[x] :: 0 < v < |g|
  }

  ghost predicate Edge(g: Graph, u: nat, v: nat) { u < |g| && v in g[u] }

  ghost predicate Path(g: Graph, p: seq<nat>) {
    p != [] && forall i: nat | i + 1 < |p| :: Edge(g, p[i], p[i + 1])
  }

  /** There is a way along dependencies from `a` to `b`. */
  ghost predicate Reaches(g: Graph, a: nat, b: nat) {
    exists p :: Path(g, p) && p[0] == a && p[|p| - 1] == b
  }

  lemma ReachesSelf(g: Graph, a: nat)
    ensures Reaches(g, a, a)
  {
    assert Path(g, [a]);
  }

  lemma ReachesStep(g: Graph, a: nat, b: nat, c: nat)
    requires Reaches(g, a, b) && Edge(g, b, c)
    ensures Reaches(g, a, c)
  {
    var p :| Path(g, p) && p[0] == a && p[|p| - 1] == b;
    assert Path(g, p + [c]);
  }

  ghost predicate Closed(g: Graph, u: set<nat>) {
    forall x <- u :: 0 < x < |g| && forall v <- g[x] :: v in u
  }

  lemma {:induction false} ClosedReaches(g: Graph, u: set<nat>, p: seq<nat>)
    requires Closed(g, u) && Path(g, p) && p[0] in u
    ensures p[|p| - 1] in u
    decreases |p|
  {
    if |p| <= 1 {
    } else {
      assert Edge(g, p[0], p[0 + 1]);
      var q := p[1..];
      forall i: nat | i + 1 < |q|
        ensures Edge(g, q[i], q[i + 1])
      {
        assert Edge(g, p[i + 1], p[i + 1 + 1]);
      }
      ClosedReaches(g, u, q);
    }
  }

  lemma {:induction false} UniqueFits(q: seq<nat>, u: set<nat>)
    requires Unique(q) && forall x <- q :: x in u
    ensures |q| <= |u|
    decreases |q|
  {
    if q == [] {
    } else {
      var x, r := q[|q| - 1], q[..|q| - 1];
      forall y <- r
        ensures y in u - {x}
      {
        assert y in q;
      }
      UniqueFits(r, u - {x});
    }
  }

  // ---- The state of the search ----

  /** The output so far, the object in hand, the stack with its top first, and of each
      object whether it is marked and the dependency to look at next. */
  datatype Search = Search(out: seq<nat>, stack: seq<nat>, mark: seq<bool>, next: seq<nat>)

  ghost function Live(s: Search): seq<nat> { s.out + s.stack }

  /** The marked objects of `u` are those in the output or on the stack, each of them once. */
  ghost predicate MarksOk(g: Graph, u: set<nat>, s: Search) {
    && |s.mark| == |s.next| == |g| && Unique(Live(s))
    && (forall x <- Live(s) :: x in u)
    && forall x <- u :: x < |g| && (s.mark[x] <==> x in Live(s))
  }

  /** The dependencies of `x` before the `k`-th have been seen. */
  ghost predicate Seen(g: Graph, s: Search, x: nat, k: nat) {
    x < |g| && k <= |g[x]| && forall i | 0 <= i < k :: g[x][i] in Live(s)
  }

  ghost predicate SeenOk(g: Graph, s: Search)
    requires |s.next| == |g|
  {
    && (forall x <- s.out :: x < |g| && Seen(g, s, x, |g[x]|))
    && forall x <- s.stack :: x < |g| && Seen(g, s, x, s.next[x])
  }

  /** The object at `i + 1` on the stack is at the dependency that is at `i`. */
  ghost predicate Link(g: Graph, s: Search, i: nat)
    requires |s.next| == |g| && i + 1 < |s.stack|
  {
    var x := s.stack[i + 1];
    x < |g| && s.next[x] < |g[x]| && g[x][s.next[x]] == s.stack[i]
  }

  ghost predicate ChainOk(g: Graph, s: Search)
    requires |s.next| == |g|
  {
    forall i: nat | i + 1 < |s.stack| :: Link(g, s, i)
  }

  /** Dependency `v` of the object at `j` of the order `q` comes before it, or leads back
      to it. */
  ghost predicate Before(g: Graph, q: seq<nat>, j: nat, v: nat)
    requires j < |q|
  {
    v in q[..j] || Reaches(g, v, q[j])
  }

  ghost predicate OrderOk(g: Graph, q: seq<nat>) {
    forall j: nat | j < |q| :: q[j] < |g| && forall v <- g[q[j]] :: Before(g, q, j, v)
  }

  ghost predicate SearchOk(g: Graph, u: set<nat>, dso: nat, s: Search) {
    && GraphOk(g) && Closed(g, u) && MarksOk(g, u, s) && SeenOk(g, s) && ChainOk(g, s)
    && (forall x <- Live(s) :: Reaches(g, dso, x))
    && OrderOk(g, s.out) && dso in Live(s)
  }

  // ---- Its steps ----

  /** The stack starts with the object asked for. */
  lemma StartOk(g: Graph, u: set<nat>, dso: nat, s: Search)
    requires GraphOk(g) && Closed(g, u) && dso in u
    requires s.out == [] && s.stack == [dso] && |s.mark| == |s.next| == |g| && s.next[dso] == 0
    requires forall x <- u :: s.mark[x] <==> x == dso
    ensures SearchOk(g, u, dso, s)
  {
    ReachesSelf(g, dso);
  }

  /** The object on top of the stack, and whether it has a dependency left to look at. */
  ghost predicate Top(g: Graph, s: Search, p: nat) {
    s.stack != [] && p == s.stack[0] && p < |g| && |s.next| == |s.mark| == |g| && s.next[p] <= |g[p]|
  }

  ghost predicate AtDep(g: Graph, s: Search, p: nat, v: nat) {
    Top(g, s, p) && s.next[p] < |g[p]| && v == g[p][s.next[p]] && v < |g|
  }

  lemma TopOk(g: Graph, u: set<nat>, dso: nat, s: Search)
    requires SearchOk(g, u, dso, s) && s.stack != []
    ensures Top(g, s, s.stack[0])
    ensures s.next[s.stack[0]] < |g[s.stack[0]]| ==> AtDep(g, s, s.stack[0], g[s.stack[0]][s.next[s.stack[0]]])
  {
    var p := s.stack[0];
    assert Seen(g, s, p, s.next[p]);
    if s.next[p] < |g[p]| {
      assert g[p][s.next[p]] in g[p];
    }
  }

  /** A marked dependency is passed over. */
  lemma SkipOk(g: Graph, u: set<nat>, dso: nat, s: Search, p: nat, v: nat)
    requires SearchOk(g, u, dso, s) && AtDep(g, s, p, v) && s.mark[v]
    ensures SearchOk(g, u, dso, s.(next := s.next[p := s.next[p] + 1]))
  {
    var s' := s.(next := s.next[p := s.next[p] + 1]);
    assert p in Live(s) && v in g[p];
    assert v in Live(s);
    assert SeenOk(g, s') by {
      assert forall x <- s.out :: Seen(g, s, x, |g[x]|);
      assert forall x <- s.stack :: Seen(g, s, x, s.next[x]);
    }
    forall i: nat | i + 1 < |s.stack|
      ensures Link(g, s', i)
    {
      assert Link(g, s, i);
      assert Live(s)[|s.out| + i + 1] != Live(s)[|s.out|];
    }
  }

  lemma UniqueInsert(q: seq<nat>, v: nat, r: seq<nat>)
    requires Unique(q + r) && v !in q + r
    ensures Unique(q + ([v] + r))
    ensures forall x :: x in q + ([v] + r) <==> x in q + r || x == v
  {
    var s, t := q + ([v] + r), q + r;
    forall i, j | 0 <= i < j < |s|
      ensures s[i] != s[j]
    {
      var i', j' := if i <= |q| then i else i - 1, if j <= |q| then j else j - 1;
      assert i != |q| ==> s[i] == t[i'];
      assert j != |q| ==> s[j] == t[j'];
    }
  }

  /** A dependency that is not marked goes on the stack. */
  lemma PushOk(g: Graph, u: set<nat>, dso: nat, s: Search, p: nat, v: nat)
    requires SearchOk(g, u, dso, s) && AtDep(g, s, p, v) && !s.mark[v]
    ensures SearchOk(g, u, dso, s.(stack := [v] + s.stack, mark := s.mark[v := true], next := s.next[v := 0]))
  {
    var s' := s.(stack := [v] + s.stack, mark := s.mark[v := true], next := s.next[v := 0]);
    assert p in Live(s) && v in g[p] && v in u && v !in Live(s);
    UniqueInsert(s.out, v, s.stack);
    forall x <- s.out
      ensures Seen(g, s', x, |g[x]|)
    {
      assert Seen(g, s, x, |g[x]|);
    }
    forall x <- s'.stack
      ensures x < |g| && Seen(g, s', x, s'.next[x])
    {
      assert x != v ==> x in s.stack && Seen(g, s, x, s.next[x]);
    }
    forall i: nat | i + 1 < |s'.stack|
      ensures Link(g, s', i)
    {
      assert s'.stack[i + 1] == s.stack[i] && s.stack[i] in Live(s);
      if i > 0 {
        assert Link(g, s, i - 1);
      }
    }
    assert Edge(g, p, v);
    ReachesStep(g, dso, p, v);
  }

  lemma {:induction false} StackReaches(g: Graph, s: Search, i: nat)
    requires |s.next| == |g| && ChainOk(g, s) && i < |s.stack|
    ensures Reaches(g, s.stack[i], s.stack[0])
  {
    if i == 0 {
      ReachesSelf(g, s.stack[0]);
    } else {
      var j := i - 1;
      StackReaches(g, s, j);
      assert Link(g, s, j);
      var p :| Path(g, p) && p[0] == s.stack[j] && p[|p| - 1] == s.stack[0];
      var q := [s.stack[i]] + p;
      forall k: nat | k + 1 < |q|
        ensures Edge(g, q[k], q[k + 1])
      {
        if k > 0 {
          assert Edge(g, p[k - 1], p[k - 1 + 1]);
        }
      }
      assert Path(g, q) && q[0] == s.stack[i] && q[|q| - 1] == s.stack[0];
    }
  }

  /** An object with no dependency left goes to the output. */
  lemma EmitOk(g: Graph, u: set<nat>, dso: nat, s: Search, p: nat)
    requires SearchOk(g, u, dso, s) && Top(g, s, p) && s.next[p] == |g[p]|
    ensures SearchOk(g, u, dso, s.(out := s.out + [p], stack := s.stack[1..]))
  {
    var s' := s.(out := s.out + [p], stack := s.stack[1..]);
    assert Live(s') == Live(s);
    forall i: nat | i + 1 < |s'.stack|
      ensures Link(g, s', i)
    {
      assert Link(g, s, i + 1);
    }
    assert Seen(g, s, p, |g[p]|);
    forall x <- s'.out
      ensures x < |g| && Seen(g, s', x, |g[x]|)
    {
      assert x != p ==> x in s.out && Seen(g, s, x, |g[x]|);
    }
    forall x <- s'.stack
      ensures x < |g| && Seen(g, s', x, s'.next[x])
    {
      assert x in s.stack && Seen(g, s, x, s.next[x]);
    }
    EmitOrder(g, u, dso, s, p);
  }

  lemma EmitOrder(g: Graph, u: set<nat>, dso: nat, s: Search, p: nat)
    requires SearchOk(g, u, dso, s) && Top(g, s, p) && s.next[p] == |g[p]|
    ensures OrderOk(g, s.out + [p])
  {
    var q := s.out + [p];
    forall j: nat | j < |q|
      ensures q[j] < |g| && forall v <- g[q[j]] :: Before(g, q, j, v)
    {
      if j < |s.out| {
        assert q[..j] == s.out[..j];
        forall v <- g[q[j]]
          ensures Before(g, q, j, v)
        {
          assert Before(g, s.out, j, v);
        }
      } else {
        assert q[..j] == s.out;
        assert Seen(g, s, p, |g[p]|);
        forall v <- g[p]
          ensures Before(g, q, j, v)
        {
          assert v in Live(s);
          if v !in s.out {
            var i :| 0 <= i < |s.stack| && s.stack[i] == v;
            StackReaches(g, s, i);
          }
        }
      }
    }
  }

  // ---- Its outcome ----

  /** `q` lists the objects that `dso` needs, itself among them, each once, and every object
      after all its dependencies, save those that in turn need it. */
  ghost predicate Sorted(g: Graph, dso: nat, q: seq<nat>) {
    && Unique(q) && (forall x: nat :: x in q <==> Reaches(g, dso, x)) && OrderOk(g, q)
  }

  lemma DoneSorted(g: Graph, u: set<nat>, dso: nat, s: Search)
    requires SearchOk(g, u, dso, s) && s.stack == []
    ensures Sorted(g, dso, s.out)
  {
    assert Live(s) == s.out;
    var m := set x | x in s.out;
    forall x <- m
      ensures 0 < x < |g| && forall v <- g[x] :: v in m
    {
      assert x in Live(s) && Seen(g, s, x, |g[x]|);
    }
    forall x: nat | Reaches(g, dso, x)
      ensures x in s.out
    {
      var p :| Path(g, p) && p[0] == dso && p[|p| - 1] == x;
      ClosedReaches(g, m, p);
    }
  }

  /** No object needs itself. */
  ghost predicate Acyclic(g: Graph) {
    forall u, v | Edge(g, u, v) :: !Reaches(g, v, u)
  }

  /** Without cycles, every dependency comes first. */
  lemma AcyclicOrder(g: Graph, dso: nat, q: seq<nat>)
    requires Sorted(g, dso, q) && Acyclic(g)
    ensures forall j: nat | j < |q| :: q[j] < |g| && forall v <- g[q[j]] :: v in q[..j]
  {
    forall j: nat | j < |q|
      ensures q[j] < |g| && forall v <- g[q[j]] :: v in q[..j]
    {
      forall v <- g[q[j]]
        ensures v in q[..j]
      {
        assert Before(g, q, j, v) && Edge(g, q[j], v);
      }
    }
  }
}
