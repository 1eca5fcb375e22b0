/** The exact orders of extend_bfs_deps and queue_ctors (musl/ldso/dynlink.c:1303-1352,
1508-1575), on values: breadth first for the one, and for the other the order in which a
depth-first search leaves the objects. */
module CtorOrder {
  import opened Basics
  import opened CtorSpec

  // ---- Depth first ----

  lemma Smaller(n: nat, m: set<nat>, m': set<nat>, v: nat)
    requires m <= m' && v in m' && v !in m && v < n
    ensures |Upto(n) - m'| < |Upto(n) - m|
  {
    assert Upto(n) - m' <= Upto(n) - m - {v};
    SubsetSize(Upto(n) - m', Upto(n) - m - {v});
  }

  lemma {:induction false} SubsetSize(a: set<nat>, b: set<nat>)
    requires a <= b
    ensures |a| <= |b|
  {
    if a == {} {
    } else {
      var x :| x in a;
      SubsetSize(a - {x}, b - {x});
    }
  }

  ghost predicate Within(g: Graph, ds: seq<nat>) { forall i | 0 <= i < |ds| :: ds[i] < |g| }

  lemma DepsWithin(g: Graph, x: nat)
    requires GraphOk(g) && x < |g|
    ensures Within(g, g[x])
  {
    forall i | 0 <= i < |g[x]|
      ensures g[x][i] < |g|
    {
      assert g[x][i] in g[x];
    }
  }

  /** Visiting the objects `ds` one after the other, when those of `seen` are passed over: the
      objects in the order in which they are left, and those seen at the end. */
  ghost function Leave(g: Graph, seen: set<nat>, ds: seq<nat>): (r: (seq<nat>, set<nat>))
    requires GraphOk(g) && Within(g, ds)
    ensures seen <= r.1
    decreases |Upto(|g|) - seen|, |ds|
  {
    if ds == [] then ([], seen)
    else if ds[0] in seen then Leave(g, seen, ds[1..])
    else
      var v := ds[0];
      DepsWithin(g, v);
      Smaller(|g|, seen, seen + {v}, v);
      var (before, seen1) := Leave(g, seen + {v}, g[v]);
      Smaller(|g|, seen, seen1, v);
      var (after, seen2) := Leave(g, seen1, ds[1..]);
      (before + [v] + after, seen2)
  }

  /** The order in which a depth-first search from `dso` leaves the objects. */
  ghost function LeaveOrder(g: Graph, dso: nat): seq<nat>
    requires GraphOk(g) && dso < |g|
  {
    Leave(g, {}, [dso]).0
  }

  ghost predicate StackOk(g: Graph, stack: seq<nat>, next: seq<nat>) {
    GraphOk(g) && |next| == |g| && forall i | 0 <= i < |stack| :: stack[i] < |g| && next[stack[i]] <= |g[stack[i]]|
  }

  lemma RestWithin(g: Graph, x: nat, i: nat)
    requires GraphOk(g) && x < |g| && i <= |g[x]|
    ensures Within(g, g[x][i..])
  {
    DepsWithin(g, x);
  }

  /** What is still to be output for the objects on the stack. */
  ghost function ToLeave(g: Graph, seen: set<nat>, stack: seq<nat>, next: seq<nat>): seq<nat>
    requires StackOk(g, stack, next)
    decreases |stack|
  {
    if stack == [] then []
    else
      var p := stack[0];
      RestWithin(g, p, next[p]);
      var (before, seen1) := Leave(g, seen, g[p][next[p]..]);
      before + [p] + ToLeave(g, seen1, stack[1..], next)
  }

  /** The search is on the way to the order in which the objects are left. */
  ghost predicate OnCourse(g: Graph, dso: nat, s: Search) {
    && StackOk(g, s.stack, s.next) && dso < |g|
    && s.out + ToLeave(g, Elems(Live(s)), s.stack, s.next) == LeaveOrder(g, dso)
  }

  lemma {:induction false} NextElsewhere(g: Graph, seen: set<nat>, stack: seq<nat>, next: seq<nat>, next': seq<nat>)
    requires StackOk(g, stack, next) && StackOk(g, stack, next') && forall i | 0 <= i < |stack| :: next[stack[i]] == next'[stack[i]]
    ensures ToLeave(g, seen, stack, next) == ToLeave(g, seen, stack, next')
    decreases |stack|
  {
    if stack == [] {
    } else {
      var p := stack[0];
      RestWithin(g, p, next[p]);
      NextElsewhere(g, Leave(g, seen, g[p][next[p]..]).1, stack[1..], next, next');
    }
  }

  lemma CourseStart(g: Graph, dso: nat, s: Search)
    requires GraphOk(g) && dso < |g| && s.out == [] && s.stack == [dso] && |s.next| == |g| && s.next[dso] == 0
    ensures OnCourse(g, dso, s)
  {
    assert Elems(Live(s)) == {dso} == {} + {dso};
    RestWithin(g, dso, 0);
    assert g[dso][0..] == g[dso];
    var (before, seen1) := Leave(g, {} + {dso}, g[dso]);
    assert [dso][1..] == [];
    assert Leave(g, {}, [dso]).0 == before + [dso] + [];
    assert ToLeave(g, seen1, s.stack[1..], s.next) == [];
  }

  /** A dependency that has been seen is passed over. */
  lemma CourseSkip(g: Graph, dso: nat, s: Search, p: nat, v: nat, next': seq<nat>)
    requires OnCourse(g, dso, s) && AtDep(g, s, p, v) && v in Live(s) && Unique(Live(s)) && next' == s.next[p := s.next[p] + 1]
    ensures OnCourse(g, dso, s.(next := next'))
  {
    var i, m, rest := s.next[p], Elems(Live(s)), s.stack[1..];
    assert g[p][i..] == [v] + g[p][i + 1..];
    RestWithin(g, p, i);
    RestWithin(g, p, i + 1);
    assert Leave(g, m, g[p][i..]) == Leave(g, m, g[p][i + 1..]);
    NotBelow(s);
    NextElsewhere(g, Leave(g, m, g[p][i..]).1, rest, s.next, next');
  }

  /** The object on top of the stack is nowhere else on it. */
  lemma NotBelow(s: Search)
    requires s.stack != [] && Unique(Live(s))
    ensures s.stack[0] !in s.stack[1..]
  {
    forall i | 0 <= i < |s.stack[1..]|
      ensures s.stack[1..][i] != s.stack[0]
    {
      assert Live(s)[|s.out|] == s.stack[0] && Live(s)[|s.out| + i + 1] == s.stack[1..][i];
    }
  }

  /** One that has not is visited first. */
  lemma CoursePush(g: Graph, dso: nat, s: Search, p: nat, v: nat, next': seq<nat>)
    requires OnCourse(g, dso, s) && AtDep(g, s, p, v) && v !in Live(s) && next' == s.next[v := 0]
    ensures OnCourse(g, dso, s.(stack := [v] + s.stack, next := next'))
  {
    var i, m, stack' := s.next[p], Elems(Live(s)), [v] + s.stack;
    assert g[p][i..] == [v] + g[p][i + 1..] && g[v][0..] == g[v] && stack'[1..] == s.stack;
    RestWithin(g, p, i);
    RestWithin(g, p, i + 1);
    RestWithin(g, v, 0);
    assert forall x <- s.stack :: x in Live(s);
    PushLeave(g, m, s.stack, s.next, next', p, v);
    assert Elems(s.out + stack') == m + {v};
  }

  /** Visiting `v` first and then the rest is visiting `v` and the rest. */
  lemma LeaveFirst(g: Graph, m: set<nat>, ds: seq<nat>, v: nat)
    requires GraphOk(g) && Within(g, ds) && v < |g| && v !in m && Within(g, g[v]) && Within(g, [v] + ds)
    ensures var (before, seen1) := Leave(g, m + {v}, g[v]);
      var (after, seen2) := Leave(g, seen1, ds);
      Leave(g, m, [v] + ds) == (before + [v] + after, seen2) && Leave(g, seen1, [v] + ds) == (after, seen2)
  {
    assert ([v] + ds)[1..] == ds;
  }

  lemma PushLeave(g: Graph, m: set<nat>, stack: seq<nat>, next: seq<nat>, next': seq<nat>, p: nat, v: nat)
    requires StackOk(g, stack, next) && StackOk(g, [v] + stack, next') && stack != [] && p == stack[0] && next[p] < |g[p]| && v == g[p][next[p]]
    requires v !in m && v < |g| && next' == next[v := 0] && v !in stack
    ensures ToLeave(g, m + {v}, [v] + stack, next') == ToLeave(g, m, stack, next)
  {
    var i := next[p];
    var ds := g[p][i + 1..];
    assert g[p][i..] == [v] + ds && g[v][0..] == g[v] && ([v] + stack)[1..] == stack;
    RestWithin(g, p, i);
    RestWithin(g, p, i + 1);
    DepsWithin(g, v);
    LeaveFirst(g, m, ds, v);
    var (before, seen1) := Leave(g, m + {v}, g[v]);
    var (after, seen2) := Leave(g, seen1, ds);
    NextElsewhere(g, seen2, stack[1..], next, next');
    var more := ToLeave(g, seen2, stack[1..], next);
    Regroup(before, v, after, p, more);
    assert ToLeave(g, m, stack, next) == (before + [v] + after) + [p] + more;
    assert ToLeave(g, seen1, stack, next') == after + [p] + more;
  }

  lemma Regroup(a: seq<nat>, v: nat, b: seq<nat>, p: nat, c: seq<nat>)
    ensures (a + [v] + b) + [p] + c == a + [v] + (b + [p] + c)
  {
  }

  /** An object with no dependency left is left. */
  lemma CourseEmit(g: Graph, dso: nat, s: Search, p: nat)
    requires OnCourse(g, dso, s) && Top(g, s, p) && s.next[p] == |g[p]|
    ensures OnCourse(g, dso, s.(out := s.out + [p], stack := s.stack[1..]))
  {
    var m, rest := Elems(Live(s)), s.stack[1..];
    assert g[p][s.next[p]..] == [];
    assert ToLeave(g, m, s.stack, s.next) == [] + [p] + ToLeave(g, m, rest, s.next);
    assert (s.out + [p]) + rest == Live(s);
    assert s.out + ([] + [p] + ToLeave(g, m, rest, s.next)) == (s.out + [p]) + ToLeave(g, m, rest, s.next);
  }

  lemma CourseDone(g: Graph, dso: nat, s: Search)
    requires OnCourse(g, dso, s) && s.stack == []
    ensures s.out == LeaveOrder(g, dso)
  {
  }

  // ---- Breadth first ----

  /** The place of `v` in `q`, or the length of `q`. */
  ghost function FirstIn(q: seq<nat>, v: nat): (k: nat)
    ensures k <= |q| && (k < |q| ==> q[k] == v) && (forall i | 0 <= i < k :: q[i] != v)
  {
    if q == [] || q[0] == v then 0 else 1 + FirstIn(q[1..], v)
  }

  /** The first object of the list that `v` is a direct dependency of. */
  ghost function Parent(g: Graph, list: seq<nat>, v: nat): (k: nat)
    ensures k <= |list| && (k < |list| ==> Edge(g, list[k], v)) && (forall i | 0 <= i < k :: !Edge(g, list[i], v))
  {
    if list == [] || Edge(g, list[0], v) then 0 else 1 + Parent(g, list[1..], v)
  }

  /** `v` is found from the object at `k` of the list, and as its dependency `n`, earlier than
      dependency `n'` of the object at `k'`. */
  ghost predicate FoundBefore(g: Graph, list: seq<nat>, v: nat, k': nat, n': nat) {
    var k := Parent(g, list, v);
    k < |list| && (k < k' || (k == k' && list[k] < |g| && FirstIn(g[list[k]], v) < n'))
  }

  /** From `base` on the list is in breadth-first order: each object is there once, comes after
      the one that it is found from, and in the order of being found. */
  ghost predicate BreadthFirst(g: Graph, base: nat, list: seq<nat>) {
    && (forall i, j | 0 <= i < j < |list| && base <= j :: list[i] != list[j])
    && (forall j | base <= j < |list| :: Parent(g, list, list[j]) < j)
    && (forall i, j {:trigger InTurn(g, list, list[i], list[j])} | base <= i < j < |list| :: InTurn(g, list, list[i], list[j]))
  }

  ghost predicate InTurn(g: Graph, list: seq<nat>, u: nat, v: nat) {
    var k := Parent(g, list, v);
    k < |list| && list[k] < |g| && FoundBefore(g, list, u, k, FirstIn(g[list[k]], v))
  }

  /** All has been found up to dependency `n` of the object at `i`. */
  ghost predicate Swept(g: Graph, list: seq<nat>, i: nat, n: nat) {
    && i < |list| && (forall k | 0 <= k < |list| :: list[k] < |g|) && n <= |g[list[i]]|
    && (forall k, v | 0 <= k < i && v in g[list[k]] :: v in list)
    && (forall m | 0 <= m < n :: g[list[i]][m] in list)
  }

  ghost predicate BfsUpTo(g: Graph, base: nat, list: seq<nat>, i: nat, n: nat) {
    BreadthFirst(g, base, list) && forall j {:trigger FoundBefore(g, list, list[j], i, n)} | base <= j < |list| :: FoundBefore(g, list, list[j], i, n)
  }

  lemma ParentStays(g: Graph, list: seq<nat>, w: nat, v: nat)
    requires Parent(g, list, v) < |list|
    ensures Parent(g, list + [w], v) == Parent(g, list, v)
  {
    assert forall i | 0 <= i < |list| :: (list + [w])[i] == list[i];
  }

  /** The next dependency is found just now. */
  lemma FoundNow(g: Graph, list: seq<nat>, i: nat, n: nat, v: nat)
    requires Swept(g, list, i, n) && n < |g[list[i]]| && v == g[list[i]][n] && v !in list
    ensures Parent(g, list + [v], v) == i && FirstIn(g[list[i]], v) == n
  {
    var more := list + [v];
    assert forall k | 0 <= k < |list| :: more[k] == list[k];
    assert Edge(g, more[i], v);
    assert forall k | 0 <= k < i :: !Edge(g, more[k], v);
  }

  lemma FoundStays(g: Graph, list: seq<nat>, w: nat, v: nat, k: nat, n: nat)
    requires FoundBefore(g, list, v, k, n)
    ensures FoundBefore(g, list + [w], v, k, n) && Parent(g, list + [w], v) == Parent(g, list, v)
  {
    ParentStays(g, list, w, v);
  }

  lemma InTurnStays(g: Graph, list: seq<nat>, w: nat, u: nat, v: nat)
    requires InTurn(g, list, u, v)
    ensures InTurn(g, list + [w], u, v)
  {
    ParentStays(g, list, w, v);
    var k := Parent(g, list, v);
    FoundStays(g, list, w, u, k, FirstIn(g[list[k]], v));
  }

  lemma AppendInTurn(g: Graph, base: nat, list: seq<nat>, i: nat, n: nat, v: nat, more: seq<nat>, a: nat, b: nat)
    requires BfsUpTo(g, base, list, i, n) && Swept(g, list, i, n) && more == list + [v]
    requires n < |g[list[i]]| && v == g[list[i]][n] && v !in list && base <= a < b < |more|
    ensures InTurn(g, more, more[a], more[b])
  {
    if b < |list| {
      assert InTurn(g, list, list[a], list[b]);
      InTurnStays(g, list, v, list[a], list[b]);
    } else {
      FoundNow(g, list, i, n, v);
      assert FoundBefore(g, list, list[a], i, n);
      FoundStays(g, list, v, list[a], i, n);
    }
  }

  lemma AppendFound(g: Graph, base: nat, list: seq<nat>, i: nat, n: nat, v: nat, more: seq<nat>, j: nat)
    requires BfsUpTo(g, base, list, i, n) && Swept(g, list, i, n) && more == list + [v]
    requires n < |g[list[i]]| && v == g[list[i]][n] && v !in list && base <= j < |more|
    ensures FoundBefore(g, more, more[j], i, n + 1) && Parent(g, more, more[j]) < j
  {
    if j < |list| {
      assert FoundBefore(g, list, list[j], i, n) && Parent(g, list, list[j]) < j;
      FoundStays(g, list, v, list[j], i, n);
    } else {
      FoundNow(g, list, i, n, v);
    }
  }

  lemma BfsAppend(g: Graph, base: nat, list: seq<nat>, i: nat, n: nat, v: nat)
    requires BfsUpTo(g, base, list, i, n) && Swept(g, list, i, n)
    requires n < |g[list[i]]| && v == g[list[i]][n] && v !in list
    ensures BfsUpTo(g, base, list + [v], i, n + 1)
  {
    var more := list + [v];
    forall j | base <= j < |more|
      ensures FoundBefore(g, more, more[j], i, n + 1) && Parent(g, more, more[j]) < j
    {
      AppendFound(g, base, list, i, n, v, more, j);
    }
    forall a, b | base <= a < b < |more|
      ensures InTurn(g, more, more[a], more[b])
    {
      AppendInTurn(g, base, list, i, n, v, more, a, b);
    }
  }

  /** A dependency that is on the list already, or the end of an object's dependencies. */
  lemma BfsOn(g: Graph, base: nat, list: seq<nat>, i: nat, n: nat, i': nat, n': nat)
    requires BfsUpTo(g, base, list, i, n) && (i < i' || (i == i' && n <= n'))
    ensures BfsUpTo(g, base, list, i', n')
  {
    forall j | base <= j < |list|
      ensures FoundBefore(g, list, list[j], i', n')
    {
      assert FoundBefore(g, list, list[j], i, n);
    }
  }

  // ---- There is only one ----

  lemma ParentPrefix(g: Graph, p: seq<nat>, q: seq<nat>, j: nat, v: nat)
    requires j <= |p| && j <= |q| && p[..j] == q[..j] && Parent(g, p, v) < j
    ensures Parent(g, q, v) == Parent(g, p, v)
  {
    assert forall i | 0 <= i < j :: p[i] == p[..j][i] == q[..j][i] == q[i];
  }

  /** Two objects cannot be in turn one way in a list and the other way in another with the
      same beginning. */
  lemma NotBothWays(g: Graph, p: seq<nat>, q: seq<nat>, j: nat, u: nat, v: nat)
    requires j <= |p| && j <= |q| && p[..j] == q[..j] && Parent(g, p, u) < j && Parent(g, q, v) < j
    ensures !(InTurn(g, p, u, v) && InTurn(g, q, v, u))
  {
    ParentPrefix(g, p, q, j, u);
    ParentPrefix(g, q, p, j, v);
    assert forall i | 0 <= i < j :: p[i] == p[..j][i] == q[..j][i] == q[i];
  }

  lemma Later(p: seq<nat>, q: seq<nat>, j: nat)
    requires j < |p| && j < |q| && p[..j] == q[..j] && p[j] != q[j] && p[j] in q && forall i | 0 <= i < j :: p[i] != p[j]
    ensures exists a :: j < a < |q| && q[a] == p[j]
  {
    var a :| 0 <= a < |q| && q[a] == p[j];
    assert forall i | 0 <= i < j :: p[i] == p[..j][i] == q[..j][i] == q[i];
  }

  /** Lists with the same beginning and the same objects, both in breadth-first order, go on in
      the same way. */
  lemma SameNext(g: Graph, base: nat, p: seq<nat>, q: seq<nat>, j: nat)
    requires BreadthFirst(g, base, p) && BreadthFirst(g, base, q) && base <= j && j < |p| && j < |q| && p[..j] == q[..j]
    requires (forall x :: x in p <==> x in q)
    ensures p[j] == q[j]
  {
    assert p[j] in p && q[j] in q;
    if p[j] != q[j] {
      NotBothWays(g, p, q, j, p[j], q[j]);
      Later(p, q, j);
      Later(q, p, j);
    }
  }

  lemma OneMore(p: seq<nat>, q: seq<nat>, j: nat)
    requires 0 < j <= |p| && j <= |q| && p[..j - 1] == q[..j - 1] && p[j - 1] == q[j - 1]
    ensures p[..j] == q[..j]
  {
    assert p[..j] == p[..j - 1] + [p[j - 1]] && q[..j] == q[..j - 1] + [q[j - 1]];
  }

  lemma {:induction false} SamePrefix(g: Graph, base: nat, p: seq<nat>, q: seq<nat>, j: nat)
    requires BreadthFirst(g, base, p) && BreadthFirst(g, base, q) && base <= j <= |p| && j <= |q| && p[..base] == q[..base]
    requires (forall x :: x in p <==> x in q)
    ensures p[..j] == q[..j]
  {
    if j == base {
    } else {
      SamePrefix(g, base, p, q, j - 1);
      SameNext(g, base, p, q, j - 1);
      OneMore(p, q, j);
    }
  }

  lemma NotAmong(q: seq<nat>, n: nat)
    requires n < |q| && forall i | 0 <= i < n :: q[i] != q[n]
    ensures q[n] in q && q[n] !in q[..n]
  {
  }

  lemma NotLonger(g: Graph, base: nat, p: seq<nat>, q: seq<nat>)
    requires BreadthFirst(g, base, q) && base <= |p| <= |q| && p == q[..|p|] && (forall x :: x in p <==> x in q)
    ensures |p| == |q|
  {
    assert forall i | 0 <= i < |p| :: p[i] == q[..|p|][i] == q[i];
    if |p| < |q| {
      NotAmong(q, |p|);
    }
  }

  /** The breadth-first list of some objects is determined by its beginning. */
  lemma OneBreadthFirst(g: Graph, base: nat, p: seq<nat>, q: seq<nat>)
    requires BreadthFirst(g, base, p) && BreadthFirst(g, base, q) && base <= |p| && base <= |q| && p[..base] == q[..base]
    requires (forall x :: x in p <==> x in q)
    ensures p == q
  {
    var j := if |p| <= |q| then |p| else |q|;
    SamePrefix(g, base, p, q, j);
    assert p[..|p|] == p && q[..|q|] == q;
    if |p| <= |q| {
      NotLonger(g, base, p, q);
    } else {
      NotLonger(g, base, q, p);
    }
  }
}
