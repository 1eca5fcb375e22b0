/** extend_bfs_deps and queue_ctors (musl/ldso/dynlink.c:1303-1352, 1508-1575). */
module Ctors {
  import opened Basics
  import opened CtorSpec
  import opened CtorOrder

  /** The objects whose number of slots `cnt` bounds what a search can list. */
  ghost predicate Bound(g: Graph, u: set<nat>, dso: nat, cnt: nat) {
    GraphOk(g) && Closed(g, u) && dso in u && |u| < cnt
  }

  /** A search never fills the buffer. */
  lemma Room(g: Graph, u: set<nat>, dso: nat, cnt: nat, s: Search)
    requires Bound(g, u, dso, cnt) && SearchOk(g, u, dso, s)
    ensures |s.out| + |s.stack| < cnt
  {
    UniqueFits(Live(s), u);
  }

  /** Passing over or pushing the next dependency `v` of the object `p` in hand. */
  ghost function Next(s: Search, p: nat, v: nat): Search
    requires p < |s.next| == |s.mark| && v < |s.mark|
  {
    if s.mark[v] then Search(s.out, s.stack, s.mark, s.next[p := s.next[p] + 1])
    else Search(s.out, [v] + s.stack, s.mark[v := true], s.next[v := 0])
  }

  lemma NextOk(g: Graph, u: set<nat>, dso: nat, cnt: nat, s: Search, p: nat, v: nat, s': Search)
    requires Bound(g, u, dso, cnt) && SearchOk(g, u, dso, s) && OnCourse(g, dso, s) && AtDep(g, s, p, v) && s' == Next(s, p, v)
    ensures OnCourse(g, dso, s')
    ensures SearchOk(g, u, dso, s') && |s'.out| + |s'.stack| < cnt && v in u
    ensures Top(g, s', if s.mark[v] then p else v)
  {
    if s.mark[v] {
      SkipOk(g, u, dso, s, p, v);
    } else {
      PushOk(g, u, dso, s, p, v);
    }
    Room(g, u, dso, cnt, s');
    TopOk(g, u, dso, s');
    assert p in Live(s) && p in u && v in g[p] && (v in Live(s) <==> s.mark[v]);
    if s.mark[v] {
      CourseSkip(g, dso, s, p, v, s'.next);
    } else {
      CoursePush(g, dso, s, p, v, s'.next);
    }
  }

  /** Output of the object `p` in hand. */
  lemma EmitNext(g: Graph, u: set<nat>, dso: nat, cnt: nat, s: Search, p: nat, s': Search)
    requires Bound(g, u, dso, cnt) && SearchOk(g, u, dso, s) && OnCourse(g, dso, s) && Top(g, s, p) && s.next[p] == |g[p]|
    requires s' == s.(out := s.out + [p], stack := s.stack[1..])
    ensures SearchOk(g, u, dso, s') && OnCourse(g, dso, s') && |s'.out| + |s'.stack| < cnt
  {
    EmitOk(g, u, dso, s, p);
    CourseEmit(g, dso, s, p);
    Room(g, u, dso, cnt, s');
  }

  /** stack[--spos] = p */
  method Push(buffer: array<nat>, spos: nat, p: nat)
    requires 0 < spos <= buffer.Length
    modifies buffer
    ensures buffer[spos - 1..] == [p] + old(buffer[spos..])
    ensures buffer[..spos - 1] == old(buffer[..spos - 1])
  {
    buffer[spos - 1] := p;
  }

  /** queue[qpos] = p */
  method Emit(buffer: array<nat>, qpos: nat, ghost spos: nat, p: nat)
    requires qpos < spos <= buffer.Length
    modifies buffer
    ensures buffer[..qpos + 1] == old(buffer[..qpos]) + [p]
    ensures buffer[spos..] == old(buffer[spos..])
  {
    buffer[qpos] := p;
  }

  /** The buffer holds the output before `qpos` and the stack, below the object `p` in hand,
      from `spos` on. */
  ghost predicate Held(buffer: seq<nat>, qpos: nat, spos: nat, p: nat, out: seq<nat>, stack: seq<nat>) {
    qpos <= spos <= |buffer| && out == buffer[..qpos] && stack == [p] + buffer[spos..]
  }

  lemma HeldTop(b: seq<nat>, qpos: nat, spos: nat, out: seq<nat>, stack: seq<nat>)
    requires qpos <= spos < |b| && out == b[..qpos] && stack == b[spos..]
    ensures Held(b, qpos, spos + 1, b[spos], out, stack)
  {
  }

  /** The marks `m` differ from `m0` within `u` only. */
  ghost predicate MarkedWithin(u: set<nat>, m0: seq<bool>, m: seq<bool>) {
    |m| == |m0| && forall y | 0 <= y < |m| && y !in u :: m[y] == m0[y]
  }

  lemma MarkedOne(u: set<nat>, m0: seq<bool>, m: seq<bool>, v: nat)
    requires MarkedWithin(u, m0, m) && v in u && v < |m|
    ensures MarkedWithin(u, m0, m[v := true])
  {
  }

  class Linker {
    /** The direct dependencies of each object. */
    const direct: Graph
    /** The list `deps` of each object: the direct dependencies, and when `bfsBuilt` all others
        as well. */
    var deps: seq<seq<nat>>
    var bfsBuilt: seq<bool>
    var mark: seq<bool>
    var nextDep: seq<nat>

    ghost predicate Valid()
      reads this
    {
      && GraphOk(direct) && |deps| == |bfsBuilt| == |mark| == |nextDep| == |direct|
      && forall x | 0 <= x < |direct| :: if bfsBuilt[x] then AllListed(direct, x, deps[x]) else deps[x] == direct[x]
    }

    /** load_deps: the lists hold the direct dependencies, and nothing is marked. */
    constructor (g: Graph)
      requires GraphOk(g)
      ensures Valid() && direct == deps == g && forall y | 0 <= y < |mark| :: !mark[y] && !bfsBuilt[y]
    {
      direct, deps := g, g;
      bfsBuilt, mark, nextDep := seq(|g|, _ => false), seq(|g|, _ => false), seq(|g|, _ => 0);
    }

    /** One step of the inner loop of queue_ctors. */
    method Advance(buffer: array<nat>, qpos: nat, spos0: nat, p0: nat, v: nat, ghost s: Search)
      returns (spos: nat, p: nat)
      requires AtDep(direct, s, p0, v) && Held(buffer[..], qpos, spos0, p0, s.out, s.stack) && s.mark == mark && s.next == nextDep
      requires |Next(s, p0, v).out| + |Next(s, p0, v).stack| < buffer.Length
      modifies buffer, `mark, `nextDep
      ensures Held(buffer[..], qpos, spos, p, Next(s, p0, v).out, Next(s, p0, v).stack) && Next(s, p0, v).mark == mark && Next(s, p0, v).next == nextDep
      ensures spos < spos0 || (spos == spos0 && p == p0 && nextDep == old(nextDep)[p0 := old(nextDep)[p0] + 1])
      ensures p == if s.mark[v] then p0 else v
    {
      spos, p := spos0, p0;
      if mark[v] {
        nextDep := nextDep[p := nextDep[p] + 1];
      } else {
        Push(buffer, spos, p);
        assert buffer[..spos - 1][..qpos] == s.out;
        spos := spos - 1;
        p := v;
        nextDep := nextDep[p := 0];
        mark := mark[p := true];
      }
    }

    /** The inner loop of queue_ctors: down to an object with no dependency left. */
    method Descend(buffer: array<nat>, qpos: nat, spos0: nat, p0: nat, ghost s0: Search, ghost u: set<nat>, ghost dso: nat)
      returns (spos: nat, p: nat, ghost s: Search)
      requires Bound(direct, u, dso, buffer.Length) && SearchOk(direct, u, dso, s0) && OnCourse(direct, dso, s0)
      requires Held(buffer[..], qpos, spos0, p0, s0.out, s0.stack) && s0.mark == mark && s0.next == nextDep
      modifies buffer, `mark, `nextDep
      ensures SearchOk(direct, u, dso, s) && OnCourse(direct, dso, s) && Top(direct, s, p) && s.out == s0.out && s.next[p] == |direct[p]|
      ensures Held(buffer[..], qpos, spos, p, s.out, s.stack) && s.mark == mark && s.next == nextDep
      ensures MarkedWithin(u, old(mark), mark)
    {
      spos, p, s := spos0, p0, s0;
      TopOk(direct, u, dso, s);
      while nextDep[p] < |direct[p]|
        invariant SearchOk(direct, u, dso, s) && OnCourse(direct, dso, s) && Top(direct, s, p) && s.out == s0.out
        invariant Held(buffer[..], qpos, spos, p, s.out, s.stack) && s.mark == mark && s.next == nextDep
        invariant MarkedWithin(u, old(mark), mark)
        decreases spos, |direct[p]| - nextDep[p]
      {
        TopOk(direct, u, dso, s);
        var v := direct[p][nextDep[p]];
        ghost var s' := Next(s, p, v);
        NextOk(direct, u, dso, buffer.Length, s, p, v, s');
        MarkedOne(u, old(mark), mark, v);
        spos, p := Advance(buffer, qpos, spos, p, v, s);
        s := s';
      }
    }

    /** queue[qpos++] = p */
    method Output(buffer: array<nat>, qpos: nat, ghost spos: nat, p: nat, ghost s1: Search, ghost u: set<nat>, ghost dso: nat) returns (ghost s: Search)
      requires Bound(direct, u, dso, buffer.Length) && SearchOk(direct, u, dso, s1) && OnCourse(direct, dso, s1)
      requires Top(direct, s1, p) && s1.next[p] == |direct[p]| && Held(buffer[..], qpos, spos, p, s1.out, s1.stack)
      modifies buffer
      ensures SearchOk(direct, u, dso, s) && OnCourse(direct, dso, s) && s.mark == s1.mark && s.next == s1.next
      ensures qpos + 1 <= spos <= buffer.Length && s.out == buffer[..qpos + 1] && s.stack == buffer[spos..]
    {
      s := s1.(out := s1.out + [p], stack := s1.stack[1..]);
      EmitNext(direct, u, dso, buffer.Length, s1, p, s);
      Emit(buffer, qpos, spos, p);
    }

    /** One round of the outer loop: the object on top of the stack, or one that it needs,
        goes to the output. */
    method Round(buffer: array<nat>, qpos: nat, spos0: nat, ghost s0: Search, ghost u: set<nat>, ghost dso: nat) returns (spos: nat, ghost s: Search)
      requires Bound(direct, u, dso, buffer.Length) && SearchOk(direct, u, dso, s0) && OnCourse(direct, dso, s0) && s0.mark == mark && s0.next == nextDep
      requires qpos <= spos0 < buffer.Length && s0.out == buffer[..][..qpos] && s0.stack == buffer[..][spos0..]
      modifies buffer, `mark, `nextDep
      ensures SearchOk(direct, u, dso, s) && OnCourse(direct, dso, s) && s.mark == mark && s.next == nextDep && MarkedWithin(u, old(mark), mark)
      ensures qpos + 1 <= spos <= buffer.Length && s.out == buffer[..qpos + 1] && s.stack == buffer[spos..]
    {
      var p := buffer[spos0];
      HeldTop(buffer[..], qpos, spos0, s0.out, s0.stack);
      ghost var s1;
      spos, p, s1 := Descend(buffer, qpos, spos0 + 1, p, s0, u, dso);
      s := Output(buffer, qpos, spos, p, s1, u, dso);
    }

    /** The outer loop of queue_ctors. */
    method Sort(buffer: array<nat>, dso: nat, ghost u: set<nat>) returns (qpos: nat)
      requires Bound(direct, u, dso, buffer.Length) && |mark| == |nextDep| == |direct| && (forall x <- u :: x == dso || !mark[x])
      modifies buffer, `mark, `nextDep
      ensures qpos < buffer.Length && Sorted(direct, dso, buffer[..qpos]) && buffer[..qpos] == LeaveOrder(direct, dso) && |mark| == |nextDep| == |direct|
      ensures forall x <- buffer[..qpos] :: x in u && 0 < x < |direct|
      ensures forall y | 0 <= y < |mark| :: mark[y] <==> if y in u then y in buffer[..qpos] else old(mark)[y]
    {
      var cnt := buffer.Length;
      qpos := 0;
      var spos := cnt - 1;
      buffer[spos] := dso;
      nextDep := nextDep[dso := 0];
      mark := mark[dso := true];
      ghost var s := Search([], [dso], mark, nextDep);
      StartOk(direct, u, dso, s);
      CourseStart(direct, dso, s);
      while spos < cnt
        invariant qpos <= spos <= cnt && SearchOk(direct, u, dso, s) && OnCourse(direct, dso, s) && s.mark == mark && s.next == nextDep
        invariant s.out == buffer[..qpos] && s.stack == buffer[spos..] && MarkedWithin(u, old(mark), mark)
        decreases cnt - qpos
      {
        spos, s := Round(buffer, qpos, spos, s, u, dso);
        qpos := qpos + 1;
      }
      Room(direct, u, dso, cnt, s);
      DoneSorted(direct, u, dso, s);
      CourseDone(direct, dso, s);
      assert forall x <- s.out :: x in Live(s) && x in u;
    }

    /** The loops that clear marks. */
    method Unmark(list: seq<nat>)
      requires forall x <- list :: x < |mark|
      modifies `mark
      ensures |mark| == |old(mark)| && forall y | 0 <= y < |mark| :: mark[y] == (old(mark)[y] && y !in list)
    {
      for i := 0 to |list|
        invariant |mark| == |old(mark)| && forall y | 0 <= y < |mark| :: mark[y] == (old(mark)[y] && y !in list[..i])
      {
        assert list[i] in list;
        mark := mark[list[i] := false];
      }
      assert list[..|list|] == list;
    }

    /** The marks that queue_ctors clears, and the number of slots that it allots. */
    method ClearMarks(dso: nat) returns (cnt: nat, ghost u: set<nat>)
      requires Valid() && 0 < dso < |direct|
      modifies `mark
      ensures Valid() && Bound(direct, u, dso, cnt) && forall x <- u :: x == dso || !mark[x]
      ensures forall y | 0 <= y < |mark| :: y in u ==> y == dso || y in deps[dso] || !bfsBuilt[dso]
      ensures forall y | 0 <= y < |mark| :: mark[y] <==> old(mark)[y] && bfsBuilt[dso] && y !in deps[dso]
    {
      if bfsBuilt[dso] {
        u := {dso} + Elems(deps[dso]);
        ListBound(direct, dso, deps[dso], u);
        Unmark(deps[dso]);
        cnt := |deps[dso]| + 2;
      } else {
        u := Below(|direct|);
        mark := seq(|direct|, _ => false);
        cnt := |direct|;
      }
    }

    /** queue_ctors: a buffer with the objects to construct, in order, and a null pointer
        after them. No collision of the output with the stack occurs, for it is part of
        the proof that every index is in range and that the output ends before the stack. */
    method QueueCtors(dso: nat) returns (queue: array<nat>, ghost n: nat)
      requires Valid() && 0 < dso < |direct|
      modifies `mark, `nextDep
      ensures Valid() && fresh(queue) && n < queue.Length && queue[n] == 0
      ensures Sorted(direct, dso, queue[..n]) && queue[..n] == LeaveOrder(direct, dso)
      ensures forall x <- queue[..n] :: 0 < x < |direct| && !mark[x]
      ensures forall y | 0 <= y < |mark| :: mark[y] <==> old(mark)[y] && bfsBuilt[dso] && y != dso && y !in deps[dso]
    {
      var cnt;
      ghost var u;
      cnt, u := ClearMarks(dso);
      ghost var m1 := mark;
      queue := new nat[cnt](_ => 0);
      var qpos := Sort(queue, dso, u);
      ghost var m2, out := mark, queue[..qpos];
      queue[qpos] := 0;
      n := qpos;
      assert queue[..qpos] == out;
      Unmark(queue[..qpos]);
      MarksAfter(old(mark), m1, m2, mark, u, out, dso, deps[dso], bfsBuilt[dso]);
    }

    /** The body of the second loop of extend_bfs_deps: the direct dependencies of `dep`
        that are not yet on the list. */
    method AppendDeps(list0: seq<nat>, i: nat, ghost base: nat, ghost x: nat) returns (list: seq<nat>)
      requires GraphOk(direct) && |mark| == |direct| && x < |direct| && Growing(direct, x, base, list0, mark)
      requires Swept(direct, list0, i, 0) && BfsUpTo(direct, base, list0, i, 0)
      modifies `mark
      ensures |mark| == |direct| && list0 <= list && Growing(direct, x, base, list, mark)
      ensures Swept(direct, list, i, |direct[list0[i]]|) && BfsUpTo(direct, base, list, i, |direct[list0[i]]|)
    {
      list := list0;
      var dep := list0[i];
      for j := 0 to |direct[dep]|
        invariant |mark| == |direct| && list0 <= list && Growing(direct, x, base, list, mark)
        invariant Swept(direct, list, i, j) && BfsUpTo(direct, base, list, i, j)
      {
        list := AppendDep(list, i, j, base, x);
      }
    }

    /** One round of it: dependency `j` of the object at `i`. */
    method AppendDep(list0: seq<nat>, i: nat, j: nat, ghost base: nat, ghost x: nat) returns (list: seq<nat>)
      requires GraphOk(direct) && |mark| == |direct| && x < |direct| && Growing(direct, x, base, list0, mark)
      requires Swept(direct, list0, i, j) && BfsUpTo(direct, base, list0, i, j) && j < |direct[list0[i]]|
      modifies `mark
      ensures |mark| == |direct| && list0 <= list && Growing(direct, x, base, list, mark)
      ensures Swept(direct, list, i, j + 1) && BfsUpTo(direct, base, list, i, j + 1)
    {
      list := list0;
      var v := direct[list[i]][j];
      assert v in direct[list[i]] && list[i] in list;
      if mark[v] {
        BfsOn(direct, base, list, i, j, i, j + 1);
      } else {
        GrowMore(direct, x, base, list, mark, list[i], v);
        BfsAppend(direct, base, list, i, j, v);
        SweptMore(direct, list, i, j, v);
        mark := mark[v := true];
        list := list + [v];
      }
    }

    /** The first loop of extend_bfs_deps. */
    method MarkAll(list: seq<nat>)
      requires (forall x <- list :: x < |mark|) && forall y | 0 <= y < |mark| :: !mark[y]
      modifies `mark
      ensures |mark| == |old(mark)| && forall y | 0 <= y < |mark| :: mark[y] <==> y in list
    {
      for i := 0 to |list|
        invariant |mark| == |old(mark)| && forall y | 0 <= y < |mark| :: mark[y] <==> y in list[..i]
      {
        assert list[i] in list;
        mark := mark[list[i] := true];
      }
      assert list[..|list|] == list;
    }

    /** One round of the second loop of extend_bfs_deps. */
    method AppendNext(list0: seq<nat>, i: nat, ghost base: nat, ghost x: nat) returns (list: seq<nat>)
      requires GraphOk(direct) && |mark| == |direct| && x < |direct| && Growing(direct, x, base, list0, mark)
      requires i < |list0| && SweptTo(direct, list0, i) && BfsUpTo(direct, base, list0, i, 0) && direct[x] <= list0
      modifies `mark
      ensures |mark| == |direct| && i < |list| && direct[x] <= list && Growing(direct, x, base, list, mark)
      ensures SweptTo(direct, list, i + 1) && BfsUpTo(direct, base, list, i + 1, 0)
    {
      list := AppendDeps(list0, i, base, x);
      SweptNext(direct, list, i);
      BfsOn(direct, base, list, i, |direct[list0[i]]|, i + 1, 0);
    }

    /** The second loop of extend_bfs_deps. The list that it runs over grows as it runs. */
    method AppendAll(x: nat) returns (list: seq<nat>)
      requires GraphOk(direct) && x < |direct| == |mark| && Growing(direct, x, |direct[x]|, direct[x], mark)
      modifies `mark
      ensures direct[x] <= list && ListsAll(direct, x, list) && BreadthFirst(direct, |direct[x]|, list)
    {
      list := direct[x];
      var i := 0;
      ghost var base := |list|;
      DepsWithin(direct, x);
      while i < |list|
        invariant i <= |list| && |mark| == |direct| && Growing(direct, x, base, list, mark) && direct[x] <= list
        invariant SweptTo(direct, list, i) && BfsUpTo(direct, base, list, i, 0)
        decreases base + |direct| - i
      {
        GrowthBound(direct, x, base, list, mark);
        list := AppendNext(list, i, base, x);
        i := i + 1;
      }
      SweptAll(direct, x, list);
    }

    /** extend_bfs_deps: the list of an object comes to hold just the objects that it needs. */
    method ExtendBfsDeps(x: nat)
      requires Valid() && 0 < x < |direct|
      requires forall y | 0 <= y < |mark| :: !mark[y]
      modifies `deps, `bfsBuilt, `mark
      ensures Valid() && bfsBuilt[x] && forall y | 0 <= y < |mark| :: !mark[y]
      ensures deps == old(deps)[x := deps[x]] && old(deps)[x] <= deps[x]
      ensures forall v: nat :: v in deps[x] <==> Needed(direct, x, v)
      ensures direct[x] <= deps[x] && BreadthFirst(direct, |direct[x]|, deps[x])
    {
      if !bfsBuilt[x] {
        MarkAll(deps[x]);
        GrowStart(direct, x, mark);
        var list := AppendAll(x);
        deps := deps[x := list];
        bfsBuilt := bfsBuilt[x := true];
        mark := seq(|direct|, _ => false);
      }
      ListedExactly(direct, x, deps[x]);
    }
  }

  /** The marks before queue_ctors, with those of `u` cleared, after the search, and at the end. */
  lemma MarksAfter(m0: seq<bool>, m1: seq<bool>, m2: seq<bool>, m3: seq<bool>, u: set<nat>, out: seq<nat>, dso: nat, deps: seq<nat>, built: bool)
    requires |m0| == |m1| == |m2| == |m3| && dso in u && forall x <- out :: x in u
    requires forall y | 0 <= y < |m1| :: y in u ==> y == dso || y in deps || !built
    requires forall y | 0 <= y < |m1| :: m1[y] <==> m0[y] && built && y !in deps
    requires forall y | 0 <= y < |m2| :: m2[y] <==> if y in u then y in out else m1[y]
    requires forall y | 0 <= y < |m3| :: m3[y] == (m2[y] && y !in out)
    ensures forall y | 0 <= y < |m3| :: m3[y] <==> m0[y] && built && y != dso && y !in deps
  {
  }

  ghost predicate DepsIn(g: Graph, v: nat, list: seq<nat>) {
    v < |g| && forall w <- g[v] :: w in list
  }

  lemma {:induction false} ElemsSize(q: seq<nat>)
    ensures |Elems(q)| <= |q|
  {
    if q == [] {
    } else {
      var x, r := q[|q| - 1], q[..|q| - 1];
      assert q == r + [x];
      ElemsSize(r);
      assert Elems(q) == Elems(r) + {x};
    }
  }

  /** The list of an object bounds what a search can list. */
  lemma ListBound(g: Graph, dso: nat, list: seq<nat>, u: set<nat>)
    requires GraphOk(g) && 0 < dso < |g| && ListsAll(g, dso, list) && u == {dso} + Elems(list)
    ensures Bound(g, u, dso, |list| + 2) && (forall x <- list :: x < |g|) && forall y <- u :: y == dso || y in list
  {
    ElemsSize(list);
    forall x <- u
      ensures 0 < x < |g| && forall v <- g[x] :: v in u
    {
      assert x in list ==> DepsIn(g, x, list);
    }
  }

  /** The objects numbered below `n`. */
  ghost function Below(n: nat): (u: set<nat>)
    ensures |u| == if n == 0 then 0 else n - 1
    ensures forall x :: x in u <==> 0 < x < n
  {
    if n <= 1 then {} else Below(n - 1) + {n - 1}
  }

  /** `list` is closed under dependencies, starts from those of `x`, and has nothing that
      `x` does not need. */
  ghost predicate ListsAll(g: Graph, x: nat, list: seq<nat>)
    requires x < |g|
  {
    && (forall v <- list :: 0 < v < |g| && DepsIn(g, v, list) && Needed(g, x, v))
    && (forall v <- g[x] :: v in list)
  }

  /** `list` is what extend_bfs_deps makes for `x`. */
  ghost predicate AllListed(g: Graph, x: nat, list: seq<nat>)
    requires x < |g|
  {
    ListsAll(g, x, list) && g[x] <= list && BreadthFirst(g, |g[x]|, list)
  }

  /** There is only one such list. */
  lemma OneList(g: Graph, x: nat, p: seq<nat>, q: seq<nat>)
    requires GraphOk(g) && x < |g| && AllListed(g, x, p) && AllListed(g, x, q)
    ensures p == q
  {
    ListedExactly(g, x, p);
    ListedExactly(g, x, q);
    OneBreadthFirst(g, |g[x]|, p, q);
  }

  /** The dependencies of the first `i` objects are on the list. */
  ghost predicate SweptTo(g: Graph, list: seq<nat>, i: nat) {
    && (forall k | 0 <= k < |list| :: list[k] < |g|)
    && (forall k, v | 0 <= k < |list| && k < i && v in g[list[k]] :: v in list)
  }

  lemma SweptNext(g: Graph, list: seq<nat>, i: nat)
    requires i < |list| && list[i] < |g| && Swept(g, list, i, |g[list[i]]|)
    ensures SweptTo(g, list, i + 1)
  {
    forall v <- g[list[i]]
      ensures v in list
    {
      var m :| 0 <= m < |g[list[i]]| && g[list[i]][m] == v;
    }
  }

  lemma SweptMore(g: Graph, list: seq<nat>, i: nat, n: nat, v: nat)
    requires Swept(g, list, i, n) && n < |g[list[i]]| && v == g[list[i]][n] && v < |g|
    ensures Swept(g, list + [v], i, n + 1)
  {
    var more := list + [v];
    assert forall k | 0 <= k < |list| :: more[k] == list[k];
    assert v in more;
  }

  lemma SweptAll(g: Graph, x: nat, list: seq<nat>)
    requires x < |g| && SweptTo(g, list, |list|) && g[x] <= list && forall v <- list :: 0 < v < |g| && Needed(g, x, v)
    ensures ListsAll(g, x, list)
  {
    forall v <- list
      ensures DepsIn(g, v, list)
    {
      var k :| 0 <= k < |list| && list[k] == v;
    }
    forall v <- g[x]
      ensures v in list
    {
      var k :| 0 <= k < |g[x]| && g[x][k] == v;
      assert list[k] == v;
    }
  }

  ghost predicate Needed(g: Graph, x: nat, v: nat)
    requires x < |g|
  {
    exists w <- g[x] :: Reaches(g, w, v)
  }

  lemma ListedExactly(g: Graph, x: nat, list: seq<nat>)
    requires GraphOk(g) && x < |g| && ListsAll(g, x, list)
    ensures forall v: nat :: v in list <==> Needed(g, x, v)
  {
    var u := Elems(list);
    forall v: nat | Needed(g, x, v)
      ensures v in list
    {
      var w :| w in g[x] && Reaches(g, w, v);
      var p :| Path(g, p) && p[0] == w && p[|p| - 1] == v;
      ClosedReaches(g, u, p);
    }
  }

  /** The list of extend_bfs_deps as it grows: the marked objects, each needed by `x`, and
      beyond the first `base` none twice. */
  ghost predicate Growing(g: Graph, x: nat, base: nat, list: seq<nat>, mark: seq<bool>)
    requires x < |g| == |mark|
  {
    && base <= |list| && Unique(list[base..])
    && (forall v <- list :: 0 < v < |g| && Needed(g, x, v))
    && (forall y | 0 <= y < |g| :: mark[y] <==> y in list)
  }

  lemma GrowStart(g: Graph, x: nat, mark: seq<bool>)
    requires GraphOk(g) && x < |g| == |mark| && (forall y | 0 <= y < |g| :: mark[y] <==> y in g[x])
    ensures Growing(g, x, |g[x]|, g[x], mark)
  {
    forall v <- g[x]
      ensures Needed(g, x, v)
    {
      ReachesSelf(g, v);
    }
  }

  lemma GrowMore(g: Graph, x: nat, base: nat, list: seq<nat>, mark: seq<bool>, dep: nat, v: nat)
    requires GraphOk(g) && x < |g| == |mark| && Growing(g, x, base, list, mark)
    requires dep in list && dep < |g| && v in g[dep] && !mark[v]
    ensures Growing(g, x, base, list + [v], mark[v := true])
  {
    var w :| w in g[x] && Reaches(g, w, dep);
    assert Edge(g, dep, v);
    ReachesStep(g, w, dep, v);
    assert (list + [v])[base..] == list[base..] + [v];
    assert v !in list;
  }

  lemma GrowthBound(g: Graph, x: nat, base: nat, list: seq<nat>, mark: seq<bool>)
    requires x < |g| == |mark| && Growing(g, x, base, list, mark)
    ensures |list| <= base + |g|
  {
    forall y <- list[base..]
      ensures y in Below(|g|)
    {
      assert y in list;
    }
    UniqueFits(list[base..], Below(|g|));
  }
}
