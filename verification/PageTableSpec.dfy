/** Four-level page tables (src/kernel/pt.c:12-55, src/aarch64/mmu.h:49-73), on values. A
page is known by its frame number, its physical address divided by 4096. */
module PageTableSpec {
  import opened Basics

  const N_PTE_PER_TABLE := 512
  const LEVELS := 3
  const PAGE_SIZE := 4096
  const FRAME_LIMIT := 0x3f000
  const ADDRESS_FRAMES := 0x10_0000_0000

  // ---- Entries and addresses ----

  /** (pte & PTE_TABLE) == PTE_TABLE */
  predicate IsTable(pte: nat) { pte % 4 == 3 }

  /** PTE_ADDRESS(pte), as a frame */
  function FrameOf(pte: nat): nat { pte / PAGE_SIZE % ADDRESS_FRAMES }

  /** K2P(pt) | PTE_TABLE */
  function TableEntry(frame: nat): nat { frame * PAGE_SIZE + 3 }

  lemma ModSmall(x: nat, m: nat)
    requires x < m
    ensures x % m == x
  {
  }

  lemma EntryDiv(frame: nat)
    ensures TableEntry(frame) / PAGE_SIZE == frame
  {
  }

  lemma ModFour(k: nat)
    ensures (4 * k + 3) % 4 == 3
  {
  }

  lemma EntryMod(frame: nat)
    ensures IsTable(TableEntry(frame))
  {
    ModFour(frame * 1024);
    assert TableEntry(frame) == 4 * (frame * 1024) + 3;
  }

  lemma TableEntryParts(frame: nat)
    requires frame < ADDRESS_FRAMES
    ensures IsTable(TableEntry(frame)) && FrameOf(TableEntry(frame)) == frame
  {
    EntryMod(frame);
    EntryDiv(frame);
    ModSmall(frame, ADDRESS_FRAMES);
  }

  /** (va >> (39 - i * 9)) & 0x1ff for the four levels */
  function Indices(va: nat): seq<nat> {
    [va / 0x80_0000_0000 % 512, va / 0x4000_0000 % 512, va / 0x20_0000 % 512, va / 0x1000 % 512]
  }

  ghost predicate IndicesOk(q: seq<nat>) { forall i | 0 <= i < |q| :: q[i] < N_PTE_PER_TABLE }

  /** The page number that the indices stand for. */
  function PageOf(q: seq<nat>): nat
    requires |q| == 4
  {
    ((q[0] * 512 + q[1]) * 512 + q[2]) * 512 + q[3]
  }

  /** Two addresses have the same indices exactly when they lie in the same page, for
      addresses below 2^48. */
  lemma IndicesOfPage(va: nat)
    ensures IndicesOk(Indices(va)) && PageOf(Indices(va)) == va / PAGE_SIZE % ADDRESS_FRAMES
  {
    var n := va / 0x1000;
    var a, b, c := va / 0x20_0000, va / 0x4000_0000, va / 0x80_0000_0000;
    assert a == n / 512 && b == a / 512 && c == b / 512;
    Digits(n, a, b, c);
  }

  lemma Digits(n: nat, a: nat, b: nat, c: nat)
    requires a == n / 512 && b == a / 512 && c == b / 512
    ensures ((c % 512 * 512 + b % 512) * 512 + a % 512) * 512 + n % 512 == n % ADDRESS_FRAMES
  {
    var d := c / 512;
    var r := ((c % 512 * 512 + b % 512) * 512 + a % 512) * 512 + n % 512;
    assert n == 512 * a + n % 512 && a == 512 * b + a % 512 && b == 512 * c + b % 512 && c == 512 * d + c % 512;
    assert n == ADDRESS_FRAMES * d + r && r < ADDRESS_FRAMES;
  }

  lemma PageOfInjective(p: seq<nat>, q: seq<nat>)
    requires |p| == |q| == 4 && IndicesOk(p) && IndicesOk(q) && PageOf(p) == PageOf(q)
    ensures p == q
  {
    var a, b := (p[0] * 512 + p[1]) * 512 + p[2], (q[0] * 512 + q[1]) * 512 + q[2];
    assert p[3] == q[3] && a == b;
    var c, d := p[0] * 512 + p[1], q[0] * 512 + q[1];
    assert p[2] == q[2] && c == d;
  }

  // ---- Tables ----

  /** The page table pages, by frame. */
  type Tables = map<nat, seq<nat>>

  /** The table that the entries lead to from table `f` along the indices `q`. */
  ghost function Walk(t: Tables, f: nat, q: seq<nat>): Option<nat>
    decreases |q|
  {
    if q == [] then Some(f)
    else if f in t && q[0] < |t[f]| && IsTable(t[f][q[0]]) then Walk(t, FrameOf(t[f][q[0]]), q[1..])
    else None
  }

  /** The entry for a page, which is 0 when a table on the way to it is missing. */
  ghost function Translate(t: Tables, root: nat, q: seq<nat>): nat
    requires |q| == 4
  {
    match Walk(t, root, q[..3])
    case Some(f) => if f in t && q[3] < |t[f]| then t[f][q[3]] else 0
    case None => 0
  }

  /** `path[f]` are the indices that lead from the root to table `f`, and `parent[f]` is the
      table before it. */
  datatype Shape = Shape(path: map<nat, seq<nat>>, parent: map<nat, nat>)

  ghost predicate NodeOk(t: Tables, s: Shape, f: nat)
    requires f in t && f in s.path
  {
    && |t[f]| == N_PTE_PER_TABLE && |s.path[f]| <= LEVELS && IndicesOk(s.path[f]) && f < FRAME_LIMIT
  }

  /** Entry `i` of table `f`, if it leads to a table, leads to its child. */
  ghost predicate DownOk(t: Tables, s: Shape, f: nat, i: nat)
    requires f in t && f in s.path && i < |t[f]|
  {
    |s.path[f]| < LEVELS && IsTable(t[f][i]) ==>
      var g := FrameOf(t[f][i]);
      g in t && g in s.path && s.path[g] == s.path[f] + [i] && t[f][i] == TableEntry(g)
  }

  /** Table `f` is the root, or its parent has an entry for it. */
  ghost predicate UpOk(t: Tables, root: nat, s: Shape, f: nat)
    requires f in t && f in s.path
  {
    if s.path[f] == [] then f == root
    else
      var q := s.path[f];
      && f in s.parent && s.parent[f] in t && s.parent[f] in s.path && s.path[s.parent[f]] == q[..|q| - 1]
      && q[|q| - 1] < |t[s.parent[f]]| && t[s.parent[f]][q[|q| - 1]] == TableEntry(f)
  }

  /** The tables are a tree. */
  ghost predicate TreeOk(t: Tables, root: nat, s: Shape) {
    && t.Keys == s.path.Keys && root in t && s.path[root] == []
    && (forall f <- t {:trigger NodeOk(t, s, f)} :: NodeOk(t, s, f))
    && (forall f <- t, i: nat {:trigger DownOk(t, s, f, i)} | i < |t[f]| :: DownOk(t, s, f, i))
    && (forall f <- t {:trigger UpOk(t, root, s, f)} :: UpOk(t, root, s, f))
  }

  lemma {:induction false} WalkDown(t: Tables, root: nat, s: Shape, f: nat, q: seq<nat>)
    requires TreeOk(t, root, s) && f in t && |s.path[f]| + |q| <= LEVELS
    ensures Walk(t, f, q).Some? ==> Walk(t, f, q).value in t && s.path[Walk(t, f, q).value] == s.path[f] + q
    decreases |q|
  {
    if q == [] {
      assert s.path[f] + [] == s.path[f];
    } else if q[0] < |t[f]| && IsTable(t[f][q[0]]) {
      assert DownOk(t, s, f, q[0]);
      WalkDown(t, root, s, FrameOf(t[f][q[0]]), q[1..]);
      assert s.path[f] + [q[0]] + q[1..] == s.path[f] + q;
    }
  }

  lemma {:induction false} WalkSnoc(t: Tables, f: nat, q: seq<nat>, i: nat)
    ensures Walk(t, f, q + [i]) == match Walk(t, f, q)
                                   case None => None
                                   case Some(g) => if g in t && i < |t[g]| && IsTable(t[g][i]) then Some(FrameOf(t[g][i])) else None
    decreases |q|
  {
    if q == [] {
      assert Walk(t, f, [i][1..]) == Some(f);
    } else {
      assert (q + [i])[1..] == q[1..] + [i];
      if f in t && q[0] < |t[f]| && IsTable(t[f][q[0]]) {
        WalkSnoc(t, FrameOf(t[f][q[0]]), q[1..], i);
      }
    }
  }

  /** A table is where its path leads. */
  lemma {:induction false} WalkUp(t: Tables, root: nat, s: Shape, f: nat)
    requires TreeOk(t, root, s) && f in t
    ensures Walk(t, root, s.path[f]) == Some(f)
    decreases |s.path[f]|
  {
    assert UpOk(t, root, s, f) && NodeOk(t, s, f);
    var q := s.path[f];
    if q == [] {
    } else {
      var g, i := s.parent[f], q[|q| - 1];
      WalkUp(t, root, s, g);
      WalkSnoc(t, root, q[..|q| - 1], i);
      assert q == q[..|q| - 1] + [i];
      TableEntryParts(f);
    }
  }

  /** So a path leads to the table that has it, or nowhere if there is none. */
  lemma WalkIs(t: Tables, root: nat, s: Shape, q: seq<nat>, f: nat)
    requires TreeOk(t, root, s) && |q| <= LEVELS
    ensures Walk(t, root, q) == Some(f) <==> f in t && s.path[f] == q
  {
    WalkDown(t, root, s, root, q);
    assert [] + q == q;
    if f in t && s.path[f] == q {
      WalkUp(t, root, s, f);
    }
  }

  lemma PathUnique(t: Tables, root: nat, s: Shape, f: nat, g: nat)
    requires TreeOk(t, root, s) && f in t && g in t && s.path[f] == s.path[g]
    ensures f == g
  {
    WalkUp(t, root, s, f);
    WalkUp(t, root, s, g);
  }

  /** The entry for a page is in the table with the first three of its indices. */
  lemma TranslateIs(t: Tables, root: nat, s: Shape, q: seq<nat>, f: nat)
    requires TreeOk(t, root, s) && |q| == 4 && IndicesOk(q) && f in t && s.path[f] == q[..3]
    ensures q[3] < |t[f]| && Translate(t, root, q) == t[f][q[3]]
  {
    WalkIs(t, root, s, q[..3], f);
    assert NodeOk(t, s, f);
  }

  lemma TranslateNone(t: Tables, root: nat, s: Shape, q: seq<nat>)
    requires TreeOk(t, root, s) && |q| == 4 && forall f <- t :: s.path[f] != q[..3]
    ensures Translate(t, root, q) == 0
  {
    if Walk(t, root, q[..3]).Some? {
      WalkIs(t, root, s, q[..3], Walk(t, root, q[..3]).value);
    }
  }

  // ---- A new table ----

  /** A page just allocated. */
  function Zeros(): (z: seq<nat>)
    ensures |z| == N_PTE_PER_TABLE && forall i | 0 <= i < |z| :: z[i] == 0
  {
    seq(N_PTE_PER_TABLE, _ => 0)
  }

  function Put(table: seq<nat>, i: nat, e: nat): seq<nat>
    requires i < |table|
  {
    table[i := e]
  }

  function WithTable(t: Tables, f: nat, i: nat, n: nat): Tables
    requires f in t && i < |t[f]|
  {
    t[f := Put(t[f], i, TableEntry(n))][n := Zeros()]
  }

  ghost function WithPath(s: Shape, f: nat, i: nat, n: nat): Shape
    requires f in s.path
  {
    Shape(s.path[n := s.path[f] + [i]], s.parent[n := f])
  }

  /** Table `f` has no entry `i` yet, and `n` is a page in no use. */
  ghost predicate MayAdd(t: Tables, root: nat, s: Shape, f: nat, i: nat, n: nat) {
    && TreeOk(t, root, s) && f in t && |s.path[f]| < LEVELS && i < N_PTE_PER_TABLE && i < |t[f]|
    && !IsTable(t[f][i]) && n !in t && n < FRAME_LIMIT
  }

  lemma NoneBelow(t: Tables, root: nat, s: Shape, f: nat, i: nat, n: nat, g: nat)
    requires MayAdd(t, root, s, f, i, n) && g in t
    ensures s.path[g] != s.path[f] + [i]
  {
    if s.path[g] == s.path[f] + [i] {
      assert UpOk(t, root, s, g);
      assert (s.path[f] + [i])[..|s.path[f]|] == s.path[f];
      PathUnique(t, root, s, f, s.parent[g]);
      TableEntryParts(g);
    }
  }

  lemma WithTableNode(t: Tables, root: nat, s: Shape, f: nat, i: nat, n: nat, t': Tables, s': Shape, g: nat)
    requires MayAdd(t, root, s, f, i, n) && t' == WithTable(t, f, i, n) && s' == WithPath(s, f, i, n) && g in t'
    ensures g in s'.path && NodeOk(t', s', g) && UpOk(t', root, s', g)
  {
    if g == n {
      assert NodeOk(t, s, f);
    } else {
      assert NodeOk(t, s, g) && UpOk(t, root, s, g);
      if s.path[g] != [] && s.parent[g] == f {
        NoneBelow(t, root, s, f, i, n, g);
        assert s.path[g] == s.path[f] + [s.path[g][|s.path[g]| - 1]];
      }
    }
  }

  lemma WithTableDown(t: Tables, s: Shape, f: nat, i: nat, n: nat, t': Tables, s': Shape, g: nat, j: nat)
    requires f in t && f in s.path && n !in t && n < FRAME_LIMIT && i < |t[f]| && t' == WithTable(t, f, i, n) && s' == WithPath(s, f, i, n)
    requires g in t' && g in s'.path && j < |t'[g]| && (g in t ==> g in s.path && |t'[g]| == |t[g]| && DownOk(t, s, g, j))
    ensures DownOk(t', s', g, j)
  {
    if g == n {
      assert t'[n][j] == 0;
    } else if g == f && j == i {
      TableEntryParts(n);
    } else {
      assert t'[g][j] == t[g][j];
    }
  }

  lemma WithTableOk(t: Tables, root: nat, s: Shape, f: nat, i: nat, n: nat, t': Tables, s': Shape)
    requires MayAdd(t, root, s, f, i, n) && t' == WithTable(t, f, i, n) && s' == WithPath(s, f, i, n)
    ensures TreeOk(t', root, s')
  {
    forall g <- t'
      ensures NodeOk(t', s', g) && UpOk(t', root, s', g)
    {
      WithTableNode(t, root, s, f, i, n, t', s', g);
    }
    forall g <- t', j: nat | j < |t'[g]|
      ensures DownOk(t', s', g, j)
    {
      assert g in t ==> DownOk(t, s, g, j);
      WithTableDown(t, s, f, i, n, t', s', g, j);
    }
  }

  /** A new table changes no translation. */
  lemma WithTableSame(t: Tables, root: nat, s: Shape, f: nat, i: nat, n: nat, t': Tables, q: seq<nat>)
    requires MayAdd(t, root, s, f, i, n) && t' == WithTable(t, f, i, n) && |q| == 4 && IndicesOk(q)
    ensures Translate(t', root, q) == Translate(t, root, q)
  {
    var s' := WithPath(s, f, i, n);
    WithTableOk(t, root, s, f, i, n, t', s');
    if g :| g in t && s.path[g] == q[..3] {
      TranslateIs(t, root, s, q, g);
      TranslateIs(t', root, s', q, g);
    } else {
      TranslateNone(t, root, s, q);
      if s'.path[n] == q[..3] {
        TranslateIs(t', root, s', q, n);
      } else {
        TranslateNone(t', root, s', q);
      }
    }
  }

  // ---- A new entry ----

  /** Setting an entry in a table of the last level changes just one translation. */
  lemma SetEntryOk(t: Tables, root: nat, s: Shape, f: nat, i: nat, e: nat, t': Tables)
    requires TreeOk(t, root, s) && f in t && |s.path[f]| == LEVELS && i < N_PTE_PER_TABLE && i < |t[f]|
    requires t' == t[f := Put(t[f], i, e)]
    ensures TreeOk(t', root, s)
    ensures forall q: seq<nat> | |q| == 4 && IndicesOk(q) :: Translate(t', root, q) == if q == s.path[f] + [i] then e else Translate(t, root, q)
  {
    forall g <- t'
      ensures NodeOk(t', s, g) && UpOk(t', root, s, g)
    {
      assert NodeOk(t, s, g) && UpOk(t, root, s, g);
    }
    forall g <- t', j: nat | j < |t'[g]|
      ensures DownOk(t', s, g, j)
    {
      assert DownOk(t, s, g, j);
    }
    forall q: seq<nat> | |q| == 4 && IndicesOk(q)
      ensures Translate(t', root, q) == if q == s.path[f] + [i] then e else Translate(t, root, q)
    {
      SetEntryAt(t, root, s, f, i, e, t', q);
    }
  }

  lemma SetEntryAt(t: Tables, root: nat, s: Shape, f: nat, i: nat, e: nat, t': Tables, q: seq<nat>)
    requires TreeOk(t, root, s) && TreeOk(t', root, s) && f in t && |s.path[f]| == LEVELS && i < |t[f]|
    requires t' == t[f := Put(t[f], i, e)] && |q| == 4 && IndicesOk(q)
    ensures Translate(t', root, q) == if q == s.path[f] + [i] then e else Translate(t, root, q)
  {
    assert q == q[..3] + [q[3]];
    if g :| g in t && s.path[g] == q[..3] {
      TranslateIs(t, root, s, q, g);
      TranslateIs(t', root, s, q, g);
      if s.path[g] == s.path[f] {
        PathUnique(t, root, s, f, g);
      }
    } else {
      TranslateNone(t, root, s, q);
      TranslateNone(t', root, s, q);
    }
  }

  // ---- The root alone ----

  lemma RootOnly(n: nat, t: Tables, s: Shape)
    requires n < FRAME_LIMIT && t == map[n := Zeros()] && s == Shape(map[n := []], map[])
    ensures TreeOk(t, n, s) && forall q: seq<nat> | |q| == 4 && IndicesOk(q) :: Translate(t, n, q) == 0
  {
    assert forall i | 0 <= i < N_PTE_PER_TABLE :: !IsTable(t[n][i]);
    forall q: seq<nat> | |q| == 4 && IndicesOk(q)
      ensures Translate(t, n, q) == 0
    {
      TranslateNone(t, n, s, q);
    }
  }

  // ---- The tables below a table ----

  /** The tables whose path goes on from `p`. */
  ghost function Below(t: Tables, s: Shape, p: seq<nat>): set<nat>
    requires t.Keys == s.path.Keys
  {
    set g | g in t && p <= s.path[g]
  }

  /** ... with one of the indices before `i`. */
  ghost function BelowTo(t: Tables, s: Shape, p: seq<nat>, i: nat): set<nat>
    requires t.Keys == s.path.Keys
  {
    set g | g in t && p < s.path[g] && s.path[g][|p|] < i
  }

  lemma {:induction false} Ancestor(t: Tables, root: nat, s: Shape, g: nat, k: nat) returns (h: nat)
    requires TreeOk(t, root, s) && g in t && k <= |s.path[g]|
    ensures h in t && s.path[h] == s.path[g][..k]
    decreases |s.path[g]|
  {
    h := g;
    if k < |s.path[g]| {
      assert UpOk(t, root, s, g);
      h := Ancestor(t, root, s, s.parent[g], k);
    }
  }

  lemma PrefixMore(p: seq<nat>, i: nat, r: seq<nat>)
    ensures p + [i] <= r <==> p < r && r[|p|] == i
  {
    if p < r {
      assert r[..|p|] == p && r[..|p| + 1] == r[..|p|] + [r[|p|]];
    }
  }

  lemma NothingBelow(t: Tables, root: nat, s: Shape, f: nat, i: nat, g: nat)
    requires TreeOk(t, root, s) && f in t && i < |t[f]| && !IsTable(t[f][i]) && g in t
    ensures !(s.path[f] + [i] <= s.path[g])
  {
    var p := s.path[f];
    if p + [i] <= s.path[g] {
      var h := Ancestor(t, root, s, g, |p| + 1);
      assert UpOk(t, root, s, h) && (p + [i])[..|p|] == p;
      PathUnique(t, root, s, f, s.parent[h]);
      TableEntryParts(h);
    }
  }

  /** Below `p + [i]` there is nothing, or the table that entry `i` leads to. */
  lemma BelowEntry(t: Tables, root: nat, s: Shape, f: nat, i: nat)
    requires TreeOk(t, root, s) && f in t && i < |t[f]|
    ensures BelowTo(t, s, s.path[f], i + 1) == BelowTo(t, s, s.path[f], i) + Below(t, s, s.path[f] + [i])
    ensures !IsTable(t[f][i]) ==> Below(t, s, s.path[f] + [i]) == {}
    ensures BelowTo(t, s, s.path[f], i) !! Below(t, s, s.path[f] + [i])
  {
    var p := s.path[f];
    forall g <- t
      ensures g in Below(t, s, p + [i]) <==> p < s.path[g] && s.path[g][|p|] == i
      ensures !IsTable(t[f][i]) ==> !(p + [i] <= s.path[g])
    {
      PrefixMore(p, i, s.path[g]);
      if !IsTable(t[f][i]) {
        NothingBelow(t, root, s, f, i, g);
      }
    }
  }

  /** Below a table are the table itself and those below its entries. */
  lemma BelowAll(t: Tables, root: nat, s: Shape, f: nat)
    requires TreeOk(t, root, s) && f in t
    ensures Below(t, s, s.path[f]) == {f} + BelowTo(t, s, s.path[f], N_PTE_PER_TABLE) && f !in BelowTo(t, s, s.path[f], N_PTE_PER_TABLE)
    ensures |s.path[f]| == LEVELS ==> BelowTo(t, s, s.path[f], N_PTE_PER_TABLE) == {}
  {
    var p := s.path[f];
    forall g <- t | p <= s.path[g]
      ensures g == f || g in BelowTo(t, s, p, N_PTE_PER_TABLE)
    {
      assert NodeOk(t, s, g);
      if p == s.path[g] {
        PathUnique(t, root, s, f, g);
      }
    }
    forall g <- BelowTo(t, s, p, N_PTE_PER_TABLE)
      ensures |p| < LEVELS
    {
      assert NodeOk(t, s, g);
    }
  }
}
