/** get_pte, vmmap and free_pgdir (src/kernel/pt.c:12-55, 74-126). */
module PageTable {
  import opened Basics
  import opened PageTableSpec

  ghost predicate PoolOk(t: Tables, pool: seq<nat>) {
    Unique(pool) && forall n <- pool :: n !in t && n < FRAME_LIMIT
  }

  /** The entry that the tables give for the page with indices `q`. */
  ghost function View(t: Tables, root: Option<nat>, q: seq<nat>): nat
    requires |q| == 4
  {
    if root.None? then 0 else Translate(t, root.value, q)
  }

  /** Two states of the tables give the same entry for every page. */
  ghost predicate SameView(t: Tables, root: Option<nat>, t': Tables, root': Option<nat>) {
    forall q: seq<nat> | |q| == 4 && IndicesOk(q) :: View(t', root', q) == View(t, root, q)
  }

  ghost predicate DirOk(t: Tables, root: Option<nat>, s: Shape) {
    if root.None? then t == map[] else TreeOk(t, root.value, s)
  }

  /** The table reached along the first `k` indices of `q`. */
  ghost predicate At(t: Tables, s: Shape, q: seq<nat>, k: nat, f: nat) {
    k <= |q| && f in t && f in s.path && s.path[f] == q[..k]
  }

  /** How many tables there are on the way from table `f` along `q`, beside `f`. */
  ghost function Reached(t: Tables, f: nat, q: seq<nat>): (n: nat)
    ensures n <= |q|
    decreases |q|
  {
    if q != [] && f in t && q[0] < |t[f]| && IsTable(t[f][q[0]]) then 1 + Reached(t, FrameOf(t[f][q[0]]), q[1..]) else 0
  }

  /** How many of the four tables on the way to the page with indices `q` are missing. */
  ghost function Missing(t: Tables, root: Option<nat>, q: seq<nat>): nat
    requires |q| == 4
  {
    if root.None? then LEVELS + 1 else LEVELS - Reached(t, root.value, q[..LEVELS])
  }

  class PageDirectory {
    var root: Option<nat>
    var tables: Tables
    /** The pages that kalloc_page hands out, the next one first. */
    var pool: seq<nat>
    ghost var shape: Shape

    ghost predicate Valid()
      reads this
    {
      DirOk(tables, root, shape) && PoolOk(tables, pool)
    }

    /** The pages that are free or hold a table. */
    ghost function Pages(): set<nat>
      reads this
    {
      Elems(pool) + tables.Keys
    }

    ghost predicate PagesAre(all: set<nat>)
      reads this
    {
      forall n: nat {:trigger n in all} :: n in all <==> n in pool || n in tables
    }

    /** init_pgdir: an empty root table if there is a page for it; no page has an entry. */
    constructor (pool: seq<nat>)
      requires PoolOk(map[], pool)
      ensures Valid() && (root.Some? <==> pool != []) && Pages() == Elems(pool)
      ensures forall q: seq<nat> | |q| == 4 && IndicesOk(q) :: View(tables, root, q) == 0
    {
      root, tables, this.pool := None, map[], pool;
      shape := Shape(map[], map[]);
      new;
      var _ := NeedRoot();
    }

    /** kalloc_page for the entry `i` of table `f`. */
    method AddTable(f: nat, i: nat) returns (ok: bool, n: nat)
      requires Valid() && root.Some? && f in tables && |shape.path[f]| < LEVELS && i < N_PTE_PER_TABLE && i < |tables[f]| && !IsTable(tables[f][i])
      modifies `tables, `pool, `shape
      ensures Valid() && SameView(old(tables), root, tables, root)
      ensures ok ==> n in tables && n in shape.path && shape.path[n] == old(shape).path[f] + [i] && tables[n] == Zeros()
      ensures if ok then old(pool) != [] && pool == old(pool)[1..] else old(pool) == [] && pool == []
      ensures Pages() == old(Pages())
    {
      ok, n := pool != [], 0;
      if ok {
        n := pool[0];
        assert pool == [n] + pool[1..];
        ghost var t, s := WithTable(tables, f, i, n), WithPath(shape, f, i, n);
        WithTableOk(tables, root.value, shape, f, i, n, t, s);
        forall q: seq<nat> | |q| == 4 && IndicesOk(q)
          ensures View(t, root, q) == View(tables, root, q)
        {
          WithTableSame(tables, root.value, shape, f, i, n, t, q);
        }
        tables := tables[f := Put(tables[f], i, TableEntry(n))][n := Zeros()];
        shape := s;
        pool := pool[1..];
      }
    }

    /** The table at level `j + 1` on the way along `q`. */
    method AddNext(f: nat, q: seq<nat>, j: nat, ghost t: Tables, ghost all: set<nat>, ghost pages: seq<nat>, ghost m: nat) returns (ok: bool, n: nat)
      requires Valid() && SameView(t, root, tables, root) && PagesAre(all) && root.Some? && |q| == 4 && IndicesOk(q) && j < LEVELS && m <= |pages| && pool == pages[m..]
      requires At(tables, shape, q, j, f) && q[j] < |tables[f]| && !IsTable(tables[f][q[j]])
      modifies `tables, `pool, `shape
      ensures Valid() && SameView(t, root, tables, root) && PagesAre(all)
      ensures ok ==> At(tables, shape, q, j + 1, n) && q[j + 1] < |tables[n]| && !IsTable(tables[n][q[j + 1]])
      ensures if ok then m < |pages| && pool == pages[m + 1..] else m == |pages| && pool == pages[m..]
    {
      PrefixNext(q, j);
      ok, n := AddTable(f, q[j]);
    }

    /** The inner loop of get_pte: the tables missing from level `k` on. */
    method AddTables(f0: nat, q: seq<nat>, k: nat) returns (ok: bool, f: nat)
      requires Valid() && root.Some? && |q| == 4 && IndicesOk(q) && k < LEVELS
      requires At(tables, shape, q, k, f0) && q[k] < |tables[f0]| && !IsTable(tables[f0][q[k]])
      modifies `tables, `pool, `shape
      ensures Valid() && SameView(old(tables), root, tables, root)
      ensures ok ==> At(tables, shape, q, LEVELS, f)
      ensures (ok <==> |old(pool)| >= LEVELS - k) && pool == old(pool)[if ok then LEVELS - k else |old(pool)|..]
      ensures Pages() == old(Pages())
    {
      f := f0;
      ghost var pages, all, t := pool, Pages(), tables;
      for j := k to LEVELS
        invariant Valid() && SameView(t, root, tables, root) && PagesAre(all)
        invariant j - k <= |pages| && pool == pages[j - k..]
        invariant At(tables, shape, q, j, f)
        invariant q[j] < |tables[f]| && !IsTable(tables[f][q[j]])
      {
        ok, f := AddNext(f, q, j, t, all, pages, j - k);
        if !ok {
          return;
        }
      }
      ok := true;
    }

    /** pgdir->pt, made if there is none. */
    method NeedRoot() returns (ok: bool)
      requires Valid()
      modifies this
      ensures Valid() && SameView(old(tables), old(root), tables, root)
      ensures (ok <==> root.Some?) && (ok <==> old(root).Some? || old(pool) != [])
      ensures old(root).Some? || !ok ==> root == old(root) && tables == old(tables) && pool == old(pool) && shape == old(shape)
      ensures old(root).None? && ok ==> pool == old(pool)[1..] && tables == map[root.value := Zeros()]
      ensures Pages() == old(Pages())
    {
      if root.None? && pool != [] {
        var n := pool[0];
        assert n in pool && pool == [n] + pool[1..];
        shape := Shape(map[n := []], map[]);
        tables := map[n := Zeros()];
        root := Some(n);
        pool := pool[1..];
        RootOnly(n, tables, shape);
      }
      ok := root.Some?;
    }

    /** The walk of get_pte from the root. */
    method Descend(va: nat, alloc: bool) returns (found: bool, f: nat)
      requires Valid() && root.Some?
      modifies `tables, `pool, `shape
      ensures Valid() && SameView(old(tables), root, tables, root)
      ensures found ==> At(tables, shape, Indices(va), LEVELS, f)
      ensures alloc ==> (found <==> |old(pool)| >= Missing(old(tables), root, Indices(va)))
      ensures alloc ==> pool == old(pool)[if found then Missing(old(tables), root, Indices(va)) else |old(pool)|..]
      ensures Pages() == old(Pages())
      ensures !alloc ==> tables == old(tables) && pool == old(pool) && shape == old(shape)
      ensures !alloc ==> (found <==> Walk(tables, root.value, Indices(va)[..LEVELS]).Some?)
    {
      f := root.value;
      var q := Indices(va);
      IndicesOfPage(va);
      for i := 0 to LEVELS
        invariant Valid() && At(tables, shape, q, i, f)
        invariant Reached(tables, root.value, q[..LEVELS]) == i + Reached(tables, f, q[i..LEVELS])
        invariant tables == old(tables) && pool == old(pool) && shape == old(shape)
      {
        assert NodeOk(tables, shape, f);
        var e := tables[f][q[i]];
        if !IsTable(e) {
          if alloc {
            found, f := AddTables(f, q, i);
          } else {
            NotThere(tables, root.value, shape, q, i, f);
            found := false;
          }
          return;
        }
        assert q[i..LEVELS][1..] == q[i + 1..LEVELS];
        assert DownOk(tables, shape, f, q[i]) && q[..i + 1] == q[..i] + [q[i]];
        f := FrameOf(e);
      }
      found := true;
      WalkIs(tables, root.value, shape, q[..LEVELS], f);
    }

    /** get_pte, which does not change the entry of any page: it finds the table `f` that
        has the entry for `va`. With `alloc` it is found exactly if there are pages for the
        tables that are missing, and takes just those; without, if none is missing, and
        nothing changes. */
    method GetPte(va: nat, alloc: bool) returns (found: bool, f: nat)
      requires Valid()
      modifies this
      ensures Valid() && SameView(old(tables), old(root), tables, root)
      ensures found ==> root.Some? && At(tables, shape, Indices(va), LEVELS, f)
      ensures found ==> Indices(va)[3] < |tables[f]| && tables[f][Indices(va)[3]] == View(tables, root, Indices(va))
      ensures alloc ==> (found <==> |old(pool)| >= Missing(old(tables), old(root), Indices(va)))
      ensures alloc ==> pool == old(pool)[if found then Missing(old(tables), old(root), Indices(va)) else |old(pool)|..]
      ensures Pages() == old(Pages())
      ensures !alloc ==> tables == old(tables) && root == old(root) && pool == old(pool) && shape == old(shape)
      ensures !alloc ==> (found <==> root.Some? && Walk(tables, root.value, Indices(va)[..LEVELS]).Some?)
    {
      f := 0;
      found := root.Some?;
      if alloc {
        found := NeedRoot();
      }
      if found {
        found, f := Descend(va, alloc);
      }
      if found {
        IndicesOfPage(va);
        TranslateIs(tables, root.value, shape, Indices(va), f);
      }
    }

    /** vmmap with the entry `e`: the entry of one page changes, that of no other. */
    method VmMap(va: nat, e: nat) returns (ok: bool)
      requires Valid()
      modifies this
      ensures Valid() && (ok <==> |old(pool)| >= Missing(old(tables), old(root), Indices(va)))
      ensures pool == old(pool)[if ok then Missing(old(tables), old(root), Indices(va)) else |old(pool)|..]
      ensures Pages() == old(Pages())
      ensures ok ==> forall q: seq<nat> | |q| == 4 && IndicesOk(q) :: View(tables, root, q) == if q == Indices(va) then e else old(View(tables, root, q))
      ensures !ok ==> SameView(old(tables), old(root), tables, root)
    {
      var f;
      ok, f := GetPte(va, true);
      if ok {
        var i := Indices(va)[3];
        IndicesOfPage(va);
        assert NodeOk(tables, shape, f) && Indices(va) == Indices(va)[..3] + [i];
        SetEntryOk(tables, root.value, shape, f, i, e, tables[f := Put(tables[f], i, e)]);
        tables := tables[f := Put(tables[f], i, e)];
      }
    }

    /** The loops of free_pgdir below table `f`, which is at level `depth`: every table below
        it is freed once, and itself last. One loop for each level is here one call. */
    method FreeTable(f: nat, depth: nat, ghost s: Shape, ghost r: nat) returns (ghost freed: seq<nat>)
      requires TreeOk(tables, r, s) && f in tables && depth == |s.path[f]|
      modifies `pool
      ensures pool == freed + old(pool) && Unique(freed) && Elems(freed) == Below(tables, s, s.path[f])
      decreases LEVELS - depth
    {
      assert NodeOk(tables, s, f);
      freed := [];
      if depth < LEVELS {
        for i := 0 to N_PTE_PER_TABLE
          invariant pool == freed + old(pool) && Unique(freed) && Elems(freed) == BelowTo(tables, s, s.path[f], i)
        {
          assert DownOk(tables, s, f, i);
          assert IsTable(tables[f][i]) ==> NodeOk(tables, s, FrameOf(tables[f][i]));
          BelowEntry(tables, r, s, f, i);
          if !IsInvalid(tables[f][i]) {
            var child := FrameOf(tables[f][i]);
            ghost var more := FreeTable(child, depth + 1, s, r);
            UniqueJoin(more, freed);
            freed := more + freed;
          }
        }
      }
      BelowAll(tables, r, s, f);
      UniqueJoin([f], freed);
      freed := [f] + freed;
      pool := [f] + pool;
    }

    /** free_pgdir: the pages of all tables are free again, each once. */
    method FreePgdir()
      requires Valid()
      modifies this
      ensures Valid() && root == None && tables == map[] && |pool| >= |old(pool)|
      ensures Elems(pool) == Elems(old(pool)) + old(tables.Keys)
    {
      if root.Some? {
        ghost var freed := FreeTable(root.value, 0, shape, root.value);
        assert Below(tables, shape, []) == tables.Keys;
        UniqueJoin(freed, old(pool));
        assert forall n <- freed :: n in Elems(freed) && NodeOk(tables, shape, n);
        tables := map[];
        root := None;
      }
    }
  }

  lemma PrefixNext(q: seq<nat>, j: nat)
    requires j < |q|
    ensures q[..j + 1] == q[..j] + [q[j]]
  {
  }

  /** is_invalid_pte */
  predicate IsInvalid(pte: nat) { !IsTable(pte) || pte >= FRAME_LIMIT * PAGE_SIZE }

  lemma UniqueJoin(p: seq<nat>, q: seq<nat>)
    requires Unique(p) && Unique(q) && Elems(p) !! Elems(q)
    ensures Unique(p + q) && Elems(p + q) == Elems(p) + Elems(q)
  {
    var r := p + q;
    forall i, j | 0 <= i < j < |r|
      ensures r[i] != r[j]
    {
      assert i < |p| ==> r[i] in Elems(p);
      assert j >= |p| ==> r[j] in Elems(q);
    }
  }

  lemma NotThere(t: Tables, root: nat, s: Shape, q: seq<nat>, i: nat, f: nat)
    requires TreeOk(t, root, s) && |q| == 4 && i < LEVELS && At(t, s, q, i, f) && q[i] < |t[f]| && !IsTable(t[f][q[i]])
    ensures Walk(t, root, q[..LEVELS]) == None
  {
    var p := q[..i] + [q[i]];
    BelowEntry(t, root, s, f, q[i]);
    PrefixMore(q[..i], q[i], q[..LEVELS]);
    assert forall g <- t :: s.path[g] == q[..LEVELS] ==> g in Below(t, s, p);
    if Walk(t, root, q[..LEVELS]).Some? {
      WalkIs(t, root, s, q[..LEVELS], Walk(t, root, q[..LEVELS]).value);
    }
  }
}
