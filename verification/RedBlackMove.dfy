/** Removal of a node with two children (src/common/rbtree.c:128-158): the successor
is cut out of the right subtree and put in the node's place. */
module RedBlackMove {
  import opened RedBlackSpec
  import opened RedBlackHeap

  /** The node in whose place a subtree rooted at `n` ends up below context `ctx`'s top. */
  ghost function TopOf(ctx: Context, n: RbNode?): RbNode? {
    if ctx.Top? then n else TopOf(ctx.up, ctx.self)
  }

  /** `m` holds the nodes of `ctx`, the topmost hanging below `base`, around a focus `n`. */
  ghost predicate PathIn(m: map<RbNode, Cell>, ctx: Context, base: RbNode?, n: RbNode?) {
    match ctx
    case Top => true
    case Under(up, s, c, v, o) =>
      && v in m && m[v] == CellOf(s, c, if up.Top? then base else up.self, n, RootOf(o))
      && TreeIn(m, o, v)
      && PathIn(m, up, base, v)
  }

  lemma {:induction false} ComposeIn(st: Store, inner: Context, outer: Context, n: RbNode?)
    ensures ContextIn(st, Compose(inner, outer), n)
       <==> PathIn(st.cells, inner, ParentOf(outer), n) && ContextIn(st, outer, TopOf(inner, n))
  {
    match inner
    case Top =>
    case Under(up, s, c, v, o) =>
      ComposeIn(st, up, outer, v);
      assert ParentOf(Compose(up, outer)) == if up.Top? then ParentOf(outer) else up.self;
  }

  lemma {:induction false} PathNodesIn(m: map<RbNode, Cell>, ctx: Context, base: RbNode?, n: RbNode?)
    requires PathIn(m, ctx, base, n)
    ensures ContextNodes(ctx) <= m.Keys
  {
    match ctx
    case Top =>
    case Under(up, s, c, v, o) =>
      TreeNodesIn(m, o, v);
      PathNodesIn(m, up, base, v);
  }

  lemma {:induction false} PathKept(m: map<RbNode, Cell>, m': map<RbNode, Cell>, except: set<RbNode>, ctx: Context, base: RbNode?, n: RbNode?)
    requires PathIn(m, ctx, base, n) && Same(m, m', except) && ContextNodes(ctx) !! except
    ensures PathIn(m', ctx, base, n)
  {
    match ctx
    case Top =>
    case Under(up, s, c, v, o) =>
      TreeKept(m, m', except, o, v);
      PathKept(m, m', except, up, base, v);
  }

  /** The focus changes from `n` to `x`. */
  lemma PathRelink(m: map<RbNode, Cell>, ctx: Context, base: RbNode?, n: RbNode?, x: RbNode?)
    requires ctx.Under? && PathIn(m, ctx, base, n) && ContextDistinct(ctx)
    ensures ctx.self in m
    ensures PathIn(Store(null, m).Link(ctx.self, ctx.side, x).cells, ctx, base, x)
  {
    var m' := Store(null, m).Link(ctx.self, ctx.side, x).cells;
    TreeKept(m, m', {ctx.self}, ctx.other, ctx.self);
    PathKept(m, m', {ctx.self}, ctx.up, base, ctx.self);
  }

  /** The topmost node of the path is hung below `base'`. */
  lemma {:induction false} PathRebase(m: map<RbNode, Cell>, ctx: Context, base: RbNode?, base': RbNode?, n: RbNode?)
    requires ctx.Under? && PathIn(m, ctx, base, n) && ContextDistinct(ctx)
    ensures var r := TopOf(ctx, n);
      && r != null && r in m && r in ContextNodes(ctx)
      && PathIn(m[r := m[r].(parent := base')], ctx, base', n)
  {
    var v, o := ctx.self, ctx.other;
    if ctx.up.Top? {
      TreeKept(m, m[v := m[v].(parent := base')], {v}, o, v);
    } else {
      PathRebase(m, ctx.up, base, base', v);
      var r := TopOf(ctx, n);
      TreeKept(m, m[r := m[r].(parent := base')], {r}, o, v);
    }
  }

  lemma {:induction false} TopOfPlug(ctx: Context, t: Tree)
    ensures RootOf(Plug(ctx, t)) == TopOf(ctx, RootOf(t))
  {
    match ctx
    case Top =>
    case Under(up, s, c, v, o) => TopOfPlug(up, Join(s, c, t, v, o));
  }

  /** The parts of the tree that move, apart from one another. */
  ghost predicate MoveApart(ctx: Context, l: Tree, inner: Context, m: RbNode, x: Tree) {
    && ContextDistinct(ctx) && Distinct(l) && ContextDistinct(inner) && Distinct(x)
    && m !in ContextNodes(ctx) && m !in Nodes(l) && m !in ContextNodes(inner) && m !in Nodes(x)
    && ContextNodes(ctx) !! Nodes(l) && ContextNodes(ctx) !! ContextNodes(inner) && ContextNodes(ctx) !! Nodes(x)
    && Nodes(l) !! ContextNodes(inner) && Nodes(l) !! Nodes(x) && ContextNodes(inner) !! Nodes(x)
  }

  lemma Parts(ctx: Context, t: Tree, inner: Context, mt: Tree)
    requires Apart(ctx, t) && t.Branch? && t.right == Plug(inner, mt) && mt.Branch? && mt.left == Leaf
    ensures MoveApart(ctx, t.left, inner, mt.self, mt.right)
    ensures t.self !in ContextNodes(inner) && t.self != mt.self && t.self !in Nodes(mt.right)
  {
    PlugApart(inner, mt);
    assert Nodes(mt) == Nodes(mt.right) + {mt.self};
  }

  /** parent->left = x; m->right = r; r->parent = m */
  ghost function HoistStore(st: Store, pm: RbNode, m: RbNode, r: RbNode, x: RbNode?): Store
    requires pm in st.cells && m in st.cells && r in st.cells
  {
    st.Link(pm, L, x).Link(m, R, r).Paint(r, m, st.cells[r].color)
  }

  /** All is ready for `m` to take the place of `n`. */
  ghost predicate Hoisted(st: Store, ctx: Context, n: RbNode, l: Tree, inner: Context, m: RbNode, x: Tree) {
    && ContextIn(st, ctx, n) && n in st.cells && n != m && TreeIn(st.cells, l, n) && TreeIn(st.cells, x, m)
    && PathIn(st.cells, inner, m, RootOf(x))
    && m in st.cells && st.cells[m].right == TopOf(inner, RootOf(x))
  }

  lemma Hoist(st: Store, ctx: Context, n: RbNode, l: Tree, inner: Context, m: RbNode, x: Tree)
    requires MoveApart(ctx, l, inner, m, x) && inner.Under? && inner.side == L
    requires ContextIn(st, ctx, n) && TreeIn(st.cells, l, n) && TreeIn(st.cells, x, m)
    requires PathIn(st.cells, inner, n, m) && m in st.cells
    requires n in st.cells && n != m && n !in ContextNodes(inner)
    ensures var r := TopOf(inner, m);
      && inner.self in st.cells && r != null && r in st.cells && m != inner.self && m != r
      && var st' := HoistStore(st, inner.self, m, r, RootOf(x));
        Hoisted(st', ctx, n, l, inner, m, x) && st'.cells[n] == st.cells[n]
  {
    var pm, r, xr := inner.self, TopOf(inner, m), RootOf(x);
    PathRebase(st.cells, inner, n, m, m);
    HoistCells(st, pm, m, r, xr);
    HoistKept(st, HoistStore(st, pm, m, r, xr), ctx, n, l, inner, m, x);
    assert TopOf(inner, m) == TopOf(inner, xr);
  }

  lemma HoistCells(st: Store, pm: RbNode, m: RbNode, r: RbNode, x: RbNode?)
    requires pm in st.cells && m in st.cells && r in st.cells && pm != m && r != m
    ensures var st', m1 := HoistStore(st, pm, m, r, x), st.cells[r := st.cells[r].(parent := m)];
      && Same(st.cells, st'.cells, {pm, m, r}) && st'.top == st.top
      && Same(Store(null, m1).Link(pm, L, x).cells, st'.cells, {m})
      && st'.cells[m].right == r
  {
  }

  lemma HoistKept(st: Store, st': Store, ctx: Context, n: RbNode, l: Tree, inner: Context, m: RbNode, x: Tree)
    requires MoveApart(ctx, l, inner, m, x) && inner.Under? && inner.side == L
    requires ContextIn(st, ctx, n) && TreeIn(st.cells, l, n) && TreeIn(st.cells, x, m)
    requires PathIn(st.cells, inner, n, m) && m in st.cells
    requires var pm, r := inner.self, TopOf(inner, m);
      && r != null && r in st.cells && r in ContextNodes(inner)
      && Same(st.cells, st'.cells, {pm, m, r}) && st'.top == st.top
      && var m1 := st.cells[r := st.cells[r].(parent := m)];
        && PathIn(m1, inner, m, m)
        && Same(Store(null, m1).Link(pm, L, RootOf(x)).cells, st'.cells, {m})
    ensures ContextIn(st', ctx, n) && TreeIn(st'.cells, l, n) && TreeIn(st'.cells, x, m)
    ensures PathIn(st'.cells, inner, m, RootOf(x))
  {
    var pm, r, xr := inner.self, TopOf(inner, m), RootOf(x);
    var except := {pm, m, r};
    TreeKept(st.cells, st'.cells, except, l, n);
    TreeKept(st.cells, st'.cells, except, x, m);
    ContextKept(st, st', except, ctx, n);
    var m1 := st.cells[r := st.cells[r].(parent := m)];
    PathRelink(m1, inner, m, m, xr);
    PathKept(Store(null, m1).Link(pm, L, xr).cells, st'.cells, {m}, inner, m, xr);
  }

  /** m->left = l; l->parent = m; the link to the old node = m; m->parent, m->color = the old node's */
  ghost function SeatStore(st: Store, top: RbNode?, side: Side, m: RbNode, l: RbNode, c: Color): Store
    requires st.Has(top) && m in st.cells && l in st.cells
  {
    st.Link(m, L, l).Paint(l, m, st.cells[l].color).Link(top, side, m).Paint(m, top, c)
  }

  lemma Seat(st: Store, ctx: Context, n: RbNode, l: Tree, inner: Context, m: RbNode, x: Tree, c: Color)
    requires MoveApart(ctx, l, inner, m, x) && Hoisted(st, ctx, n, l, inner, m, x) && l.Branch?
    ensures st.Has(ParentOf(ctx)) && l.self in st.cells
    ensures var st' := SeatStore(st, ParentOf(ctx), SideOf(ctx), m, l.self, c);
      && ContextIn(st', Compose(inner, Under(ctx, R, c, m, l)), RootOf(x))
      && TreeIn(st'.cells, x, m)
  {
    LinkContext(st, ctx, n, m);
    var top, side := ParentOf(ctx), SideOf(ctx);
    SeatCells(st, top, side, m, l.self, c);
    var st' := SeatStore(st, top, side, m, l.self, c);
    var mid := st.Link(top, side, m);
    SeatKept(st, mid, st', ctx, n, l, inner, m, x, c);
    ComposeIn(st', inner, Under(ctx, R, c, m, l), RootOf(x));
  }

  lemma SeatCells(st: Store, top: RbNode?, side: Side, m: RbNode, l: RbNode, c: Color)
    requires st.Has(top) && m in st.cells && l in st.cells && m != l && top != m && top != l
    ensures var st', mid := SeatStore(st, top, side, m, l, c), st.Link(top, side, m);
      && Same(st.cells, st'.cells, {m, l} + One(top))
      && Same(mid.cells, st'.cells, {m, l}) && st'.top == mid.top
      && Same(st.Paint(l, m, st.cells[l].color).cells, st'.cells, {m} + One(top))
      && st'.cells[m] == Cell(c, top, l, st.cells[m].right)
  {
  }

  lemma SeatKept(st: Store, mid: Store, st': Store, ctx: Context, n: RbNode, l: Tree, inner: Context, m: RbNode, x: Tree, c: Color)
    requires MoveApart(ctx, l, inner, m, x) && Hoisted(st, ctx, n, l, inner, m, x) && l.Branch?
    requires ContextIn(mid, ctx, m)
    requires Same(st.cells, st'.cells, {m, l.self} + One(ParentOf(ctx)))
    requires Same(mid.cells, st'.cells, {m, l.self}) && st'.top == mid.top
    requires Same(st.Paint(l.self, m, st.cells[l.self].color).cells, st'.cells, {m} + One(ParentOf(ctx)))
    requires st'.cells[m] == Cell(c, ParentOf(ctx), l.self, st.cells[m].right)
    ensures ContextIn(st', Under(ctx, R, c, m, l), TopOf(inner, RootOf(x)))
    ensures PathIn(st'.cells, inner, m, RootOf(x))
    ensures TreeIn(st'.cells, x, m)
  {
    var touched := {m, l.self} + One(ParentOf(ctx));
    PathKept(st.cells, st'.cells, touched, inner, m, RootOf(x));
    TreeKept(st.cells, st'.cells, touched, x, m);
    ContextKept(mid, st', {m, l.self}, ctx, m);
    PaintTree(st, l, n, m, l.color);
    TreeKept(st.Paint(l.self, m, l.color).cells, st'.cells, {m} + One(ParentOf(ctx)), l, m);
  }

  lemma {:induction false} ComposeApart(inner: Context, outer: Context)
    requires ContextDistinct(inner) && ContextDistinct(outer) && ContextNodes(inner) !! ContextNodes(outer)
    ensures ContextDistinct(Compose(inner, outer))
    ensures ContextNodes(Compose(inner, outer)) == ContextNodes(inner) + ContextNodes(outer)
  {
    match inner
    case Top =>
    case Under(up, s, c, v, o) => ComposeApart(up, outer);
  }

  lemma MovedApart(ctx: Context, t: Tree, inner: Context, m: RbNode, x: Tree)
    requires t.Branch? && MoveApart(ctx, t.left, inner, m, x)
    ensures Apart(Moved(ctx, t, inner, m), x)
  {
    ComposeApart(inner, Under(ctx, R, t.color, m, t.left));
  }

  /** The pieces as the code finds them once the successor is known. */
  lemma ToMove(st: Store, ctx: Context, t: Tree, inner: Context, mt: Tree)
    requires t.Branch? && t.right.Branch? && (inner, mt) == MinFocus(Top, t.right) && Apart(ctx, t)
    requires ZipperIn(st, Compose(inner, Under(ctx, R, t.color, t.self, t.left)), mt)
    ensures MoveApart(ctx, t.left, inner, mt.self, mt.right)
    ensures t.self in st.cells && t.self != mt.self && t.self !in ContextNodes(inner)
    ensures st.cells[t.self] == Cell(t.color, ParentOf(ctx), RootOf(t.left), RootOf(t.right))
    ensures ContextIn(st, ctx, t.self) && TreeIn(st.cells, t.left, t.self) && TreeIn(st.cells, mt.right, mt.self)
    ensures PathIn(st.cells, inner, t.self, mt.self)
    ensures mt.self in st.cells && st.cells[mt.self].right == RootOf(mt.right) && st.cells[mt.self].color == mt.color
    ensures TopOf(inner, mt.self) == RootOf(t.right)
    ensures inner.Top? ==> Hoisted(st, ctx, t.self, t.left, inner, mt.self, mt.right)
  {
    Parts(ctx, t, inner, mt);
    TopOfPlug(inner, mt);
    ComposeIn(st, inner, Under(ctx, R, t.color, t.self, t.left), mt.self);
  }

  /** Closing the gap: the child of the successor, if any, turns black. */
  lemma FinishIn(st: Store, k: Context, x: Tree, m: RbNode)
    requires x.Branch? && ContextIn(st, k, x.self) && TreeIn(st.cells, x, m) && Apart(k, x)
    ensures x.self in st.cells && ZipperIn(st.Paint(x.self, ParentOf(k), Black), k, x.(color := Black))
  {
    PaintTree(st, x, m, ParentOf(k), Black);
    ContextKept(st, st.Paint(x.self, ParentOf(k), Black), {x.self}, k, x.self);
  }
}
