/** Trees laid out in memory: what it means for a store of linked nodes to hold a
tree, and which single-cell updates turn one tree into another. Everything here is
about values; `RedBlackTree` mirrors each pointer write in such a store. */
module RedBlackHeap {
  import opened RedBlackSpec

  datatype Cell = Cell(color: Color, parent: RbNode?, left: RbNode?, right: RbNode?)

  /** The root pointer and the four fields of every node. */
  datatype Store = Store(top: RbNode?, cells: map<RbNode, Cell>) {

    ghost predicate Has(n: RbNode?) { n == null || n in cells }

    /** n->parent = p, n->color = c */
    ghost function Paint(n: RbNode?, p: RbNode?, c: Color): Store
      requires Has(n)
    {
      if n == null then this else this.(cells := cells[n := cells[n].(parent := p, color := c)])
    }

    /** The side-`s` child link of `p`, or the root pointer if there is no `p`, set to `n`. */
    ghost function Link(p: RbNode?, s: Side, n: RbNode?): Store
      requires Has(p)
    {
      if p == null then this.(top := n)
      else if s == L then this.(cells := cells[p := cells[p].(left := n)])
      else this.(cells := cells[p := cells[p].(right := n)])
    }
  }

  ghost function RootOf(t: Tree): RbNode? { if t.Leaf? then null else t.self }

  ghost function ParentOf(ctx: Context): RbNode? { if ctx.Top? then null else ctx.self }

  ghost function SideOf(ctx: Context): Side { if ctx.Top? then L else ctx.side }

  ghost function CellOf(s: Side, c: Color, p: RbNode?, n: RbNode?, o: RbNode?): Cell {
    if s == L then Cell(c, p, n, o) else Cell(c, p, o, n)
  }

  /** `m` holds `t` hanging below `p`. */
  ghost predicate TreeIn(m: map<RbNode, Cell>, t: Tree, p: RbNode?) {
    match t
    case Leaf => true
    case Branch(c, l, v, r) =>
      && v in m && m[v] == Cell(c, p, RootOf(l), RootOf(r))
      && TreeIn(m, l, v) && TreeIn(m, r, v)
  }

  /** `st` holds `ctx` around a focus whose root is `n`. */
  ghost predicate ContextIn(st: Store, ctx: Context, n: RbNode?) {
    match ctx
    case Top => st.top == n
    case Under(up, s, c, v, o) =>
      && v in st.cells && st.cells[v] == CellOf(s, c, ParentOf(up), n, RootOf(o))
      && TreeIn(st.cells, o, v)
      && ContextIn(st, up, v)
  }

  ghost predicate Holds(st: Store, t: Tree) { st.top == RootOf(t) && TreeIn(st.cells, t, null) }

  ghost predicate ZipperIn(st: Store, ctx: Context, t: Tree) {
    TreeIn(st.cells, t, ParentOf(ctx)) && ContextIn(st, ctx, RootOf(t))
  }

  lemma {:induction false} PlugIn(st: Store, ctx: Context, t: Tree)
    ensures Holds(st, Plug(ctx, t)) <==> ZipperIn(st, ctx, t)
  {
    match ctx
    case Top =>
    case Under(up, s, c, v, o) => PlugIn(st, up, Join(s, c, t, v, o));
  }

  // ---- No node occurs twice ----

  ghost function Nodes(t: Tree): set<RbNode> {
    match t
    case Leaf => {}
    case Branch(_, l, v, r) => Nodes(l) + Nodes(r) + {v}
  }

  ghost function ContextNodes(ctx: Context): set<RbNode> {
    match ctx
    case Top => {}
    case Under(up, _, _, v, o) => ContextNodes(up) + Nodes(o) + {v}
  }

  ghost predicate Distinct(t: Tree) {
    t.Branch? ==>
      && Distinct(t.left) && Distinct(t.right)
      && Nodes(t.left) !! Nodes(t.right)
      && t.self !in Nodes(t.left) && t.self !in Nodes(t.right)
  }

  ghost predicate ContextDistinct(ctx: Context) {
    ctx.Under? ==>
      && ContextDistinct(ctx.up) && Distinct(ctx.other)
      && ContextNodes(ctx.up) !! Nodes(ctx.other)
      && ctx.self !in ContextNodes(ctx.up) && ctx.self !in Nodes(ctx.other)
  }

  ghost predicate Apart(ctx: Context, t: Tree) {
    Distinct(t) && ContextDistinct(ctx) && Nodes(t) !! ContextNodes(ctx)
  }

  lemma {:induction false} PlugApart(ctx: Context, t: Tree)
    ensures Distinct(Plug(ctx, t)) <==> Apart(ctx, t)
    ensures Nodes(Plug(ctx, t)) == Nodes(t) + ContextNodes(ctx)
  {
    match ctx
    case Top =>
    case Under(up, s, c, v, o) =>
      JoinApart(s, c, t, v, o);
      PlugApart(up, Join(s, c, t, v, o));
  }

  lemma JoinApart(s: Side, c: Color, t: Tree, v: RbNode, o: Tree)
    ensures Nodes(Join(s, c, t, v, o)) == Nodes(t) + Nodes(o) + {v}
    ensures Distinct(Join(s, c, t, v, o)) <==>
      Distinct(t) && Distinct(o) && Nodes(t) !! Nodes(o) && v !in Nodes(t) && v !in Nodes(o)
  {
  }

  lemma {:induction false} InOrderNodes(t: Tree)
    ensures forall x <- InOrder(t) :: x in Nodes(t)
    ensures forall x <- Nodes(t) :: x in InOrder(t)
  {
    match t
    case Leaf =>
    case Branch(_, l, v, r) =>
      InOrderNodes(l);
      InOrderNodes(r);
  }

  lemma {:induction false} SortedDistinct(t: Tree)
    requires Sorted(InOrder(t))
    ensures Distinct(t)
  {
    match t
    case Leaf =>
    case Branch(_, l, v, r) =>
      SortedParts(InOrder(l), v, InOrder(r));
      assert forall x <- Nodes(l) :: x.key < v.key by { InOrderNodes(l); }
      assert forall x <- Nodes(r) :: v.key < x.key by { InOrderNodes(r); }
      SortedDistinct(l);
      SortedDistinct(r);
  }

  /** In a sorted list everything before `v` is smaller and everything after it larger. */
  lemma SortedParts(a: seq<RbNode>, v: RbNode, b: seq<RbNode>)
    requires Sorted(a + [v] + b)
    ensures Sorted(a) && Sorted(b)
    ensures forall x <- a :: x.key < v.key
    ensures forall x <- b :: v.key < x.key
  {
    var s := a + [v] + b;
    assert forall i | 0 <= i < |a| :: s[i] == a[i];
    assert s[|a|] == v;
    assert forall i | 0 <= i < |b| :: b[i] == s[|a| + 1 + i];
  }

  // ---- Updates outside a tree leave it alone ----

  lemma {:induction false} TreeFrame(m: map<RbNode, Cell>, m': map<RbNode, Cell>, t: Tree, p: RbNode?)
    requires TreeIn(m, t, p)
    requires forall x <- Nodes(t) :: x in m && x in m' && m'[x] == m[x]
    ensures TreeIn(m', t, p)
  {
    match t
    case Leaf =>
    case Branch(_, l, v, r) =>
      TreeFrame(m, m', l, v);
      TreeFrame(m, m', r, v);
  }

  lemma {:induction false} ContextFrame(st: Store, st': Store, ctx: Context, n: RbNode?)
    requires ContextIn(st, ctx, n) && st'.top == st.top
    requires forall x <- ContextNodes(ctx) :: x in st.cells && x in st'.cells && st'.cells[x] == st.cells[x]
    ensures ContextIn(st', ctx, n)
  {
    match ctx
    case Top =>
    case Under(up, s, c, v, o) =>
      TreeFrame(st.cells, st'.cells, o, v);
      ContextFrame(st, st', up, v);
  }

  lemma {:induction false} TreeNodesIn(m: map<RbNode, Cell>, t: Tree, p: RbNode?)
    requires TreeIn(m, t, p)
    ensures Nodes(t) <= m.Keys
  {
    match t
    case Leaf =>
    case Branch(_, l, v, r) =>
      TreeNodesIn(m, l, v);
      TreeNodesIn(m, r, v);
  }

  lemma {:induction false} ContextNodesIn(st: Store, ctx: Context, n: RbNode?)
    requires ContextIn(st, ctx, n)
    ensures ContextNodes(ctx) <= st.cells.Keys
  {
    match ctx
    case Top =>
    case Under(up, s, c, v, o) =>
      TreeNodesIn(st.cells, o, v);
      ContextNodesIn(st, up, v);
  }

  // ---- Updates at the root of a subtree, and at the focus of a context ----

  lemma PaintTree(st: Store, t: Tree, p: RbNode?, q: RbNode?, c: Color)
    requires t.Branch? && TreeIn(st.cells, t, p) && Distinct(t)
    ensures TreeIn(st.Paint(t.self, q, c).cells, t.(color := c), q)
  {
    var m, m' := st.cells, st.Paint(t.self, q, c).cells;
    TreeNodesIn(m, t.left, t.self);
    TreeNodesIn(m, t.right, t.self);
    TreeFrame(m, m', t.left, t.self);
    TreeFrame(m, m', t.right, t.self);
  }

  lemma LinkContext(st: Store, ctx: Context, n: RbNode?, q: RbNode?)
    requires ContextIn(st, ctx, n) && ContextDistinct(ctx)
    ensures st.Has(ParentOf(ctx)) && ContextIn(st.Link(ParentOf(ctx), SideOf(ctx), q), ctx, q)
  {
    if ctx.Under? {
      var st' := st.Link(ctx.self, ctx.side, q);
      ContextNodesIn(st, ctx.up, ctx.self);
      TreeNodesIn(st.cells, ctx.other, ctx.self);
      TreeFrame(st.cells, st'.cells, ctx.other, ctx.self);
      ContextFrame(st, st', ctx.up, ctx.self);
    }
  }

  ghost predicate Same(m: map<RbNode, Cell>, m': map<RbNode, Cell>, except: set<RbNode>) {
    m.Keys <= m'.Keys && forall x <- m.Keys :: x !in except ==> m'[x] == m[x]
  }

  lemma TreeKept(m: map<RbNode, Cell>, m': map<RbNode, Cell>, except: set<RbNode>, t: Tree, p: RbNode?)
    requires TreeIn(m, t, p) && Same(m, m', except) && Nodes(t) !! except
    ensures TreeIn(m', t, p)
  {
    TreeNodesIn(m, t, p);
    TreeFrame(m, m', t, p);
  }

  lemma ContextKept(st: Store, st': Store, except: set<RbNode>, ctx: Context, n: RbNode?)
    requires ContextIn(st, ctx, n) && st'.top == st.top && Same(st.cells, st'.cells, except)
    requires ContextNodes(ctx) !! except
    ensures ContextIn(st', ctx, n)
  {
    ContextNodesIn(st, ctx, n);
    ContextFrame(st, st', ctx, n);
  }

  ghost function One(n: RbNode?): set<RbNode> { if n == null then {} else {n} }

  // ---- Rotation of `q` over its parent `g` ----
  // `q` is the `s`-side child of `g`; `a` is q's child on that side, `b` the other,
  // `u` is g's other child.

  /** All the named parts are apart from one another. */
  ghost predicate RotationApart(up: Context, s: Side, a: Tree, q: RbNode, b: Tree, g: RbNode, u: Tree) {
    Apart(up, Join(s, Black, a, q, Join(s, Red, b, g, u)))
  }

  /** `b` hangs below `g` and `g` below `q`; only the links upward are still to be set. */
  ghost predicate Hung(st: Store, up: Context, s: Side, a: Tree, pa: RbNode?, q: RbNode, b: Tree, g: RbNode, u: Tree) {
    && q in st.cells && st.cells[q] == CellOf(s, st.cells[q].color, st.cells[q].parent, RootOf(a), g)
    && g in st.cells && st.cells[g] == CellOf(s, st.cells[g].color, ParentOf(up), RootOf(b), RootOf(u))
    && TreeIn(st.cells, a, pa) && TreeIn(st.cells, b, g) && TreeIn(st.cells, u, g)
    && ContextIn(st, up, g)
  }

  ghost function Child(c: Cell, s: Side): RbNode? { if s == L then c.left else c.right }

  ghost function HangStore(st: Store, s: Side, q: RbNode, b: RbNode?, g: RbNode, cb: Color): Store
    requires q in st.cells && g in st.cells && st.Has(b)
  {
    st.Link(g, s, b).Paint(b, g, cb).Link(q, Opp(s), g)
  }

  lemma Hang(st: Store, up: Context, s: Side, a: Tree, pa: RbNode?, q: RbNode, b: Tree, g: RbNode, u: Tree, cb: Color)
    requires RotationApart(up, s, a, q, b, g, u)
    requires TreeIn(st.cells, a, pa) && TreeIn(st.cells, b, q) && TreeIn(st.cells, u, g) && ContextIn(st, up, g)
    requires q in st.cells && Child(st.cells[q], s) == RootOf(a)
    requires g in st.cells && Child(st.cells[g], Opp(s)) == RootOf(u) && st.cells[g].parent == ParentOf(up)
    requires b.Branch? ==> b.color == cb
    ensures st.Has(RootOf(b)) && Hung(HangStore(st, s, q, RootOf(b), g, cb), up, s, a, pa, q, b, g, u)
    ensures HangStore(st, s, q, RootOf(b), g, cb).cells[g].color == st.cells[g].color
  {
    HangApart(up, s, a, q, b, g, u);
    var st' := HangStore(st, s, q, RootOf(b), g, cb);
    var except := {q, g} + One(RootOf(b));
    assert Same(st.cells, st'.cells, except);
    TreeKept(st.cells, st'.cells, except, a, pa);
    TreeKept(st.cells, st'.cells, except, u, g);
    ContextKept(st, st', except, up, g);
    if b.Branch? {
      TreeKept(st.cells, st'.cells, except, b.left, b.self);
      TreeKept(st.cells, st'.cells, except, b.right, b.self);
    }
  }

  lemma HangApart(up: Context, s: Side, a: Tree, q: RbNode, b: Tree, g: RbNode, u: Tree)
    requires RotationApart(up, s, a, q, b, g, u)
    ensures q != g && ContextDistinct(up) && Distinct(a) && Distinct(b) && Distinct(u)
    ensures Nodes(a) !! {q, g} + One(RootOf(b)) && Nodes(u) !! {q, g} + One(RootOf(b))
    ensures ContextNodes(up) !! {q, g} + One(RootOf(b))
    ensures b.Branch? ==> b.self != q && b.self != g
    ensures b.Branch? ==> Nodes(b.left) !! {q, g} + {b.self} && Nodes(b.right) !! {q, g} + {b.self}
    ensures Nodes(a) !! One(ParentOf(up)) && Nodes(b) !! One(ParentOf(up)) && Nodes(u) !! One(ParentOf(up))
    ensures ParentOf(up) != q && ParentOf(up) != g
    ensures {q, g} !! Nodes(b) && {q, g} !! ContextNodes(up)
  {
    JoinApart(s, Black, a, q, Join(s, Red, b, g, u));
    JoinApart(s, Red, b, g, u);
  }

  /** __rb_rotate_set_parents(g, q, root, c) */
  ghost function SwapStore(st: Store, up: Side, q: RbNode, g: RbNode, c: Color): Store
    requires q in st.cells && g in st.cells && st.Has(st.cells[g].parent)
  {
    st.Paint(q, st.cells[g].parent, st.cells[g].color).Paint(g, q, c).Link(st.cells[g].parent, up, q)
  }

  lemma Swap(st: Store, up: Context, s: Side, a: Tree, q: RbNode, b: Tree, g: RbNode, u: Tree, c: Color)
    requires RotationApart(up, s, a, q, b, g, u) && Hung(st, up, s, a, q, q, b, g, u)
    ensures st.Has(ParentOf(up))
    ensures ZipperIn(SwapStore(st, SideOf(up), q, g, c), up, Join(s, st.cells[g].color, a, q, Join(s, c, b, g, u)))
  {
    HangApart(up, s, a, q, b, g, u);
    LinkContext(st, up, g, q);
    SwapCells(st, s, SideOf(up), q, g, ParentOf(up), c);
    SwapTrees(st, SwapStore(st, SideOf(up), q, g, c), One(ParentOf(up)), up, s, a, q, b, g, u, c);
    ContextKept(st.Link(ParentOf(up), SideOf(up), q), SwapStore(st, SideOf(up), q, g, c), {q, g}, up, q);
  }

  /** The cells after __rb_rotate_set_parents. */
  lemma SwapCells(st: Store, s: Side, up: Side, q: RbNode, g: RbNode, p: RbNode?, c: Color)
    requires q in st.cells && g in st.cells && q != g && p != q && p != g && st.Has(p) && st.cells[g].parent == p
    ensures var st', mid := SwapStore(st, up, q, g, c), st.Link(p, up, q);
      && Same(st.cells, st'.cells, {q, g} + One(p))
      && Same(mid.cells, st'.cells, {q, g}) && st'.top == mid.top
      && st'.cells[q] == CellOf(s, st.cells[g].color, p, Child(st.cells[q], s), Child(st.cells[q], Opp(s)))
      && st'.cells[g] == CellOf(s, c, q, Child(st.cells[g], s), Child(st.cells[g], Opp(s)))
  {
  }

  lemma SwapTrees(st: Store, st': Store, touched: set<RbNode>, up: Context,
                  s: Side, a: Tree, q: RbNode, b: Tree, g: RbNode, u: Tree, c: Color)
    requires Hung(st, up, s, a, q, q, b, g, u) && q != g
    requires touched !! Nodes(a) && touched !! Nodes(b) && touched !! Nodes(u)
    requires {q, g} !! Nodes(a) && {q, g} !! Nodes(b) && {q, g} !! Nodes(u)
    requires Same(st.cells, st'.cells, {q, g} + touched)
    requires st'.cells[q] == CellOf(s, st.cells[g].color, ParentOf(up), RootOf(a), g)
    requires st'.cells[g] == CellOf(s, c, q, RootOf(b), RootOf(u))
    ensures TreeIn(st'.cells, Join(s, st.cells[g].color, a, q, Join(s, c, b, g, u)), ParentOf(up))
  {
    var except := {q, g} + touched;
    TreeKept(st.cells, st'.cells, except, a, q);
    TreeKept(st.cells, st'.cells, except, b, g);
    TreeKept(st.cells, st'.cells, except, u, g);
    assert TreeIn(st'.cells, Join(s, c, b, g, u), q);
  }

  // ---- Insertion, case 1 ----

  /** The focus of an insertion; the root pointer need not know of it yet. */
  ghost predicate FocusIn(st: Store, ctx: Context, t: Tree) {
    TreeIn(st.cells, t, ParentOf(ctx)) && (ctx.Under? ==> ContextIn(st, ctx, RootOf(t)))
  }

  ghost function RecolorStore(st: Store, p: RbNode, g: RbNode, u: RbNode): Store
    requires p in st.cells && g in st.cells && u in st.cells
  {
    st.Paint(u, g, Black).Paint(p, g, Black).Paint(g, st.cells[g].parent, Red)
  }

  lemma Recolor(st: Store, ctx: Context, t: Tree)
    requires ctx.Under? && ctx.up.Under? && ctx.up.other.Branch?
    requires ZipperIn(st, ctx, t) && Apart(ctx, t)
    ensures var p, g, u := ctx.self, ctx.up.self, ctx.up.other.self;
      && p in st.cells && g in st.cells && u in st.cells
      && ZipperIn(RecolorStore(st, p, g, u), ctx.up.up, Recolored(ctx, t))
  {
    var p, g, u := ctx.self, ctx.up.self, ctx.up.other.self;
    assert ContextIn(st, ctx.up, p) && Apart(ctx.up.up, ctx.up.other) && ContextDistinct(ctx.up);
    var st' := RecolorStore(st, p, g, u);
    var except := {p, g, u};
    assert Same(st.cells, st'.cells, except);
    TreeKept(st.cells, st'.cells, except, t, p);
    TreeKept(st.cells, st'.cells, except, ctx.other, p);
    var o := ctx.up.other;
    TreeKept(st.cells, st'.cells, except, o.left, u);
    TreeKept(st.cells, st'.cells, except, o.right, u);
    assert TreeIn(st'.cells, Join(ctx.side, Black, t, p, ctx.other), g);
    assert TreeIn(st'.cells, o.(color := Black), g);
    ContextKept(st, st', except, ctx.up.up, g);
  }

  // ---- Insertion, case 2 ----

  /** `n`, child of `p` on the side opposite `s`, takes `p` as its `s`-side child. */
  ghost function TurnStore(st: Store, s: Side, n: RbNode, p: RbNode, near: RbNode?): Store
    requires n in st.cells && p in st.cells && st.Has(near)
  {
    st.Link(p, Opp(s), near).Paint(near, p, Black).Link(n, s, p).Paint(p, n, Red)
  }

  lemma Turn(st: Store, s: Side, near: Tree, n: RbNode, far: Tree, p: RbNode, sib: Tree)
    requires n in st.cells && Child(st.cells[n], Opp(s)) == RootOf(far)
    requires p in st.cells && Child(st.cells[p], s) == RootOf(sib)
    requires TreeIn(st.cells, near, n) && TreeIn(st.cells, far, n) && TreeIn(st.cells, sib, p) && !IsRed(near)
    requires Distinct(Join(s, Red, sib, p, Join(s, Red, near, n, far)))
    ensures st.Has(RootOf(near))
    ensures var st' := TurnStore(st, s, n, p, RootOf(near));
      && Same(st.cells, st'.cells, {n, p} + Nodes(near)) && st'.top == st.top
      && TreeIn(st'.cells, Join(s, Red, sib, p, near), n)
      && TreeIn(st'.cells, far, n)
      && n in st'.cells && Child(st'.cells[n], s) == p && Child(st'.cells[n], Opp(s)) == RootOf(far)
  {
    TreeNodesIn(st.cells, near, n);
    JoinApart(s, Red, sib, p, Join(s, Red, near, n, far));
    JoinApart(s, Red, near, n, far);
    var st' := TurnStore(st, s, n, p, RootOf(near));
    var except := {n, p} + One(RootOf(near));
    assert Same(st.cells, st'.cells, except);
    TreeKept(st.cells, st'.cells, except, far, n);
    TreeKept(st.cells, st'.cells, except, sib, p);
    if near.Branch? {
      TreeKept(st.cells, st'.cells, except, near.left, near.self);
      TreeKept(st.cells, st'.cells, except, near.right, near.self);
    }
    assert TreeIn(st'.cells, near, p);
  }

  // ---- Removal fix-up ----

  /** Moving the focus down one step. */
  lemma ZipperDown(st: Store, up: Context, s: Side, c: Color, t: Tree, v: RbNode, o: Tree)
    ensures ZipperIn(st, up, Join(s, c, t, v, o)) <==> ZipperIn(st, Under(up, s, c, v, o), t)
    ensures Join(s, c, t, v, o) == Join(Opp(s), c, o, v, t)
  {
  }

  lemma ApartDown(up: Context, s: Side, c: Color, t: Tree, v: RbNode, o: Tree)
    ensures Apart(up, Join(s, c, t, v, o)) <==> Apart(Under(up, s, c, v, o), t)
    ensures Join(s, c, t, v, o) == Join(Opp(s), c, o, v, t)
  {
    JoinApart(s, c, t, v, o);
  }

  ghost function LightenStore(st: Store, o: RbNode, p: RbNode): Store
    requires o in st.cells && p in st.cells
  {
    st.Paint(o, p, Red).Paint(p, st.cells[p].parent, Black)
  }

  lemma LightenIn(st: Store, ctx: Context, t: Tree)
    requires ctx.Under? && ctx.other.Branch? && ZipperIn(st, ctx, t) && Apart(ctx, t)
    ensures ctx.self in st.cells && ctx.other.self in st.cells
    ensures ZipperIn(LightenStore(st, ctx.other.self, ctx.self), ctx.up, Lightened(ctx, t))
    ensures Apart(ctx.up, Lightened(ctx, t))
  {
    var p, o := ctx.self, ctx.other;
    var st' := LightenStore(st, o.self, p);
    var except := {p, o.self};
    TreeKept(st.cells, st'.cells, except, t, p);
    TreeKept(st.cells, st'.cells, except, o.left, o.self);
    TreeKept(st.cells, st'.cells, except, o.right, o.self);
    assert TreeIn(st'.cells, o.(color := Red), p);
    ContextKept(st, st', except, ctx.up, p);
    assert Nodes(o.(color := Red)) == Nodes(o) && Distinct(o.(color := Red));
    JoinApart(ctx.side, Black, t, p, o.(color := Red));
  }

  /** Painting the outer tree `a` black and hanging it below `q`. */
  lemma PaintOuter(st: Store, up: Context, s: Side, a: Tree, pa: RbNode?, q: RbNode, b: Tree, g: RbNode, u: Tree)
    requires RotationApart(up, s, a, q, b, g, u) && Hung(st, up, s, a, pa, q, b, g, u) && a.Branch?
    ensures a.self in st.cells
    ensures var st' := st.Paint(a.self, q, Black);
      && Hung(st', up, s, a.(color := Black), q, q, b, g, u)
      && st'.cells[g] == st.cells[g]
      && RotationApart(up, s, a.(color := Black), q, b, g, u)
  {
    OuterNodeApart(up, s, a, q, b, g, u);
    var st' := st.Paint(a.self, q, Black);
    var except := {a.self};
    PaintTree(st, a, pa, q, Black);
    TreeKept(st.cells, st'.cells, except, b, g);
    TreeKept(st.cells, st'.cells, except, u, g);
    ContextKept(st, st', except, up, g);
  }

  lemma OuterNodeApart(up: Context, s: Side, a: Tree, q: RbNode, b: Tree, g: RbNode, u: Tree)
    requires RotationApart(up, s, a, q, b, g, u) && a.Branch?
    ensures Distinct(a) && a.self != q && a.self != g
    ensures Nodes(b) !! {a.self} && Nodes(u) !! {a.self} && ContextNodes(up) !! {a.self}
    ensures RotationApart(up, s, a.(color := Black), q, b, g, u)
  {
    var o := Join(s, Red, b, g, u);
    JoinApart(s, Black, a, q, o);
    JoinApart(s, Red, b, g, u);
    var a' := a.(color := Black);
    assert Nodes(a') == Nodes(a) && Distinct(a');
    JoinApart(s, Black, a', q, o);
  }

  /** Removal, case 3: the red inner nephew `n` is rotated over the sibling. */
  ghost function InnerStore(st: Store, s: Side, n: RbNode, far: RbNode?, o: RbNode, p: RbNode): Store
    requires n in st.cells && o in st.cells && p in st.cells && st.Has(far)
  {
    HangStore(st, s, n, far, o, Black).Link(p, Opp(s), n)
  }

  /** Rotations and colours do not matter to distinctness. */
  lemma RotationDistinct(ctx: Context, s: Side, c1: Color, c2: Color, d1: Color, d2: Color,
                         a: Tree, p: RbNode, b: Tree, g: RbNode, c: Tree)
    ensures Apart(ctx, Join(s, c1, a, p, Join(s, c2, b, g, c))) <==> Apart(ctx, Join(s, d1, Join(s, d2, a, p, b), g, c))
  {
    JoinApart(s, c2, b, g, c);
    JoinApart(s, d2, a, p, b);
    JoinApart(s, c1, a, p, Join(s, c2, b, g, c));
    JoinApart(s, d1, Join(s, d2, a, p, b), g, c);
    assert Nodes(Join(s, c1, a, p, Join(s, c2, b, g, c))) == Nodes(Join(s, d1, Join(s, d2, a, p, b), g, c));
  }

  lemma NephewApart(ctx: Context, t: Tree)
    requires ctx.Under? && ctx.other.Branch? && Near(ctx.side, ctx.other).Branch? && Apart(ctx, t)
    ensures var s, p, o, n := ctx.side, ctx.self, ctx.other, Near(ctx.side, ctx.other);
      && RotationApart(Under(ctx.up, Opp(s), ctx.color, p, t), s, Near(s, n), n.self, Far(s, n), o.self, Far(s, o))
      && RotationApart(ctx.up, Opp(s), Join(s, Black, Far(s, n), o.self, Far(s, o)), n.self, Near(s, n), p, t)
      && p != n.self && p != o.self && p !in Nodes(n) && p !in Nodes(Far(s, o)) && p !in Nodes(t)
      && p !in ContextNodes(ctx.up)
  {
    var s, p, c, o, n := ctx.side, ctx.self, ctx.color, ctx.other, Near(ctx.side, ctx.other);
    var n1, n2, far := Near(s, n), Far(s, n), Far(s, o);
    var below := Under(ctx.up, Opp(s), c, p, t);
    JoinParts(s, o);
    JoinParts(s, n);
    JoinApart(s, o.color, n, o.self, far);
    ApartDown(ctx.up, s, c, t, p, o);
    ApartDown(ctx.up, Opp(s), c, o, p, t);
    RotationDistinct(below, s, Black, Red, o.color, n.color, n1, n.self, n2, o.self, far);
    RotationDistinct(below, s, Black, Black, o.color, n.color, n1, n.self, n2, o.self, far);
    var a := Join(s, Black, n2, o.self, far);
    assert Join(s, Black, n1, n.self, a) == Join(Opp(s), Black, a, n.self, n1);
    ApartDown(ctx.up, Opp(s), c, Join(Opp(s), Black, a, n.self, n1), p, t);
    RotationDistinct(ctx.up, Opp(s), Black, Red, c, Black, a, n.self, n1, p, t);
  }

  lemma NephewIn(st: Store, ctx: Context, t: Tree)
    requires ctx.Under? && ctx.other.Branch? && ctx.other.color == Black && Near(ctx.side, ctx.other).Branch?
    requires ZipperIn(st, ctx, t) && Apart(ctx, t) && !IsRed(Far(ctx.side, Near(ctx.side, ctx.other)))
    ensures var s, p, o, n := ctx.side, ctx.self, ctx.other, Near(ctx.side, ctx.other);
      && n.self in st.cells && o.self in st.cells && p in st.cells && st.Has(RootOf(Far(s, n)))
      && var st' := InnerStore(st, s, n.self, RootOf(Far(s, n)), o.self, p);
        && TreeIn(st'.cells, Join(s, Black, Far(s, n), o.self, Far(s, o)), p)
        && TreeIn(st'.cells, Near(s, n), n.self)
        && TreeIn(st'.cells, t, p)
        && ContextIn(st', ctx.up, p)
        && n.self in st'.cells && Child(st'.cells[n.self], Opp(s)) == o.self && Child(st'.cells[n.self], s) == RootOf(Near(s, n))
        && p in st'.cells && Child(st'.cells[p], s) == RootOf(t)
        && st'.cells[p].parent == ParentOf(ctx.up) && st'.cells[p].color == ctx.color
  {
    var s, p, o, n := ctx.side, ctx.self, ctx.other, Near(ctx.side, ctx.other);
    NephewApart(ctx, t);
    var below := Under(ctx.up, Opp(s), ctx.color, p, t);
    assert ContextIn(st, below, o.self);
    assert TreeIn(st.cells, n, o.self);
    Hang(st, below, s, Near(s, n), n.self, n.self, Far(s, n), o.self, Far(s, o), Black);
    var st1 := HangStore(st, s, n.self, RootOf(Far(s, n)), o.self, Black);
    assert TreeIn(st1.cells, Join(s, Black, Far(s, n), o.self, Far(s, o)), p);
    NephewLinked(st1, st1.Link(p, Opp(s), n.self), ctx, t, n, o);
  }

  lemma NephewLinked(st: Store, st': Store, ctx: Context, t: Tree, n: Tree, o: Tree)
    requires ctx.Under? && o.Branch? && n.Branch? && ctx.self in st.cells && st' == st.Link(ctx.self, Opp(ctx.side), n.self)
    requires ContextIn(st, Under(ctx.up, Opp(ctx.side), ctx.color, ctx.self, t), o.self)
    requires var s, p := ctx.side, ctx.self;
      && p !in Nodes(n) && p !in Nodes(Far(s, o)) && p !in Nodes(t) && p !in ContextNodes(ctx.up) && p != o.self
    requires TreeIn(st.cells, Join(ctx.side, Black, Far(ctx.side, n), o.self, Far(ctx.side, o)), ctx.self)
    requires TreeIn(st.cells, Near(ctx.side, n), n.self)
    ensures TreeIn(st'.cells, Join(ctx.side, Black, Far(ctx.side, n), o.self, Far(ctx.side, o)), ctx.self)
    ensures TreeIn(st'.cells, Near(ctx.side, n), n.self)
    ensures TreeIn(st'.cells, t, ctx.self) && ContextIn(st', ctx.up, ctx.self)
    ensures st'.cells[ctx.self] == CellOf(ctx.side, ctx.color, ParentOf(ctx.up), RootOf(t), n.self)
  {
    var s, p := ctx.side, ctx.self;
    var a := Join(s, Black, Far(s, n), o.self, Far(s, o));
    assert p !in Nodes(a) && p !in Nodes(Near(s, n));
    TreeKept(st.cells, st'.cells, {p}, a, p);
    TreeKept(st.cells, st'.cells, {p}, Near(s, n), n.self);
    TreeKept(st.cells, st'.cells, {p}, t, p);
    ContextKept(st, st', {p}, ctx.up, p);
  }
}
