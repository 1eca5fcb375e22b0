/** Value-level account of the red-black tree of src/common/rbtree.c.

A tree under repair is a zipper: a `Context` (the path from the focus up to the
root, with the siblings hanging off it) and the subtree in focus. `InsertFix` and
`EraseFix` say which tree the two fix-up loops must leave behind; this module
proves that those trees are red-black and list the same nodes in the same order.
Module `RedBlackTree` proves that the pointer code produces exactly them. */
module RedBlackSpec {
  import opened Basics

  datatype Color = Red | Black
  datatype Side = L | R

  /** `struct rb_node_` with the parent/colour word split into its two parts, and
      the caller's ordering (`cmp`) read off an integer rank. */
  class RbNode {
    const key: int
    var color: Color
    var parent: RbNode?
    var left: RbNode?
    var right: RbNode?

    constructor (key: int)
      ensures this.key == key
    {
      this.key := key;
      color := Red;
      parent, left, right := null, null, null;
    }
  }

  datatype Tree = Leaf | Branch(color: Color, left: Tree, self: RbNode, right: Tree)

  /** `Under(up, s, c, v, o)`: the focus is the `s`-side child of node `v`, coloured
      `c`, whose other child is `o` and which itself sits at the focus of `up`. */
  datatype Context = Top | Under(up: Context, side: Side, color: Color, self: RbNode, other: Tree)

  /** The node `v` with `t` on side `s` and `o` on the other. */
  ghost function Join(s: Side, c: Color, t: Tree, v: RbNode, o: Tree): Tree {
    if s == L then Branch(c, t, v, o) else Branch(c, o, v, t)
  }

  ghost function Near(s: Side, t: Tree): Tree
    requires t.Branch?
  {
    if s == L then t.left else t.right
  }

  ghost function Far(s: Side, t: Tree): Tree
    requires t.Branch?
  {
    if s == L then t.right else t.left
  }

  ghost function Plug(ctx: Context, t: Tree): Tree {
    match ctx
    case Top => t
    case Under(up, s, c, v, o) => Plug(up, Join(s, c, t, v, o))
  }

  /** Puts context `inner` below `outer`. */
  ghost function Compose(inner: Context, outer: Context): Context {
    match inner
    case Top => outer
    case Under(up, s, c, v, o) => Under(Compose(up, outer), s, c, v, o)
  }

  lemma {:induction false} ComposePlug(inner: Context, outer: Context, t: Tree)
    ensures Plug(Compose(inner, outer), t) == Plug(outer, Plug(inner, t))
  {
    match inner
    case Top =>
    case Under(up, s, c, v, o) => ComposePlug(up, outer, Join(s, c, t, v, o));
  }

  // ---- What a tree holds ----

  ghost function InOrder(t: Tree): seq<RbNode> {
    match t
    case Leaf => []
    case Branch(_, l, v, r) => InOrder(l) + [v] + InOrder(r)
  }

  ghost function Before(ctx: Context): seq<RbNode> {
    match ctx
    case Top => []
    case Under(up, s, _, v, o) => if s == L then Before(up) else Before(up) + InOrder(o) + [v]
  }

  ghost function After(ctx: Context): seq<RbNode> {
    match ctx
    case Top => []
    case Under(up, s, _, v, o) => if s == L then [v] + InOrder(o) + After(up) else After(up)
  }

  /** The nodes of the whole tree when `mid` are those in focus. */
  ghost function Around(ctx: Context, mid: seq<RbNode>): seq<RbNode> {
    Before(ctx) + mid + After(ctx)
  }

  lemma Assoc<T>(a: seq<T>, b: seq<T>, c: seq<T>, d: seq<T>, e: seq<T>)
    ensures a + (b + c + d) + e == a + b + (c + d + e)
    ensures a + (b + c + d) + e == (a + b + c) + d + e
  {
  }

  lemma AroundUnder(ctx: Context, t: Tree)
    requires ctx.Under?
    ensures Around(ctx, InOrder(t)) == Around(ctx.up, InOrder(Join(ctx.side, ctx.color, t, ctx.self, ctx.other)))
  {
    var o := InOrder(ctx.other);
    if ctx.side == L {
      Assoc(Before(ctx.up), InOrder(t), [ctx.self], o, After(ctx.up));
    } else {
      Assoc(Before(ctx.up), o, [ctx.self], InOrder(t), After(ctx.up));
    }
  }

  lemma {:induction false} PlugInOrder(ctx: Context, t: Tree)
    ensures InOrder(Plug(ctx, t)) == Around(ctx, InOrder(t))
  {
    match ctx
    case Top =>
    case Under(up, s, c, v, o) =>
      PlugInOrder(up, Join(s, c, t, v, o));
      AroundUnder(ctx, t);
  }

  // ---- The red-black conditions ----

  ghost predicate IsRed(t: Tree) { t.Branch? && t.color == Red }

  /** Number of black nodes on the leftmost path. */
  ghost function BlackHeight(t: Tree): nat {
    match t
    case Leaf => 0
    case Branch(c, l, _, _) => BlackHeight(l) + Weight(c)
  }

  ghost function Weight(c: Color): nat { if c == Black then 1 else 0 }

  /** No red node has a red child, and both sides of every node are equally black. */
  ghost predicate Balanced(t: Tree) {
    t.Branch? ==>
      && Balanced(t.left) && Balanced(t.right)
      && BlackHeight(t.left) == BlackHeight(t.right)
      && (t.color == Red ==> !IsRed(t.left) && !IsRed(t.right))
  }

  ghost predicate RedBlack(t: Tree) { Balanced(t) && !IsRed(t) }

  /** Two balanced trees of equal black height under a node of colour `c`. */
  ghost predicate Siblings(c: Color, t: Tree, o: Tree) {
    && Balanced(t) && Balanced(o) && BlackHeight(t) == BlackHeight(o)
    && (c == Red ==> !IsRed(t) && !IsRed(o))
  }

  lemma JoinBalanced(s: Side, c: Color, t: Tree, v: RbNode, o: Tree)
    ensures Balanced(Join(s, c, t, v, o)) <==> Siblings(c, t, o)
    ensures Siblings(c, t, o) ==> BlackHeight(Join(s, c, t, v, o)) == BlackHeight(t) + Weight(c)
    ensures IsRed(Join(s, c, t, v, o)) <==> c == Red
  {
  }

  /** `ctx` is a red-black tree with a hole for a balanced tree of black height `h`
      whose root may be red only if `red`. */
  ghost predicate Fits(ctx: Context, h: nat, red: bool) {
    match ctx
    case Top => !red
    case Under(up, _, c, _, o) =>
      && Balanced(o) && BlackHeight(o) == h
      && (c == Red ==> !red && !IsRed(o))
      && Fits(up, h + Weight(c), c == Red)
  }

  lemma {:induction false} FitsPlug(ctx: Context, t: Tree)
    ensures RedBlack(Plug(ctx, t)) <==> Balanced(t) && Fits(ctx, BlackHeight(t), IsRed(t))
  {
    match ctx
    case Top =>
    case Under(up, s, c, v, o) =>
      JoinBalanced(s, c, t, v, o);
      FitsPlug(up, Join(s, c, t, v, o));
  }

  // ---- The fix-up after an insertion (src/common/rbtree.c:40-109) ----

  /** The red `t` in focus; only the edge from `t` to its parent may join two reds. */
  ghost predicate RedFocus(ctx: Context, t: Tree) {
    IsRed(t) && Balanced(t) && Fits(ctx, BlackHeight(t), false)
  }

  /** A red parent has a grandparent, and it is black. */
  lemma RedParent(ctx: Context, t: Tree)
    requires RedFocus(ctx, t) && ctx.Under? && ctx.color == Red
    ensures ctx.up.Under? && ctx.up.color == Black
    ensures Balanced(ctx.other) && BlackHeight(ctx.other) == BlackHeight(t) && !IsRed(ctx.other)
    ensures Balanced(ctx.up.other) && BlackHeight(ctx.up.other) == BlackHeight(t)
    ensures Fits(ctx.up.up, BlackHeight(t) + 1, false)
  {
    assert Fits(ctx.up, BlackHeight(t), true);
  }

  /** Case 1, the uncle is red: parent and uncle turn black, the grandparent red. */
  ghost function Recolored(ctx: Context, t: Tree): Tree
    requires ctx.Under? && ctx.up.Under? && ctx.up.other.Branch?
  {
    Join(ctx.up.side, Red, Join(ctx.side, Black, t, ctx.self, ctx.other), ctx.up.self, ctx.up.other.(color := Black))
  }

  /** Cases 2 and 3: the rotation around the grandparent. */
  ghost function Rotated(ctx: Context, t: Tree): Tree
    requires ctx.Under? && ctx.up.Under? && t.Branch?
  {
    var g := ctx.up;
    if ctx.side == g.side then
      Join(g.side, Black, t, ctx.self, Join(g.side, Red, ctx.other, g.self, g.other))
    else
      Join(g.side, Black,
           Join(g.side, Red, ctx.other, ctx.self, Near(g.side, t)),
           t.self,
           Join(g.side, Red, Far(g.side, t), g.self, g.other))
  }

  ghost function InsertFix(ctx: Context, t: Tree): Tree
    requires RedFocus(ctx, t)
    decreases ctx
  {
    if ctx.Top? then t.(color := Black)
    else if ctx.color == Black then Plug(ctx, t)
    else
      RedParent(ctx, t);
      if IsRed(ctx.up.other) then
        RecoloredFocus(ctx, t);
        InsertFix(ctx.up.up, Recolored(ctx, t))
      else
        Plug(ctx.up.up, Rotated(ctx, t))
  }

  lemma RecoloredFocus(ctx: Context, t: Tree)
    requires RedFocus(ctx, t) && ctx.Under? && ctx.color == Red && ctx.up.Under? && IsRed(ctx.up.other)
    ensures RedFocus(ctx.up.up, Recolored(ctx, t))
  {
    RedParent(ctx, t);
    var g := ctx.up;
    var p := Join(ctx.side, Black, t, ctx.self, ctx.other);
    JoinBalanced(ctx.side, Black, t, ctx.self, ctx.other);
    var u := g.other.(color := Black);
    assert Balanced(u) && BlackHeight(u) == BlackHeight(g.other) + 1;
    JoinBalanced(g.side, Red, p, g.self, u);
  }

  lemma RecoloredInOrder(ctx: Context, t: Tree)
    requires ctx.Under? && ctx.up.Under? && ctx.up.other.Branch?
    ensures Around(ctx.up.up, InOrder(Recolored(ctx, t))) == Around(ctx, InOrder(t))
  {
    var g := ctx.up;
    AroundUnder(ctx, t);
    AroundUnder(g, Join(ctx.side, ctx.color, t, ctx.self, ctx.other));
    JoinInOrder(ctx.side, Black, ctx.color, t, ctx.self, ctx.other);
    var u := g.other.(color := Black);
    assert InOrder(u) == InOrder(g.other);
  }

  lemma JoinInOrder(s: Side, c: Color, d: Color, t: Tree, v: RbNode, o: Tree)
    ensures InOrder(Join(s, c, t, v, o)) == InOrder(Join(s, d, t, v, o))
    ensures InOrder(Join(s, c, t, v, o)) == if s == L then InOrder(t) + [v] + InOrder(o) else InOrder(o) + [v] + InOrder(t)
  {
  }

  lemma RotatedBalanced(ctx: Context, t: Tree)
    requires RedFocus(ctx, t) && ctx.Under? && ctx.color == Red
    requires ctx.up.Under? && !IsRed(ctx.up.other)
    ensures Balanced(Rotated(ctx, t)) && !IsRed(Rotated(ctx, t))
    ensures Fits(ctx.up.up, BlackHeight(Rotated(ctx, t)), false)
  {
    RedParent(ctx, t);
    var g := ctx.up;
    if ctx.side == g.side {
      JoinBalanced(g.side, Red, ctx.other, g.self, g.other);
      JoinBalanced(g.side, Black, t, ctx.self, Join(g.side, Red, ctx.other, g.self, g.other));
    } else {
      var near, far := Near(g.side, t), Far(g.side, t);
      JoinBalanced(g.side, Red, ctx.other, ctx.self, near);
      JoinBalanced(g.side, Red, far, g.self, g.other);
      JoinBalanced(g.side, Black, Join(g.side, Red, ctx.other, ctx.self, near), t.self, Join(g.side, Red, far, g.self, g.other));
    }
  }

  lemma RotatedInOrder(ctx: Context, t: Tree)
    requires ctx.Under? && ctx.up.Under? && t.Branch?
    ensures Around(ctx.up.up, InOrder(Rotated(ctx, t))) == Around(ctx, InOrder(t))
  {
    var g := ctx.up;
    var p := Join(ctx.side, ctx.color, t, ctx.self, ctx.other);
    AroundUnder(ctx, t);
    AroundUnder(g, p);
    assert InOrder(Rotated(ctx, t)) == InOrder(Join(g.side, g.color, p, g.self, g.other)) by {
      if ctx.side == g.side {
        Rotation(g.side, Black, Red, g.color, ctx.color, t, ctx.self, ctx.other, g.self, g.other);
      } else {
        DoubleRotation(g.side, Black, Red, g.color, ctx.color, ctx.other, ctx.self, t, g.self, g.other);
      }
    }
  }

  /** A single rotation keeps the order, whatever the colours. */
  lemma Rotation(s: Side, c1: Color, c2: Color, d1: Color, d2: Color, a: Tree, p: RbNode, b: Tree, g: RbNode, c: Tree)
    ensures InOrder(Join(s, c1, a, p, Join(s, c2, b, g, c))) == InOrder(Join(s, d1, Join(s, d2, a, p, b), g, c))
  {
    var A, B, C := InOrder(a), InOrder(b), InOrder(c);
    JoinInOrder(s, c2, c2, b, g, c);
    JoinInOrder(s, d2, d2, a, p, b);
    JoinInOrder(s, c1, c1, a, p, Join(s, c2, b, g, c));
    JoinInOrder(s, d1, d1, Join(s, d2, a, p, b), g, c);
    if s == L {
      Assoc([], A + [p], B, [g], C);
      assert A + [p] + (B + [g] + C) == (A + [p] + B) + [g] + C;
    } else {
      assert (C + [g] + B) + [p] + A == C + [g] + (B + [p] + A);
    }
  }

  ghost function Opp(s: Side): Side { if s == L then R else L }

  /** A double rotation keeps the order, whatever the colours. */
  lemma DoubleRotation(s: Side, c1: Color, c2: Color, d1: Color, d2: Color, a: Tree, p: RbNode, t: Tree, g: RbNode, c: Tree)
    requires t.Branch?
    ensures InOrder(Join(s, c1, Join(s, c2, a, p, Near(s, t)), t.self, Join(s, c2, Far(s, t), g, c)))
         == InOrder(Join(s, d1, Join(Opp(s), d2, t, p, a), g, c))
  {
    var near, far := Near(s, t), Far(s, t);
    assert t == Join(s, t.color, near, t.self, far);
    assert Join(Opp(s), d2, t, p, a) == Join(s, d2, a, p, t);
    Rotation(s, d2, t.color, d2, d2, a, p, near, t.self, far);
    Rotation(s, c1, c2, d1, d2, Join(s, d2, a, p, near), t.self, far, g, c);
    JoinInOrder(s, c2, d2, a, p, near);
    JoinInOrder(s, c1, c1, Join(s, c2, a, p, near), t.self, Join(s, c2, far, g, c));
    JoinInOrder(s, c1, c1, Join(s, d2, a, p, near), t.self, Join(s, c2, far, g, c));
    JoinInOrder(s, d1, d1, Join(s, d2, Join(s, d2, a, p, near), t.self, far), g, c);
    JoinInOrder(s, d1, d1, Join(s, d2, a, p, t), g, c);
  }

  lemma {:induction false} InsertFixCorrect(ctx: Context, t: Tree)
    requires RedFocus(ctx, t)
    ensures RedBlack(InsertFix(ctx, t))
    ensures InOrder(InsertFix(ctx, t)) == Around(ctx, InOrder(t))
    decreases ctx
  {
    if ctx.Top? {
    } else if ctx.color == Black {
      FitsPlug(ctx, t);
      PlugInOrder(ctx, t);
    } else {
      RedParent(ctx, t);
      if IsRed(ctx.up.other) {
        RecoloredFocus(ctx, t);
        InsertFixCorrect(ctx.up.up, Recolored(ctx, t));
        RecoloredInOrder(ctx, t);
      } else {
        RotatedBalanced(ctx, t);
        RotatedInOrder(ctx, t);
        FitsPlug(ctx.up.up, Rotated(ctx, t));
        PlugInOrder(ctx.up.up, Rotated(ctx, t));
      }
    }
  }

  // ---- The fix-up after a removal (src/common/rbtree.c:161-246) ----

  /** The black `t` in focus is one black node short; all else is red-black. */
  ghost predicate ShortFocus(ctx: Context, t: Tree) {
    Balanced(t) && !IsRed(t) && Fits(ctx, BlackHeight(t) + 1, false)
  }

  /** Case 1: a red sibling is rotated over the parent, which turns red; its near
      child, which is black, becomes the sibling. */
  ghost function Uncovered(ctx: Context): Context
    requires ctx.Under?
  {
    if IsRed(ctx.other) then
      Under(Under(ctx.up, ctx.side, Black, ctx.other.self, Far(ctx.side, ctx.other)),
            ctx.side, Red, ctx.self, Near(ctx.side, ctx.other))
    else ctx
  }

  /** Case 2: both nephews are black, so the sibling can turn red. */
  ghost function Lightened(ctx: Context, t: Tree): Tree
    requires ctx.Under? && ctx.other.Branch?
  {
    Join(ctx.side, Black, t, ctx.self, ctx.other.(color := Red))
  }

  /** Cases 3 and 4: a red nephew is rotated into the short side. */
  ghost function Lent(ctx: Context, t: Tree): Tree
    requires ctx.Under? && ctx.other.Branch?
    requires IsRed(Near(ctx.side, ctx.other)) || IsRed(Far(ctx.side, ctx.other))
  {
    var s, o := ctx.side, ctx.other;
    var near, far := Near(s, o), Far(s, o);
    if IsRed(far) then
      Join(s, ctx.color, Join(s, Black, t, ctx.self, near), o.self, far.(color := Black))
    else
      Join(s, ctx.color, Join(s, Black, t, ctx.self, Near(s, near)), near.self, Join(s, Black, Far(s, near), o.self, far))
  }

  ghost predicate BlackNephews(ctx: Context)
    requires ctx.Under? && ctx.other.Branch?
  {
    !IsRed(Near(ctx.side, ctx.other)) && !IsRed(Far(ctx.side, ctx.other))
  }

  ghost function EraseFix(ctx: Context, t: Tree): Tree
    requires ShortFocus(ctx, t)
    decreases ctx
  {
    if ctx.Top? then t
    else
      UncoveredFocus(ctx, t);
      var k := Uncovered(ctx);
      if BlackNephews(k) && k.color == Black then
        LightenedFocus(k, t);
        EraseFix(ctx.up, Lightened(k, t))
      else if BlackNephews(k) then Plug(k.up, Lightened(k, t))
      else Plug(k.up, Lent(k, t))
  }

  lemma UncoveredFocus(ctx: Context, t: Tree)
    requires ShortFocus(ctx, t) && ctx.Under?
    ensures ctx.other.Branch?
    ensures var k := Uncovered(ctx);
      && k.Under? && k.self == ctx.self && k.side == ctx.side
      && ShortFocus(k, t)
      && k.other.Branch? && k.other.color == Black
      && (k.color == Black ==> k == ctx)
  {
    var s, o, h := ctx.side, ctx.other, BlackHeight(t) + 1;
    assert Fits(ctx.up, h + Weight(ctx.color), ctx.color == Red);
    if IsRed(o) {
      assert o == Join(s, Red, Near(s, o), o.self, Far(s, o));
      JoinBalanced(s, Red, Near(s, o), o.self, Far(s, o));
      assert Fits(Under(ctx.up, s, Black, o.self, Far(s, o)), h, true);
    }
  }

  /** What a black sibling with its short counterpart guarantees. */
  lemma BlackSibling(ctx: Context, t: Tree)
    requires ShortFocus(ctx, t) && ctx.Under? && ctx.other.Branch? && ctx.other.color == Black
    ensures var s, o := ctx.side, ctx.other;
      && o == Join(s, Black, Near(s, o), o.self, Far(s, o))
      && Siblings(Black, Near(s, o), Far(s, o))
      && BlackHeight(Near(s, o)) == BlackHeight(t)
    ensures Fits(ctx.up, BlackHeight(t) + 1 + Weight(ctx.color), ctx.color == Red)
  {
    var s, o := ctx.side, ctx.other;
    JoinBalanced(s, Black, Near(s, o), o.self, Far(s, o));
  }

  lemma LightenedFocus(ctx: Context, t: Tree)
    requires ShortFocus(ctx, t) && ctx.Under? && ctx.other.Branch? && ctx.other.color == Black
    requires BlackNephews(ctx)
    ensures Balanced(Lightened(ctx, t)) && !IsRed(Lightened(ctx, t))
    ensures BlackHeight(Lightened(ctx, t)) == BlackHeight(t) + 1
    ensures ctx.color == Black ==> ShortFocus(ctx.up, Lightened(ctx, t))
    ensures ctx.color == Red ==> Fits(ctx.up, BlackHeight(Lightened(ctx, t)), false)
  {
    var s, o := ctx.side, ctx.other;
    BlackSibling(ctx, t);
    JoinBalanced(s, Red, Near(s, o), o.self, Far(s, o));
    assert o.(color := Red) == Join(s, Red, Near(s, o), o.self, Far(s, o));
    JoinBalanced(s, Black, t, ctx.self, o.(color := Red));
    FitsBlack(ctx.up, BlackHeight(t) + 1 + Weight(ctx.color), ctx.color == Red);
  }

  lemma FitsBlack(ctx: Context, h: nat, red: bool)
    requires Fits(ctx, h, red)
    ensures Fits(ctx, h, false)
  {
  }

  lemma LentBalanced(ctx: Context, t: Tree)
    requires ShortFocus(ctx, t) && ctx.Under? && ctx.other.Branch? && ctx.other.color == Black
    requires !BlackNephews(ctx)
    ensures Balanced(Lent(ctx, t))
    ensures Fits(ctx.up, BlackHeight(Lent(ctx, t)), IsRed(Lent(ctx, t)))
  {
    var s, o := ctx.side, ctx.other;
    var near, far := Near(s, o), Far(s, o);
    BlackSibling(ctx, t);
    if IsRed(far) {
      var a, b := Join(s, Black, t, ctx.self, near), far.(color := Black);
      JoinBalanced(s, Black, t, ctx.self, near);
      BlackenedBalanced(far);
      JoinBalanced(s, ctx.color, a, o.self, b);
    } else {
      var a, b := Join(s, Black, t, ctx.self, Near(s, near)), Join(s, Black, Far(s, near), o.self, far);
      assert near == Join(s, Red, Near(s, near), near.self, Far(s, near));
      JoinBalanced(s, Red, Near(s, near), near.self, Far(s, near));
      JoinBalanced(s, Black, t, ctx.self, Near(s, near));
      JoinBalanced(s, Black, Far(s, near), o.self, far);
      JoinBalanced(s, ctx.color, a, near.self, b);
    }
  }

  lemma BlackenedBalanced(t: Tree)
    requires Balanced(t) && IsRed(t)
    ensures Balanced(t.(color := Black)) && BlackHeight(t.(color := Black)) == BlackHeight(t) + 1
  {
  }

  lemma UncoveredInOrder(ctx: Context, t: Tree)
    requires ctx.Under?
    ensures Around(Uncovered(ctx), InOrder(t)) == Around(ctx, InOrder(t))
  {
    if IsRed(ctx.other) {
      var s, o, k := ctx.side, ctx.other, Uncovered(ctx);
      var near, far := Near(s, o), Far(s, o);
      AroundUnder(k, t);
      AroundUnder(k.up, Join(s, Red, t, ctx.self, near));
      AroundUnder(ctx, t);
      Rotation(s, ctx.color, Red, Black, Red, t, ctx.self, near, o.self, far);
    }
  }

  lemma LightenedInOrder(ctx: Context, t: Tree)
    requires ctx.Under? && ctx.other.Branch?
    ensures Around(ctx.up, InOrder(Lightened(ctx, t))) == Around(ctx, InOrder(t))
  {
    var o := ctx.other.(color := Red);
    AroundUnder(ctx, t);
    assert InOrder(o) == InOrder(ctx.other);
    JoinInOrder(ctx.side, Black, Black, t, ctx.self, o);
    JoinInOrder(ctx.side, ctx.color, ctx.color, t, ctx.self, ctx.other);
  }

  lemma LentInOrder(ctx: Context, t: Tree)
    requires ctx.Under? && ctx.other.Branch? && !BlackNephews(ctx)
    ensures Around(ctx.up, InOrder(Lent(ctx, t))) == Around(ctx, InOrder(t))
  {
    var s, o := ctx.side, ctx.other;
    var near, far := Near(s, o), Far(s, o);
    AroundUnder(ctx, t);
    JoinParts(s, o);
    if IsRed(far) {
      var b := far.(color := Black);
      assert InOrder(b) == InOrder(far);
      JoinInOrder(s, ctx.color, ctx.color, Join(s, Black, t, ctx.self, near), o.self, b);
      JoinInOrder(s, ctx.color, ctx.color, Join(s, Black, t, ctx.self, near), o.self, far);
      Rotation(s, ctx.color, o.color, ctx.color, Black, t, ctx.self, near, o.self, far);
    } else {
      JoinParts(s, near);
      InnerRotation(s, ctx.color, Black, t, ctx.self, near, o, far);
    }
  }

  lemma JoinParts(s: Side, t: Tree)
    requires t.Branch?
    ensures t == Join(s, t.color, Near(s, t), t.self, Far(s, t))
  {
  }

  lemma InnerRotation(s: Side, c: Color, d: Color, t: Tree, p: RbNode, near: Tree, o: Tree, far: Tree)
    requires o.Branch? && near.Branch? && o == Join(s, o.color, near, o.self, far)
    ensures InOrder(Join(s, c, Join(s, d, t, p, Near(s, near)), near.self, Join(s, d, Far(s, near), o.self, far)))
         == InOrder(Join(s, c, t, p, o))
  {
    var n1, n2 := Near(s, near), Far(s, near);
    JoinParts(s, near);
    var o' := Join(s, d, n1, near.self, Join(s, d, n2, o.self, far));
    Rotation(s, d, d, o.color, near.color, n1, near.self, n2, o.self, far);
    assert InOrder(o') == InOrder(o);
    JoinInOrder(s, c, c, t, p, o');
    JoinInOrder(s, c, c, t, p, o);
    Rotation(s, c, d, c, d, t, p, n1, near.self, Join(s, d, n2, o.self, far));
  }

  lemma {:induction false} EraseFixCorrect(ctx: Context, t: Tree)
    requires ShortFocus(ctx, t)
    ensures RedBlack(EraseFix(ctx, t))
    ensures InOrder(EraseFix(ctx, t)) == Around(ctx, InOrder(t))
    decreases ctx
  {
    if ctx.Top? {
    } else {
      UncoveredFocus(ctx, t);
      UncoveredInOrder(ctx, t);
      var k := Uncovered(ctx);
      if BlackNephews(k) {
        LightenedFocus(k, t);
        LightenedInOrder(k, t);
        if k.color == Black {
          EraseFixCorrect(ctx.up, Lightened(k, t));
        } else {
          FitsPlug(k.up, Lightened(k, t));
          PlugInOrder(k.up, Lightened(k, t));
        }
      } else {
        LentBalanced(k, t);
        LentInOrder(k, t);
        FitsPlug(k.up, Lent(k, t));
        PlugInOrder(k.up, Lent(k, t));
      }
    }
  }

  // ---- Taking a node out (src/common/rbtree.c:110-160) ----

  /** The descent to the leftmost node of `t`, starting below `acc`. */
  ghost function MinFocus(acc: Context, t: Tree): (r: (Context, Tree))
    requires t.Branch?
    ensures r.1.Branch? && r.1.left == Leaf
    ensures Plug(r.0, r.1) == Plug(acc, t)
    ensures Before(r.0) == Before(acc)
    decreases t
  {
    if t.left.Leaf? then (acc, t) else MinFocus(Under(acc, L, t.color, t.self, t.right), t.left)
  }

  /** Where the hole is once the successor `m` (found below `inner`) has taken the
      place of the root of `t`. */
  ghost function Moved(ctx: Context, t: Tree, inner: Context, m: RbNode): Context
    requires t.Branch?
  {
    Compose(inner, Under(ctx, R, t.color, m, t.left))
  }

  ghost function Erased(ctx: Context, t: Tree): Tree
    requires t.Branch? && RedBlack(Plug(ctx, t))
  {
    if t.left.Leaf? then
      if t.right.Branch? then Plug(ctx, t.right.(color := t.color))
      else Closed(ctx, t.color, Leaf)
    else if t.right.Leaf? then Plug(ctx, t.left.(color := t.color))
    else
      var (inner, m) := MinFocus(Top, t.right);
      Closed(Moved(ctx, t, inner, m.self), m.color, m.right)
  }

  /** The hole left by a node of colour `c` that had at most the child `o`. */
  ghost function Closed(ctx: Context, c: Color, o: Tree): Tree {
    if o.Branch? then Plug(ctx, o.(color := Black))
    else if c == Black && ShortFocus(ctx, Leaf) then EraseFix(ctx, Leaf)
    else Plug(ctx, Leaf)
  }

  lemma ClosedCorrect(ctx: Context, c: Color, v: RbNode, o: Tree)
    requires RedBlack(Plug(ctx, Branch(c, Leaf, v, o)))
    ensures RedBlack(Closed(ctx, c, o))
    ensures InOrder(Closed(ctx, c, o)) == Around(ctx, InOrder(o))
    ensures o.Leaf? && c == Black ==> ShortFocus(ctx, Leaf)
    ensures o.Branch? ==> c == Black && o.color == Red
  {
    var t := Branch(c, Leaf, v, o);
    FitsPlug(ctx, t);
    OnlyChild(t);
    if o.Branch? {
      FitsPlug(ctx, o.(color := Black));
      PlugInOrder(ctx, o.(color := Black));
      assert InOrder(o.(color := Black)) == InOrder(o);
    } else if c == Black {
      EraseFixCorrect(ctx, Leaf);
    } else {
      FitsBlack(ctx, 0, true);
      FitsPlug(ctx, Leaf);
      PlugInOrder(ctx, Leaf);
    }
  }

  /** In a balanced tree an only child is red and has no children. */
  lemma OnlyChild(t: Tree)
    requires Balanced(t) && t.Branch? && (t.left.Leaf? || t.right.Leaf?)
    ensures t.left.Branch? ==> t.color == Black && IsRed(t.left) && t.left.left.Leaf? && t.left.right.Leaf?
    ensures t.right.Branch? ==> t.color == Black && IsRed(t.right) && t.right.left.Leaf? && t.right.right.Leaf?
    ensures BlackHeight(t) == Weight(t.color)
  {
  }

  lemma {:induction false} FitsIgnoresSelf(inner: Context, up: Context, s: Side, c: Color, v: RbNode, w: RbNode, o: Tree, h: nat, red: bool)
    ensures Fits(Compose(inner, Under(up, s, c, v, o)), h, red) == Fits(Compose(inner, Under(up, s, c, w, o)), h, red)
  {
    match inner
    case Top =>
    case Under(i, _, d, _, _) => FitsIgnoresSelf(i, up, s, c, v, w, o, h + Weight(d), d == Red);
  }

  /** Renaming one node on the path does not disturb the red-black conditions. */
  lemma MovedFits(ctx: Context, t: Tree, inner: Context, m: Tree)
    requires t.Branch? && RedBlack(Plug(ctx, t)) && Plug(inner, m) == t.right && m.Branch?
    ensures RedBlack(Plug(Moved(ctx, t, inner, m.self), m))
  {
    var was := Under(ctx, R, t.color, t.self, t.left);
    ComposePlug(inner, was, m);
    assert Plug(was, t.right) == Plug(ctx, t);
    FitsPlug(Compose(inner, was), m);
    FitsIgnoresSelf(inner, ctx, R, t.color, t.self, m.self, t.left, BlackHeight(m), IsRed(m));
    FitsPlug(Moved(ctx, t, inner, m.self), m);
  }

  lemma {:induction false} ComposeLists(inner: Context, outer: Context)
    ensures Before(Compose(inner, outer)) == Before(outer) + Before(inner)
    ensures After(Compose(inner, outer)) == After(inner) + After(outer)
  {
    match inner
    case Top =>
    case Under(up, s, _, v, o) =>
      ComposeLists(up, outer);
      if s == L {
        assert [v] + InOrder(o) + (After(up) + After(outer)) == [v] + InOrder(o) + After(up) + After(outer);
      } else {
        assert Before(outer) + Before(up) + InOrder(o) + [v] == Before(outer) + (Before(up) + InOrder(o) + [v]);
      }
  }

  lemma MovedLists(ctx: Context, t: Tree, inner: Context, m: Tree)
    requires t.Branch? && Plug(inner, m) == t.right && m.Branch? && m.left == Leaf && Before(inner) == []
    ensures Around(Moved(ctx, t, inner, m.self), InOrder(m.right)) == Around(ctx, InOrder(t.left) + InOrder(t.right))
  {
    PlugInOrder(inner, m);
    ComposeLists(inner, Under(ctx, R, t.color, m.self, t.left));
    Regroup(Before(ctx), InOrder(t.left), m.self, InOrder(m.right), After(inner), After(ctx));
  }

  lemma Regroup<T>(a: seq<T>, l: seq<T>, m: T, r: seq<T>, b: seq<T>, c: seq<T>)
    ensures (a + l + [m] + []) + r + (b + c) == a + (l + ([] + ([] + [m] + r) + b)) + c
  {
  }

  /** Removal keeps the tree red-black and drops exactly the node in focus. */
  lemma ErasedCorrect(ctx: Context, t: Tree)
    requires t.Branch? && RedBlack(Plug(ctx, t))
    ensures RedBlack(Erased(ctx, t))
    ensures InOrder(Erased(ctx, t)) == Around(ctx, InOrder(t.left) + InOrder(t.right))
  {
    FitsPlug(ctx, t);
    var l, r := t.left, t.right;
    if l.Leaf? {
      assert InOrder(l) + InOrder(r) == InOrder(r);
      if r.Branch? {
        OnlyChild(t);
        ReplaceByChild(ctx, t, r);
      } else {
        ClosedCorrect(ctx, t.color, t.self, r);
      }
    } else if r.Leaf? {
      assert InOrder(l) + InOrder(r) == InOrder(l);
      OnlyChild(t);
      ReplaceByChild(ctx, t, l);
    } else {
      var (inner, m) := MinFocus(Top, r);
      MovedFits(ctx, t, inner, m);
      ClosedCorrect(Moved(ctx, t, inner, m.self), m.color, m.self, m.right);
      MovedLists(ctx, t, inner, m);
    }
  }

  lemma ReplaceByChild(ctx: Context, t: Tree, o: Tree)
    requires t.Branch? && t.color == Black && BlackHeight(t) == 1 && Fits(ctx, 1, false)
    requires Balanced(o) && IsRed(o) && o.left.Leaf? && o.right.Leaf?
    ensures RedBlack(Plug(ctx, o.(color := t.color)))
    ensures InOrder(Plug(ctx, o.(color := t.color))) == Around(ctx, InOrder(o))
  {
    FitsPlug(ctx, o.(color := Black));
    PlugInOrder(ctx, o.(color := Black));
    assert InOrder(o.(color := Black)) == InOrder(o);
  }

  // ---- Sorted node lists ----

  ghost predicate Sorted(s: seq<RbNode>) {
    forall i, j | 0 <= i < j < |s| :: s[i].key < s[j].key
  }

  /** `s` with `n` put in at its place. */
  ghost function With(s: seq<RbNode>, n: RbNode): seq<RbNode> {
    if s == [] then [n]
    else if n.key < s[0].key then [n] + s
    else [s[0]] + With(s[1..], n)
  }

  /** `s` with the first `n` taken out. */
  ghost function Without(s: seq<RbNode>, n: RbNode): seq<RbNode> {
    if s == [] then []
    else if s[0] == n then s[1..]
    else [s[0]] + Without(s[1..], n)
  }

  lemma {:induction false} WithMiddle(a: seq<RbNode>, n: RbNode, b: seq<RbNode>)
    requires forall x <- a :: x.key < n.key
    requires forall x <- b :: n.key < x.key
    ensures With(a + b, n) == a + [n] + b
  {
    if a == [] {
      assert a + b == b;
      assert b != [] ==> b[0] in b;
    } else {
      assert (a + b)[1..] == a[1..] + b;
      WithMiddle(a[1..], n, b);
      assert a + [n] + b == [a[0]] + (a[1..] + [n] + b);
    }
  }

  lemma {:induction false} WithoutMiddle(a: seq<RbNode>, n: RbNode, b: seq<RbNode>)
    requires n !in a
    ensures Without(a + [n] + b, n) == a + b
  {
    var s := a + [n] + b;
    if a == [] {
      assert s[1..] == b;
    } else {
      assert s[1..] == a[1..] + [n] + b;
      WithoutMiddle(a[1..], n, b);
      assert a + b == [a[0]] + (a[1..] + b);
    }
  }

  // ---- Depth ----

  ghost function Height(t: Tree): nat {
    match t
    case Leaf => 0
    case Branch(_, l, _, r) => 1 + (if Height(l) < Height(r) then Height(r) else Height(l))
  }

  lemma {:induction false} Pow2Sum(a: nat, b: nat)
    ensures Pow2(a + b) == Pow2(a) * Pow2(b)
  {
    if a > 0 { Pow2Sum(a - 1, b); }
  }

  lemma {:induction false} Pow2Monotone(a: nat, b: nat)
    requires a <= b
    ensures Pow2(a) <= Pow2(b)
  {
    if a < b { Pow2Monotone(a, b - 1); }
  }

  lemma {:induction false} BalancedBounds(t: Tree)
    requires Balanced(t)
    ensures Height(t) <= 2 * BlackHeight(t) + (if IsRed(t) then 1 else 0)
    ensures Pow2(BlackHeight(t)) <= |InOrder(t)| + 1
  {
    if t.Branch? {
      BalancedBounds(t.left);
      BalancedBounds(t.right);
    }
  }

  /** A red-black tree of n nodes is at most 2*log2(n+1) deep. */
  lemma HeightBound(t: Tree)
    requires RedBlack(t)
    ensures Pow2(Height(t)) <= (|InOrder(t)| + 1) * (|InOrder(t)| + 1)
  {
    var b, n := BlackHeight(t), |InOrder(t)| + 1;
    BalancedBounds(t);
    Pow2Monotone(Height(t), b + b);
    Pow2Sum(b, b);
    SquareMonotone(Pow2(b), n);
  }

  lemma SquareMonotone(a: nat, b: nat)
    requires a <= b
    ensures a * a <= b * b
  {
    assert a * a <= a * b <= b * b;
  }
}
