/** The pointer code of src/common/rbtree.c, on nodes with parent links.

Every pointer write is mirrored in a ghost `Store`, so a method's effect on memory is
a value; `RedBlackHeap` says which tree that value holds, and `RedBlackSpec` what is
true of the tree. */
module RedBlackTree {
  import opened RedBlackSpec
  import opened RedBlackHeap
  import opened RedBlackMove

  class RbRoot {
    var node: RbNode?
    ghost var store: Store
    ghost var tree: Tree

    /** The fields of the nodes are those the store records. */
    ghost predicate Mirrored()
      reads this, store.cells.Keys
    {
      && node == store.top
      && forall n <- store.cells.Keys :: store.cells[n] == Cell(n.color, n.parent, n.left, n.right)
    }

    /** Memory holds `tree`, which is red-black and sorted by key. */
    ghost predicate Valid()
      reads this, store.cells.Keys
    {
      && Mirrored() && Holds(store, tree) && store.cells.Keys == Nodes(tree)
      && RedBlack(tree) && Sorted(InOrder(tree))
    }

    constructor ()
      ensures Valid() && InOrder(tree) == []
    {
      node := null;
      tree := Leaf;
      store := Store(null, map[]);
    }

    // ---- Single writes ----

    method SetParentColor(n: RbNode, p: RbNode?, c: Color)
      requires Mirrored() && n in store.cells
      modifies `store, n`parent, n`color
      ensures Mirrored() && store == old(store).Paint(n, p, c)
      ensures store.cells.Keys == old(store.cells.Keys)
    {
      n.parent := p;
      n.color := c;
      store := store.Paint(n, p, c);
    }

    method SetLeft(n: RbNode, child: RbNode?)
      requires Mirrored() && n in store.cells
      modifies `store, n`left
      ensures Mirrored() && store == old(store).Link(n, L, child)
      ensures store.cells.Keys == old(store.cells.Keys)
    {
      n.left := child;
      store := store.Link(n, L, child);
    }

    method SetRight(n: RbNode, child: RbNode?)
      requires Mirrored() && n in store.cells
      modifies `store, n`right
      ensures Mirrored() && store == old(store).Link(n, R, child)
      ensures store.cells.Keys == old(store.cells.Keys)
    {
      n.right := child;
      store := store.Link(n, R, child);
    }

    /** __rb_change_child */
    method ChangeChild(from: RbNode, to: RbNode?, parent: RbNode?, ghost side: Side)
      requires Mirrored() && store.Has(parent)
      requires parent != null ==> (side == L <==> store.cells[parent].left == from)
      modifies this`store, this`node, One(parent)`left, One(parent)`right
      ensures Mirrored() && store == old(store).Link(parent, side, to)
      ensures store.cells.Keys == old(store.cells.Keys)
    {
      if parent != null {
        if parent.left == from {
          SetLeft(parent, to);
        } else {
          SetRight(parent, to);
        }
      } else {
        node := to;
        store := store.Link(null, side, to);
      }
    }

    /** __rb_rotate_set_parents */
    method RotateSetParents(from: RbNode, to: RbNode, c: Color, ghost side: Side)
      requires Mirrored() && from in store.cells && to in store.cells && from != to
      requires var p := store.cells[from].parent;
        store.Has(p) && p != from && p != to && (p != null ==> (side == L <==> store.cells[p].left == from))
      modifies this`store, this`node, store.cells.Keys
      ensures Mirrored() && store == SwapStore(old(store), side, to, from, c)
      ensures store.cells.Keys == old(store.cells.Keys)
    {
      var parent := from.parent;
      SetParentColor(to, parent, from.color);
      SetParentColor(from, to, c);
      ChangeChild(from, to, parent, side);
    }

    // ---- Insertion fix-up ----

    /** Hangs `tmp`, the tree `b`, below `g` on the left and `g` below `q` on the right,
        then lets `q` take the place of `g`, which turns red. */
    method RotateRight(q: RbNode, g: RbNode, tmp: RbNode?, ghost up: Context, ghost a: Tree, ghost b: Tree, ghost u: Tree)
      requires Mirrored() && RotationApart(up, L, a, q, b, g, u) && tmp == RootOf(b) && !IsRed(b)
      requires TreeIn(store.cells, a, q) && TreeIn(store.cells, b, q) && TreeIn(store.cells, u, g)
      requires ContextIn(store, up, g)
      requires q in store.cells && Child(store.cells[q], L) == RootOf(a)
      requires g in store.cells && Child(store.cells[g], R) == RootOf(u) && store.cells[g].parent == ParentOf(up)
      modifies this`store, this`node, store.cells.Keys
      ensures Mirrored() && store.cells.Keys == old(store.cells.Keys)
      ensures ZipperIn(store, up, Join(L, old(store.cells[g].color), a, q, Join(L, Red, b, g, u)))
    {
      Hang(store, up, L, a, q, q, b, g, u, Black);
      HangApart(up, L, a, q, b, g, u);
      SetLeft(g, tmp);
      if tmp != null {
        SetParentColor(tmp, g, Black);
      }
      SetRight(q, g);
      assert store == HangStore(old(store), L, q, tmp, g, Black);
      Swap(store, up, L, a, q, b, g, u, Red);
      FocusSide(store, up, g);
      RotateSetParents(g, q, Red, SideOf(up));
    }

    /** Hangs `tmp`, the tree `b`, below `g` on the right and `g` below `q` on the left,
        then lets `q` take the place of `g`, which turns red. */
    method RotateLeft(q: RbNode, g: RbNode, tmp: RbNode?, ghost up: Context, ghost a: Tree, ghost b: Tree, ghost u: Tree)
      requires Mirrored() && RotationApart(up, R, a, q, b, g, u) && tmp == RootOf(b) && !IsRed(b)
      requires TreeIn(store.cells, a, q) && TreeIn(store.cells, b, q) && TreeIn(store.cells, u, g)
      requires ContextIn(store, up, g)
      requires q in store.cells && Child(store.cells[q], R) == RootOf(a)
      requires g in store.cells && Child(store.cells[g], L) == RootOf(u) && store.cells[g].parent == ParentOf(up)
      modifies this`store, this`node, store.cells.Keys
      ensures Mirrored() && store.cells.Keys == old(store.cells.Keys)
      ensures ZipperIn(store, up, Join(R, old(store.cells[g].color), a, q, Join(R, Red, b, g, u)))
    {
      Hang(store, up, R, a, q, q, b, g, u, Black);
      HangApart(up, R, a, q, b, g, u);
      SetRight(g, tmp);
      if tmp != null {
        SetParentColor(tmp, g, Black);
      }
      SetLeft(q, g);
      assert store == HangStore(old(store), R, q, tmp, g, Black);
      Swap(store, up, R, a, q, b, g, u, Red);
      FocusSide(store, up, g);
      RotateSetParents(g, q, Red, SideOf(up));
    }

    /** Case 2 with the parent on the left: `start` takes `parent` as its left child. */
    method TurnLeft(start: RbNode, parent: RbNode)
      requires Mirrored() && start in store.cells && parent in store.cells && start != parent
      requires var near := Child(store.cells[start], L); store.Has(near) && near != parent && near != start
      modifies this`store, store.cells.Keys
      ensures Mirrored() && store.cells.Keys == old(store.cells.Keys)
      ensures store == TurnStore(old(store), L, start, parent, old(start.left))
    {
      var tmp := start.left;
      SetRight(parent, tmp);
      if tmp != null {
        SetParentColor(tmp, parent, Black);
      }
      SetLeft(start, parent);
      SetParentColor(parent, start, Red);
    }

    /** Case 2 with the parent on the right: `start` takes `parent` as its right child. */
    method TurnRight(start: RbNode, parent: RbNode)
      requires Mirrored() && start in store.cells && parent in store.cells && start != parent
      requires var near := Child(store.cells[start], R); store.Has(near) && near != parent && near != start
      modifies this`store, store.cells.Keys
      ensures Mirrored() && store.cells.Keys == old(store.cells.Keys)
      ensures store == TurnStore(old(store), R, start, parent, old(start.right))
    {
      var tmp := start.right;
      SetLeft(parent, tmp);
      if tmp != null {
        SetParentColor(tmp, parent, Black);
      }
      SetRight(start, parent);
      SetParentColor(parent, start, Red);
    }

    /** Cases 2 and 3 with the parent on the left of the grandparent. */
    method FixLeft(start: RbNode, parent: RbNode, gparent: RbNode, ghost ctx: Context, ghost t: Tree)
      requires Mirrored() && ZipperIn(store, ctx, t) && Apart(ctx, t)
      requires RedFocus(ctx, t) && ctx.Under? && ctx.color == Red
      requires ctx.up.Under? && !IsRed(ctx.up.other) && ctx.up.side == L
      requires start == t.self && parent == ctx.self && gparent == ctx.up.self
      modifies this`store, this`node, store.cells.Keys
      ensures Mirrored() && store.cells.Keys == old(store.cells.Keys)
      ensures ZipperIn(store, ctx.up.up, Rotated(ctx, t))
    {
      RedParent(ctx, t);
      var tmp := parent.right;
      FocusSide(store, ctx, start);
      if start == tmp {
        TurnedIn(store, ctx, t);
        TurnLeft(start, parent);
        tmp := start.right;
        RotateRight(start, gparent, tmp, ctx.up.up, Join(L, Red, ctx.other, parent, Near(L, t)), Far(L, t), ctx.up.other);
      } else {
        OuterApart(ctx, t);
        assert ContextIn(store, ctx.up, parent);
        RotateRight(parent, gparent, tmp, ctx.up.up, t, ctx.other, ctx.up.other);
      }
    }

    /** Cases 2 and 3 with the parent on the right of the grandparent. */
    method FixRight(start: RbNode, parent: RbNode, gparent: RbNode, ghost ctx: Context, ghost t: Tree)
      requires Mirrored() && ZipperIn(store, ctx, t) && Apart(ctx, t)
      requires RedFocus(ctx, t) && ctx.Under? && ctx.color == Red
      requires ctx.up.Under? && !IsRed(ctx.up.other) && ctx.up.side == R
      requires start == t.self && parent == ctx.self && gparent == ctx.up.self
      modifies this`store, this`node, store.cells.Keys
      ensures Mirrored() && store.cells.Keys == old(store.cells.Keys)
      ensures ZipperIn(store, ctx.up.up, Rotated(ctx, t))
    {
      RedParent(ctx, t);
      var tmp := parent.left;
      FocusSide(store, ctx, start);
      if start == tmp {
        TurnedIn(store, ctx, t);
        TurnRight(start, parent);
        tmp := start.left;
        RotateLeft(start, gparent, tmp, ctx.up.up, Join(R, Red, ctx.other, parent, Near(R, t)), Far(R, t), ctx.up.other);
      } else {
        OuterApart(ctx, t);
        assert ContextIn(store, ctx.up, parent);
        RotateLeft(parent, gparent, tmp, ctx.up.up, t, ctx.other, ctx.up.other);
      }
    }

    /** Case 1: the uncle `u` is red. */
    method PaintFamily(parent: RbNode, gparent: RbNode, u: RbNode)
      requires Mirrored() && parent in store.cells && gparent in store.cells && u in store.cells
      requires gparent != parent && gparent != u
      modifies this`store, store.cells.Keys
      ensures Mirrored() && store.cells.Keys == old(store.cells.Keys)
      ensures store == RecolorStore(old(store), parent, gparent, u)
    {
      SetParentColor(u, gparent, Black);
      SetParentColor(parent, gparent, Black);
      SetParentColor(gparent, gparent.parent, Red);
    }

    /** `n` becomes the root, and black. */
    method MakeRoot(n: RbNode, ghost t: Tree)
      requires Mirrored() && FocusIn(store, Top, t) && Apart(Top, t) && t.Branch? && n == t.self
      modifies this`store, this`node, store.cells.Keys
      ensures Mirrored() && store.cells.Keys == old(store.cells.Keys)
      ensures Holds(store, t.(color := Black))
    {
      PaintTree(store, t, null, null, Black);
      SetParentColor(n, null, Black);
      node := n;
      store := store.(top := n);
    }

    /** __rb_insert_fix */
    method InsertFixup(start: RbNode, ghost ctx0: Context, ghost t0: Tree)
      requires Mirrored() && FocusIn(store, ctx0, t0) && Apart(ctx0, t0)
      requires RedFocus(ctx0, t0) && start == t0.self
      modifies this`store, this`node, store.cells.Keys
      ensures Mirrored() && store.cells.Keys == old(store.cells.Keys)
      ensures Holds(store, InsertFix(ctx0, t0))
    {
      var n := start;
      ghost var ctx, t := ctx0, t0;
      var parent := n.parent;
      while true
        invariant Mirrored() && store.cells.Keys == old(store.cells.Keys)
        invariant FocusIn(store, ctx, t) && Apart(ctx, t) && RedFocus(ctx, t)
        invariant n == t.self && parent == ParentOf(ctx)
        invariant InsertFix(ctx, t) == InsertFix(ctx0, t0)
        decreases ctx
      {
        if parent == null {
          MakeRoot(n, t);
          return;
        } else if parent.color == Black {
          PlugIn(store, ctx, t);
          return;
        }
        RedParent(ctx, t);
        FamilyIn(store, ctx, t);
        var gparent := parent.parent;
        var tmp := gparent.right;
        if parent == tmp {
          tmp := gparent.left;
        }
        if tmp != null && tmp.color == Red {
          Recolor(store, ctx, t);
          RecoloredFocus(ctx, t);
          RecoloredApart(ctx, t);
          PaintFamily(parent, gparent, tmp);
          n := gparent;
          parent := n.parent;
          ctx, t := ctx.up.up, Recolored(ctx, t);
        } else {
          if parent != gparent.right {
            FixLeft(n, parent, gparent, ctx, t);
          } else {
            FixRight(n, parent, gparent, ctx, t);
          }
          PlugIn(store, ctx.up.up, Rotated(ctx, t));
          return;
        }
      }
    }

    /** parent->left/right = n, n->parent = parent */
    method Attach(n: RbNode, parent: RbNode, left: bool)
      requires Mirrored() && n in store.cells && parent in store.cells && n != parent
      modifies this`store, n`parent, n`color, parent`left, parent`right
      ensures Mirrored() && store.cells.Keys == old(store.cells.Keys)
      ensures store == old(store).Link(parent, if left then L else R, n).Paint(n, parent, Red)
    {
      if left {
        SetLeft(parent, n);
      } else {
        SetRight(parent, n);
      }
      SetParentColor(n, parent, Red);
    }

    /** The descent of _rb_insert: hangs the blank node `n` below a leaf link, unless a
        node of equal key is met. */
    method Place(n: RbNode) returns (placed: bool, ghost ctx: Context)
      requires Mirrored() && Holds(store, tree) && Sorted(InOrder(tree))
      requires n in store.cells && store.cells[n] == Cell(Red, null, null, null)
      modifies this`store, store.cells.Keys
      ensures Mirrored() && store.cells.Keys == old(store.cells.Keys)
      ensures !placed ==> store == old(store) && HasKey(InOrder(tree), n.key)
      ensures placed ==> Plug(ctx, Leaf) == tree && Between(ctx, n.key) && FocusIn(store, ctx, NewNode(n))
    {
      ghost var begin := store;
      var nw, parent := node, null;
      ghost var sub := tree;
      ctx := Top;
      while nw != null
        invariant Mirrored() && store.cells.Keys == begin.cells.Keys
        invariant ZipperIn(begin, ctx, sub) && Plug(ctx, sub) == tree && parent == ParentOf(ctx) && nw == RootOf(sub)
        invariant Between(ctx, n.key)
        invariant nw == null && ctx.Under? ==> FocusIn(store, ctx, NewNode(n))
        invariant nw != null || ctx.Top? ==> store == begin
        decreases sub
      {
        parent := nw;
        DescendIn(begin, ctx, sub, n.key);
        if n.key < nw.key {
          nw := nw.left;
          ctx, sub := Under(ctx, L, sub.color, sub.self, sub.right), sub.left;
          if nw == null {
            AttachIn(begin, ctx, n, tree);
            Attach(n, parent, true);
          }
        } else if nw.key < n.key {
          nw := nw.right;
          ctx, sub := Under(ctx, R, sub.color, sub.self, sub.left), sub.right;
          if nw == null {
            AttachIn(begin, ctx, n, tree);
            Attach(n, parent, false);
          }
        } else {
          PlugInOrder(ctx, sub);
          assert nw in InOrder(tree);
          return false, ctx;
        }
      }
      return true, ctx;
    }

    /** Brings `n` into the store with all links cleared. */
    method Blank(n: RbNode)
      requires Mirrored() && Holds(store, tree) && n !in store.cells
      modifies this`store, n
      ensures Mirrored() && Holds(store, tree)
      ensures store == old(store).(cells := old(store).cells[n := Cell(Red, null, null, null)])
      ensures store.cells.Keys == old(store).cells.Keys + {n}
    {
      n.left, n.right, n.parent, n.color := null, null, null, Red;
      store := store.(cells := store.cells[n := Cell(Red, null, null, null)]);
      TreeNodesIn(old(store).cells, tree, null);
      TreeFrame(old(store).cells, store.cells, tree, null);
    }

    /** _rb_insert */
    method Insert(n: RbNode) returns (result: int)
      requires Valid() && n !in store.cells
      modifies this, n, store.cells.Keys
      ensures Valid()
      ensures result == if HasKey(old(InOrder(tree)), n.key) then -1 else 0
      ensures result == -1 ==> tree == old(tree) && store == old(store)
      ensures result == 0 ==> InOrder(tree) == With(old(InOrder(tree)), n)
    {
      Blank(n);
      var placed;
      ghost var ctx;
      placed, ctx := Place(n);
      if !placed {
        store := old(store);
        return -1;
      }
      NewNodeFits(ctx, n, tree);
      InsertFixup(n, ctx, NewNode(n));
      Inserted(ctx, n, tree);
      tree := InsertFix(ctx, NewNode(n));
      return 0;
    }

    /** _rb_lookup */
    method Lookup(key: int) returns (found: RbNode?)
      requires Valid()
      ensures found != null ==> found in InOrder(tree) && found.key == key
      ensures found == null ==> !HasKey(InOrder(tree), key)
    {
      found := node;
      ghost var ctx, sub := Top, tree;
      while found != null
        invariant ZipperIn(store, ctx, sub) && Plug(ctx, sub) == tree && found == RootOf(sub)
        invariant Between(ctx, key)
        decreases sub
      {
        DescendIn(store, ctx, sub, key);
        if key < found.key {
          found := found.left;
          ctx, sub := Under(ctx, L, sub.color, sub.self, sub.right), sub.left;
        } else if found.key < key {
          found := found.right;
          ctx, sub := Under(ctx, R, sub.color, sub.self, sub.left), sub.right;
        } else {
          PlugInOrder(ctx, sub);
          return;
        }
      }
      PlugInOrder(ctx, Leaf);
    }

    /** _rb_first */
    method First() returns (n: RbNode?)
      requires Valid()
      ensures InOrder(tree) == [] ==> n == null
      ensures InOrder(tree) != [] ==> n == InOrder(tree)[0]
      ensures n != null ==> forall x <- InOrder(tree) :: n.key <= x.key
    {
      n := node;
      if n == null {
        return;
      }
      ghost var ctx, sub := Top, tree;
      while n.left != null
        invariant ZipperIn(store, ctx, sub) && Plug(ctx, sub) == tree && n == RootOf(sub) && n != null
        invariant Before(ctx) == []
        decreases sub
      {
        n := n.left;
        ctx, sub := Under(ctx, L, sub.color, sub.self, sub.right), sub.left;
      }
      PlugInOrder(ctx, sub);
    }

    // ---- Removal fix-up ----

    /** Case 4 with the short side on the left: the sibling `q` takes the place of
        `parent`, and its outer child `a` turns black. */
    method LendLeft(q: RbNode, outer: RbNode, parent: RbNode, ghost up: Context,
                  ghost a: Tree, ghost pa: RbNode?, ghost b: Tree, ghost u: Tree)
      requires Mirrored() && RotationApart(up, R, a, q, b, parent, u) && a.Branch? && outer == a.self
      requires TreeIn(store.cells, a, pa) && TreeIn(store.cells, b, q) && TreeIn(store.cells, u, parent)
      requires ContextIn(store, up, parent)
      requires q in store.cells && Child(store.cells[q], R) == outer && Child(store.cells[q], L) == RootOf(b)
      requires parent in store.cells && Child(store.cells[parent], L) == RootOf(u)
      requires store.cells[parent].parent == ParentOf(up)
      modifies this`store, this`node, store.cells.Keys
      ensures Mirrored() && store.cells.Keys == old(store.cells.Keys)
      ensures ZipperIn(store, up, Join(R, old(store.cells[parent].color), a.(color := Black), q, Join(R, Black, b, parent, u)))
    {
      ghost var cb := if b.Branch? then b.color else Black;
      Hang(store, up, R, a, pa, q, b, parent, u, cb);
      HangApart(up, R, a, q, b, parent, u);
      OuterNodeApart(up, R, a, q, b, parent, u);
      var tmp := q.left;
      SetRight(parent, tmp);
      if tmp != null {
        SetParentColor(tmp, parent, tmp.color);
      }
      SetLeft(q, parent);
      assert store == HangStore(old(store), R, q, tmp, parent, cb);
      PaintOuter(store, up, R, a, pa, q, b, parent, u);
      SetParentColor(outer, q, Black);
      Swap(store, up, R, a.(color := Black), q, b, parent, u, Black);
      FocusSide(store, up, parent);
      RotateSetParents(parent, q, Black, SideOf(up));
    }

    /** Case 4 with the short side on the right: the sibling `q` takes the place of
        `parent`, and its outer child `a` turns black. */
    method LendRight(q: RbNode, outer: RbNode, parent: RbNode, ghost up: Context,
                  ghost a: Tree, ghost pa: RbNode?, ghost b: Tree, ghost u: Tree)
      requires Mirrored() && RotationApart(up, L, a, q, b, parent, u) && a.Branch? && outer == a.self
      requires TreeIn(store.cells, a, pa) && TreeIn(store.cells, b, q) && TreeIn(store.cells, u, parent)
      requires ContextIn(store, up, parent)
      requires q in store.cells && Child(store.cells[q], L) == outer && Child(store.cells[q], R) == RootOf(b)
      requires parent in store.cells && Child(store.cells[parent], R) == RootOf(u)
      requires store.cells[parent].parent == ParentOf(up)
      modifies this`store, this`node, store.cells.Keys
      ensures Mirrored() && store.cells.Keys == old(store.cells.Keys)
      ensures ZipperIn(store, up, Join(L, old(store.cells[parent].color), a.(color := Black), q, Join(L, Black, b, parent, u)))
    {
      ghost var cb := if b.Branch? then b.color else Black;
      Hang(store, up, L, a, pa, q, b, parent, u, cb);
      HangApart(up, L, a, q, b, parent, u);
      OuterNodeApart(up, L, a, q, b, parent, u);
      var tmp := q.right;
      SetLeft(parent, tmp);
      if tmp != null {
        SetParentColor(tmp, parent, tmp.color);
      }
      SetRight(q, parent);
      assert store == HangStore(old(store), L, q, tmp, parent, cb);
      PaintOuter(store, up, L, a, pa, q, b, parent, u);
      SetParentColor(outer, q, Black);
      Swap(store, up, L, a.(color := Black), q, b, parent, u, Black);
      FocusSide(store, up, parent);
      RotateSetParents(parent, q, Black, SideOf(up));
    }

    /** Case 3 with the short side on the left: the inner nephew moves above the sibling. */
    method InnerLeft(n: RbNode, sibling: RbNode, parent: RbNode)
      requires Mirrored() && n in store.cells && sibling in store.cells && parent in store.cells
      requires n != sibling && n != parent && sibling != parent
      requires var far := Child(store.cells[n], R); store.Has(far) && far != n && far != sibling && far != parent
      modifies this`store, store.cells.Keys
      ensures Mirrored() && store.cells.Keys == old(store.cells.Keys)
      ensures store == InnerStore(old(store), L, n, old(n.right), sibling, parent)
    {
      var tmp := n.right;
      SetLeft(sibling, tmp);
      if tmp != null {
        SetParentColor(tmp, sibling, Black);
      }
      SetRight(n, sibling);
      SetRight(parent, n);
    }

    /** Case 3, then case 4, with the short side on the left. */
    method SettleInnerLeft(sibling: RbNode, parent: RbNode, ghost k: Context, ghost t: Tree)
      requires Mirrored() && ZipperIn(store, k, t) && Apart(k, t)
      requires k.Under? && k.side == L && k.other.Branch? && k.other.color == Black
      requires var near := Near(L, k.other); IsRed(near) && Balanced(near) && !IsRed(Far(L, k.other))
      requires sibling == k.other.self && parent == k.self
      modifies this`store, this`node, store.cells.Keys
      ensures Mirrored() && store.cells.Keys == old(store.cells.Keys)
      ensures ZipperIn(store, k.up, Lent(k, t))
    {
      ghost var near := Near(L, k.other);
      InnerNephew(store, k, t);
      NephewIn(store, k, t);
      var n := sibling.left;
      InnerLeft(n, sibling, parent);
      LendLeft(n, sibling, parent, k.up, Join(L, Black, Far(L, near), sibling, Far(L, k.other)), parent, Near(L, near), t);
    }

    /** Cases 3 and 4 with the short side on the left. */
    method SettleLeft(sibling: RbNode, parent: RbNode, ghost k: Context, ghost t: Tree)
      requires Mirrored() && ZipperIn(store, k, t) && Apart(k, t) && ShortFocus(k, t)
      requires k.Under? && k.side == L && k.other.Branch? && k.other.color == Black && !BlackNephews(k)
      requires sibling == k.other.self && parent == k.self
      modifies this`store, this`node, store.cells.Keys
      ensures Mirrored() && store.cells.Keys == old(store.cells.Keys)
      ensures ZipperIn(store, k.up, Lent(k, t))
    {
      BlackSibling(k, t);
      OuterNephew(store, k, t);
      var outer := sibling.right;
      if outer == null || outer.color == Black {
        SettleInnerLeft(sibling, parent, k, t);
      } else {
        LendLeft(sibling, outer, parent, k.up, Far(L, k.other), sibling, Near(L, k.other), t);
      }
    }

    /** Case 3 with the short side on the right: the inner nephew moves above the sibling. */
    method InnerRight(n: RbNode, sibling: RbNode, parent: RbNode)
      requires Mirrored() && n in store.cells && sibling in store.cells && parent in store.cells
      requires n != sibling && n != parent && sibling != parent
      requires var far := Child(store.cells[n], L); store.Has(far) && far != n && far != sibling && far != parent
      modifies this`store, store.cells.Keys
      ensures Mirrored() && store.cells.Keys == old(store.cells.Keys)
      ensures store == InnerStore(old(store), R, n, old(n.left), sibling, parent)
    {
      var tmp := n.left;
      SetRight(sibling, tmp);
      if tmp != null {
        SetParentColor(tmp, sibling, Black);
      }
      SetLeft(n, sibling);
      SetLeft(parent, n);
    }

    /** Case 3, then case 4, with the short side on the right. */
    method SettleInnerRight(sibling: RbNode, parent: RbNode, ghost k: Context, ghost t: Tree)
      requires Mirrored() && ZipperIn(store, k, t) && Apart(k, t)
      requires k.Under? && k.side == R && k.other.Branch? && k.other.color == Black
      requires var near := Near(R, k.other); IsRed(near) && Balanced(near) && !IsRed(Far(R, k.other))
      requires sibling == k.other.self && parent == k.self
      modifies this`store, this`node, store.cells.Keys
      ensures Mirrored() && store.cells.Keys == old(store.cells.Keys)
      ensures ZipperIn(store, k.up, Lent(k, t))
    {
      ghost var near := Near(R, k.other);
      InnerNephew(store, k, t);
      NephewIn(store, k, t);
      var n := sibling.right;
      InnerRight(n, sibling, parent);
      LendRight(n, sibling, parent, k.up, Join(R, Black, Far(R, near), sibling, Far(R, k.other)), parent, Near(R, near), t);
    }

    /** Cases 3 and 4 with the short side on the right. */
    method SettleRight(sibling: RbNode, parent: RbNode, ghost k: Context, ghost t: Tree)
      requires Mirrored() && ZipperIn(store, k, t) && Apart(k, t) && ShortFocus(k, t)
      requires k.Under? && k.side == R && k.other.Branch? && k.other.color == Black && !BlackNephews(k)
      requires sibling == k.other.self && parent == k.self
      modifies this`store, this`node, store.cells.Keys
      ensures Mirrored() && store.cells.Keys == old(store.cells.Keys)
      ensures ZipperIn(store, k.up, Lent(k, t))
    {
      BlackSibling(k, t);
      OuterNephew(store, k, t);
      var outer := sibling.left;
      if outer == null || outer.color == Black {
        SettleInnerRight(sibling, parent, k, t);
      } else {
        LendRight(sibling, outer, parent, k.up, Far(R, k.other), sibling, Near(R, k.other), t);
      }
    }

    /** Case 1 with the short side on the left: brings a black sibling next to it. */
    method UncoverLeft(sibling: RbNode, parent: RbNode, ghost ctx: Context, ghost t: Tree)
      requires Mirrored() && ZipperIn(store, ctx, t) && Apart(ctx, t) && ShortFocus(ctx, t)
      requires ctx.Under? && ctx.side == L && IsRed(ctx.other) && ctx.color == Black
      requires sibling == ctx.other.self && parent == ctx.self
      modifies this`store, this`node, store.cells.Keys
      ensures Mirrored() && store.cells.Keys == old(store.cells.Keys)
      ensures ZipperIn(store, Uncovered(ctx), t) && Apart(Uncovered(ctx), t)
    {
      ghost var near, far := Near(L, ctx.other), Far(L, ctx.other);
      OuterNephew(store, ctx, t);
      UncoveredFocus(ctx, t);
      UncoveredApart(ctx, t);
      var tmp := sibling.left;
      RotateLeft(sibling, parent, tmp, ctx.up, far, near, t);
      ZipperDown(store, ctx.up, L, Black, Join(L, Red, t, parent, near), sibling, far);
      ZipperDown(store, Under(ctx.up, L, Black, sibling, far), L, Red, t, parent, near);
    }

    /** Case 2: true if the shortage moves up. */
    method Lighten(sibling: RbNode, parent: RbNode, ghost k: Context, ghost t: Tree) returns (climb: bool)
      requires Mirrored() && ZipperIn(store, k, t) && Apart(k, t)
      requires k.Under? && k.other.Branch? && sibling == k.other.self && parent == k.self
      modifies this`store, store.cells.Keys
      ensures Mirrored() && store.cells.Keys == old(store.cells.Keys)
      ensures ZipperIn(store, k.up, Lightened(k, t)) && climb == (k.color == Black)
    {
      LightenIn(store, k, t);
      SetParentColor(sibling, parent, Red);
      climb := parent.color == Black;
      if !climb {
        SetParentColor(parent, parent.parent, Black);
      }
      assert store == LightenStore(old(store), sibling, parent);
    }

    /** The black sibling of a short left side, after case 1 if need be. */
    method SiblingLeft(parent: RbNode, ghost ctx: Context, ghost t: Tree) returns (sibling: RbNode)
      requires Mirrored() && ZipperIn(store, ctx, t) && Apart(ctx, t) && ShortFocus(ctx, t)
      requires ctx.Under? && ctx.side == L && parent == ctx.self
      modifies this`store, this`node, store.cells.Keys
      ensures Mirrored() && store.cells.Keys == old(store.cells.Keys)
      ensures var k := Uncovered(ctx); ZipperIn(store, k, t) && Apart(k, t) && k.other.Branch? && sibling == k.other.self
    {
      UncoveredFocus(ctx, t);
      OuterNephew(store, ctx, t);
      sibling := parent.right;
      if sibling.color == Red {
        var tmp := sibling.left;
        UncoverLeft(sibling, parent, ctx, t);
        sibling := tmp;
      }
    }

    /** One round of __rb_erase_fix with the short side on the left, its sibling being black. */
    method ResolveLeft(sibling: RbNode, parent: RbNode, ghost ctx: Context, ghost k: Context, ghost t: Tree) returns (climb: bool)
      requires Mirrored() && ZipperIn(store, k, t) && Apart(k, t) && ShortFocus(k, t) && ShortFocus(ctx, t) && ctx.Under?
      requires k == Uncovered(ctx) && k.Under? && k.side == L && parent == k.self && (k.color == Black ==> k == ctx)
      requires k.other.Branch? && k.other.color == Black && sibling == k.other.self
      modifies this`store, this`node, store.cells.Keys
      ensures Mirrored() && store.cells.Keys == old(store.cells.Keys)
      ensures climb ==> ctx.other.Branch? && ZipperIn(store, ctx.up, Lightened(ctx, t)) && Climbs(ctx, t)
      ensures !climb ==> Holds(store, EraseFix(ctx, t))
    {
      OuterNephew(store, k, t);
      BlackSibling(k, t);
      var outer, inner := sibling.right, sibling.left;
      if (outer == null || outer.color == Black) && (inner == null || inner.color == Black) {
        LightenedFocus(k, t);
        climb := Lighten(sibling, parent, k, t);
        PlugIn(store, k.up, Lightened(k, t));
      } else {
        SettleLeft(sibling, parent, k, t);
        PlugIn(store, k.up, Lent(k, t));
        climb := false;
      }
    }

    /** One round of __rb_erase_fix with the short side on the left. */
    method StepLeft(parent: RbNode, ghost ctx: Context, ghost t: Tree) returns (climb: bool)
      requires Mirrored() && ZipperIn(store, ctx, t) && Apart(ctx, t) && ShortFocus(ctx, t)
      requires ctx.Under? && ctx.side == L && parent == ctx.self
      modifies this`store, this`node, store.cells.Keys
      ensures Mirrored() && store.cells.Keys == old(store.cells.Keys)
      ensures climb ==> ctx.other.Branch? && ZipperIn(store, ctx.up, Lightened(ctx, t)) && Climbs(ctx, t)
      ensures !climb ==> Holds(store, EraseFix(ctx, t))
    {
      UncoveredFocus(ctx, t);
      var sibling := SiblingLeft(parent, ctx, t);
      climb := ResolveLeft(sibling, parent, ctx, Uncovered(ctx), t);
    }

    /** Case 1 with the short side on the right: brings a black sibling next to it. */
    method UncoverRight(sibling: RbNode, parent: RbNode, ghost ctx: Context, ghost t: Tree)
      requires Mirrored() && ZipperIn(store, ctx, t) && Apart(ctx, t) && ShortFocus(ctx, t)
      requires ctx.Under? && ctx.side == R && IsRed(ctx.other) && ctx.color == Black
      requires sibling == ctx.other.self && parent == ctx.self
      modifies this`store, this`node, store.cells.Keys
      ensures Mirrored() && store.cells.Keys == old(store.cells.Keys)
      ensures ZipperIn(store, Uncovered(ctx), t) && Apart(Uncovered(ctx), t)
    {
      ghost var near, far := Near(R, ctx.other), Far(R, ctx.other);
      OuterNephew(store, ctx, t);
      UncoveredFocus(ctx, t);
      UncoveredApart(ctx, t);
      var tmp := sibling.right;
      RotateRight(sibling, parent, tmp, ctx.up, far, near, t);
      ZipperDown(store, ctx.up, R, Black, Join(R, Red, t, parent, near), sibling, far);
      ZipperDown(store, Under(ctx.up, R, Black, sibling, far), R, Red, t, parent, near);
    }

    /** The black sibling of a short right side, after case 1 if need be. */
    method SiblingRight(parent: RbNode, ghost ctx: Context, ghost t: Tree) returns (sibling: RbNode)
      requires Mirrored() && ZipperIn(store, ctx, t) && Apart(ctx, t) && ShortFocus(ctx, t)
      requires ctx.Under? && ctx.side == R && parent == ctx.self
      modifies this`store, this`node, store.cells.Keys
      ensures Mirrored() && store.cells.Keys == old(store.cells.Keys)
      ensures var k := Uncovered(ctx); ZipperIn(store, k, t) && Apart(k, t) && k.other.Branch? && sibling == k.other.self
    {
      UncoveredFocus(ctx, t);
      OuterNephew(store, ctx, t);
      sibling := parent.left;
      if sibling.color == Red {
        var tmp := sibling.right;
        UncoverRight(sibling, parent, ctx, t);
        sibling := tmp;
      }
    }

    /** One round of __rb_erase_fix with the short side on the right, its sibling being black. */
    method ResolveRight(sibling: RbNode, parent: RbNode, ghost ctx: Context, ghost k: Context, ghost t: Tree) returns (climb: bool)
      requires Mirrored() && ZipperIn(store, k, t) && Apart(k, t) && ShortFocus(k, t) && ShortFocus(ctx, t) && ctx.Under?
      requires k == Uncovered(ctx) && k.Under? && k.side == R && parent == k.self && (k.color == Black ==> k == ctx)
      requires k.other.Branch? && k.other.color == Black && sibling == k.other.self
      modifies this`store, this`node, store.cells.Keys
      ensures Mirrored() && store.cells.Keys == old(store.cells.Keys)
      ensures climb ==> ctx.other.Branch? && ZipperIn(store, ctx.up, Lightened(ctx, t)) && Climbs(ctx, t)
      ensures !climb ==> Holds(store, EraseFix(ctx, t))
    {
      OuterNephew(store, k, t);
      BlackSibling(k, t);
      var outer, inner := sibling.left, sibling.right;
      if (outer == null || outer.color == Black) && (inner == null || inner.color == Black) {
        LightenedFocus(k, t);
        climb := Lighten(sibling, parent, k, t);
        PlugIn(store, k.up, Lightened(k, t));
      } else {
        SettleRight(sibling, parent, k, t);
        PlugIn(store, k.up, Lent(k, t));
        climb := false;
      }
    }

    /** One round of __rb_erase_fix with the short side on the right. */
    method StepRight(parent: RbNode, ghost ctx: Context, ghost t: Tree) returns (climb: bool)
      requires Mirrored() && ZipperIn(store, ctx, t) && Apart(ctx, t) && ShortFocus(ctx, t)
      requires ctx.Under? && ctx.side == R && parent == ctx.self
      modifies this`store, this`node, store.cells.Keys
      ensures Mirrored() && store.cells.Keys == old(store.cells.Keys)
      ensures climb ==> ctx.other.Branch? && ZipperIn(store, ctx.up, Lightened(ctx, t)) && Climbs(ctx, t)
      ensures !climb ==> Holds(store, EraseFix(ctx, t))
    {
      UncoveredFocus(ctx, t);
      var sibling := SiblingRight(parent, ctx, t);
      climb := ResolveRight(sibling, parent, ctx, Uncovered(ctx), t);
    }

    /** __rb_erase_fix */
    method EraseFixup(start: RbNode, ghost ctx0: Context, ghost t0: Tree)
      requires Mirrored() && ZipperIn(store, ctx0, t0) && Apart(ctx0, t0) && ShortFocus(ctx0, t0)
      requires ctx0.Under? && start == ctx0.self && t0 == Leaf
      modifies this`store, this`node, store.cells.Keys
      ensures Mirrored() && store.cells.Keys == old(store.cells.Keys)
      ensures Holds(store, EraseFix(ctx0, t0))
    {
      var n: RbNode?, parent := null, start;
      ghost var ctx, t := ctx0, t0;
      while true
        invariant Mirrored() && store.cells.Keys == old(store.cells.Keys)
        invariant ZipperIn(store, ctx, t) && Apart(ctx, t) && ShortFocus(ctx, t)
        invariant ctx.Under? && parent == ctx.self && n == RootOf(t)
        invariant EraseFix(ctx, t) == EraseFix(ctx0, t0)
        decreases ctx
      {
        UncoveredFocus(ctx, t);
        OuterNephew(store, ctx, t);
        var climb;
        if n != parent.right {
          climb := StepLeft(parent, ctx, t);
        } else {
          climb := StepRight(parent, ctx, t);
        }
        if !climb {
          return;
        }
        LightenedApart(ctx, t);
        n := parent;
        ctx, t := ctx.up, Lightened(ctx, t);
        parent := n.parent;
        if parent == null {
          return;
        }
      }
    }

    // ---- Removal ----

    /** __rb_erase, no left child */
    method UnlinkNoLeft(n: RbNode, ghost ctx: Context, ghost t: Tree) returns (rebalance: RbNode?)
      requires Mirrored() && ZipperIn(store, ctx, t) && Apart(ctx, t) && RedBlack(Plug(ctx, t))
      requires t.Branch? && n == t.self && t.left == Leaf
      modifies this`store, this`node, store.cells.Keys
      ensures Mirrored() && store.cells.Keys == old(store.cells.Keys)
      ensures Unlinked(store, rebalance, ctx, Erased(ctx, t))
    {
      FocusCell(store, ctx, t);
      ReplaceIn(store, ctx, t, t.right);
      NoLeft(store, ctx, t);
      var child, parent, color := n.right, n.parent, n.color;
      ChangeChild(n, child, parent, SideOf(ctx));
      if child != null {
        SetParentColor(child, parent, color);
        rebalance := null;
      } else {
        rebalance := if color == Black then parent else null;
      }
      PlugIn(store, ctx, Heir(t.right, t.color));
    }

    /** `tmp` takes the place and the colour of `n`. */
    method Inherit(n: RbNode, tmp: RbNode, ghost side: Side)
      requires Mirrored() && n in store.cells && tmp in store.cells && n != tmp
      requires var p := store.cells[n].parent;
        store.Has(p) && p != n && p != tmp && (p != null ==> (side == L <==> store.cells[p].left == n))
      modifies this`store, this`node, store.cells.Keys
      ensures Mirrored() && store.cells.Keys == old(store.cells.Keys)
      ensures var c := old(store).cells[n]; store == old(store).Link(c.parent, side, tmp).Paint(tmp, c.parent, c.color)
    {
      var parent := n.parent;
      SetParentColor(tmp, parent, n.color);
      ChangeChild(n, tmp, parent, side);
    }

    /** __rb_erase, no right child */
    method UnlinkNoRight(n: RbNode, ghost ctx: Context, ghost t: Tree)
      requires Mirrored() && ZipperIn(store, ctx, t) && Apart(ctx, t) && RedBlack(Plug(ctx, t))
      requires t.Branch? && n == t.self && t.left.Branch? && t.right == Leaf
      modifies this`store, this`node, store.cells.Keys
      ensures Mirrored() && store.cells.Keys == old(store.cells.Keys)
      ensures Holds(store, Erased(ctx, t))
    {
      FocusCell(store, ctx, t);
      ReplaceIn(store, ctx, t, t.left);
      Inherit(n, n.left, SideOf(ctx));
      PlugIn(store, ctx, Heir(t.left, t.color));
    }

    /** The descent to the successor; `parent` is the successor itself if it is the right child. */
    method Successor(n: RbNode, ghost ctx: Context, ghost t: Tree)
      returns (successor: RbNode, parent: RbNode, ghost inner: Context, ghost m: Tree)
      requires Mirrored() && ZipperIn(store, ctx, t)
      requires t.Branch? && n == t.self && t.right.Branch?
      ensures (inner, m) == MinFocus(Top, t.right) && m.Branch? && successor == m.self
      ensures ZipperIn(store, Compose(inner, Under(ctx, R, t.color, n, t.left)), m)
      ensures inner.Under? ==> inner.side == L && parent == inner.self
      ensures inner.Top? ==> parent == successor
    {
      ghost var outer := Under(ctx, R, t.color, n, t.left);
      ZipperDown(store, ctx, R, t.color, t.right, n, t.left);
      successor := n.right;
      parent := successor;
      inner, m := Top, t.right;
      var tmp := successor.left;
      while tmp != null
        invariant m.Branch? && successor == m.self && tmp == RootOf(m.left)
        invariant MinFocus(inner, m) == MinFocus(Top, t.right)
        invariant ZipperIn(store, Compose(inner, outer), m)
        invariant inner.Under? ==> inner.side == L && parent == inner.self
        invariant inner.Top? ==> parent == successor
        decreases m
      {
        parent := successor;
        successor := tmp;
        inner, m := Under(inner, L, m.color, m.self, m.right), m.left;
        assert TreeIn(store.cells, m, parent);
        tmp := tmp.left;
      }
    }

    /** Cuts the successor `m` loose from below `parent`. */
    method CutSuccessor(m: RbNode, parent: RbNode, child: RbNode)
      requires Mirrored() && m in store.cells && parent in store.cells && child in store.cells
      requires m != parent && m != child
      modifies this`store, store.cells.Keys
      ensures Mirrored() && store.cells.Keys == old(store.cells.Keys)
      ensures store == HoistStore(old(store), parent, m, child, old(m.right))
    {
      var child2 := m.right;
      SetLeft(parent, child2);
      SetRight(m, child);
      SetParentColor(child, m, child.color);
    }

    /** Puts the successor `m` in the place of `n`. */
    method SeatSuccessor(m: RbNode, n: RbNode, ghost side: Side)
      requires Mirrored() && m in store.cells && n in store.cells && m != n
      requires var l := store.cells[n].left; l != null && l in store.cells && l != m && l != n
      requires var p := store.cells[n].parent;
        && store.Has(p) && p != m && p != n && p != store.cells[n].left
        && (p != null ==> (side == L <==> store.cells[p].left == n))
      modifies this`store, this`node, store.cells.Keys
      ensures Mirrored() && store.cells.Keys == old(store.cells.Keys)
      ensures var c := old(store).cells[n]; store == SeatStore(old(store), c.parent, side, m, c.left, c.color)
    {
      var tmp, top, color := n.left, n.parent, n.color;
      SetLeft(m, tmp);
      SetParentColor(tmp, m, tmp.color);
      ChangeChild(n, m, top, side);
      SetParentColor(m, top, color);
    }

    /** __rb_erase */
    method Unlink(n: RbNode, ghost ctx: Context, ghost t: Tree) returns (rebalance: RbNode?, ghost k: Context)
      requires Mirrored() && ZipperIn(store, ctx, t) && Apart(ctx, t) && RedBlack(Plug(ctx, t))
      requires t.Branch? && n == t.self
      modifies this`store, this`node, store.cells.Keys
      ensures Mirrored() && store.cells.Keys == old(store.cells.Keys)
      ensures Unlinked(store, rebalance, k, Erased(ctx, t))
    {
      FocusCell(store, ctx, t);
      if n.left == null {
        rebalance := UnlinkNoLeft(n, ctx, t);
        k := ctx;
      } else if n.right == null {
        UnlinkNoRight(n, ctx, t);
        rebalance, k := null, ctx;
      } else {
        rebalance, k := UnlinkBoth(n, ctx, t);
      }
    }

    /** __rb_erase, both children present: the successor `m` has been put in place of `n`. */
    method CloseGap(m: RbNode, parent: RbNode, child2: RbNode?, color: Color, ghost k: Context, ghost x: Tree)
      returns (rebalance: RbNode?)
      requires Mirrored() && ContextIn(store, k, RootOf(x)) && TreeIn(store.cells, x, m) && Apart(k, x)
      requires child2 == RootOf(x) && parent == ParentOf(k)
      requires RedBlack(Plug(k, Branch(color, Leaf, m, x)))
      modifies this`store, store.cells.Keys
      ensures Mirrored() && store.cells.Keys == old(store.cells.Keys)
      ensures Unlinked(store, rebalance, k, Closed(k, color, x))
    {
      ClosedCorrect(k, color, m, x);
      if child2 != null {
        FinishIn(store, k, x, m);
        SetParentColor(child2, parent, Black);
        rebalance := null;
        PlugIn(store, k, x.(color := Black));
      } else {
        rebalance := if color == Black then parent else null;
        PlugIn(store, k, Leaf);
      }
    }

    method UnlinkBoth(n: RbNode, ghost ctx: Context, ghost t: Tree) returns (rebalance: RbNode?, ghost k: Context)
      requires Mirrored() && ZipperIn(store, ctx, t) && Apart(ctx, t) && RedBlack(Plug(ctx, t))
      requires t.Branch? && n == t.self && t.left.Branch? && t.right.Branch?
      modifies this`store, this`node, store.cells.Keys
      ensures Mirrored() && store.cells.Keys == old(store.cells.Keys)
      ensures Unlinked(store, rebalance, k, Erased(ctx, t))
    {
      var m, parent;
      ghost var inner, mt;
      m, parent, inner, mt := Successor(n, ctx, t);
      k := Moved(ctx, t, inner, m);
      FocusCell(store, ctx, t);
      ToMove(store, ctx, t, inner, mt);
      MovedFits(ctx, t, inner, mt);
      MovedApart(ctx, t, inner, m, mt.right);
      var child2, color := m.right, m.color;
      if parent != m {
        Hoist(store, ctx, n, t.left, inner, m, mt.right);
        CutSuccessor(m, parent, n.right);
      }
      Seat(store, ctx, n, t.left, inner, m, mt.right, t.color);
      FocusSide(store, ctx, n);
      SeatSuccessor(m, n, SideOf(ctx));
      rebalance := CloseGap(m, parent, child2, color, k, mt.right);
    }

    /** __rb_erase, and __rb_erase_fix where it asks for it. */
    method Remove(n: RbNode, ghost ctx: Context, ghost t: Tree)
      requires Mirrored() && ZipperIn(store, ctx, t) && Apart(ctx, t) && RedBlack(Plug(ctx, t))
      requires t.Branch? && n == t.self
      modifies this`store, this`node, store.cells.Keys
      ensures Mirrored() && store.cells.Keys == old(store.cells.Keys)
      ensures Holds(store, Erased(ctx, t))
    {
      var rebalance;
      ghost var k;
      rebalance, k := Unlink(n, ctx, t);
      if rebalance != null {
        EraseFixup(rebalance, k, Leaf);
      }
    }

    /** _rb_erase */
    method Erase(n: RbNode)
      requires Valid() && n in InOrder(tree)
      modifies this, store.cells.Keys
      ensures Valid()
      ensures InOrder(tree) == Without(old(InOrder(tree)), n)
      ensures n !in InOrder(tree)
    {
      ghost var ctx, t := Locate(store, tree, n);
      ErasedNode(ctx, t);
      Remove(n, ctx, t);
      tree := Erased(ctx, t);
      Forget(n);
    }

    /** The erased node is no longer accounted for. */
    ghost method Forget(n: RbNode)
      requires Mirrored() && Holds(store, tree) && n !in Nodes(tree)
      modifies this`store
      ensures Mirrored() && Holds(store, tree) && store.cells.Keys == old(store.cells.Keys) - {n}
    {
      TreeNodesIn(store.cells, tree, null);
      TreeFrame(store.cells, store.cells - {n}, tree, null);
      store := store.(cells := store.cells - {n});
    }
  }

  /** The zipper with `n` in focus. */
  ghost function FocusOf(ctx: Context, t: Tree, n: RbNode): (z: (Context, Tree))
    requires n in Nodes(t)
    ensures Plug(z.0, z.1) == Plug(ctx, t) && z.1.Branch? && z.1.self == n
    decreases t
  {
    if n == t.self then (ctx, t)
    else if n in Nodes(t.left) then FocusOf(Under(ctx, L, t.color, t.self, t.right), t.left, n)
    else FocusOf(Under(ctx, R, t.color, t.self, t.left), t.right, n)
  }

  lemma Locate(st: Store, tree: Tree, n: RbNode) returns (ctx: Context, t: Tree)
    requires Holds(st, tree) && Sorted(InOrder(tree)) && n in InOrder(tree)
    ensures Plug(ctx, t) == tree && t.Branch? && t.self == n
    ensures ZipperIn(st, ctx, t) && Apart(ctx, t)
  {
    InOrderNodes(tree);
    SortedDistinct(tree);
    var z := FocusOf(Top, tree, n);
    ctx, t := z.0, z.1;
    PlugIn(st, ctx, t);
    PlugApart(ctx, t);
  }

  /** What removal of the node in focus makes of a valid tree. */
  lemma ErasedNode(ctx: Context, t: Tree)
    requires t.Branch? && RedBlack(Plug(ctx, t)) && Sorted(InOrder(Plug(ctx, t)))
    ensures var t', was := Erased(ctx, t), Plug(ctx, t);
      && RedBlack(t') && Sorted(InOrder(t')) && InOrder(t') == Without(InOrder(was), t.self)
      && Nodes(t') == Nodes(was) - {t.self} && t.self !in InOrder(t')
  {
    var t', was := Erased(ctx, t), Plug(ctx, t);
    ErasedCorrect(ctx, t);
    PlugInOrder(ctx, t);
    DropMiddle(Before(ctx), InOrder(t.left), t.self, InOrder(t.right), After(ctx));
    SameNodes(was, t', t.self);
  }

  lemma DropMiddle(a: seq<RbNode>, l: seq<RbNode>, n: RbNode, r: seq<RbNode>, b: seq<RbNode>)
    requires Sorted(a + (l + [n] + r) + b)
    ensures var was, now := a + (l + [n] + r) + b, a + (l + r) + b;
      && Sorted(now) && now == Without(was, n) && n !in now
      && (forall x <- was :: x == n || x in now) && (forall x <- now :: x in was)
  {
    assert a + (l + [n] + r) + b == (a + l) + [n] + (r + b);
    assert a + (l + r) + b == (a + l) + (r + b);
    SortedParts(a + l, n, r + b);
    WithoutMiddle(a + l, n, r + b);
    SortedJoin(a + l, n, r + b);
  }

  lemma SameNodes(was: Tree, now: Tree, n: RbNode)
    requires n in InOrder(was) && n !in InOrder(now)
    requires forall x <- InOrder(was) :: x == n || x in InOrder(now)
    requires forall x <- InOrder(now) :: x in InOrder(was)
    ensures Nodes(now) == Nodes(was) - {n}
  {
    InOrderNodes(now);
    InOrderNodes(was);
  }

  lemma SortedJoin(a: seq<RbNode>, n: RbNode, b: seq<RbNode>)
    requires Sorted(a + [n] + b)
    ensures Sorted(a + b)
  {
    var s, s' := a + [n] + b, a + b;
    forall i, j | 0 <= i < j < |s'|
      ensures s'[i].key < s'[j].key
    {
      assert s'[i] == s[if i < |a| then i else i + 1];
      assert s'[j] == s[if j < |a| then j else j + 1];
    }
  }

  /** The outcome of __rb_erase: done, or one black node short at the leaf in `k`. */
  ghost predicate Unlinked(st: Store, rebalance: RbNode?, k: Context, goal: Tree) {
    if rebalance == null then Holds(st, goal)
    else
      && k.Under? && k.self == rebalance
      && ZipperIn(st, k, Leaf) && Apart(k, Leaf) && ShortFocus(k, Leaf) && goal == EraseFix(k, Leaf)
  }

  /** The only child that takes the place of a node of colour `c`. */
  ghost function Heir(o: Tree, c: Color): Tree { if o.Leaf? then Leaf else o.(color := c) }

  lemma FocusCell(st: Store, ctx: Context, t: Tree)
    requires ZipperIn(st, ctx, t) && Apart(ctx, t) && t.Branch?
    ensures t.self in st.cells && st.cells[t.self] == Cell(t.color, ParentOf(ctx), RootOf(t.left), RootOf(t.right))
    ensures st.Has(ParentOf(ctx)) && ParentOf(ctx) != t.self
    ensures ParentOf(ctx) != null ==> (SideOf(ctx) == L <==> st.cells[ParentOf(ctx)].left == t.self)
    ensures st.Has(RootOf(t.left)) && RootOf(t.left) != t.self && (RootOf(t.left) != null ==> RootOf(t.left) != ParentOf(ctx))
    ensures st.Has(RootOf(t.right)) && (RootOf(t.right) != null ==> RootOf(t.right) != ParentOf(ctx))
  {
    FocusSide(st, ctx, t.self);
    assert TreeIn(st.cells, t.left, t.self) && TreeIn(st.cells, t.right, t.self);
  }

  lemma ReplaceIn(st: Store, ctx: Context, t: Tree, o: Tree)
    requires ZipperIn(st, ctx, t) && Apart(ctx, t) && t.Branch? && (o == t.left || o == t.right)
    ensures st.Has(ParentOf(ctx)) && st.Has(RootOf(o))
    ensures var top := ParentOf(ctx);
      ZipperIn(st.Link(top, SideOf(ctx), RootOf(o)).Paint(RootOf(o), top, t.color), ctx, Heir(o, t.color))
    ensures Apart(ctx, Heir(o, t.color))
  {
    LinkContext(st, ctx, t.self, RootOf(o));
    var mid := st.Link(ParentOf(ctx), SideOf(ctx), RootOf(o));
    if o.Branch? {
      TreeKept(st.cells, mid.cells, One(ParentOf(ctx)), o, t.self);
      PaintTree(mid, o, t.self, ParentOf(ctx), t.color);
      ContextKept(mid, mid.Paint(o.self, ParentOf(ctx), t.color), {o.self}, ctx, o.self);
      assert Nodes(Heir(o, t.color)) == Nodes(o) && Distinct(Heir(o, t.color));
    }
  }

  lemma NoLeft(st: Store, ctx: Context, t: Tree)
    requires t.Branch? && t.left == Leaf && RedBlack(Plug(ctx, t))
    ensures t.right.Branch? ==> Erased(ctx, t) == Plug(ctx, Heir(t.right, t.color))
    ensures t.right.Leaf? && t.color == Black ==> ShortFocus(ctx, Leaf) && Erased(ctx, t) == EraseFix(ctx, Leaf)
    ensures t.right.Leaf? && t.color == Red ==> Erased(ctx, t) == Plug(ctx, Leaf)
  {
    if t.right.Leaf? {
      ClosedCorrect(ctx, t.color, t.self, Leaf);
    }
  }

  /** The shortage moves from the focus to its parent. */
  ghost predicate Climbs(ctx: Context, t: Tree)
    requires ctx.Under? && ctx.other.Branch? && ShortFocus(ctx, t)
  {
    ShortFocus(ctx.up, Lightened(ctx, t)) && EraseFix(ctx, t) == EraseFix(ctx.up, Lightened(ctx, t))
  }

  lemma LightenedApart(ctx: Context, t: Tree)
    requires ctx.Under? && ctx.other.Branch? && Apart(ctx, t)
    ensures Apart(ctx.up, Lightened(ctx, t))
  {
    var o := ctx.other.(color := Red);
    assert Nodes(o) == Nodes(ctx.other) && Distinct(o);
    JoinApart(ctx.side, Black, t, ctx.self, o);
  }

  lemma UncoveredApart(ctx: Context, t: Tree)
    requires ctx.Under? && IsRed(ctx.other) && Apart(ctx, t)
    ensures Apart(Uncovered(ctx), t)
  {
    var s, p, o := ctx.side, ctx.self, ctx.other;
    var near, far := Near(s, o), Far(s, o);
    JoinParts(s, o);
    ApartDown(ctx.up, s, ctx.color, t, p, o);
    RotationDistinct(ctx.up, s, ctx.color, Red, Black, Red, t, p, near, o.self, far);
    ApartDown(ctx.up, s, Black, Join(s, Red, t, p, near), o.self, far);
    ApartDown(Under(ctx.up, s, Black, o.self, far), s, Red, t, p, near);
  }

  /** What case 4 needs, straight away when the outer nephew is red. */
  lemma OuterNephew(st: Store, k: Context, t: Tree)
    requires ZipperIn(st, k, t) && Apart(k, t) && k.Under? && k.other.Branch?
    ensures var s, p, o := k.side, k.self, k.other;
      && o.self in st.cells && p in st.cells
      && RotationApart(k.up, Opp(s), Far(s, o), o.self, Near(s, o), p, t)
      && TreeIn(st.cells, Far(s, o), o.self) && TreeIn(st.cells, Near(s, o), o.self)
      && TreeIn(st.cells, t, p) && ContextIn(st, k.up, p)
      && st.cells[o.self] == CellOf(s, o.color, p, RootOf(Near(s, o)), RootOf(Far(s, o)))
      && st.cells[p] == CellOf(s, k.color, ParentOf(k.up), RootOf(t), o.self)
  {
    var s, p, o := k.side, k.self, k.other;
    JoinParts(s, o);
    ApartDown(k.up, s, k.color, t, p, o);
    assert o == Join(Opp(s), o.color, Far(s, o), o.self, Near(s, o));
    RotationDistinct(k.up, Opp(s), Black, Red, k.color, o.color, Far(s, o), o.self, Near(s, o), p, t);
  }

  /** What case 4 needs after case 3. */
  lemma InnerNephew(st: Store, k: Context, t: Tree)
    requires k.Under? && k.other.Branch? && k.other.color == Black && IsRed(Near(k.side, k.other))
    requires ZipperIn(st, k, t) && Apart(k, t) && Balanced(Near(k.side, k.other))
    ensures var s, p, o, n := k.side, k.self, k.other, Near(k.side, k.other);
      && n.self in st.cells && o.self in st.cells && p in st.cells && st.Has(RootOf(Far(s, n)))
      && Child(st.cells[o.self], s) == n.self
      && Child(st.cells[n.self], Opp(s)) == RootOf(Far(s, n))
      && n.self != p && n.self != o.self && o.self != p
      && RootOf(Far(s, n)) != n.self && RootOf(Far(s, n)) != o.self && RootOf(Far(s, n)) != p
      && RotationApart(k.up, Opp(s), Join(s, Black, Far(s, n), o.self, Far(s, o)), n.self, Near(s, n), p, t)
  {
    var s, o, n := k.side, k.other, Near(k.side, k.other);
    NephewApart(k, t);
    NephewIn(st, k, t);
    assert Distinct(o) && Distinct(n) && TreeIn(st.cells, n, o.self);
    assert RootOf(Far(s, n)) == null || RootOf(Far(s, n)) in Nodes(n);
  }

  ghost predicate HasKey(s: seq<RbNode>, key: int) { exists x <- s :: x.key == key }

  ghost function NewNode(n: RbNode): Tree { Branch(Red, Leaf, n, Leaf) }

  /** The keys to the left of the focus are smaller than `key`, those to the right larger. */
  ghost predicate Between(ctx: Context, key: int) {
    && (forall x <- Before(ctx) :: x.key < key)
    && (forall x <- After(ctx) :: key < x.key)
  }

  /** One step of the descent to `key`. */
  lemma DescendIn(st: Store, ctx: Context, t: Tree, key: int)
    requires ZipperIn(st, ctx, t) && t.Branch? && Sorted(InOrder(Plug(ctx, t))) && Between(ctx, key)
    ensures t.self in st.cells
    ensures ZipperIn(st, Under(ctx, L, t.color, t.self, t.right), t.left)
    ensures ZipperIn(st, Under(ctx, R, t.color, t.self, t.left), t.right)
    ensures key < t.self.key ==> Between(Under(ctx, L, t.color, t.self, t.right), key)
    ensures t.self.key < key ==> Between(Under(ctx, R, t.color, t.self, t.left), key)
  {
    PlugInOrder(ctx, t);
    DescendKeys(Before(ctx), InOrder(t.left), t.self, InOrder(t.right), After(ctx));
  }

  lemma DescendKeys(a: seq<RbNode>, l: seq<RbNode>, v: RbNode, r: seq<RbNode>, b: seq<RbNode>)
    requires Sorted(a + (l + [v] + r) + b)
    ensures forall x <- l :: x.key < v.key
    ensures forall x <- r :: v.key < x.key
  {
    assert a + (l + [v] + r) + b == (a + l) + [v] + (r + b);
    SortedParts(a + l, v, r + b);
    assert forall x <- l :: x in a + l;
    assert forall x <- r :: x in r + b;
  }

  lemma AttachIn(st: Store, ctx: Context, n: RbNode, t: Tree)
    requires ctx.Under? && ZipperIn(st, ctx, Leaf) && Plug(ctx, Leaf) == t
    requires Sorted(InOrder(t)) && Between(ctx, n.key) && n in st.cells && st.cells[n] == Cell(Red, null, null, null)
    ensures ctx.self in st.cells && n != ctx.self
    ensures FocusIn(st.Link(ctx.self, ctx.side, n).Paint(n, ctx.self, Red), ctx, NewNode(n))
  {
    NewNodeApart(ctx, n, t);
    LinkContext(st, ctx, null, n);
    var mid := st.Link(ctx.self, ctx.side, n);
    ContextKept(mid, mid.Paint(n, ctx.self, Red), {n}, ctx, n);
  }

  lemma NewNodeApart(ctx: Context, n: RbNode, t: Tree)
    requires Plug(ctx, Leaf) == t && Sorted(InOrder(t)) && Between(ctx, n.key)
    ensures Apart(ctx, NewNode(n))
    ensures Nodes(Plug(ctx, NewNode(n))) == Nodes(t) + {n}
  {
    PlugInOrder(ctx, Leaf);
    InOrderNodes(t);
    SortedDistinct(t);
    PlugApart(ctx, Leaf);
    PlugApart(ctx, NewNode(n));
  }

  lemma NewNodeFits(ctx: Context, n: RbNode, t: Tree)
    requires Plug(ctx, Leaf) == t && RedBlack(t) && Sorted(InOrder(t)) && Between(ctx, n.key)
    ensures RedFocus(ctx, NewNode(n)) && Apart(ctx, NewNode(n))
    ensures !HasKey(InOrder(t), n.key)
  {
    FitsPlug(ctx, Leaf);
    NewNodeApart(ctx, n, t);
    PlugInOrder(ctx, Leaf);
  }

  /** What insertion below `ctx` makes of the tree. */
  lemma Inserted(ctx: Context, n: RbNode, t: Tree)
    requires Plug(ctx, Leaf) == t && Sorted(InOrder(t)) && Between(ctx, n.key) && RedFocus(ctx, NewNode(n))
    ensures var t' := InsertFix(ctx, NewNode(n));
      && RedBlack(t') && Sorted(InOrder(t')) && InOrder(t') == With(InOrder(t), n) && Nodes(t') == Nodes(t) + {n}
  {
    var t' := InsertFix(ctx, NewNode(n));
    InsertFixCorrect(ctx, NewNode(n));
    PlugInOrder(ctx, Leaf);
    var a, b := Before(ctx), After(ctx);
    assert a + [] + b == a + b;
    assert InOrder(NewNode(n)) == [n];
    WithMiddle(a, n, b);
    SortedMiddle(a, n, b);
    InOrderNodes(t);
    InOrderNodes(t');
  }

  lemma SortedMiddle(a: seq<RbNode>, n: RbNode, b: seq<RbNode>)
    requires Sorted(a + b)
    requires forall x <- a :: x.key < n.key
    requires forall x <- b :: n.key < x.key
    ensures Sorted(a + [n] + b)
  {
    var s, s' := a + b, a + [n] + b;
    forall i, j | 0 <= i < j < |s'|
      ensures s'[i].key < s'[j].key
    {
      if i < |a| < j {
        assert s'[i] == s[i] && s'[j] == s[j - 1];
      } else if j < |a| {
        assert s'[i] == s[i] && s'[j] == s[j];
      } else if i > |a| {
        assert s'[i] == s[i - 1] && s'[j] == s[j - 1];
      } else if i == |a| {
        assert s'[j] in b;
      } else {
        assert s'[i] in a;
      }
    }
  }

  /** Parent, grandparent and uncle as the code finds them. */
  lemma FamilyIn(st: Store, ctx: Context, t: Tree)
    requires ctx.Under? && ctx.up.Under? && ZipperIn(st, ctx, t) && Apart(ctx, t)
    ensures var p, g, u := ctx.self, ctx.up.self, RootOf(ctx.up.other);
      && p in st.cells && g in st.cells && st.Has(u)
      && st.cells[p].parent == g && st.cells[p].color == ctx.color
      && st.cells[g] == CellOf(ctx.up.side, ctx.up.color, ParentOf(ctx.up.up), p, u)
      && p != u && p != g && g != u
      && (u != null ==> st.cells[u].color == ctx.up.other.color)
  {
    assert ContextIn(st, ctx.up, ctx.self) && ContextDistinct(ctx.up);
  }

  lemma RecoloredApart(ctx: Context, t: Tree)
    requires ctx.Under? && ctx.up.Under? && ctx.up.other.Branch? && Apart(ctx, t)
    ensures Apart(ctx.up.up, Recolored(ctx, t))
  {
    var g := ctx.up;
    assert ContextDistinct(g);
    JoinApart(ctx.side, Black, t, ctx.self, ctx.other);
    var u := g.other.(color := Black);
    assert Nodes(u) == Nodes(g.other) && Distinct(u);
    JoinApart(g.side, Red, Join(ctx.side, Black, t, ctx.self, ctx.other), g.self, u);
  }

  lemma OuterApart(ctx: Context, t: Tree)
    requires Apart(ctx, t) && ctx.Under? && ctx.up.Under?
    ensures RotationApart(ctx.up.up, ctx.up.side, t, ctx.self, ctx.other, ctx.up.self, ctx.up.other)
  {
    var g := ctx.up;
    assert ContextDistinct(g);
    JoinApart(g.side, Red, ctx.other, g.self, g.other);
    JoinApart(g.side, Black, t, ctx.self, Join(g.side, Red, ctx.other, g.self, g.other));
  }

  lemma InnerApart(ctx: Context, t: Tree)
    requires Apart(ctx, t) && ctx.Under? && ctx.up.Under? && t.Branch?
    ensures var s, p, g := ctx.up.side, ctx.self, ctx.up;
      && RotationApart(g.up, s, Join(s, Red, ctx.other, p, Near(s, t)), t.self, Far(s, t), g.self, g.other)
      && Distinct(Join(s, Red, ctx.other, p, Join(s, Red, Near(s, t), t.self, Far(s, t))))
      && {t.self, p} + Nodes(Near(s, t)) !! Nodes(g.other)
      && {t.self, p} + Nodes(Near(s, t)) !! ContextNodes(g.up)
      && g.self !in {t.self, p} + Nodes(Near(s, t))
  {
    var s, p, g := ctx.up.side, ctx.self, ctx.up;
    var near, far := Near(s, t), Far(s, t);
    assert ContextDistinct(g);
    assert Nodes(t) == Nodes(near) + Nodes(far) + {t.self};
    JoinApart(s, Red, near, t.self, far);
    JoinApart(s, Red, ctx.other, p, Join(s, Red, near, t.self, far));
    JoinApart(s, Red, ctx.other, p, near);
    JoinApart(s, Red, far, g.self, g.other);
    JoinApart(s, Black, Join(s, Red, ctx.other, p, near), t.self, Join(s, Red, far, g.self, g.other));
  }

  /** After case 2 everything case 3 needs is in place. */
  lemma TurnedIn(st: Store, ctx: Context, t: Tree)
    requires ctx.Under? && ctx.up.Under? && ctx.side == Opp(ctx.up.side)
    requires ZipperIn(st, ctx, t) && Apart(ctx, t) && t.Branch? && !IsRed(Near(ctx.up.side, t))
    ensures var s, p, n, g := ctx.up.side, ctx.self, t.self, ctx.up.self;
      && n in st.cells && p in st.cells && g in st.cells && st.Has(RootOf(Near(s, t)))
      && var st' := TurnStore(st, s, n, p, RootOf(Near(s, t)));
        && st'.cells.Keys == st.cells.Keys
        && RotationApart(ctx.up.up, s, Join(s, Red, ctx.other, p, Near(s, t)), n, Far(s, t), g, ctx.up.other)
        && TreeIn(st'.cells, Join(s, Red, ctx.other, p, Near(s, t)), n)
        && TreeIn(st'.cells, Far(s, t), n)
        && TreeIn(st'.cells, ctx.up.other, g)
        && ContextIn(st', ctx.up.up, g)
        && Child(st'.cells[n], s) == p && Child(st'.cells[n], Opp(s)) == RootOf(Far(s, t))
        && st'.cells[g] == st.cells[g] == CellOf(s, ctx.up.color, ParentOf(ctx.up.up), p, RootOf(ctx.up.other))
  {
    var s, p, n, g := ctx.up.side, ctx.self, t.self, ctx.up.self;
    assert ContextIn(st, ctx.up, p);
    InnerApart(ctx, t);
    Turn(st, s, Near(s, t), n, Far(s, t), p, ctx.other);
    var st', except := TurnStore(st, s, n, p, RootOf(Near(s, t))), {n, p} + Nodes(Near(s, t));
    TreeKept(st.cells, st'.cells, except, ctx.up.other, g);
    ContextKept(st, st', except, ctx.up.up, g);
  }

  /** Which link of its parent a node in focus hangs from. */
  lemma FocusSide(st: Store, ctx: Context, n: RbNode)
    requires ContextIn(st, ctx, n) && n !in ContextNodes(ctx)
    ensures ctx.Under? ==> ctx.self in st.cells && (ctx.side == L <==> st.cells[ctx.self].left == n)
    ensures ctx.Under? ==> (ctx.side == R <==> st.cells[ctx.self].right == n)
  {
  }
}
