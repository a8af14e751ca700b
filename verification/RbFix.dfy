/**
  The steps of dict_insert on a memory: hanging up the new node, and the three kinds of
  adjustment that follow.  Each lemma says what tree the memory holds after the writes
  of one branch, and why its colours are right again.
 */
module RbFix {
  import opened RbTree

  /** What the cells around the focus hold. */
  lemma Cells(m: Memory, c: Ctx, t: Tree)
    requires Holds(m, c, t)
    ensures NIL in m && !m[NIL].red && Holder(c) in m && m[Holder(c)].red == HolderRed(c) && Root(t) in m
    ensures m[Root(t)].red == IsRed(t) && (Root(t) == NIL <==> t.Leaf?) && (Holder(c) == NIL <==> c.Top?)
    ensures t.Node? ==> m[t.ptr] == Cell(Root(t.left), Root(t.right), Holder(c), t.red, t.key)
    ensures t.Node? ==> Root(t.left) in m && Root(t.right) in m
    ensures c.Top? ==> m[NIL].left == Root(t)
    ensures c.InLeft? ==> m[c.ptr] == Cell(Root(t), Root(c.right), Holder(c.up), c.red, c.key) && Root(c.right) in m
    ensures c.InRight? ==> m[c.ptr] == Cell(Root(c.left), Root(t), Holder(c.up), c.red, c.key) && Root(c.left) in m
    ensures t.Node? && c.InLeft? ==> Root(c.right) != t.ptr
    ensures t.Node? && c.InRight? ==> Root(c.left) != t.ptr
    ensures t.Node? ==> t.ptr != Holder(c)
  {
    NilInMemory(m, c, Root(t));
    RootsIn(m, Holder(c), t);
    HolderIn(m, c, Root(t));
    if t.Node? {
      RootsIn(m, t.ptr, t.left);
      RootsIn(m, t.ptr, t.right);
      HolePointer(m, c, t);
    }
    if c.InLeft? { RootsIn(m, c.ptr, c.right); }
    if c.InRight? { RootsIn(m, c.ptr, c.left); }
  }

  // ---- hanging up a new node

  /** The memory after the new node is linked below parent. */
  function Hung(m: Memory, parent: Ptr, left: bool, node: Ptr, key: int): Memory
    requires parent in m
  {
    var m1 := if left then m[parent := m[parent].(left := node)] else m[parent := m[parent].(right := node)];
    m1[node := Cell(NIL, NIL, parent, true, key)]
  }

  lemma HangHolds(m: Memory, c: Ctx, node: Ptr, key: int)
    requires Holds(m, c, Leaf) && node != NIL && node !in CtxPtrs(c) && Holder(c) in m
    ensures Holds(Hung(m, Holder(c), !c.InRight?, node, key), c, Node(Leaf, node, key, true, Leaf))
  {
    var m' := Hung(m, Holder(c), !c.InRight?, node, key);
    NilInMemory(m, c, NIL);
    NilNotInCtx(c);
    assert !c.Top? ==> Holder(c) in CtxPtrs(c);
    ChangeHole(m, m', c, NIL, node);
  }

  // ---- red parent, red uncle

  function Pushed(m: Memory, parent: Ptr, uncle: Ptr, grandpa: Ptr): Memory
    requires parent in m && uncle in m && grandpa in m
  {
    Painted(Painted(Painted(m, parent, false), uncle, false), grandpa, true)
  }

  lemma PushedLeft(m: Memory, up: Ctx, g: Tree)
    requires Holds(m, up, g) && g.Node? && g.left.Node? && g.right.Node?
    ensures g.ptr in m && g.left.ptr in m && g.right.ptr in m
    ensures Holds(Pushed(m, g.left.ptr, g.right.ptr, g.ptr), up,
                  Node(g.left.(red := false), g.ptr, g.key, true, g.right.(red := false)))
  {
    hide Holds, Painted;
    FocusLeft(m, up, g);
    Recolour(m, InLeft(up, g.ptr, g.key, g.red, g.right), g.left, false);
    var m1, g1 := Painted(m, g.left.ptr, false), g.(left := g.left.(red := false));
    FocusLeft(m1, up, g1);
    FocusRight(m1, up, g1);
    Recolour(m1, InRight(g1.left, g.ptr, g.key, g.red, up), g.right, false);
    var m2, g2 := Painted(m1, g.right.ptr, false), g1.(right := g.right.(red := false));
    FocusRight(m2, up, g2);
    Recolour(m2, up, g2, true);
  }

  lemma PushedRight(m: Memory, up: Ctx, g: Tree)
    requires Holds(m, up, g) && g.Node? && g.left.Node? && g.right.Node?
    ensures g.ptr in m && g.left.ptr in m && g.right.ptr in m
    ensures Holds(Pushed(m, g.right.ptr, g.left.ptr, g.ptr), up,
                  Node(g.left.(red := false), g.ptr, g.key, true, g.right.(red := false)))
  {
    hide Holds, Painted;
    FocusRight(m, up, g);
    Recolour(m, InRight(g.left, g.ptr, g.key, g.red, up), g.right, false);
    var m1, g1 := Painted(m, g.right.ptr, false), g.(right := g.right.(red := false));
    FocusRight(m1, up, g1);
    FocusLeft(m1, up, g1);
    Recolour(m1, InLeft(up, g.ptr, g.key, g.red, g1.right), g.left, false);
    var m2, g2 := Painted(m1, g.left.ptr, false), g1.(left := g.left.(red := false));
    FocusLeft(m2, up, g2);
    Recolour(m2, up, g2, true);
  }

  // ---- red parent, black uncle

  /** The memory after the last writes of the loop: parent black, grandpa red, and grandpa turned. */
  lemma TurnedRightHolds(m: Memory, up: Ctx, g: Tree)
    requires Holds(m, up, g) && g.Node? && g.left.Node?
    ensures g.ptr in m && g.left.ptr in m
    ensures var m' := Painted(Painted(m, g.left.ptr, false), g.ptr, true);
            && g.ptr in m' && m'[g.ptr].left in m' && m'[m'[g.ptr].left].right in m' && m'[g.ptr].parent in m'
            && Holds(RotatedRight(m', g.ptr), up, RightTurned(Node(g.left.(red := false), g.ptr, g.key, true, g.right)))
  {
    hide Holds, Painted, RotatedRight;
    FocusLeft(m, up, g);
    Recolour(m, InLeft(up, g.ptr, g.key, g.red, g.right), g.left, false);
    var m1, g1 := Painted(m, g.left.ptr, false), g.(left := g.left.(red := false));
    FocusLeft(m1, up, g1);
    Recolour(m1, up, g1, true);
    var m2, g2 := Painted(m1, g.ptr, true), g1.(red := true);
    RightReady(m2, up, g2);
    RightHolds(m2, up, g2);
  }

  lemma TurnedLeftHolds(m: Memory, up: Ctx, g: Tree)
    requires Holds(m, up, g) && g.Node? && g.right.Node?
    ensures g.ptr in m && g.right.ptr in m
    ensures var m' := Painted(Painted(m, g.right.ptr, false), g.ptr, true);
            && g.ptr in m' && m'[g.ptr].right in m' && m'[m'[g.ptr].right].left in m' && m'[g.ptr].parent in m'
            && Holds(RotatedLeft(m', g.ptr), up, LeftTurned(Node(g.left, g.ptr, g.key, true, g.right.(red := false))))
  {
    hide Holds, Painted, RotatedLeft;
    FocusRight(m, up, g);
    Recolour(m, InRight(g.left, g.ptr, g.key, g.red, up), g.right, false);
    var m1, g1 := Painted(m, g.right.ptr, false), g.(right := g.right.(red := false));
    FocusRight(m1, up, g1);
    Recolour(m1, up, g1, true);
    var m2, g2 := Painted(m1, g.ptr, true), g1.(red := true);
    LeftReady(m2, up, g2);
    LeftHolds(m2, up, g2);
  }

  // ---- one level up

  /** The subtree of the node that holds the hole. */
  function Grow(c: Ctx, t: Tree): Tree
    requires !c.Top?
  {
    if c.InLeft? then Node(t, c.ptr, c.key, c.red, c.right) else Node(c.left, c.ptr, c.key, c.red, t)
  }

  /** The subtree on the other side of the hole. */
  function Brother(c: Ctx): Tree
    requires !c.Top?
  {
    if c.InLeft? then c.right else c.left
  }

  lemma GoUp(m: Memory, c: Ctx, t: Tree)
    requires !c.Top?
    ensures Holds(m, c, t) <==> Holds(m, c.up, Grow(c, t))
    ensures Plug(c, t) == Plug(c.up, Grow(c, t))
  {
    if c.InLeft? { FocusLeft(m, c.up, Grow(c, t)); } else { FocusRight(m, c.up, Grow(c, t)); }
  }

  /** During the adjustments: all is well but for t, which is red and may hang below a red node. */
  ghost predicate Fixing(m: Memory, c: Ctx, t: Tree, h: nat, s: seq<(Ptr, int)>) {
    && Holds(m, c, t) && t.Node? && t.red && Balanced(t, h) && CtxBalanced(c, h) && RootBlack(c)
    && Inorder(Plug(c, t)) == s
  }

  /** Once they end: nothing but the colour of the root may be wrong. */
  ghost predicate Fixed(m: Memory, c: Ctx, t: Tree, h: nat, s: seq<(Ptr, int)>) {
    && Holds(m, c, t) && t.Node? && Balanced(t, h) && CtxBalanced(c, h) && !(HolderRed(c) && IsRed(t))
    && Inorder(Plug(c, t)) == s
  }

  /** A red parent is never the root and its own parent is black. */
  lemma RedParent(c: Ctx, t: Tree, h: nat)
    requires CtxBalanced(c, h) && RootBlack(c) && Balanced(t, h) && HolderRed(c)
    ensures !c.up.Top? && !c.up.red && RootBlack(c.up.up) && CtxBalanced(c.up.up, h + 1) && CtxBalanced(c.up, h)
  {
  }

  lemma PushedBalanced(c: Ctx, t: Tree, h: nat)
    requires CtxBalanced(c, h) && RootBlack(c) && Balanced(t, h) && t.Node? && HolderRed(c) && !c.up.Top?
    requires IsRed(Brother(c.up))
    ensures var g := Grow(c.up, Grow(c, t));
            g.left.Node? && g.right.Node?
            && Balanced(Node(g.left.(red := false), g.ptr, g.key, true, g.right.(red := false)), h + 1)
  {
    RedParent(c, t, h);
    var g := Grow(c.up, Grow(c, t));
    assert Balanced(g.left.(red := false), h + 1);
    assert Balanced(g.right.(red := false), h + 1);
  }

  lemma PushedInorder(c: Ctx, g: Tree)
    requires g.Node? && g.left.Node? && g.right.Node?
    ensures Inorder(Plug(c, Node(g.left.(red := false), g.ptr, g.key, true, g.right.(red := false)))) ==
              Inorder(Plug(c, g))
  {
    var g' := Node(g.left.(red := false), g.ptr, g.key, true, g.right.(red := false));
    PlugInorder(c, g');
    PlugInorder(c, g);
    assert Inorder(g'.left) == Inorder(g.left) && Inorder(g'.right) == Inorder(g.right);
  }

  /** The memory after a round with a red uncle. */
  function PushedFrom(m: Memory, c: Ctx): Memory
    requires !c.Top? && !c.up.Top?
    requires c.ptr in m && c.up.ptr in m && Uncle(c) in m
  {
    Pushed(m, c.ptr, Uncle(c), c.up.ptr)
  }

  function Uncle(c: Ctx): Ptr
    requires !c.Top? && !c.up.Top?
  {
    Root(Brother(c.up))
  }

  lemma PushStep(m: Memory, c: Ctx, t: Tree, h: nat, s: seq<(Ptr, int)>)
    requires Fixing(m, c, t, h, s) && HolderRed(c) && !c.up.Top?
    requires IsRed(Brother(c.up))
    ensures c.ptr in m && c.up.ptr in m && Uncle(c) in m
    ensures var g := Grow(c.up, Grow(c, t));
            && g.left.Node? && g.right.Node?
            && Fixing(PushedFrom(m, c), c.up.up,
                      Node(g.left.(red := false), g.ptr, g.key, true, g.right.(red := false)), h + 1, s)
  {
    hide Holds, Pushed, Balanced, CtxBalanced, RootBlack, Inorder, Plug;
    RedParent(c, t, h);
    PushedBalanced(c, t, h);
    GoUp(m, c, t);
    GoUp(m, c.up, Grow(c, t));
    var g := Grow(c.up, Grow(c, t));
    PushedInorder(c.up.up, g);
    if c.up.InLeft? { PushedLeft(m, c.up.up, g); } else { PushedRight(m, c.up.up, g); }
  }

  /** A red node whose outer child is red too. */
  predicate LeansLeft(x: Tree, h: nat) {
    x.Node? && IsRed(x.left) && Balanced(x.left, h) && !IsRed(x.right) && Balanced(x.right, h)
  }

  predicate LeansRight(x: Tree, h: nat) {
    x.Node? && IsRed(x.right) && Balanced(x.right, h) && !IsRed(x.left) && Balanced(x.left, h)
  }

  lemma LeansOuter(c: Ctx, t: Tree, h: nat)
    requires IsRed(t) && Balanced(t, h) && CtxBalanced(c, h) && HolderRed(c)
    ensures c.InLeft? ==> LeansLeft(Grow(c, t), h)
    ensures c.InRight? ==> LeansRight(Grow(c, t), h)
  {
  }

  lemma LeansInner(c: Ctx, t: Tree, h: nat)
    requires IsRed(t) && Balanced(t, h) && CtxBalanced(c, h) && HolderRed(c)
    ensures c.InRight? ==> LeansLeft(LeftTurned(Grow(c, t)), h)
    ensures c.InLeft? ==> LeansRight(RightTurned(Grow(c, t)), h)
  {
  }

  lemma SameInorder(c: Ctx, t: Tree, t': Tree)
    requires Inorder(t) == Inorder(t')
    ensures Inorder(Plug(c, t)) == Inorder(Plug(c, t'))
  {
    PlugInorder(c, t);
    PlugInorder(c, t');
  }

  /** The last turn of the loop when the parent is a left child. */
  lemma TurnStepLeft(m: Memory, up: Ctx, x: Tree, h: nat, s: seq<(Ptr, int)>)
    requires Holds(m, up, x) && LeansLeft(x, h) && up.InLeft? && Balanced(up.right, h) && !IsRed(up.right)
    requires CtxBalanced(up.up, h + 1) && Inorder(Plug(up, x)) == s
    ensures x.ptr in m && up.ptr in m
    ensures var m' := Painted(Painted(m, x.ptr, false), up.ptr, true);
            && up.ptr in m' && m'[up.ptr].left in m' && m'[m'[up.ptr].left].right in m' && m'[up.ptr].parent in m'
            && Fixed(RotatedRight(m', up.ptr), up.up,
                 RightTurned(Node(x.(red := false), up.ptr, up.key, true, up.right)), h + 1, s)
  {
    var g := Grow(up, x);
    var g' := Node(x.(red := false), up.ptr, up.key, true, up.right);
    GoUp(m, up, x);
    RightTurnedInorder(g');
    assert Inorder(g') == Inorder(g);
    SameInorder(up.up, g, RightTurned(g'));
    assert Balanced(RightTurned(g').right, h);
    assert Balanced(RightTurned(g'), h + 1);
    hide Holds, Painted, RotatedRight;
    TurnedRightHolds(m, up.up, g);
  }

  lemma TurnStepRight(m: Memory, up: Ctx, x: Tree, h: nat, s: seq<(Ptr, int)>)
    requires Holds(m, up, x) && LeansRight(x, h) && up.InRight? && Balanced(up.left, h) && !IsRed(up.left)
    requires CtxBalanced(up.up, h + 1) && Inorder(Plug(up, x)) == s
    ensures x.ptr in m && up.ptr in m
    ensures var m' := Painted(Painted(m, x.ptr, false), up.ptr, true);
            && up.ptr in m' && m'[up.ptr].right in m' && m'[m'[up.ptr].right].left in m' && m'[up.ptr].parent in m'
            && Fixed(RotatedLeft(m', up.ptr), up.up,
                 LeftTurned(Node(up.left, up.ptr, up.key, true, x.(red := false))), h + 1, s)
  {
    var g := Grow(up, x);
    var g' := Node(up.left, up.ptr, up.key, true, x.(red := false));
    GoUp(m, up, x);
    LeftTurnedInorder(g');
    assert Inorder(g') == Inorder(g);
    SameInorder(up.up, g, LeftTurned(g'));
    assert Balanced(LeftTurned(g').left, h);
    assert Balanced(LeftTurned(g'), h + 1);
    hide Holds, Painted, RotatedLeft;
    TurnedLeftHolds(m, up.up, g);
  }

  // ---- the root

  /** Colouring the root black ends the insertion. */
  lemma BlackRoot(m: Memory, c: Ctx, t: Tree, h: nat, s: seq<(Ptr, int)>)
    requires Fixed(m, c, t, h, s)
    ensures var whole := Plug(c, t);
            && whole.Node? && whole.ptr in m && NIL in m && m[NIL].left == whole.ptr
            && Holds(Painted(m, whole.ptr, false), Top, whole.(red := false))
            && IsBalanced(whole.(red := false)) && Inorder(whole.(red := false)) == s
  {
    FocusWhole(m, c, t);
    PlugBalanced(c, t, h);
    PlugIsNode(c, t);
    var whole := Plug(c, t);
    var h': nat :| Balanced(whole, h');
    assert Balanced(whole.(red := false), if whole.red then h' + 1 else h');
    Recolour(m, Top, whole, false);
  }

  lemma {:induction false} PlugIsNode(c: Ctx, t: Tree)
    requires t.Node?
    ensures Plug(c, t).Node?
  {
    if !c.Top? { PlugIsNode(c.up, Grow(c, t)); }
  }

  lemma {:induction false} PlugPtrs(c: Ctx, t: Tree)
    ensures Ptrs(Plug(c, t)) == CtxPtrs(c) + Ptrs(t)
  {
    if !c.Top? { PlugPtrs(c.up, Grow(c, t)); }
  }

  /** Around any subtree of a balanced tree with a black root the context is balanced. */
  lemma {:induction false} Unplug(c: Ctx, t: Tree)
    requires IsBalanced(Plug(c, t)) && !IsRed(Plug(c, t))
    ensures exists h: nat :: Balanced(t, h) && CtxBalanced(c, h)
    ensures !(HolderRed(c) && IsRed(t)) && RootBlack(c) && (c.Top? ==> !IsRed(t))
  {
    if c.Top? {
      var h: nat :| Balanced(t, h);
      assert CtxBalanced(c, h);
    } else {
      var g := Grow(c, t);
      Unplug(c.up, g);
      var h: nat :| Balanced(g, h) && CtxBalanced(c.up, h);
      var h': nat := if c.red then h else h - 1;
      assert Balanced(t, h') && CtxBalanced(c, h');
    }
  }
}
