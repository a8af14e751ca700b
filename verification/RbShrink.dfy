/**
  The steps of dict_delete on a memory: taking a node with at most one child out,
  putting the successor in the place of a node with two, and the adjustments that
  make up for a lost black node.
 */
module RbShrink {
  import opened RbTree
  import opened RbFix
  import opened RbOrder

  // ---- taking a node out

  function Under(m: Memory, child: Ptr, parent: Ptr): Memory
    requires child in m
  {
    m[child := m[child].(parent := parent)]
  }

  /** The pointer of the parent that led to one node now leads to another. */
  function Linked(m: Memory, parent: Ptr, from: Ptr, to: Ptr): Memory
    requires parent in m
  {
    if m[parent].left == from then m[parent := m[parent].(left := to)] else m[parent := m[parent].(right := to)]
  }

  /** The memory after the child of p has moved up below p's parent. */
  function Spliced(m: Memory, p: Ptr, child: Ptr, parent: Ptr): Memory
    requires child in m && parent in m
  {
    Linked(Under(m, child, parent), parent, p, child)
  }

  /** The only child of a node, if it has one. */
  function Child(t: Tree): Tree
    requires t.Node?
  {
    if t.left.Node? then t.left else t.right
  }

  lemma SpliceHolds(m: Memory, c: Ctx, t: Tree)
    requires Holds(m, c, t) && t.Node? && (t.left.Leaf? || t.right.Leaf?)
    ensures Root(Child(t)) in m && Holder(c) in m
    ensures var m' := Spliced(m, t.ptr, Root(Child(t)), Holder(c));
            && m'.Keys == m.Keys && Holds(m', c, Child(t)) && m'[Root(Child(t))].parent == Holder(c) &&
                 m'[t.ptr] == m[t.ptr]
  {
    var x, h := Child(t), Holder(c);
    Cells(m, c, t);
    HolePointer(m, c, t);
    NodeParts(m, h, t);
    var m' := Spliced(m, t.ptr, Root(x), h);
    assert x.Node? ==> x.ptr in Ptrs(x) && x.ptr in Ptrs(t) && x.ptr !in CtxPtrs(c);
    assert Rep(m, t.ptr, x) && Distinct(x);
    hide Holds;
    SplicedCells(m, t.ptr, Root(x), h);
    assert x.Node? ==> Root(x) != h;
    Reparent(m, m', t.ptr, h, x);
    ChangeHole(m, m', c, t.ptr, Root(x));
    assert Ptrs(x) <= Ptrs(t);
    assert Holds(m', c, x) by { HoldsParts(m', c, x); }
  }

  lemma SplicedCells(m: Memory, p: Ptr, child: Ptr, h: Ptr)
    requires p in m && child in m && h in m && NIL in m && p != child && p != h && (child == h ==> h == NIL)
    ensures var m' := Spliced(m, p, child, h);
            && m'.Keys == m.Keys && m'[p] == m[p] && m'[child].parent == h
            && (child != h ==> m'[child] == m[child].(parent := h))
            && (child != h ==> m'[h] == if m[h].left == p then m[h].(left := child) else m[h].(right := child))
            && (child == h ==> m'[h] == if m[h].left == p then m[h].(left := child, parent := h) else
                 m[h].(right := child, parent := h))
            && forall q :: q in m && q != child && q != h ==> m'[q] == m[q]
  {
  }

  // ---- putting the successor in the place of a node

  /** The memory after `next`, which is in no tree, has taken the place and the colour of p. */
  function Installed(m: Memory, next: Ptr, p: Ptr): Memory
    requires p in m && next in m && m[p].left in m && m[p].right in m && m[p].parent in m
  {
    var m1 := m[next := Cell(m[p].left, m[p].right, m[p].parent, m[next].red, m[next].key)];
    var m2 := Under(m1, m[p].left, next);
    var m3 := Under(m2, m[p].right, next);
    var m4 := Painted(m3, next, m3[p].red);
    var m5 := Painted(m4, p, m[next].red);
    Linked(m5, m[p].parent, p, next)
  }

  lemma InstalledCells(m: Memory, next: Ptr, p: Ptr, l: Ptr, r: Ptr, h: Ptr)
    requires p in m && next in m && NIL in m && l in m && r in m && h in m
    requires m[p].left == l && m[p].right == r && m[p].parent == h && p != next && p != NIL && next != NIL
    requires l != p && r != p && h != p && l != next && r != next && h != next
    requires l != NIL && l != r && l != h && (r != NIL ==> r != h)
    ensures var m' := Installed(m, next, p);
            && m'.Keys == m.Keys && m'[next] == Cell(l, r, h, m[p].red, m[next].key) && m'[p].red == m[next].red
            && m'[l] == m[l].(parent := next) && (r != NIL ==> m'[r] == m[r].(parent := next))
            && (h != NIL ==> m'[h] == if m[h].left == p then m[h].(left := next) else m[h].(right := next))
            && m'[NIL].red == m[NIL].red
            && (h != NIL || m[h].left == p ==> m'[NIL].right == m[NIL].right)
            && m'[NIL].left == (if h == NIL && m[h].left == p then next else m[NIL].left)
            && m'[NIL].parent == (if r == NIL then next else m[NIL].parent)
            && Kept(m, m', m.Keys - {next, p, l, r, h, NIL})
  {
  }

  lemma InstallHolds(m: Memory, c: Ctx, t: Tree, next: Ptr)
    requires Holds(m, c, t) && t.Node? && t.left.Node? && next in m && next != NIL && next !in Ptrs(t)
    requires next !in CtxPtrs(c)
    ensures t.ptr in m && m[t.ptr].left in m && m[t.ptr].right in m && m[t.ptr].parent in m && NIL in m
    ensures var m' := Installed(m, next, t.ptr);
            && m'.Keys == m.Keys && m'[t.ptr].red == m[next].red
            && Holds(m', c, Node(t.left, next, m[next].key, t.red, t.right))
            && m'[NIL].parent == if t.right.Leaf? then next else m[NIL].parent
  {
    Cells(m, c, t);
    HolePointer(m, c, t);
    NodeParts(m, Holder(c), t);
    RootApart(m, c, t.left, t);
    RootApart(m, c, t.right, t);
    var p, l, r, h := t.ptr, Root(t.left), Root(t.right), Holder(c);
    assert t.right.Node? ==> r in Ptrs(t.right);
    assert l in Ptrs(t.left);
    var m' := Installed(m, next, p);
    InstalledCells(m, next, p, l, r, h);
    hide Installed;
    InstalledParts(m, m', c, t, next);
    var t' := Node(t.left, next, m[next].key, t.red, t.right);
    assert Distinct(t') && Ptrs(t') == Ptrs(t.left) + {next} + Ptrs(t.right);
  }

  lemma RootApart(m: Memory, c: Ctx, s: Tree, t: Tree)
    requires Holds(m, c, t) && t.Node? && (s == t.left || s == t.right)
    ensures s.Node? ==>
              Root(s) in Ptrs(s) && Root(s) !in {NIL, t.ptr, Holder(c)} && Root(s) !in CtxPtrs(c)
    ensures Root(s) in m
  {
    Cells(m, c, t);
    HolePointer(m, c, t);
    NodeParts(m, Holder(c), t);
  }

  lemma {:induction false} InstalledParts(m: Memory, m': Memory, c: Ctx, t: Tree, next: Ptr)
    requires Holds(m, c, t) && t.Node? && next !in Ptrs(t) && next !in CtxPtrs(c) && NIL in m && m'.Keys == m.Keys
    requires t.left.Node? ==> t.left.ptr in m && m'[t.left.ptr] == m[t.left.ptr].(parent := next)
    requires t.right.Node? ==> t.right.ptr in m && m'[t.right.ptr] == m[t.right.ptr].(parent := next)
    requires c.InLeft? ==> c.ptr in m && m'[c.ptr] == m[c.ptr].(left := next)
    requires c.InRight? ==> c.ptr in m && m'[c.ptr] == m[c.ptr].(right := next)
    requires m'[NIL].red == m[NIL].red && m'[NIL].right == m[NIL].right
    requires m'[NIL].left == if c.Top? then next else m[NIL].left
    requires Kept(m, m', m.Keys - {next, t.ptr, Root(t.left), Root(t.right), Holder(c), NIL})
    ensures Rep(m', next, t.left) && Rep(m', next, t.right) && RepCtx(m', c, next)
  {
    HolePointer(m, c, t);
    NodeParts(m, Holder(c), t);
    RootApart(m, c, t.left, t);
    RootApart(m, c, t.right, t);
    assert t.ptr in Ptrs(t) && t.ptr !in CtxPtrs(c);
    hide Rep, RepCtx, Distinct, CtxDistinct;
    Reparent(m, m', t.ptr, next, t.left);
    Reparent(m, m', t.ptr, next, t.right);
    ChangeHole(m, m', c, t.ptr, next);
  }

  // ---- a missing black node

  /** The context with its outermost node, the root of the tree, coloured. */
  function RootPainted(c: Ctx, red: bool): Ctx {
    match c
    case Top => Top
    case InLeft(up, p, k, r, t) =>
      if up.Top? then InLeft(up, p, k, red, t) else InLeft(RootPainted(up, red), p, k, r, t)
    case InRight(t, p, k, r, up) =>
      if up.Top? then InRight(t, p, k, red, up) else InRight(t, p, k, r, RootPainted(up, red))
  }

  function Blackened(c: Ctx): Ctx { RootPainted(c, false) }

  predicate RootRed(c: Ctx) { !c.Top? && if c.up.Top? then c.red else RootRed(c.up) }

  /** x is one black node short of what the rest of the tree, with a black root, needs. */
  ghost predicate Short(m: Memory, c: Ctx, x: Tree, h: nat, s: Entries) {
    && Holds(m, c, x) && !c.Top? && !IsRed(x) && Balanced(x, h) && CtxBalanced(Blackened(c), h + 1)
    && Inorder(Plug(c, x)) == s
  }

  /** At the head of the loop: x can be coloured black and all is well, or it is short. */
  ghost predicate Deficit(m: Memory, c: Ctx, x: Tree, h: nat, s: Entries) {
    && Holds(m, c, x) && CtxBalanced(Blackened(c), h + 1) && Inorder(Plug(c, x)) == s
    && if IsRed(x) then Balanced(x.(red := false), h + 1) else Balanced(x, h) && RootRed(c)
  }

  /** Nothing is wrong but perhaps the colour of the root. */
  ghost predicate Settled(m: Memory, c: Ctx, t: Tree, h: nat, s: Entries) {
    && Holds(m, c, t) && t.Node? && CtxBalanced(Blackened(c), h) && Balanced(t, h)
    && !(HolderRed(Blackened(c)) && IsRed(t)) && Inorder(Plug(c, t)) == s
  }

  lemma PaintedInorder(t: Tree, red: bool)
    requires t.Node?
    ensures Inorder(t.(red := red)) == Inorder(t)
  {
  }

  lemma GrownInorder(t: Tree, t': Tree)
    requires t.Node? && t'.Node? && t.ptr == t'.ptr && t.key == t'.key
    requires Inorder(t.left) == Inorder(t'.left) && Inorder(t.right) == Inorder(t'.right)
    ensures Inorder(t) == Inorder(t')
  {
  }

  lemma BrotherChanged(c: Ctx, r: Tree, h: nat)
    requires !c.Top? && CtxBalanced(Blackened(c), h) && Balanced(r, h) && !IsRed(r)
    ensures c.InLeft? ==> CtxBalanced(Blackened(InLeft(c.up, c.ptr, c.key, c.red, r)), h)
    ensures c.InRight? ==> CtxBalanced(Blackened(InRight(r, c.ptr, c.key, c.red, c.up)), h)
  {
  }

  /** Left: the red sister comes up, and the deficit now has a black sister. */
  lemma RedSisterLeft(m: Memory, c: Ctx, x: Tree, h: nat, s: Entries)
    requires Short(m, c, x, h, s) && c.InLeft? && IsRed(Brother(c)) && (c.up.Top? || !c.red)
    ensures c.ptr in m && Root(Brother(c)) in m
    ensures var m' := Painted(Painted(m, Root(Brother(c)), false), c.ptr, true);
            && c.ptr in m' && m'[c.ptr].right in m' && m'[m'[c.ptr].right].left in m' && m'[c.ptr].parent in m'
            && Short(RotatedLeft(m', c.ptr),
                 InLeft(InLeft(c.up, c.right.ptr, c.right.key, false, c.right.right), c.ptr, c.key, true,
                     c.right.left), x, h, s)
            && !IsRed(c.right.left)
  {
    hide Holds, Inorder, Plug, RotatedLeft;
    var p := Grow(c, x);
    GoUp(m, c, x);
    TurnedLeftHolds(m, c.up, p);
    var p' := Node(x, c.ptr, c.key, true, c.right.(red := false));
    assert Inorder(p') == Inorder(p) by { PaintedInorder(c.right, false); GrownInorder(p, p'); }
    LeftTurnedInorder(p');
    SameInorder(c.up, p, LeftTurned(p'));
    var up1 := InLeft(c.up, c.right.ptr, c.right.key, false, c.right.right);
    var c1 := InLeft(up1, c.ptr, c.key, true, c.right.left);
    assert Grow(up1, Grow(c1, x)) == LeftTurned(p');
    var m' := RotatedLeft(Painted(Painted(m, Root(Brother(c)), false), c.ptr, true), c.ptr);
    GoUp(m', up1, Grow(c1, x));
    GoUp(m', c1, x);
    assert CtxBalanced(Blackened(up1), h + 1);
    assert CtxBalanced(Blackened(c1), h + 1);
  }

  /** Left: the near nephew comes up, so that the sister's far child is red. */
  lemma NearNephewLeft(m: Memory, c: Ctx, x: Tree, h: nat, s: Entries)
    requires Short(m, c, x, h, s) && c.InLeft? && !IsRed(c.right) && c.right.Node? && IsRed(c.right.left)
    requires !IsRed(c.right.right)
    ensures c.right.ptr in m && c.right.left.ptr in m
    ensures var m' := Painted(Painted(m, c.right.left.ptr, false), c.right.ptr, true);
            && c.right.ptr in m' && m'[c.right.ptr].left in m' && m'[m'[c.right.ptr].left].right in m' &&
                 m'[c.right.ptr].parent in m'
            && var r := RightTurned(Node(c.right.left.(red := false), c.right.ptr, c.right.key, true, c.right.right));
               Short(RotatedRight(m', c.right.ptr), InLeft(c.up, c.ptr, c.key, c.red, r), x, h, s) && !IsRed(r) &&
                   IsRed(r.right)
  {
    hide Holds, Inorder, Plug, RotatedRight;
    var p, r0 := Grow(c, x), c.right;
    var r1 := Node(r0.left.(red := false), r0.ptr, r0.key, true, r0.right);
    var r := RightTurned(r1);
    GoUp(m, c, x);
    FocusRight(m, c.up, p);
    var cr := InRight(x, c.ptr, c.key, c.red, c.up);
    TurnedRightHolds(m, cr, r0);
    var m' := RotatedRight(Painted(Painted(m, r0.left.ptr, false), r0.ptr, true), r0.ptr);
    var c', p' := InLeft(c.up, c.ptr, c.key, c.red, r), Node(x, c.ptr, c.key, c.red, r);
    FocusRight(m', c.up, p');
    GoUp(m', c', x);
    assert Inorder(r1) == Inorder(r0) by { PaintedInorder(r0.left, false); GrownInorder(r0, r1); }
    RightTurnedInorder(r1);
    GrownInorder(p, p');
    SameInorder(c.up, p, p');
    assert Balanced(r0, h + 1);
    assert Balanced(r0.left, h) && Balanced(r0.right, h);
    assert Balanced(r.right, h);
    assert Balanced(r, h + 1);
    BrotherChanged(c, r, h + 1);
  }

  /** Left: both nephews are black, so the sister turns red and the deficit moves up. */
  lemma BlackNephewsLeft(m: Memory, c: Ctx, x: Tree, h: nat, s: Entries)
    requires Short(m, c, x, h, s) && c.InLeft? && !IsRed(c.right) && c.right.Node? && !IsRed(c.right.left)
    requires !IsRed(c.right.right)
    requires c.red || (RootRed(c) && !c.up.Top?)
    ensures c.right.ptr in m
    ensures Deficit(Painted(m, c.right.ptr, true), c.up, Node(x, c.ptr, c.key, c.red, c.right.(red := true)),
              if c.red then h else h + 1, s)
  {
    hide Holds, Inorder, Plug, Painted;
    var p, p' := Grow(c, x), Node(x, c.ptr, c.key, c.red, c.right.(red := true));
    GoUp(m, c, x);
    FocusRight(m, c.up, p);
    var cr := InRight(x, c.ptr, c.key, c.red, c.up);
    Recolour(m, cr, c.right, true);
    var m' := Painted(m, c.right.ptr, true);
    FocusRight(m', c.up, p');
    PaintedInorder(c.right, true);
    GrownInorder(p, p');
    SameInorder(c.up, p, p');
    assert Balanced(c.right.(red := true), h);
    assert Balanced(p'.(red := false), h + 1);
    assert !c.red ==> p' == p'.(red := false);
  }

  /** Left: a red far nephew makes up for the missing black. */
  lemma FarNephewLeft(m: Memory, c: Ctx, x: Tree, h: nat, s: Entries)
    requires Short(m, c, x, h, s) && c.InLeft? && !IsRed(c.right) && c.right.Node? && IsRed(c.right.right)
    ensures c.right.ptr in m && c.right.right.ptr in m && c.ptr in m
    ensures var m' := Painted(Painted(Painted(m, c.right.ptr, c.red), c.right.right.ptr, false), c.ptr, false);
            && c.ptr in m' && m'[c.ptr].right in m' && m'[m'[c.ptr].right].left in m' && m'[c.ptr].parent in m'
            && Root(x) in RotatedLeft(m', c.ptr) && !RotatedLeft(m', c.ptr)[Root(x)].red
            && Settled(RotatedLeft(m', c.ptr), c.up, LeftTurned(Node(x, c.ptr, c.key, false, FarPaintedLeft(c))),
                 if c.red then h + 1 else h + 2, s)
  {
    hide Holds, Inorder, Plug, RotatedLeft;
    var p, r := Grow(c, x), FarPaintedLeft(c);
    GoUp(m, c, x);
    FocusRight(m, c.up, p);
    var cr := InRight(x, c.ptr, c.key, c.red, c.up);
    Recolour(m, cr, c.right, c.red);
    var m1, r1 := Painted(m, c.right.ptr, c.red), c.right.(red := c.red);
    FocusRight(m1, cr, r1);
    Recolour(m1, InRight(r1.left, r1.ptr, r1.key, r1.red, cr), r1.right, false);
    var m2 := Painted(m1, c.right.right.ptr, false);
    FocusRight(m2, cr, r);
    var p2 := Node(x, c.ptr, c.key, c.red, r);
    FocusRight(m2, c.up, p2);
    Recolour(m2, c.up, p2, false);
    var m3, p3 := Painted(m2, c.ptr, false), p2.(red := false);
    LeftReady(m3, c.up, p3);
    LeftHolds(m3, c.up, p3);
    var m4, q := RotatedLeft(m3, c.ptr), LeftTurned(p3);
    FocusLeft(m4, c.up, q);
    var cq := InLeft(c.up, q.ptr, q.key, q.red, q.right);
    FocusLeft(m4, cq, q.left);
    Cells(m4, InLeft(cq, q.left.ptr, q.left.key, q.left.red, q.left.right), x);
    assert Inorder(r) == Inorder(c.right) by { PaintedInorder(c.right.right, false); GrownInorder(c.right, r); }
    GrownInorder(p, p3);
    LeftTurnedInorder(p3);
    SameInorder(c.up, p, q);
    assert Balanced(c.right, h + 1);
    assert Balanced(c.right.left, h) && Balanced(c.right.right, h);
    assert Balanced(q.left, h + 1) && Balanced(q.right, h + 1);
    assert Balanced(q, if c.red then h + 1 else h + 2);
  }

  /** The sister with her parent's colour and a black far child. */
  function FarPaintedLeft(c: Ctx): Tree
    requires c.InLeft? && c.right.Node? && c.right.right.Node?
  {
    Node(c.right.left, c.right.ptr, c.right.key, c.red, c.right.right.(red := false))
  }

  /** Right: the red sister comes up, and the deficit now has a black sister. */
  lemma RedSisterRight(m: Memory, c: Ctx, x: Tree, h: nat, s: Entries)
    requires Short(m, c, x, h, s) && c.InRight? && IsRed(Brother(c)) && (c.up.Top? || !c.red)
    ensures c.ptr in m && Root(Brother(c)) in m
    ensures var m' := Painted(Painted(m, Root(Brother(c)), false), c.ptr, true);
            && c.ptr in m' && m'[c.ptr].left in m' && m'[m'[c.ptr].left].right in m' && m'[c.ptr].parent in m'
            && Short(RotatedRight(m', c.ptr),
                 InRight(c.left.right, c.ptr, c.key, true, InRight(c.left.left, c.left.ptr, c.left.key, false, c.up)),
                     x, h, s)
            && !IsRed(c.left.right)
  {
    hide Holds, Inorder, Plug, RotatedRight;
    var p := Grow(c, x);
    GoUp(m, c, x);
    TurnedRightHolds(m, c.up, p);
    var p' := Node(c.left.(red := false), c.ptr, c.key, true, x);
    assert Inorder(p') == Inorder(p) by { PaintedInorder(c.left, false); GrownInorder(p, p'); }
    RightTurnedInorder(p');
    SameInorder(c.up, p, RightTurned(p'));
    var up1 := InRight(c.left.left, c.left.ptr, c.left.key, false, c.up);
    var c1 := InRight(c.left.right, c.ptr, c.key, true, up1);
    assert Grow(up1, Grow(c1, x)) == RightTurned(p');
    var m' := RotatedRight(Painted(Painted(m, Root(Brother(c)), false), c.ptr, true), c.ptr);
    GoUp(m', up1, Grow(c1, x));
    GoUp(m', c1, x);
    assert CtxBalanced(Blackened(up1), h + 1);
    assert CtxBalanced(Blackened(c1), h + 1);
  }

  /** Right: the near nephew comes up, so that the sister's far child is red. */
  lemma NearNephewRight(m: Memory, c: Ctx, x: Tree, h: nat, s: Entries)
    requires Short(m, c, x, h, s) && c.InRight? && !IsRed(c.left) && c.left.Node? && IsRed(c.left.right)
    requires !IsRed(c.left.left)
    ensures c.left.ptr in m && c.left.right.ptr in m
    ensures var m' := Painted(Painted(m, c.left.right.ptr, false), c.left.ptr, true);
            && c.left.ptr in m' && m'[c.left.ptr].right in m' && m'[m'[c.left.ptr].right].left in m' &&
                 m'[c.left.ptr].parent in m'
            && var r := LeftTurned(Node(c.left.left, c.left.ptr, c.left.key, true, c.left.right.(red := false)));
               Short(RotatedLeft(m', c.left.ptr), InRight(r, c.ptr, c.key, c.red, c.up), x, h, s) && !IsRed(r) &&
                   IsRed(r.left)
  {
    hide Holds, Inorder, Plug, RotatedLeft;
    var p, r0 := Grow(c, x), c.left;
    var r1 := Node(r0.left, r0.ptr, r0.key, true, r0.right.(red := false));
    var r := LeftTurned(r1);
    GoUp(m, c, x);
    FocusLeft(m, c.up, p);
    var cr := InLeft(c.up, c.ptr, c.key, c.red, x);
    TurnedLeftHolds(m, cr, r0);
    var m' := RotatedLeft(Painted(Painted(m, r0.right.ptr, false), r0.ptr, true), r0.ptr);
    var c', p' := InRight(r, c.ptr, c.key, c.red, c.up), Node(r, c.ptr, c.key, c.red, x);
    FocusLeft(m', c.up, p');
    GoUp(m', c', x);
    assert Inorder(r1) == Inorder(r0) by { PaintedInorder(r0.right, false); GrownInorder(r0, r1); }
    LeftTurnedInorder(r1);
    GrownInorder(p, p');
    SameInorder(c.up, p, p');
    assert Balanced(r0, h + 1);
    assert Balanced(r0.left, h) && Balanced(r0.right, h);
    assert Balanced(r.left, h);
    assert Balanced(r, h + 1);
    BrotherChanged(c, r, h + 1);
  }

  /** Right: both nephews are black, so the sister turns red and the deficit moves up. */
  lemma BlackNephewsRight(m: Memory, c: Ctx, x: Tree, h: nat, s: Entries)
    requires Short(m, c, x, h, s) && c.InRight? && !IsRed(c.left) && c.left.Node? && !IsRed(c.left.right)
    requires !IsRed(c.left.left)
    requires c.red || (RootRed(c) && !c.up.Top?)
    ensures c.left.ptr in m
    ensures Deficit(Painted(m, c.left.ptr, true), c.up, Node(c.left.(red := true), c.ptr, c.key, c.red, x),
              if c.red then h else h + 1, s)
  {
    hide Holds, Inorder, Plug, Painted;
    var p, p' := Grow(c, x), Node(c.left.(red := true), c.ptr, c.key, c.red, x);
    GoUp(m, c, x);
    FocusLeft(m, c.up, p);
    var cr := InLeft(c.up, c.ptr, c.key, c.red, x);
    Recolour(m, cr, c.left, true);
    var m' := Painted(m, c.left.ptr, true);
    FocusLeft(m', c.up, p');
    PaintedInorder(c.left, true);
    GrownInorder(p, p');
    SameInorder(c.up, p, p');
    assert Balanced(c.left.(red := true), h);
    assert Balanced(p'.(red := false), h + 1);
    assert !c.red ==> p' == p'.(red := false);
  }

  /** Right: a red far nephew makes up for the missing black. */
  lemma FarNephewRight(m: Memory, c: Ctx, x: Tree, h: nat, s: Entries)
    requires Short(m, c, x, h, s) && c.InRight? && !IsRed(c.left) && c.left.Node? && IsRed(c.left.left)
    ensures c.left.ptr in m && c.left.left.ptr in m && c.ptr in m
    ensures var m' := Painted(Painted(Painted(m, c.left.ptr, c.red), c.left.left.ptr, false), c.ptr, false);
            && c.ptr in m' && m'[c.ptr].left in m' && m'[m'[c.ptr].left].right in m' && m'[c.ptr].parent in m'
            && Root(x) in RotatedRight(m', c.ptr) && !RotatedRight(m', c.ptr)[Root(x)].red
            && Settled(RotatedRight(m', c.ptr), c.up, RightTurned(Node(FarPaintedRight(c), c.ptr, c.key, false, x)),
                 if c.red then h + 1 else h + 2, s)
  {
    hide Holds, Inorder, Plug, RotatedRight;
    var p, r := Grow(c, x), FarPaintedRight(c);
    GoUp(m, c, x);
    FocusLeft(m, c.up, p);
    var cr := InLeft(c.up, c.ptr, c.key, c.red, x);
    Recolour(m, cr, c.left, c.red);
    var m1, r1 := Painted(m, c.left.ptr, c.red), c.left.(red := c.red);
    FocusLeft(m1, cr, r1);
    Recolour(m1, InLeft(cr, r1.ptr, r1.key, r1.red, r1.right), r1.left, false);
    var m2 := Painted(m1, c.left.left.ptr, false);
    FocusLeft(m2, cr, r);
    var p2 := Node(r, c.ptr, c.key, c.red, x);
    FocusLeft(m2, c.up, p2);
    Recolour(m2, c.up, p2, false);
    var m3, p3 := Painted(m2, c.ptr, false), p2.(red := false);
    RightReady(m3, c.up, p3);
    RightHolds(m3, c.up, p3);
    var m4, q := RotatedRight(m3, c.ptr), RightTurned(p3);
    FocusRight(m4, c.up, q);
    var cq := InRight(q.left, q.ptr, q.key, q.red, c.up);
    FocusRight(m4, cq, q.right);
    Cells(m4, InRight(q.right.left, q.right.ptr, q.right.key, q.right.red, cq), x);
    assert Inorder(r) == Inorder(c.left) by { PaintedInorder(c.left.left, false); GrownInorder(c.left, r); }
    GrownInorder(p, p3);
    RightTurnedInorder(p3);
    SameInorder(c.up, p, q);
    assert Balanced(c.left, h + 1);
    assert Balanced(c.left.left, h) && Balanced(c.left.right, h);
    assert Balanced(q.right, h + 1) && Balanced(q.left, h + 1);
    assert Balanced(q, if c.red then h + 1 else h + 2);
  }

  /** The sister with her parent's colour and a black far child. */
  function FarPaintedRight(c: Ctx): Tree
    requires c.InRight? && c.left.Node? && c.left.left.Node?
  {
    Node(c.left.left.(red := false), c.left.ptr, c.left.key, c.red, c.left.right)
  }

  // ---- the colour of the root

  lemma {:induction false} RootPaintedPlug(c: Ctx, t: Tree, red: bool)
    requires !c.Top?
    ensures Plug(c, t).Node? && Plug(RootPainted(c, red), t) == Plug(c, t).(red := red)
  {
    if !c.up.Top? { RootPaintedPlug(c.up, Grow(c, t), red); }
  }

  lemma {:induction false} RootPaintedTwice(c: Ctx, red: bool)
    requires RootBlack(c)
    ensures Blackened(RootPainted(c, red)) == c && (!c.Top? && red ==> RootRed(RootPainted(c, red)))
  {
    if !c.Top? && !c.up.Top? { RootPaintedTwice(c.up, red); }
  }

  lemma RecolourRoot(m: Memory, c: Ctx, t: Tree, red: bool)
    requires Holds(m, c, t) && !c.Top?
    ensures NIL in m && m[NIL].left in m && m[NIL].left == Root(Plug(c, t))
    ensures Holds(Painted(m, m[NIL].left, red), RootPainted(c, red), t)
    ensures Painted(m, m[NIL].left, red)[NIL] == m[NIL]
  {
    FocusWhole(m, c, t);
    RootPaintedPlug(c, t, red);
    Cells(m, Top, Plug(c, t));
    Recolour(m, Top, Plug(c, t), red);
    FocusWhole(Painted(m, m[NIL].left, red), RootPainted(c, red), t);
  }

  /** A black node above x has been taken out. */
  ghost predicate Lost(m: Memory, c: Ctx, x: Tree, h: nat, s: Entries) {
    && Holds(m, c, x) && Balanced(x, h) && CtxBalanced(c, h + 1) && RootBlack(c) && Inorder(Plug(c, x)) == s
    && Root(x) in m && m[Root(x)].parent == Holder(c)
  }

  /** Colouring the root red sets the loop up. */
  lemma StartDeficit(m: Memory, c: Ctx, x: Tree, h: nat, s: Entries) returns (c': Ctx, x': Tree, h': nat)
    requires Lost(m, c, x, h, s) && !(c.Top? && x.Leaf?)
    ensures NIL in m && m[NIL].left in m
    ensures var m' := Painted(m, m[NIL].left, true);
            Deficit(m', c', x', h', s) && Root(x') == Root(x) && Root(x) in m' && m'[Root(x)].parent == Holder(c')
  {
    hide Holds;
    Cells(m, c, x);
    if c.Top? {
      Recolour(m, c, x, true);
      PlugInorder(c, x);
      PlugInorder(c, x.(red := true));
      c', x', h' := c, x.(red := true), if x.red then h else h - 1;
      assert x.red ==> Balanced(x.(red := false), h + 1);
      assert !x.red ==> x'.(red := false) == x;
    } else {
      RecolourRoot(m, c, x, true);
      RootPaintedTwice(c, true);
      RootPaintedPlug(c, x, true);
      PaintedInorder(Plug(c, x), true);
      c', x', h' := RootPainted(c, true), x, h;
      HolderPainted(c, true);
      assert IsRed(x) ==> Balanced(x.(red := false), h + 1);
    }
  }

  lemma HolderPainted(c: Ctx, red: bool)
    ensures Holder(RootPainted(c, red)) == Holder(c)
  {
  }

  /** The loop ended at a red node: colouring it black settles the tree. */
  lemma EndDeficit(m: Memory, c: Ctx, x: Tree, h: nat, s: Entries)
    requires Deficit(m, c, x, h, s) && IsRed(x)
    ensures x.ptr in m && Settled(Painted(m, x.ptr, false), c, x.(red := false), h + 1, s)
  {
    hide Holds;
    Recolour(m, c, x, false);
    PaintedInorder(x, false);
    SameInorder(c, x, x.(red := false));
  }

  lemma SettleRoot(m: Memory, c: Ctx, t: Tree, h: nat, s: Entries)
    requires Settled(m, c, t, h, s)
    ensures NIL in m && m[NIL].left in m && Plug(c, t).Node?
    ensures var w := Plug(c, t).(red := false);
            Holds(Painted(m, m[NIL].left, false), Top, w) && IsBalanced(w) && Inorder(w) == s
  {
    FocusWhole(m, c, t);
    PlugIsNode(c, t);
    Cells(m, Top, Plug(c, t));
    Recolour(m, Top, Plug(c, t), false);
    PaintedInorder(Plug(c, t), false);
    if c.Top? {
      assert Balanced(t.(red := false), if t.red then h + 1 else h);
    } else {
      RootPaintedPlug(c, t, false);
      PlugBalanced(Blackened(c), t, h);
    }
  }

  /** The cells the loop reads around a short subtree. */
  lemma ShortCells(m: Memory, c: Ctx, x: Tree, h: nat, s: Entries)
    requires Short(m, c, x, h, s)
    ensures c.ptr in m && Root(x) in m && c.ptr != NIL && Brother(c).Node? && Brother(c).ptr in m && !m[Root(x)].red
    ensures c.InLeft? ==> m[c.ptr].left == Root(x) && m[c.ptr].right == Brother(c).ptr
    ensures c.InRight? ==> m[c.ptr].right == Root(x) && m[c.ptr].left == Brother(c).ptr && Brother(c).ptr != Root(x)
    ensures m[c.ptr].red == c.red && m[Brother(c).ptr].red == Brother(c).red
    ensures Root(Brother(c).left) in m && m[Brother(c).ptr].left == Root(Brother(c).left)
    ensures m[Root(Brother(c).left)].red == IsRed(Brother(c).left)
    ensures Root(Brother(c).right) in m && m[Brother(c).ptr].right == Root(Brother(c).right)
    ensures m[Root(Brother(c).right)].red == IsRed(Brother(c).right)
  {
    assert h > 0;
    assert Balanced(Brother(c), h + 1);
    hide Holds, Balanced, CtxBalanced, RootPainted;
    Cells(m, c, x);
    GoUp(m, c, x);
    var p, b := Grow(c, x), Brother(c);
    var cb: Ctx;
    if c.InLeft? {
      FocusRight(m, c.up, p);
      cb := InRight(x, c.ptr, c.key, c.red, c.up);
    } else {
      FocusLeft(m, c.up, p);
      cb := InLeft(c.up, c.ptr, c.key, c.red, x);
    }
    Cells(m, cb, b);
    FocusLeft(m, cb, b);
    FocusRight(m, cb, b);
    Cells(m, InLeft(cb, b.ptr, b.key, b.red, b.right), b.left);
    Cells(m, InRight(b.left, b.ptr, b.key, b.red, cb), b.right);
  }

  // ---- the successor of a node with two children

  function FirstNode(r: Tree): (n: Tree)
    requires r.Node?
    ensures n.Node? && n.left.Leaf?
  {
    if r.left.Leaf? then r else FirstNode(r.left)
  }

  function WithoutFirst(r: Tree): Tree
    requires r.Node?
  {
    if r.left.Leaf? then r.right else Node(WithoutFirst(r.left), r.ptr, r.key, r.red, r.right)
  }

  function FirstCtx(c: Ctx, r: Tree): Ctx
    requires r.Node?
    decreases r
  {
    if r.left.Leaf? then c else FirstCtx(InLeft(c, r.ptr, r.key, r.red, r.right), r.left)
  }

  lemma {:induction false} FirstPlug(c: Ctx, r: Tree)
    requires r.Node?
    ensures Plug(FirstCtx(c, r), FirstNode(r)) == Plug(c, r)
    ensures Plug(FirstCtx(c, r), FirstNode(r).right) == Plug(c, WithoutFirst(r))
    ensures Before(FirstCtx(c, r)) == Before(c)
    decreases r
  {
    if r.left.Node? { FirstPlug(InLeft(c, r.ptr, r.key, r.red, r.right), r.left); }
  }

  lemma {:induction false} FirstInorder(r: Tree)
    requires r.Node?
    ensures Inorder(r) == [(FirstNode(r).ptr, FirstNode(r).key)] + Inorder(WithoutFirst(r))
  {
    if r.left.Node? {
      FirstInorder(r.left);
      var e := [(FirstNode(r).ptr, FirstNode(r).key)];
      assert (e + Inorder(WithoutFirst(r.left))) + [(r.ptr, r.key)] + Inorder(r.right)
          == e + (Inorder(WithoutFirst(r.left)) + [(r.ptr, r.key)] + Inorder(r.right));
    } else {
      assert Inorder(r) == [(r.ptr, r.key)] + Inorder(r.right);
    }
  }

  /** Contexts of the same colours. */
  ghost predicate Alike(c: Ctx, c': Ctx) {
    && !c.Top? && !c'.Top? && HolderRed(c) == HolderRed(c') && RootBlack(c) == RootBlack(c')
    && forall k: nat :: CtxBalanced(c, k) == CtxBalanced(c', k)
  }

  lemma AlikeBelow(c: Ctx, c': Ctx, p: Ptr, key: int, red: bool, r: Tree)
    requires Alike(c, c')
    ensures Alike(InLeft(c, p, key, red, r), InLeft(c', p, key, red, r))
  {
    var d, d' := InLeft(c, p, key, red, r), InLeft(c', p, key, red, r);
    forall k: nat ensures CtxBalanced(d, k) == CtxBalanced(d', k) {
      assert CtxBalanced(c, k) == CtxBalanced(c', k) && CtxBalanced(c, k + 1) == CtxBalanced(c', k + 1);
    }
  }

  /** Which node sits above does not matter to the colours. */
  lemma {:induction false} AlikeFirst(c: Ctx, c': Ctx, r: Tree)
    requires r.Node? && Alike(c, c')
    ensures Alike(FirstCtx(c, r), FirstCtx(c', r))
    decreases r
  {
    if r.left.Node? {
      AlikeBelow(c, c', r.ptr, r.key, r.red, r.right);
      AlikeFirst(InLeft(c, r.ptr, r.key, r.red, r.right), InLeft(c', r.ptr, r.key, r.red, r.right), r.left);
    }
  }

  // ---- the first half of dict_delete

  /** p has left the tree; it carries the colour that is missing above x. */
  ghost predicate Unlinked(m: Memory, c: Ctx, x: Tree, h: nat, p: Ptr, s: Entries) {
    && Holds(m, c, x) && Inorder(Plug(c, x)) == s && RootBlack(c) && Root(x) in m && m[Root(x)].parent == Holder(c)
    && p in m && p != NIL && p !in Ptrs(x) && p !in CtxPtrs(c)
    && Balanced(x, h) && CtxBalanced(c, if m[p].red then h else h + 1) && (m[p].red ==> !IsRed(x) && !c.Top?)
  }

  lemma RemovedInorder(c: Ctx, t: Tree)
    requires t.Node? && (t.left.Leaf? || t.right.Leaf?) && Distinct(Plug(c, t))
    ensures Inorder(Plug(c, Child(t))) == Without(Inorder(Plug(c, t)), t.ptr)
  {
    var a, b := Before(c) + Inorder(t.left), Inorder(t.right) + Behind(c);
    PlugInorder(c, t);
    PlugInorder(c, Child(t));
    RegroupAround(Before(c), Inorder(t.left), [(t.ptr, t.key)], Inorder(t.right), Behind(c));
    InorderOnce(Plug(c, t));
    WithoutAt(a, (t.ptr, t.key), b);
    if t.left.Leaf? {
      assert a == Before(c);
      assert a + b == Before(c) + Inorder(t.right) + Behind(c);
    } else {
      assert b == Behind(c);
    }
  }

  /** A node with at most one child is taken out. */
  lemma Removed(m: Memory, c: Ctx, t: Tree) returns (h: nat)
    requires Holds(m, c, t) && t.Node? && (t.left.Leaf? || t.right.Leaf?) && IsBalanced(Plug(c, t))
    requires !IsRed(Plug(c, t))
    ensures t.ptr in m && Root(Child(t)) in m && Holder(c) in m
    ensures Unlinked(Spliced(m, t.ptr, Root(Child(t)), Holder(c)), c, Child(t), h, t.ptr,
              Without(Inorder(Plug(c, t)), t.ptr))
  {
    SpliceHolds(m, c, t);
    FocusWhole(m, c, t);
    RemovedInorder(c, t);
    Unplug(c, t);
    var k: nat :| Balanced(t, k) && CtxBalanced(c, k);
    h := if t.red then k else k - 1;
    NodeParts(m, Holder(c), t);
    hide Spliced, Inorder, Plug;
    assert Balanced(Child(t), h);
  }

  lemma ReplacedInorder(c: Ctx, t: Tree)
    requires t.Node? && t.right.Node? && Distinct(Plug(c, t))
    ensures var n := FirstNode(t.right);
            Inorder(Plug(c, Node(t.left, n.ptr, n.key, t.red, WithoutFirst(t.right)))) ==
                Without(Inorder(Plug(c, t)), t.ptr)
  {
    hide Inorder, Plug, Before, Behind, Without;
    var n, w := FirstNode(t.right), WithoutFirst(t.right);
    var a, b := Before(c) + Inorder(t.left), Inorder(t.right) + Behind(c);
    NodeInorder(c, t);
    NodeInorder(c, Node(t.left, n.ptr, n.key, t.red, w));
    FirstInorder(t.right);
    InorderOnce(Plug(c, t));
    WithoutAt(a, (t.ptr, t.key), b);
    Reassociate(a, [(n.ptr, n.key)], Inorder(w), Behind(c));
  }

  lemma Reassociate<T>(a: seq<T>, x: seq<T>, b: seq<T>, d: seq<T>)
    ensures a + ((x + b) + d) == a + x + (b + d)
  {
  }

  /** The successor, taken out of the right subtree. */
  lemma SuccessorOut(m: Memory, c: Ctx, t: Tree)
    requires Holds(m, c, t) && t.Node? && t.right.Node?
    ensures var n, cr := FirstNode(t.right), InRight(t.left, t.ptr, t.key, t.red, c);
            var f := FirstCtx(cr, t.right);
            && n.ptr in m && m[n.ptr] == Cell(NIL, Root(n.right), Holder(f), n.red, n.key) && Root(n.right) in m &&
                 Holder(f) in m
            && n.ptr != NIL && n.ptr != t.ptr
            && var m' := Spliced(m, n.ptr, Root(n.right), Holder(f));
               && m'.Keys == m.Keys && m'[n.ptr] == m[n.ptr] && m'[Root(n.right)].parent == Holder(f)
               && Holds(m', c, Node(t.left, t.ptr, t.key, t.red, WithoutFirst(t.right)))
               && n.ptr !in Ptrs(Node(t.left, t.ptr, t.key, t.red, WithoutFirst(t.right))) && n.ptr !in CtxPtrs(c)
  {
    var n, cr := FirstNode(t.right), InRight(t.left, t.ptr, t.key, t.red, c);
    var f := FirstCtx(cr, t.right);
    FocusRight(m, c, t);
    FirstPlug(cr, t.right);
    FocusWhole(m, cr, t.right);
    FocusWhole(m, f, n);
    Cells(m, f, n);
    SpliceHolds(m, f, n);
    var m' := Spliced(m, n.ptr, Root(n.right), Holder(f));
    assert Child(n) == n.right;
    var t' := Node(t.left, t.ptr, t.key, t.red, WithoutFirst(t.right));
    FocusWhole(m', f, n.right);
    FocusWhole(m', cr, WithoutFirst(t.right));
    FocusRight(m', c, t');
    hide Spliced;
    PlugPtrs(f, n.right);
    PlugPtrs(c, t');
    assert Plug(f, n.right) == Plug(c, t');
    SuccessorGone(m, f, n);
    assert t.ptr in Ptrs(t');
  }

  lemma SuccessorGone(m: Memory, f: Ctx, n: Tree)
    requires Holds(m, f, n) && n.Node?
    ensures n.ptr !in CtxPtrs(f) && n.ptr !in Ptrs(n.right)
  {
    assert n.ptr in Ptrs(n);
  }

  lemma ReplacedFocus(m: Memory, c: Ctx, t: Tree, p: Ptr, key: int)
    requires t.Node? && t.right.Node? && Holds(m, c, Node(t.left, p, key, t.red, WithoutFirst(t.right)))
    ensures var f := FirstCtx(InRight(t.left, p, key, t.red, c), t.right);
            && Holds(m, f, FirstNode(t.right).right)
            && Plug(f, FirstNode(t.right).right) == Plug(c, Node(t.left, p, key, t.red, WithoutFirst(t.right)))
  {
    var cr := InRight(t.left, p, key, t.red, c);
    FocusRight(m, c, Node(t.left, p, key, t.red, WithoutFirst(t.right)));
    FirstPlug(cr, t.right);
    FocusWhole(m, cr, WithoutFirst(t.right));
    FocusWhole(m, FirstCtx(cr, t.right), FirstNode(t.right).right);
  }

  lemma ReplacedColours(c: Ctx, t: Tree, p: Ptr, key: int) returns (h: nat)
    requires t.Node? && t.right.Node? && IsBalanced(Plug(c, t)) && !IsRed(Plug(c, t))
    ensures var f, n := FirstCtx(InRight(t.left, p, key, t.red, c), t.right), FirstNode(t.right);
            && RootBlack(f) && !f.Top? && Balanced(n.right, h) && CtxBalanced(f, if n.red then h else h + 1)
            && (n.red ==> !IsRed(n.right))
  {
    var cr, cr2 := InRight(t.left, t.ptr, t.key, t.red, c), InRight(t.left, p, key, t.red, c);
    var n := FirstNode(t.right);
    FirstPlug(cr, t.right);
    Unplug(FirstCtx(cr, t.right), n);
    assert Alike(cr, cr2);
    AlikeFirst(cr, cr2, t.right);
    var k: nat :| Balanced(n, k) && CtxBalanced(FirstCtx(cr, t.right), k);
    h := if n.red then k else k - 1;
  }

  lemma {:induction false} WithoutFirstPtrs(r: Tree)
    requires r.Node?
    ensures Ptrs(WithoutFirst(r)) <= Ptrs(r)
  {
    if r.left.Node? { WithoutFirstPtrs(r.left); }
  }

  /** The replaced node is nowhere in the tree. */
  lemma ReplacedApart(m: Memory, c: Ctx, t: Tree, p: Ptr, key: int)
    requires Holds(m, c, t) && t.Node? && t.right.Node? && p != t.ptr
    ensures var f := FirstCtx(InRight(t.left, p, key, t.red, c), t.right);
            t.ptr !in CtxPtrs(f) && t.ptr !in Ptrs(FirstNode(t.right).right)
  {
    var cr := InRight(t.left, p, key, t.red, c);
    FirstPlug(cr, t.right);
    PlugPtrs(FirstCtx(cr, t.right), FirstNode(t.right).right);
    PlugPtrs(cr, WithoutFirst(t.right));
    WithoutFirstPtrs(t.right);
    NodeParts(m, Holder(c), t);
  }

  lemma {:induction false} FirstHolder(c: Ctx, c': Ctx, r: Tree)
    requires r.Node? && (r.left.Node? || Holder(c) == Holder(c'))
    ensures Holder(FirstCtx(c, r)) == Holder(FirstCtx(c', r))
    decreases r
  {
    if r.left.Node? {
      FirstHolder(InLeft(c, r.ptr, r.key, r.red, r.right), InLeft(c', r.ptr, r.key, r.red, r.right), r.left);
    }
  }

  /** A node with two children gives its place and colour to its successor. */
  lemma Replaced(m: Memory, c: Ctx, t: Tree) returns (c': Ctx, x: Tree, h: nat)
    requires Holds(m, c, t) && t.Node? && t.left.Node? && t.right.Node? && IsBalanced(Plug(c, t)) && !IsRed(Plug(c, t))
    ensures var n := FirstNode(t.right);
            && n.ptr in m && m[n.ptr].right in m && m[n.ptr].right == Root(x) && m[n.ptr].parent in m && t.ptr in m
            && var m1 := Spliced(m, n.ptr, m[n.ptr].right, m[n.ptr].parent);
               && t.ptr in m1 && n.ptr in m1 && m1[t.ptr].left in m1 && m1[t.ptr].right in m1 && m1[t.ptr].parent in m1
               && Unlinked(Installed(m1, n.ptr, t.ptr), c', x, h, t.ptr, Without(Inorder(Plug(c, t)), t.ptr))
  {
    var n, cr := FirstNode(t.right), InRight(t.left, t.ptr, t.key, t.red, c);
    var w := WithoutFirst(t.right);
    var t1, t2 := Node(t.left, t.ptr, t.key, t.red, w), Node(t.left, n.ptr, n.key, t.red, w);
    var cr2 := InRight(t.left, n.ptr, n.key, t.red, c);
    SuccessorOut(m, c, t);
    var m1 := Spliced(m, n.ptr, m[n.ptr].right, m[n.ptr].parent);
    hide Spliced;
    InstallHolds(m1, c, t1, n.ptr);
    var m2 := Installed(m1, n.ptr, t.ptr);
    hide Installed;
    c', x := FirstCtx(cr2, t.right), n.right;
    ReplacedFocus(m2, c, t, n.ptr, n.key);
    FocusWhole(m, c, t);
    ReplacedInorder(c, t);
    h := ReplacedColours(c, t, n.ptr, n.key);
    ReplacedApart(m, c, t, n.ptr, n.key);
    Cells(m2, c', x);
    if t.right.left.Node? { FirstHolder(cr, cr2, t.right); }
    assert x.Leaf? ==> m2[NIL].parent == Holder(c');
  }

  /** dict_next of a node with a right child is the leftmost node below it. */
  lemma NextIsFirst(m: Memory, c: Ctx, t: Tree, next: Ptr)
    requires Holds(m, c, t) && t.Node? && t.right.Node? && Follows(Inorder(Plug(c, t)), t.ptr, next)
    ensures next == FirstNode(t.right).ptr
  {
    var cr := InRight(t.left, t.ptr, t.key, t.red, c);
    FocusWhole(m, c, t);
    FirstPlug(cr, t.right);
    assert EndsWith(Before(cr), t.ptr);
    LeftmostNext(FirstCtx(cr, t.right), FirstNode(t.right), t.ptr);
    FollowsOnce(Inorder(Plug(c, t)), t.ptr, next, FirstNode(t.right).ptr);
  }

  /** Writing to a node that is in no tree changes nothing. */
  lemma Forget(m: Memory, c: Ctx, t: Tree, p: Ptr, cell: Cell)
    requires Holds(m, c, t) && p != NIL && p !in Ptrs(t) && p !in CtxPtrs(c)
    ensures Holds(m[p := cell], c, t)
  {
    NilInMemory(m, c, Root(t));
    FrameTree(m, m[p := cell], Holder(c), t);
    FrameCtx(m, m[p := cell], c, Root(t));
  }

  lemma {:induction false} PlugRootBlack(c: Ctx, t: Tree)
    requires RootBlack(c) && !c.Top?
    ensures !IsRed(Plug(c, t))
  {
    if !c.up.Top? { PlugRootBlack(c.up, Grow(c, t)); }
  }

  /** The number of steps the loop may still take. */
  function Remaining(c: Ctx, x: Tree): nat { if IsRed(x) then 0 else 1 + Depth(c) }

  function Depth(c: Ctx): nat { if c.Top? then 0 else 1 + Depth(c.up) }
}
