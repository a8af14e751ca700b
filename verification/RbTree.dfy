/**
  Red-black trees in memory, as fsck/dict.c keeps them: nodes with left, right and
  parent pointers and one sentinel that stands for every missing child and whose left
  pointer is the root.

  The ghost trees and contexts here say what the pointers of a memory mean.  A context
  is a tree with a hole: it lists the nodes from the parent of the hole up to the root.
 */
module RbTree {
  type Ptr = nat

  /** The sentinel nilnode. */
  const NIL: Ptr := 0

  datatype Cell = Cell(left: Ptr, right: Ptr, parent: Ptr, red: bool, key: int)

  type Memory = map<Ptr, Cell>

  datatype Tree = Leaf | Node(left: Tree, ptr: Ptr, key: int, red: bool, right: Tree)

  datatype Ctx =
    | Top
    | InLeft(up: Ctx, ptr: Ptr, key: int, red: bool, right: Tree)
    | InRight(left: Tree, ptr: Ptr, key: int, red: bool, up: Ctx)

  function Root(t: Tree): Ptr { if t.Leaf? then NIL else t.ptr }

  function Holder(c: Ctx): Ptr { if c.Top? then NIL else c.ptr }

  predicate IsRed(t: Tree) { t.Node? && t.red }

  predicate HolderRed(c: Ctx) { !c.Top? && c.red }

  function Plug(c: Ctx, t: Tree): Tree {
    match c
    case Top => t
    case InLeft(up, p, k, red, r) => Plug(up, Node(t, p, k, red, r))
    case InRight(l, p, k, red, up) => Plug(up, Node(l, p, k, red, t))
  }

  function Ptrs(t: Tree): set<Ptr> {
    if t.Leaf? then {} else Ptrs(t.left) + {t.ptr} + Ptrs(t.right)
  }

  function CtxPtrs(c: Ctx): set<Ptr> {
    match c
    case Top => {}
    case InLeft(up, p, _, _, r) => CtxPtrs(up) + {p} + Ptrs(r)
    case InRight(l, p, _, _, up) => CtxPtrs(up) + {p} + Ptrs(l)
  }

  predicate Distinct(t: Tree) {
    t.Leaf? || (
      && t.ptr != NIL && t.ptr !in Ptrs(t.left) && t.ptr !in Ptrs(t.right) && Ptrs(t.left) !! Ptrs(t.right)
      && Distinct(t.left) && Distinct(t.right))
  }

  predicate CtxDistinct(c: Ctx) {
    match c
    case Top => true
    case InLeft(up, p, _, _, r) =>
      p != NIL && p !in Ptrs(r) && p !in CtxPtrs(up) && Ptrs(r) !! CtxPtrs(up) && Distinct(r) && CtxDistinct(up)
    case InRight(l, p, _, _, up) =>
      p != NIL && p !in Ptrs(l) && p !in CtxPtrs(up) && Ptrs(l) !! CtxPtrs(up) && Distinct(l) && CtxDistinct(up)
  }

  /** The cells of t, under the given parent, are as the tree says. */
  predicate Rep(m: Memory, parent: Ptr, t: Tree)
    decreases t
  {
    t.Leaf? || (
      && t.ptr in m && m[t.ptr] == Cell(Root(t.left), Root(t.right), parent, t.red, t.key)
      && Rep(m, t.ptr, t.left) && Rep(m, t.ptr, t.right))
  }

  /** The cells of c are as the context says, with `hole` in its hole. */
  predicate RepCtx(m: Memory, c: Ctx, hole: Ptr) {
    match c
    case Top => NIL in m && m[NIL].left == hole && m[NIL].right == NIL && !m[NIL].red
    case InLeft(up, p, k, red, r) =>
      p in m && m[p] == Cell(hole, Root(r), Holder(up), red, k) && Rep(m, p, r) && RepCtx(m, up, p)
    case InRight(l, p, k, red, up) =>
      p in m && m[p] == Cell(Root(l), hole, Holder(up), red, k) && Rep(m, p, l) && RepCtx(m, up, p)
  }

  /** The memory holds Plug(c, t), looked at with t in focus. */
  predicate Holds(m: Memory, c: Ctx, t: Tree) {
    && RepCtx(m, c, Root(t)) && Rep(m, Holder(c), t)
    && CtxDistinct(c) && Distinct(t) && Ptrs(t) !! CtxPtrs(c)
  }

  lemma HoldsParts(m: Memory, c: Ctx, t: Tree)
    requires RepCtx(m, c, Root(t)) && Rep(m, Holder(c), t) && CtxDistinct(c) && Distinct(t) && Ptrs(t) !! CtxPtrs(c)
    ensures Holds(m, c, t)
  {
  }

  // ---- changes elsewhere do not matter

  predicate Kept(m: Memory, m': Memory, s: set<Ptr>) {
    forall p :: p in s && p in m ==> p in m' && m'[p] == m[p]
  }

  lemma {:induction false} FrameTree(m: Memory, m': Memory, parent: Ptr, t: Tree)
    requires Rep(m, parent, t) && Kept(m, m', Ptrs(t))
    ensures Rep(m', parent, t)
    decreases t
  {
    if t.Node? {
      FrameTree(m, m', t.ptr, t.left);
      FrameTree(m, m', t.ptr, t.right);
    }
  }

  /** The part of the sentinel that means something. */
  predicate SameNil(m: Memory, m': Memory) {
    NIL in m && NIL in m' && m'[NIL].left == m[NIL].left && m'[NIL].right == m[NIL].right && m'[NIL].red == m[NIL].red
  }

  lemma {:induction false} FrameCtx(m: Memory, m': Memory, c: Ctx, hole: Ptr)
    requires RepCtx(m, c, hole) && SameNil(m, m') && Kept(m, m', CtxPtrs(c))
    ensures RepCtx(m', c, hole)
  {
    match c
    case Top =>
    case InLeft(up, p, _, _, r) => FrameTree(m, m', p, r); FrameCtx(m, m', up, p);
    case InRight(l, p, _, _, up) => FrameTree(m, m', p, l); FrameCtx(m, m', up, p);
  }

  lemma {:induction false} NilInMemory(m: Memory, c: Ctx, hole: Ptr)
    requires RepCtx(m, c, hole)
    ensures NIL in m && !m[NIL].red && m[NIL].right == NIL
  {
    match c
    case Top =>
    case InLeft(up, p, _, _, _) => NilInMemory(m, up, p);
    case InRight(_, p, _, _, up) => NilInMemory(m, up, p);
  }

  lemma {:induction false} NilNotHeld(t: Tree)
    requires Distinct(t)
    ensures NIL !in Ptrs(t)
  {
    if t.Node? { NilNotHeld(t.left); NilNotHeld(t.right); }
  }

  lemma {:induction false} NilNotInCtx(c: Ctx)
    requires CtxDistinct(c)
    ensures NIL !in CtxPtrs(c)
  {
    match c
    case Top =>
    case InLeft(up, _, _, _, r) => NilNotHeld(r); NilNotInCtx(up);
    case InRight(l, _, _, _, up) => NilNotHeld(l); NilNotInCtx(up);
  }

  /** Putting another subtree into the hole. */
  lemma ChangeHole(m: Memory, m': Memory, c: Ctx, was: Ptr, now: Ptr)
    requires RepCtx(m, c, was) && CtxDistinct(c)
    requires NIL in m' && NIL in m && m'[NIL].right == m[NIL].right && m'[NIL].red == m[NIL].red
    requires c.Top? ==> m'[NIL].left == now
    requires !c.Top? ==> m'[NIL].left == m[NIL].left
    requires c.InLeft? ==> c.ptr in m' && m'[c.ptr] == m[c.ptr].(left := now)
    requires c.InRight? ==> c.ptr in m' && m'[c.ptr] == m[c.ptr].(right := now)
    requires Kept(m, m', CtxPtrs(c) - {Holder(c)})
    ensures RepCtx(m', c, now)
  {
    match c
    case Top =>
    case InLeft(up, p, _, _, r) => FrameTree(m, m', p, r); FrameCtx(m, m', up, p);
    case InRight(l, p, _, _, up) => FrameTree(m, m', p, l); FrameCtx(m, m', up, p);
  }

  // ---- colours

  /** Equal black heights and no red node with a red child (verify_redblack). */
  predicate Balanced(t: Tree, h: nat) {
    match t
    case Leaf => h == 1
    case Node(l, _, _, red, r) =>
      if red then !IsRed(l) && !IsRed(r) && Balanced(l, h) && Balanced(r, h)
      else h > 0 && Balanced(l, h - 1) && Balanced(r, h - 1)
  }

  /** The context is balanced around a hole of black height h, whatever its colour. */
  predicate CtxBalanced(c: Ctx, h: nat) {
    match c
    case Top => true
    case InLeft(up, _, _, red, r) =>
      Balanced(r, h) && (if red then !IsRed(r) && !HolderRed(up) && CtxBalanced(up, h) else CtxBalanced(up, h + 1))
    case InRight(l, _, _, red, up) =>
      Balanced(l, h) && (if red then !IsRed(l) && !HolderRed(up) && CtxBalanced(up, h) else CtxBalanced(up, h + 1))
  }

  /** The root of the whole tree is black. */
  predicate RootBlack(c: Ctx) {
    match c
    case Top => true
    case InLeft(up, _, _, red, _) => if up.Top? then !red else RootBlack(up)
    case InRight(_, _, _, red, up) => if up.Top? then !red else RootBlack(up)
  }

  lemma {:induction false} PlugBalanced(c: Ctx, t: Tree, h: nat)
    requires CtxBalanced(c, h) && Balanced(t, h) && !(HolderRed(c) && IsRed(t))
    ensures IsBalanced(Plug(c, t))
  {
    match c
    case Top => assert Balanced(Plug(c, t), h);
    case InLeft(up, p, k, red, r) => PlugBalanced(up, Node(t, p, k, red, r), if red then h else h + 1);
    case InRight(l, p, k, red, up) => PlugBalanced(up, Node(l, p, k, red, t), if red then h else h + 1);
  }

  ghost predicate IsBalanced(t: Tree) { exists h: nat :: Balanced(t, h) }

  // ---- order

  /** The nodes from left to right. */
  function Inorder(t: Tree): seq<(Ptr, int)> {
    if t.Leaf? then [] else Inorder(t.left) + [(t.ptr, t.key)] + Inorder(t.right)
  }

  /** What lies to the left and to the right of the hole. */
  function Before(c: Ctx): seq<(Ptr, int)> {
    match c
    case Top => []
    case InLeft(up, _, _, _, _) => Before(up)
    case InRight(l, p, k, _, up) => Before(up) + Inorder(l) + [(p, k)]
  }

  function Behind(c: Ctx): seq<(Ptr, int)> {
    match c
    case Top => []
    case InLeft(up, p, k, _, r) => [(p, k)] + Inorder(r) + Behind(up)
    case InRight(_, _, _, _, up) => Behind(up)
  }

  lemma RegroupLeft<T>(a: seq<T>, x: seq<T>, b: seq<T>, y: seq<T>, d: seq<T>)
    ensures a + (x + b + y) + d == a + x + (b + y + d)
  {
  }

  lemma RegroupRight<T>(a: seq<T>, x: seq<T>, b: seq<T>, y: seq<T>, d: seq<T>)
    ensures a + (x + b + y) + d == (a + x + b) + y + d
  {
  }

  lemma {:induction false} PlugInorder(c: Ctx, t: Tree)
    ensures Inorder(Plug(c, t)) == Before(c) + Inorder(t) + Behind(c)
  {
    match c
    case Top =>
    case InLeft(up, p, k, red, r) =>
      PlugInorder(up, Node(t, p, k, red, r));
      RegroupLeft(Before(up), Inorder(t), [(p, k)], Inorder(r), Behind(up));
    case InRight(l, p, k, red, up) =>
      PlugInorder(up, Node(l, p, k, red, t));
      RegroupRight(Before(up), Inorder(l), [(p, k)], Inorder(t), Behind(up));
  }

  predicate Ascending(s: seq<(Ptr, int)>) {
    forall i, j :: 0 <= i < j < |s| ==> s[i].1 <= s[j].1
  }

  lemma {:induction false} InorderPtrs(t: Tree)
    ensures forall e :: e in Inorder(t) ==> e.0 in Ptrs(t)
    ensures forall p :: p in Ptrs(t) ==> exists i :: 0 <= i < |Inorder(t)| && Inorder(t)[i].0 == p
  {
    if t.Node? {
      InorderPtrs(t.left);
      InorderPtrs(t.right);
      var s := Inorder(t);
      forall p | p in Ptrs(t) ensures exists i :: 0 <= i < |s| && s[i].0 == p {
        if p in Ptrs(t.left) {
          var i :| 0 <= i < |Inorder(t.left)| && Inorder(t.left)[i].0 == p;
          assert s[i].0 == p;
        } else if p == t.ptr {
          assert s[|Inorder(t.left)|].0 == p;
        } else {
          var i :| 0 <= i < |Inorder(t.right)| && Inorder(t.right)[i].0 == p;
          assert s[|Inorder(t.left)| + 1 + i].0 == p;
        }
      }
    }
  }

  // ---- rotations

  /** rotate_left as a function of the memory */
  function RotatedLeft(m: Memory, upper: Ptr): Memory
    requires upper in m && m[upper].right in m && m[m[upper].right].left in m && m[upper].parent in m
  {
    var lower := m[upper].right;
    var lowleft := m[lower].left;
    var m1 := m[upper := m[upper].(right := lowleft)];
    var m2 := m1[lowleft := m1[lowleft].(parent := upper)];
    var upparent := m2[upper].parent;
    var m3 := m2[lower := m2[lower].(parent := upparent)];
    var m4 := if m3[upparent].left == upper then m3[upparent := m3[upparent].(left := lower)]
              else m3[upparent := m3[upparent].(right := lower)];
    var m5 := m4[lower := m4[lower].(left := upper)];
    m5[upper := m5[upper].(parent := lower)]
  }

  function RotatedRight(m: Memory, upper: Ptr): Memory
    requires upper in m && m[upper].left in m && m[m[upper].left].right in m && m[upper].parent in m
  {
    var lower := m[upper].left;
    var lowright := m[lower].right;
    var m1 := m[upper := m[upper].(left := lowright)];
    var m2 := m1[lowright := m1[lowright].(parent := upper)];
    var upparent := m2[upper].parent;
    var m3 := m2[lower := m2[lower].(parent := upparent)];
    var m4 := if m3[upparent].right == upper then m3[upparent := m3[upparent].(right := lower)]
              else m3[upparent := m3[upparent].(left := lower)];
    var m5 := m4[lower := m4[lower].(right := upper)];
    m5[upper := m5[upper].(parent := lower)]
  }

  lemma RootsIn(m: Memory, parent: Ptr, t: Tree)
    requires Rep(m, parent, t) && NIL in m
    ensures Root(t) in m && (t.Node? ==> Root(t.left) in m && Root(t.right) in m)
  {
  }

  lemma HolderIn(m: Memory, c: Ctx, hole: Ptr)
    requires RepCtx(m, c, hole) && CtxDistinct(c)
    ensures Holder(c) in m && NIL in m && (Holder(c) == NIL <==> c.Top?)
  {
    NilInMemory(m, c, hole);
  }

  /** A subtree under another parent. */
  lemma Reparent(m: Memory, m': Memory, parent: Ptr, parent': Ptr, t: Tree)
    requires Rep(m, parent, t) && Distinct(t)
    requires t.Node? ==> t.ptr in m' && m'[t.ptr] == m[t.ptr].(parent := parent')
    requires Kept(m, m', Ptrs(t) - {Root(t)})
    ensures Rep(m', parent', t)
  {
    if t.Node? {
      FrameTree(m, m', t.ptr, t.left);
      FrameTree(m, m', t.ptr, t.right);
    }
  }

  /** One level of unfolding. */
  lemma NodeParts(m: Memory, parent: Ptr, t: Tree)
    requires Rep(m, parent, t) && Distinct(t) && t.Node?
    ensures t.ptr in m && m[t.ptr] == Cell(Root(t.left), Root(t.right), parent, t.red, t.key)
    ensures Rep(m, t.ptr, t.left) && Rep(m, t.ptr, t.right) && Distinct(t.left) && Distinct(t.right)
    ensures t.ptr != NIL && t.ptr in Ptrs(t) && Ptrs(t.left) <= Ptrs(t) && Ptrs(t.right) <= Ptrs(t)
    ensures t.ptr !in Ptrs(t.left) && t.ptr !in Ptrs(t.right) && Ptrs(t.left) !! Ptrs(t.right)
    ensures Ptrs(t) == Ptrs(t.left) + {t.ptr} + Ptrs(t.right)
    ensures t.left.Node? ==> t.left.ptr in Ptrs(t.left)
    ensures t.right.Node? ==> t.right.ptr in Ptrs(t.right)
  {
  }

  /** Enough of the cells around a node and its right child to rotate. */
  lemma LeftReady(m: Memory, c: Ctx, t: Tree)
    requires Holds(m, c, t) && t.Node? && t.right.Node?
    ensures t.ptr in m && m[t.ptr].right == t.right.ptr && t.right.ptr in m
    ensures m[t.right.ptr].left == Root(t.right.left) && Root(t.right.left) in m
    ensures m[t.ptr].parent == Holder(c) && Holder(c) in m && NIL in m
  {
    HolderIn(m, c, t.ptr);
    RootsIn(m, t.ptr, t.right);
  }

  lemma RightReady(m: Memory, c: Ctx, t: Tree)
    requires Holds(m, c, t) && t.Node? && t.left.Node?
    ensures t.ptr in m && m[t.ptr].left == t.left.ptr && t.left.ptr in m
    ensures m[t.left.ptr].right == Root(t.left.right) && Root(t.left.right) in m
    ensures m[t.ptr].parent == Holder(c) && Holder(c) in m && NIL in m
  {
    HolderIn(m, c, t.ptr);
    RootsIn(m, t.ptr, t.left);
  }

  function LeftTurned(t: Tree): Tree
    requires t.Node? && t.right.Node?
  {
    Node(Node(t.left, t.ptr, t.key, t.red, t.right.left), t.right.ptr, t.right.key, t.right.red, t.right.right)
  }

  function RightTurned(t: Tree): Tree
    requires t.Node? && t.left.Node?
  {
    Node(t.left.left, t.left.ptr, t.left.key, t.left.red, Node(t.left.right, t.ptr, t.key, t.red, t.right))
  }

  /** What a rotation writes: u and l change places, b moves under u, and h points at l. */
  predicate Turned(m: Memory, m': Memory, u: Ptr, l: Ptr, b: Ptr, h: Ptr) {
    && m'.Keys == m.Keys && u in m && l in m && b in m && h in m && NIL in m
    && (b != NIL ==> m'[b] == m[b].(parent := u))
    && (h != NIL && m[h].left == u ==> m'[h] == m[h].(left := l))
    && (h != NIL && m[h].left != u ==> m'[h] == m[h].(right := l))
    && m'[NIL].red == m[NIL].red && m'[NIL].right == m[NIL].right
    && m'[NIL].left == (if h == NIL then l else m[NIL].left)
    && forall p :: p in m && p != u && p != l && p != b && p != h && p != NIL ==> m'[p] == m[p]
  }

  predicate Apart(u: Ptr, l: Ptr, b: Ptr, h: Ptr) {
    u != NIL && l != NIL && u != l && b != u && b != l && h != u && h != l && (h != NIL ==> h != b)
  }

  lemma LeftWrites(m: Memory, u: Ptr, l: Ptr, b: Ptr, h: Ptr)
    requires u in m && l in m && b in m && h in m && NIL in m && Apart(u, l, b, h)
    requires m[u].right == l && m[l].left == b && m[u].parent == h && (h == NIL ==> m[NIL].left == u)
    ensures var m' := RotatedLeft(m, u);
            && Turned(m, m', u, l, b, h)
            && m'[u] == m[u].(right := b, parent := l) && m'[l] == m[l].(left := u, parent := h)
  {
  }

  lemma RightWrites(m: Memory, u: Ptr, l: Ptr, b: Ptr, h: Ptr)
    requires u in m && l in m && b in m && h in m && NIL in m && Apart(u, l, b, h)
    requires m[u].left == l && m[l].right == b && m[u].parent == h
    requires m[h].left == u || m[h].right == u
    requires m[h].left != m[h].right && (h == NIL ==> m[NIL].left == u)
    ensures var m' := RotatedRight(m, u);
            && Turned(m, m', u, l, b, h)
            && m'[u] == m[u].(left := b, parent := l) && m'[l] == m[l].(right := u, parent := h)
  {
  }

  /** The hole of a context points at what it holds, and from one side only. */
  lemma HolePointer(m: Memory, c: Ctx, t: Tree)
    requires Holds(m, c, t) && t.Node?
    ensures Holder(c) in m && NIL in m && (c.Top? <==> Holder(c) == NIL)
    ensures t.ptr !in CtxPtrs(c) && (!c.Top? ==> Holder(c) in CtxPtrs(c)) && NIL !in Ptrs(t) && NIL !in CtxPtrs(c)
    ensures c.InRight? ==> m[c.ptr].left != t.ptr && m[c.ptr].right == t.ptr
    ensures !c.InRight? ==> m[Holder(c)].left == t.ptr && m[Holder(c)].right != t.ptr
  {
    HolderIn(m, c, t.ptr);
    NilNotHeld(t);
    NilNotInCtx(c);
    NilInMemory(m, c, t.ptr);
    assert t.ptr in Ptrs(t);
  }

  predicate Avoids(s: set<Ptr>, u: Ptr, l: Ptr, h: Ptr) { u !in s && l !in s && h !in s && NIL !in s }

  /** After a turn the subtrees and the surroundings are in place. */
  lemma TurnedParts(m: Memory, m': Memory, c: Ctx, t: Tree, u: Ptr, l: Ptr, a: Tree, b: Tree, d: Tree, pa: Ptr, pd: Ptr)
    requires Holds(m, c, t) && t.Node? && u == t.ptr && Turned(m, m', u, l, Root(b), Holder(c))
    requires Ptrs(t) == Ptrs(a) + Ptrs(b) + Ptrs(d) + {u, l} && Distinct(b)
    requires u !in Ptrs(a) && u !in Ptrs(b) && u !in Ptrs(d) && l !in Ptrs(a) && l !in Ptrs(b) && l !in Ptrs(d)
    requires Ptrs(a) !! Ptrs(b) && Ptrs(b) !! Ptrs(d)
    requires Rep(m, pa, a) && Rep(m, l, b) && Rep(m, pd, d)
    ensures Rep(m', pa, a) && Rep(m', u, b) && Rep(m', pd, d) && RepCtx(m', c, l)
  {
    hide Rep, RepCtx, CtxDistinct;
    HolePointer(m, c, t);
    assert b.Node? ==> Root(b) in Ptrs(b) && Root(b) != NIL;
    TurnedTrees(m, m', u, l, a, b, d, Holder(c), pa, pd);
    TurnedRest(m, m', c, u, l, Root(b));
  }

  lemma TurnedTrees(m: Memory, m': Memory, u: Ptr, l: Ptr, a: Tree, b: Tree, d: Tree, h: Ptr, pa: Ptr, pd: Ptr)
    requires Turned(m, m', u, l, Root(b), h) && Distinct(b) && Rep(m, pa, a) && Rep(m, l, b) && Rep(m, pd, d)
    requires Avoids(Ptrs(a), u, l, h) && Avoids(Ptrs(b), u, l, h) && Avoids(Ptrs(d), u, l, h)
    requires Root(b) !in Ptrs(a) && Root(b) !in Ptrs(d) && (b.Node? ==> b.ptr != NIL)
    ensures Rep(m', pa, a) && Rep(m', u, b) && Rep(m', pd, d)
  {
    hide Rep, Ptrs, Distinct, Kept;
    TurnedKeeps(m, m', Ptrs(a), u, l, Root(b), h);
    TurnedKeeps(m, m', Ptrs(d), u, l, Root(b), h);
    TurnedKeeps(m, m', Ptrs(b) - {Root(b)}, u, l, Root(b), h);
    FrameTree(m, m', pa, a);
    FrameTree(m, m', pd, d);
    Reparent(m, m', l, u, b);
  }

  lemma TurnedRest(m: Memory, m': Memory, c: Ctx, u: Ptr, l: Ptr, b: Ptr)
    requires Turned(m, m', u, l, b, Holder(c)) && RepCtx(m, c, u) && CtxDistinct(c)
    requires u !in CtxPtrs(c) && l !in CtxPtrs(c) && b !in CtxPtrs(c) && NIL !in CtxPtrs(c)
    requires c.Top? <==> Holder(c) == NIL
    requires c.InRight? ==> m[c.ptr].left != u
    requires c.InLeft? ==> m[c.ptr].left == u
    ensures RepCtx(m', c, l)
  {
    hide RepCtx, CtxDistinct, CtxPtrs, Kept;
    TurnedKeeps(m, m', CtxPtrs(c) - {Holder(c)}, u, l, b, Holder(c));
    ChangeHole(m, m', c, u, l);
  }

  lemma TurnedKeeps(m: Memory, m': Memory, s: set<Ptr>, u: Ptr, l: Ptr, b: Ptr, h: Ptr)
    requires Turned(m, m', u, l, b, h) && b !in s && Avoids(s, u, l, h)
    ensures Kept(m, m', s)
  {
  }

  /** A left rotation turns the tree and keeps everything around it. */
  lemma LeftHolds(m: Memory, c: Ctx, t: Tree)
    requires Holds(m, c, t) && t.Node? && t.right.Node?
    requires t.ptr in m && m[t.ptr].right in m && m[m[t.ptr].right].left in m && m[t.ptr].parent in m && NIL in m
    ensures Holds(RotatedLeft(m, t.ptr), c, LeftTurned(t))
  {
    hide RotatedLeft, RotatedRight, Rep, RepCtx, Holds, Ptrs, Distinct, CtxPtrs, CtxDistinct;
    HeldParts(m, c, t);
    LeftReady(m, c, t);
    HolePointer(m, c, t);
    NodeParts(m, Holder(c), t);
    NodeParts(m, t.ptr, t.right);
    var a, b, d := t.left, t.right.left, t.right.right;
    var u, l, m' := t.ptr, t.right.ptr, RotatedLeft(m, t.ptr);
    LeftWrites(m, u, l, Root(b), Holder(c));
    TurnedParts(m, m', c, t, u, l, a, b, d, u, l);
    LeftTurnedPtrs(m, c, t);
    RepNode(m', l, Node(a, u, t.key, t.red, b));
    RepNode(m', Holder(c), LeftTurned(t));
    HoldsParts(m', c, LeftTurned(t));
  }

  lemma RepNode(m: Memory, parent: Ptr, t: Tree)
    requires t.Node? && t.ptr in m && m[t.ptr] == Cell(Root(t.left), Root(t.right), parent, t.red, t.key)
    requires Rep(m, t.ptr, t.left) && Rep(m, t.ptr, t.right)
    ensures Rep(m, parent, t)
  {
  }

  lemma HeldParts(m: Memory, c: Ctx, t: Tree)
    requires Holds(m, c, t)
    ensures RepCtx(m, c, Root(t)) && Rep(m, Holder(c), t) && CtxDistinct(c) && Distinct(t) && Ptrs(t) !! CtxPtrs(c)
  {
  }

  lemma LeftTurnedPtrs(m: Memory, c: Ctx, t: Tree)
    requires Holds(m, c, t) && t.Node? && t.right.Node?
    ensures Distinct(LeftTurned(t)) && Ptrs(LeftTurned(t)) == Ptrs(t)
  {
    NodeParts(m, Holder(c), t);
    NodeParts(m, t.ptr, t.right);
    var low := Node(t.left, t.ptr, t.key, t.red, t.right.left);
    assert Ptrs(low) == Ptrs(t.left) + {t.ptr} + Ptrs(t.right.left);
    assert Distinct(low);
  }

  lemma Regroup<T>(a: seq<T>, x: seq<T>, b: seq<T>, y: seq<T>, d: seq<T>)
    ensures a + x + (b + y + d) == (a + x + b) + y + d
  {
  }

  lemma LeftTurnedInorder(t: Tree)
    requires t.Node? && t.right.Node?
    ensures Inorder(LeftTurned(t)) == Inorder(t)
  {
    var a, b, d := t.left, t.right.left, t.right.right;
    var u, l := (t.ptr, t.key), (t.right.ptr, t.right.key);
    Regroup(Inorder(a), [u], Inorder(b), [l], Inorder(d));
  }

  lemma RightHolds(m: Memory, c: Ctx, t: Tree)
    requires Holds(m, c, t) && t.Node? && t.left.Node?
    requires t.ptr in m && m[t.ptr].left in m && m[m[t.ptr].left].right in m && m[t.ptr].parent in m && NIL in m
    ensures Holds(RotatedRight(m, t.ptr), c, RightTurned(t))
  {
    hide RotatedLeft, RotatedRight, Rep, RepCtx, Holds, Ptrs, Distinct, CtxPtrs, CtxDistinct;
    HeldParts(m, c, t);
    RightReady(m, c, t);
    HolePointer(m, c, t);
    NodeParts(m, Holder(c), t);
    NodeParts(m, t.ptr, t.left);
    var a, b, d := t.left.left, t.left.right, t.right;
    var u, l, m' := t.ptr, t.left.ptr, RotatedRight(m, t.ptr);
    RightWrites(m, u, l, Root(b), Holder(c));
    TurnedParts(m, m', c, t, u, l, a, b, d, l, u);
    RightTurnedPtrs(m, c, t);
    RepNode(m', l, Node(b, u, t.key, t.red, d));
    RepNode(m', Holder(c), RightTurned(t));
    HoldsParts(m', c, RightTurned(t));
  }

  lemma RightTurnedPtrs(m: Memory, c: Ctx, t: Tree)
    requires Holds(m, c, t) && t.Node? && t.left.Node?
    ensures Distinct(RightTurned(t)) && Ptrs(RightTurned(t)) == Ptrs(t)
  {
    NodeParts(m, Holder(c), t);
    NodeParts(m, t.ptr, t.left);
    var low := Node(t.left.right, t.ptr, t.key, t.red, t.right);
    assert Ptrs(low) == Ptrs(t.left.right) + {t.ptr} + Ptrs(t.right);
    assert Distinct(low);
  }

  lemma RightTurnedInorder(t: Tree)
    requires t.Node? && t.left.Node?
    ensures Inorder(RightTurned(t)) == Inorder(t)
  {
    var a, b, d := t.left.left, t.left.right, t.right;
    var l, u := (t.left.ptr, t.left.key), (t.ptr, t.key);
    Regroup(Inorder(a), [l], Inorder(b), [u], Inorder(d));
  }

  // ---- recolouring a focused node

  function Painted(m: Memory, p: Ptr, red: bool): Memory
    requires p in m
  {
    m[p := m[p].(red := red)]
  }

  lemma Recolour(m: Memory, c: Ctx, t: Tree, red: bool)
    requires Holds(m, c, t) && t.Node?
    ensures t.ptr in m && Painted(m, t.ptr, red).Keys == m.Keys
    ensures Holds(Painted(m, t.ptr, red), c, t.(red := red))
  {
    var m' := Painted(m, t.ptr, red);
    NilNotHeld(t);
    NilInMemory(m, c, t.ptr);
    FrameTree(m, m', t.ptr, t.left);
    FrameTree(m, m', t.ptr, t.right);
    FrameCtx(m, m', c, t.ptr);
  }

  // ---- moving the focus

  lemma FocusLeft(m: Memory, c: Ctx, t: Tree)
    requires t.Node?
    ensures Holds(m, c, t) <==> Holds(m, InLeft(c, t.ptr, t.key, t.red, t.right), t.left)
  {
  }

  lemma FocusRight(m: Memory, c: Ctx, t: Tree)
    requires t.Node?
    ensures Holds(m, c, t) <==> Holds(m, InRight(t.left, t.ptr, t.key, t.red, c), t.right)
  {
  }

  /** Looking at the whole tree, or at one of its subtrees, is the same. */
  lemma {:induction false} FocusWhole(m: Memory, c: Ctx, t: Tree)
    ensures Holds(m, c, t) <==> Holds(m, Top, Plug(c, t))
  {
    match c
    case Top =>
    case InLeft(up, p, k, red, r) =>
      FocusLeft(m, up, Node(t, p, k, red, r));
      FocusWhole(m, up, Node(t, p, k, red, r));
    case InRight(l, p, k, red, up) =>
      FocusRight(m, up, Node(l, p, k, red, t));
      FocusWhole(m, up, Node(l, p, k, red, t));
  }
}
