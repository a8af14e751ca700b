/** The dictionary of fsck/dict.c, with integer keys compared as dict_uint_cmp does. */
module RbDict {
  import opened RbTree
  import opened RbFix
  import opened RbOrder
  import opened RbShrink

  function Compare(a: int, b: int): int { if a == b then 0 else if a > b then 1 else -1 }

  /** verify_redblack: the black height, or zero when the subtree is not red-black. */
  function VerifyRedBlack(m: Memory, root: Ptr, ghost parent: Ptr, ghost t: Tree): (height: nat)
    requires Rep(m, parent, t) && Distinct(t) && root == Root(t) && NIL in m && !m[NIL].red
    ensures height != 0 ==> Balanced(t, height)
    ensures height == 0 ==> !IsBalanced(t)
    decreases t
  {
    if root != NIL then
      Children(m, parent, t);
      var left := VerifyRedBlack(m, m[root].left, root, t.left);
      var right := VerifyRedBlack(m, m[root].right, root, t.right);
      UnequalHeights(t, left, right);
      if left == 0 || right == 0 || left != right then 0
      else if m[root].red then
        if m[m[root].left].red || m[m[root].right].red then 0 else left
      else left + 1
    else 1
  }

  /** verify_node_count */
  function VerifyNodeCount(m: Memory, root: Ptr, ghost parent: Ptr, ghost t: Tree): (n: nat)
    requires Rep(m, parent, t) && Distinct(t) && root == Root(t)
    ensures n == |Inorder(t)|
    decreases t
  {
    if root == NIL then 0
    else 1 + VerifyNodeCount(m, m[root].left, root, t.left) + VerifyNodeCount(m, m[root].right, root, t.right)
  }

  lemma Children(m: Memory, parent: Ptr, t: Tree)
    requires Rep(m, parent, t) && Distinct(t) && t.Node? && NIL in m && !m[NIL].red
    ensures t.ptr in m && m[t.ptr].left == Root(t.left) && m[t.ptr].right == Root(t.right)
    ensures Root(t.left) in m && m[Root(t.left)].red == IsRed(t.left)
    ensures Root(t.right) in m && m[Root(t.right)].red == IsRed(t.right)
  {
  }

  lemma {:induction false} OneHeight(t: Tree, h: nat, k: nat)
    requires Balanced(t, h) && Balanced(t, k)
    ensures h == k
  {
    if t.Node? { if t.red { OneHeight(t.left, h, k); } else { OneHeight(t.left, h - 1, k - 1); } }
  }

  lemma UnequalHeights(t: Tree, left: nat, right: nat)
    requires t.Node?
    requires if left == 0 then !IsBalanced(t.left) else Balanced(t.left, left)
    requires if right == 0 then !IsBalanced(t.right) else Balanced(t.right, right)
    ensures left == 0 || right == 0 || left != right ==> !IsBalanced(t)
    ensures t.red && (IsRed(t.left) || IsRed(t.right)) ==> !IsBalanced(t)
  {
    if IsBalanced(t) {
      var h: nat :| Balanced(t, h);
      var k: nat := if t.red then h else h - 1;
      assert Balanced(t.left, k) && Balanced(t.right, k);
      if left != 0 { OneHeight(t.left, left, k); }
      if right != 0 { OneHeight(t.right, right, k); }
    }
  }

  class Dict {
    var mem: Memory
    var nodecount: nat
    var dupes: bool
    ghost var tree: Tree

    ghost predicate Valid()
      reads this
    {
      && Holds(mem, Top, tree) && IsBalanced(tree) && !IsRed(tree)
      && InOrder(dupes, Inorder(tree)) && nodecount == |Inorder(tree)|
    }

    constructor (dupes: bool)
      ensures Valid() && Inorder(tree) == [] && this.dupes == dupes
    {
      mem := map[NIL := Cell(NIL, NIL, NIL, false, 0)];
      nodecount := 0;
      this.dupes := dupes;
      tree := Leaf;
      assert Balanced(Leaf, 1);
    }

    method RotateLeft(upper: Ptr)
      requires upper in mem && mem[upper].right in mem && mem[mem[upper].right].left in mem && mem[upper].parent in mem
      modifies this`mem
      ensures mem == RotatedLeft(old(mem), upper)
    {
      var lower := mem[upper].right;
      var lowleft := mem[lower].left;
      mem := mem[upper := mem[upper].(right := lowleft)];
      mem := mem[lowleft := mem[lowleft].(parent := upper)];
      var upparent := mem[upper].parent;
      mem := mem[lower := mem[lower].(parent := upparent)];
      if upper == mem[upparent].left {
        mem := mem[upparent := mem[upparent].(left := lower)];
      } else {
        mem := mem[upparent := mem[upparent].(right := lower)];
      }
      mem := mem[lower := mem[lower].(left := upper)];
      mem := mem[upper := mem[upper].(parent := lower)];
    }

    method RotateRight(upper: Ptr)
      requires upper in mem && mem[upper].left in mem && mem[mem[upper].left].right in mem && mem[upper].parent in mem
      modifies this`mem
      ensures mem == RotatedRight(old(mem), upper)
    {
      var lower := mem[upper].left;
      var lowright := mem[lower].right;
      mem := mem[upper := mem[upper].(left := lowright)];
      mem := mem[lowright := mem[lowright].(parent := upper)];
      var upparent := mem[upper].parent;
      mem := mem[lower := mem[lower].(parent := upparent)];
      if upper == mem[upparent].right {
        mem := mem[upparent := mem[upparent].(right := lower)];
      } else {
        mem := mem[upparent := mem[upparent].(left := lower)];
      }
      mem := mem[lower := mem[lower].(right := upper)];
      mem := mem[upper := mem[upper].(parent := lower)];
    }

    /** The descent of dict_insert to the empty place for a key. */
    method FindPlace(key: int) returns (parent: Ptr, result: int, ghost c: Ctx)
      requires Valid()
      ensures Holds(mem, c, Leaf) && Plug(c, Leaf) == tree && parent == Holder(c) && (result < 0 <==> !c.InRight?)
      ensures NoneAbove(Before(c), key) && AllAbove(Behind(c), key)
    {
      hide Holds, Inorder, Ascending, IsBalanced, Plug, Before, Behind;
      Cells(mem, Top, tree);
      var where := mem[NIL].left;
      parent, result, c := NIL, -1, Top;
      ghost var t := tree;
      PlacedAtTop(tree, key);
      while where != NIL
        invariant Holds(mem, c, t) && Plug(c, t) == tree && where == Root(t) && parent == Holder(c)
        invariant (where == NIL <==> t.Leaf?) && (result < 0 <==> !c.InRight?)
        invariant NoneAbove(Before(c), key) && AllAbove(Behind(c), key)
        decreases t
      {
        Cells(mem, c, t);
        parent := where;
        result := Compare(key, mem[where].key);
        PlacedBelow(mem, c, t, key);
        if result < 0 {
          where := mem[where].left;
          c, t := InLeft(c, t.ptr, t.key, t.red, t.right), t.left;
        } else {
          where := mem[where].right;
          c, t := InRight(t.left, t.ptr, t.key, t.red, c), t.right;
        }
        Cells(mem, c, t);
      }
    }

    /** dict_insert: the new entry goes behind its equals. */
    method Insert(node: Ptr, key: int)
      requires Valid() && node != NIL && node !in Ptrs(tree)
      requires !dupes ==> FirstWith(Inorder(tree), key) == NIL
      modifies this
      ensures Valid() && dupes == old(dupes) && nodecount == old(nodecount) + 1
      ensures Inorder(tree) == UpTo(old(Inorder(tree)), key) + [(node, key)] + Above(old(Inorder(tree)), key)
    {
      hide Holds, Inorder, IsBalanced, Plug, Balanced, CtxBalanced, RootBlack, InOrder;
      ghost var s := Inorder(tree);
      var parent, result;
      ghost var c;
      parent, result, c := FindPlace(key);
      Planted(mem, c, node, key);
      PlacedInOrder(mem, c, node, key, dupes);
      mem := Hung(mem, parent, result < 0, node, key);
      nodecount := nodecount + 1;
      FixUp(node, c, Node(Leaf, node, key, true, Leaf), UpTo(s, key) + [(node, key)] + Above(s, key));
    }

    /** dict_first */
    method First() returns (root: Ptr)
      requires Valid()
      ensures root == if Inorder(tree) == [] then NIL else Inorder(tree)[0].0
    {
      hide Holds, Inorder, IsBalanced, Before, Plug, InOrder;
      Cells(mem, Top, tree);
      PlugInorder(Top, tree);
      root := mem[NIL].left;
      ghost var c, t := Top, tree;
      assert Before(Top) == [] && Plug(Top, tree) == tree by { PlacedAtTop(tree, 0); }
      EmptyTree(tree);
      if root != NIL {
        StepLeft(mem, c, t);
        while mem[root].left != NIL
          invariant root in mem && root == Root(t) && t.Node? && Holds(mem, c, t) && Plug(c, t) == tree
          invariant Before(c) == [] && (mem[root].left == NIL <==> t.left.Leaf?)
          decreases t
        {
          StepLeft(mem, c, t);
          root := mem[root].left;
          c, t := InLeft(c, t.ptr, t.key, t.red, t.right), t.left;
          Cells(mem, c, t);
          StepLeft(mem, c, t);
        }
        Cells(mem, c, t);
        PlugInorder(c, t);
        LeftEnd(t);
      }
    }

    /** dict_next */
    method Next(curr: Ptr) returns (next: Ptr)
      requires Valid() && curr in Ptrs(tree)
      ensures Follows(Inorder(tree), curr, next)
    {
      hide Holds, Inorder, IsBalanced, Before, Behind, Plug, InOrder, Follows, Distinct;
      ghost var c, t := Locate(Top, tree, curr);
      assert Plug(Top, tree) == tree by { PlacedAtTop(tree, 0); }
      FocusWhole(mem, c, t);
      assert Distinct(tree) by { HeldDistinct(mem, Top, tree); }
      Cells(mem, c, t);
      StepRight(mem, c, t);
      if mem[curr].right != NIL {
        next := mem[curr].right;
        c, t := InRight(t.left, t.ptr, t.key, t.red, c), t.right;
        Cells(mem, c, t);
        StepLeft(mem, c, t);
        while mem[next].left != NIL
          invariant next in mem && next == Root(t) && t.Node? && Holds(mem, c, t) && Plug(c, t) == tree
          invariant EndsWith(Before(c), curr) && (mem[next].left == NIL <==> t.left.Leaf?)
          decreases t
        {
          StepLeft(mem, c, t);
          Cells(mem, c, t);
          next := mem[next].left;
          c, t := InLeft(c, t.ptr, t.key, t.red, t.right), t.left;
          Cells(mem, c, t);
          StepLeft(mem, c, t);
        }
        LeftmostNext(c, t, curr);
      } else {
        var from := curr;
        next := mem[curr].parent;
        RightEnd(c, t);
        while next != NIL && from == mem[next].right
          invariant next in mem && next == Holder(c) && from == Root(t) && t.Node? && Holds(mem, c, t)
          invariant Plug(c, t) == tree
          invariant EndsWith(Before(c) + Inorder(t), curr) && (next == NIL <==> c.Top?)
          decreases c
        {
          Cells(mem, c, t);
          UpFromRight(c, t);
          GoUp(mem, c, t);
          from := next;
          Cells(mem, c.up, Grow(c, t));
          next := mem[from].parent;
          c, t := c.up, Grow(c, t);
        }
        Cells(mem, c, t);
        HolderNext(c, t, curr);
      }
    }

    /** dict_first and then dict_next until there is none, as quota_write_inode walks its dictionary. */
    method Walk() returns (s: Entries)
      requires Valid()
      ensures s == Inorder(tree)
    {
      hide Holds, Inorder, IsBalanced, InOrder;
      s := [];
      InorderPtrs(tree);
      assert NIL !in Ptrs(tree) by { HeldDistinct(mem, Top, tree); NilNotHeld(tree); }
      var n := First();
      while n != NIL
        invariant |s| <= |Inorder(tree)| && s == Inorder(tree)[..|s|]
        invariant n == if |s| < |Inorder(tree)| then Inorder(tree)[|s|].0 else NIL
        decreases |Inorder(tree)| - |s|
      {
        assert Inorder(tree)[|s|] in Inorder(tree);
        KeyStored(mem, tree, n);
        s := s + [(n, mem[n].key)];
        assert Inorder(tree)[|s| - 1] in Inorder(tree);
        n := Next(n);
        assert n == Behind1(Inorder(tree), |s| - 1);
      }
    }

    /** dict_lookup: the first entry with the key, also among duplicates. */
    method Lookup(key: int) returns (found: Ptr)
      requires Valid()
      ensures found == FirstWith(Inorder(tree), key)
    {
      hide Holds, Inorder, Ascending, IsBalanced, Plug, Before, Behind, Strict, FirstWith;
      Cells(mem, Top, tree);
      var root := mem[NIL].left;
      ghost var c, t := Top, tree;
      SearchTop(tree, key);
      while root != NIL
        invariant Holds(mem, c, t) && Plug(c, t) == tree && root == Root(t) && (root == NIL <==> t.Leaf?)
        invariant AllBelow(Before(c), key) && AllAbove(Behind(c), key)
        decreases t
      {
        Cells(mem, c, t);
        SearchBelow(mem, c, t, key);
        var result := Compare(key, mem[root].key);
        if result < 0 {
          root := mem[root].left;
          c, t := InLeft(c, t.ptr, t.key, t.red, t.right), t.left;
        } else if result > 0 {
          root := mem[root].right;
          c, t := InRight(t.left, t.ptr, t.key, t.red, c), t.right;
        } else if !dupes {
          SearchHit(c, t);
          return root;
        } else {
          found := Earliest(root, key, c, t);
          return;
        }
        Cells(mem, c, t);
      }
      SearchMiss(c, key);
      return NIL;
    }

    /** The inner loops of dict_lookup, from one match to the leftmost. */
    method Earliest(start: Ptr, key: int, ghost c0: Ctx, ghost t0: Tree) returns (saved: Ptr)
      requires Valid() && Holds(mem, c0, t0) && Plug(c0, t0) == tree && t0.Node? && start == t0.ptr && t0.key == key
      requires AllBelow(Before(c0), key)
      ensures saved == FirstWith(Inorder(tree), key)
    {
      hide Holds, Inorder, Ascending, IsBalanced, Plug, Before, Behind, Strict, FirstWith, Match;
      var root := start;
      ghost var c, t := c0, t0;
      saved := start;
      Cells(mem, c, t);
      while root != NIL
        invariant Holds(mem, c, t) && Plug(c, t) == tree && root == Root(t) && AllBelow(Before(c), key)
        invariant root != NIL ==> t.Node? && t.key == key
        invariant root == NIL ==> t.Leaf? && Match(c, saved, key)
        decreases t
      {
        saved := root;
        Cells(mem, c, t);
        MatchLeft(mem, c, t);
        root := mem[root].left;
        c, t := InLeft(c, t.ptr, t.key, t.red, t.right), t.left;
        Cells(mem, c, t);
        while root != NIL && Compare(key, mem[root].key) != 0
          invariant Holds(mem, c, t) && Plug(c, t) == tree && root == Root(t) && AllBelow(Before(c), key)
          invariant root in mem && (root == NIL <==> t.Leaf?) && Match(c, saved, key)
          decreases t
        {
          Cells(mem, c, t);
          MatchRight(mem, c, t, saved, key);
          root := mem[root].right;
          c, t := InRight(t.left, t.ptr, t.key, t.red, c), t.right;
          Cells(mem, c, t);
        }
        Cells(mem, c, t);
      }
      MatchFirst(c, saved, key);
    }

    /** dict_delete: exactly the given node goes. */
    method Delete(delete: Ptr)
      requires Valid() && delete in Ptrs(tree)
      modifies this
      ensures Valid() && dupes == old(dupes) && nodecount == old(nodecount) - 1
      ensures Inorder(tree) == Without(old(Inorder(tree)), delete)
    {
      hide Holds, Inorder, IsBalanced, Plug, Balanced, CtxBalanced, RootBlack, InOrder;
      ghost var s := Inorder(tree);
      WithoutInOrder(dupes, s, delete);
      HeldOnce(mem, tree, delete);
      var child;
      ghost var c, x, h;
      child, c, x, h := Unlink(delete);
      Forget(mem, c, x, delete, mem[delete].(parent := NIL, right := NIL, left := NIL));
      UnlinkedApart(mem, c, x);
      mem := mem[delete := mem[delete].(parent := NIL, right := NIL, left := NIL)];
      nodecount := nodecount - 1;
      if !mem[delete].red {
        Rebalance(child, c, x, h, Without(s, delete));
      } else {
        tree := Plug(c, x);
        PlugBalanced(c, x, h);
        FocusWhole(mem, c, x);
        PlugRootBlack(c, x);
      }
    }

    /** The first half of dict_delete: the node leaves the tree and keeps the colour that went missing. */
    method Unlink(delete: Ptr) returns (child: Ptr, ghost c': Ctx, ghost x: Tree, ghost h: nat)
      requires Valid() && delete in Ptrs(tree)
      modifies this`mem
      ensures Unlinked(mem, c', x, h, delete, Without(Inorder(tree), delete)) && child == Root(x)
    {
      hide Holds, Inorder, IsBalanced, Plug, Balanced, CtxBalanced, RootBlack, InOrder, Ptrs, CtxPtrs, Follows, Before;
      ghost var c, t := Locate(Top, tree, delete);
      assert Plug(Top, tree) == tree by { PlacedAtTop(tree, 0); }
      FocusWhole(mem, c, t);
      Cells(mem, c, t);
      StepLeft(mem, c, t);
      StepRight(mem, c, t);
      var delparent := mem[delete].parent;
      if mem[delete].left != NIL && mem[delete].right != NIL {
        var next := Next(delete);
        NextIsFirst(mem, c, t, next);
        c', x, h := Replaced(mem, c, t);
        var nextparent := mem[next].parent;
        child := mem[next].right;
        hide Spliced, Installed;
        mem := Spliced(mem, next, child, nextparent);
        mem := Installed(mem, next, delete);
      } else {
        child := if mem[delete].left != NIL then mem[delete].left else mem[delete].right;
        h := Removed(mem, c, t);
        c', x := c, Child(t);
        hide Spliced, Installed;
        mem := Spliced(mem, delete, child, delparent);
      }
    }

    /** The second half of dict_delete: a black node is missing above x. */
    method Rebalance(start: Ptr, ghost c0: Ctx, ghost x0: Tree, ghost h0: nat, ghost s: Entries)
      requires Lost(mem, c0, x0, h0, s) && start == Root(x0)
      modifies this`mem, this`tree
      ensures Holds(mem, Top, tree) && IsBalanced(tree) && !IsRed(tree) && Inorder(tree) == s
    {
      hide Holds, Inorder, IsBalanced, Plug, Balanced, CtxBalanced, RootBlack, RootPainted;
      ghost var m0 := mem;
      ghost var c, x, h := c0, x0, h0;
      Cells(mem, c, x);
      ghost var emptied := c.Top? && x.Leaf?;
      if !emptied {
        c, x, h := StartDeficit(mem, c, x, h, s);
      }
      mem := Painted(mem, mem[NIL].left, true);
      if !emptied { Cells(mem, c, x); }
      var child, done := start, false;
      while !done && !mem[child].red
        invariant child in mem && NIL in mem
        invariant emptied ==> child == NIL && mem == Painted(m0, NIL, true) && m0[NIL].left == NIL
        invariant emptied ==> mem[child].red && !done
        invariant !emptied && done ==> Settled(mem, c, x, h, s) && !mem[child].red
        invariant !emptied && !done ==> Deficit(mem, c, x, h, s) && child == Root(x) && mem[child].parent == Holder(c)
        invariant !emptied && !done ==> mem[child].red == IsRed(x)
        decreases !done, Remaining(c, x)
      {
        DeficitShort(mem, c, x, h, s);
        ShortCells(mem, c, x, h, s);
        var parent := mem[child].parent;
        if child == mem[parent].left {
          child, done, c, x, h := HealLeft(child, parent, c, x, h, s);
        } else {
          child, done, c, x, h := HealRight(child, parent, c, x, h, s);
        }
        Cells(mem, c, x);
      }
      if !emptied && !done {
        EndDeficit(mem, c, x, h, s);
        x, h := x.(red := false), h + 1;
      }
      assert !mem[child].red ==> Painted(mem, child, false) == mem;
      mem := Painted(mem, child, false);
      if emptied { EmptiedHolds(m0, mem); } else { SettleRoot(mem, c, x, h, s); }
      tree := if emptied then Leaf else Plug(c, x).(red := false);
      mem := Painted(mem, mem[NIL].left, false);
    }

    /** One round of the loop for a left child: `done` when it breaks. */
    method HealLeft(child: Ptr, parent: Ptr, ghost c: Ctx, ghost x: Tree, ghost h: nat, ghost s: Entries)
      returns (child': Ptr, done: bool, ghost c': Ctx, ghost x': Tree, ghost h': nat)
      requires Short(mem, c, x, h, s) && RootRed(c) && c.InLeft? && child == Root(x) && parent == c.ptr
      modifies this`mem
      ensures child' in mem
      ensures done ==> Settled(mem, c', x', h', s) && child' == child && !mem[child].red
      ensures !done ==> Deficit(mem, c', x', h', s) && child' == Root(x') && x'.Node?
      ensures !done ==> Remaining(c', x') < Remaining(c, x)
    {
      hide Holds, Inorder, Plug, Balanced, CtxBalanced, RootPainted, RotatedLeft, RotatedRight;
      ghost var d := c;
      ShortCells(mem, d, x, h, s);
      SisterBlack(c, h);
      var sister := mem[parent].right;
      if mem[sister].red {
        RedSisterLeft(mem, d, x, h, s);
        mem := Painted(mem, sister, false);
        mem := Painted(mem, parent, true);
        RotateLeft(parent);
        d := InLeft(InLeft(c.up, c.right.ptr, c.right.key, false, c.right.right), c.ptr, c.key, true, c.right.left);
        ShortCells(mem, d, x, h, s);
        sister := mem[parent].right;
      }
      if !mem[mem[sister].left].red && !mem[mem[sister].right].red {
        BlackNephewsLeft(mem, d, x, h, s);
        mem := Painted(mem, sister, true);
        child', done := parent, false;
        c', x', h' := d.up, Node(x, d.ptr, d.key, d.red, d.right.(red := true)), if d.red then h else h + 1;
      } else {
        if !mem[mem[sister].right].red {
          NearNephewLeft(mem, d, x, h, s);
          mem := Painted(mem, mem[sister].left, false);
          mem := Painted(mem, sister, true);
          RotateRight(sister);
          d := InLeft(d.up, d.ptr, d.key, d.red,
              RightTurned(Node(d.right.left.(red := false), d.right.ptr, d.right.key, true, d.right.right)));
          ShortCells(mem, d, x, h, s);
          sister := mem[parent].right;
        }
        FarNephewLeft(mem, d, x, h, s);
        mem := Painted(mem, sister, mem[parent].red);
        mem := Painted(mem, mem[sister].right, false);
        mem := Painted(mem, parent, false);
        RotateLeft(parent);
        child', done := child, true;
        c', x', h' := d.up, LeftTurned(Node(x, d.ptr, d.key, false, FarPaintedLeft(d))), if d.red then h + 1 else h + 2;
      }
    }

    /** One round of the loop for a right child: `done` when it breaks. */
    method HealRight(child: Ptr, parent: Ptr, ghost c: Ctx, ghost x: Tree, ghost h: nat, ghost s: Entries)
      returns (child': Ptr, done: bool, ghost c': Ctx, ghost x': Tree, ghost h': nat)
      requires Short(mem, c, x, h, s) && RootRed(c) && c.InRight? && child == Root(x) && parent == c.ptr
      modifies this`mem
      ensures child' in mem
      ensures done ==> Settled(mem, c', x', h', s) && child' == child && !mem[child].red
      ensures !done ==> Deficit(mem, c', x', h', s) && child' == Root(x') && x'.Node?
      ensures !done ==> Remaining(c', x') < Remaining(c, x)
    {
      hide Holds, Inorder, Plug, Balanced, CtxBalanced, RootPainted, RotatedRight, RotatedLeft;
      ghost var d := c;
      ShortCells(mem, d, x, h, s);
      SisterBlack(c, h);
      var sister := mem[parent].left;
      if mem[sister].red {
        RedSisterRight(mem, d, x, h, s);
        mem := Painted(mem, sister, false);
        mem := Painted(mem, parent, true);
        RotateRight(parent);
        d := InRight(c.left.right, c.ptr, c.key, true, InRight(c.left.left, c.left.ptr, c.left.key, false, c.up));
        ShortCells(mem, d, x, h, s);
        sister := mem[parent].left;
      }
      if !mem[mem[sister].right].red && !mem[mem[sister].left].red {
        BlackNephewsRight(mem, d, x, h, s);
        mem := Painted(mem, sister, true);
        child', done := parent, false;
        c', x', h' := d.up, Node(d.left.(red := true), d.ptr, d.key, d.red, x), if d.red then h else h + 1;
      } else {
        if !mem[mem[sister].left].red {
          NearNephewRight(mem, d, x, h, s);
          mem := Painted(mem, mem[sister].right, false);
          mem := Painted(mem, sister, true);
          RotateLeft(sister);
          d := InRight(LeftTurned(Node(d.left.left, d.left.ptr, d.left.key, true, d.left.right.(red := false))),
              d.ptr, d.key, d.red, d.up);
          ShortCells(mem, d, x, h, s);
          sister := mem[parent].left;
        }
        FarNephewRight(mem, d, x, h, s);
        mem := Painted(mem, sister, mem[parent].red);
        mem := Painted(mem, mem[sister].left, false);
        mem := Painted(mem, parent, false);
        RotateRight(parent);
        child', done := child, true;
        c', x', h' := d.up, RightTurned(Node(FarPaintedRight(d), d.ptr, d.key, false, x)),
                      if d.red then h + 1 else h + 2;
      }
    }

    /** The loop of dict_insert that puts the colours right, and the black root after it. */
    method FixUp(start: Ptr, ghost c0: Ctx, ghost t0: Tree, ghost s: Entries)
      requires start == Root(t0) && Fixing(mem, c0, t0, 1, s)
      modifies this`mem, this`tree
      ensures Holds(mem, Top, tree) && IsBalanced(tree) && !IsRed(tree) && Inorder(tree) == s
    {
      hide Holds, Inorder, IsBalanced, Plug, Balanced, CtxBalanced, RootBlack, RotatedLeft, RotatedRight;
      ghost var c, t, h := c0, t0, 1;
      Cells(mem, c, t);
      var node, parent := start, mem[start].parent;
      while mem[parent].red
        invariant parent in mem && NIL in mem && Fixing(mem, c, t, h, s)
        invariant node == t.ptr && parent == Holder(c) && mem[parent].red == HolderRed(c)
        decreases c
      {
        RedParent(c, t, h);
        Cells(mem, c, t);
        GoUp(mem, c, t);
        Cells(mem, c.up, Grow(c, t));
        GoUp(mem, c.up, Grow(c, t));
        var grandpa := mem[parent].parent;
        var uncle;
        if parent == mem[grandpa].left {
          uncle := mem[grandpa].right;
        } else {
          uncle := mem[grandpa].left;
        }
        UncleRed(mem, c, t);
        if mem[uncle].red {
          PushStep(mem, c, t, h, s);
          ghost var g := Grow(c.up, Grow(c, t));
          ghost var m' := PushedFrom(mem, c);
          mem := Painted(mem, parent, false);
          mem := Painted(mem, uncle, false);
          mem := Painted(mem, grandpa, true);
          assert mem == m';
          c, t, h := c.up.up, Node(g.left.(red := false), g.ptr, g.key, true, g.right.(red := false)), h + 1;
          node := grandpa;
          Cells(mem, c, t);
          parent := mem[grandpa].parent;
        } else {
          LeansOuter(c, t, h);
          LeansInner(c, t, h);
          UncleBalanced(c, h);
          c, t, h := Turn(node, parent, grandpa, c, t, h, s);
          break;
        }
      }
      BlackRoot(mem, c, t, h, s);
      tree := Plug(c, t).(red := false);
      mem := Painted(mem, mem[NIL].left, false);
    }

    /** The rotations for a red parent with a black uncle. */
    method Turn(node: Ptr, parent: Ptr, grandpa: Ptr, ghost c: Ctx, ghost t: Tree, ghost h: nat, ghost s: Entries)
      returns (ghost c': Ctx, ghost t': Tree, ghost h': nat)
      requires Fixing(mem, c, t, h, s) && HolderRed(c) && !c.up.Top?
      requires node == t.ptr && parent == c.ptr && grandpa == c.up.ptr
      requires Balanced(Brother(c.up), h) && !IsRed(Brother(c.up)) && CtxBalanced(c.up.up, h + 1)
      modifies this`mem
      ensures Fixed(mem, c', t', h', s)
    {
      hide Holds, Inorder, Plug, Balanced, CtxBalanced, RootBlack, RotatedLeft, RotatedRight;
      LeansOuter(c, t, h);
      LeansInner(c, t, h);
      GoUp(mem, c, t);
      Cells(mem, c, t);
      Cells(mem, c.up, Grow(c, t));
      ghost var x, up := Grow(c, t), c.up;
      var parent' := parent;
      if parent == mem[grandpa].left {
        if node == mem[parent].right {
          LeftReady(mem, up, x);
          LeftHolds(mem, up, x);
          LeftTurnedInorder(x);
          SameInorder(up, x, LeftTurned(x));
          RotateLeft(parent);
          parent', x := node, LeftTurned(x);
        }
        TurnStepLeft(mem, up, x, h, s);
        mem := Painted(mem, parent', false);
        mem := Painted(mem, grandpa, true);
        RotateRight(grandpa);
        c', t', h' := up.up, RightTurned(Node(x.(red := false), up.ptr, up.key, true, up.right)), h + 1;
      } else {
        if node == mem[parent].left {
          RightReady(mem, up, x);
          RightHolds(mem, up, x);
          RightTurnedInorder(x);
          SameInorder(up, x, RightTurned(x));
          RotateRight(parent);
          parent', x := node, RightTurned(x);
        }
        TurnStepRight(mem, up, x, h, s);
        mem := Painted(mem, parent', false);
        mem := Painted(mem, grandpa, true);
        RotateLeft(grandpa);
        c', t', h' := up.up, LeftTurned(Node(up.left, up.ptr, up.key, true, x.(red := false))), h + 1;
      }
    }
  }

  /** Hanging up the new node, before the colours are looked at. */
  lemma Planted(m: Memory, c: Ctx, node: Ptr, key: int)
    requires Holds(m, c, Leaf) && IsBalanced(Plug(c, Leaf)) && !IsRed(Plug(c, Leaf)) && node != NIL
    requires node !in Ptrs(Plug(c, Leaf))
    requires NoneAbove(Before(c), key) && AllAbove(Behind(c), key)
    ensures Holder(c) in m
    ensures var s := Inorder(Plug(c, Leaf));
            Fixing(Hung(m, Holder(c), !c.InRight?, node, key), c, Node(Leaf, node, key, true, Leaf), 1,
                   UpTo(s, key) + [(node, key)] + Above(s, key))
  {
    var t := Node(Leaf, node, key, true, Leaf);
    Cells(m, c, Leaf);
    PlugPtrs(c, Leaf);
    HangHolds(m, c, node, key);
    PlugInorder(c, Leaf);
    PlugInorder(c, t);
    SplitAt(Before(c), Behind(c), key);
    assert Inorder(Plug(c, Leaf)) == Before(c) + Behind(c);
    assert Inorder(t) == [(node, key)];
    LeafDepth(c);
  }

  /** The entries stay in order, and there is one more of them. */
  lemma PlacedInOrder(m: Memory, c: Ctx, node: Ptr, key: int, dupes: bool)
    requires Holds(m, c, Leaf) && NoneAbove(Before(c), key) && AllAbove(Behind(c), key)
    requires InOrder(dupes, Inorder(Plug(c, Leaf)))
    requires !dupes ==> FirstWith(Inorder(Plug(c, Leaf)), key) == NIL
    ensures var s := Inorder(Plug(c, Leaf));
            var s' := UpTo(s, key) + [(node, key)] + Above(s, key);
            InOrder(dupes, s') && |s'| == |s| + 1
  {
    var a, b, s := Before(c), Behind(c), Inorder(Plug(c, Leaf));
    PlugInorder(c, Leaf);
    assert s == a + b;
    SplitAt(a, b, key);
    if !dupes { BelowNew(m, c, key); }
    PutInOrder(a, (node, key), b);
  }

  /** A key that is not there is above everything before its place. */
  lemma BelowNew(m: Memory, c: Ctx, key: int)
    requires Holds(m, c, Leaf) && NoneAbove(Before(c), key) && FirstWith(Inorder(Plug(c, Leaf)), key) == NIL
    ensures forall i :: 0 <= i < |Before(c)| ==> Before(c)[i].1 < key
  {
    var a, s := Before(c), Inorder(Plug(c, Leaf));
    PlugInorder(c, Leaf);
    assert s == a + Behind(c);
    FocusWhole(m, c, Leaf);
    NilNotHeld(Plug(c, Leaf));
    InorderPtrs(Plug(c, Leaf));
    forall i | 0 <= i < |a| ensures a[i].1 < key {
      if a[i].1 == key { assert s[i] == a[i]; FoundAt(s, i, key); }
    }
  }

  /** An entry with the key stops the search at it or before it. */
  lemma {:induction false} FoundAt(s: Entries, i: nat, key: int)
    requires i < |s| && s[i].1 == key && forall e :: e in s ==> e.0 != NIL
    ensures FirstWith(s, key) != NIL
  {
    assert s[0] in s;
    if s[0].1 != key { FoundAt(s[1..], i - 1, key); }
  }

  lemma LeafDepth(c: Ctx)
    requires IsBalanced(Plug(c, Leaf)) && !IsRed(Plug(c, Leaf))
    ensures CtxBalanced(c, 1) && RootBlack(c)
  {
    Unplug(c, Leaf);
  }

  lemma UncleBalanced(c: Ctx, h: nat)
    requires CtxBalanced(c, h) && HolderRed(c) && !c.up.Top? && !c.up.red
    ensures Balanced(Brother(c.up), h)
  {
  }

  /** The colour of the uncle as the loop reads it. */
  lemma UncleRed(m: Memory, c: Ctx, t: Tree)
    requires Holds(m, c, t) && !c.Top? && !c.up.Top?
    ensures Uncle(c) in m && m[Uncle(c)].red == IsRed(Brother(c.up))
  {
    GoUp(m, c, t);
    GoUp(m, c.up, Grow(c, t));
    var g := Grow(c.up, Grow(c, t));
    if c.up.InLeft? {
      FocusRight(m, c.up.up, g);
      Cells(m, InRight(g.left, g.ptr, g.key, g.red, c.up.up), g.right);
    } else {
      FocusLeft(m, c.up.up, g);
      Cells(m, InLeft(c.up.up, g.ptr, g.key, g.red, g.right), g.left);
    }
  }

  lemma EmptyTree(t: Tree)
    ensures Inorder(t) == [] <==> t.Leaf?
  {
  }

  lemma HeldDistinct(m: Memory, c: Ctx, t: Tree)
    requires Holds(m, c, t)
    ensures Distinct(t)
  {
  }

  lemma StepLeft(m: Memory, c: Ctx, t: Tree)
    requires Holds(m, c, t) && t.Node?
    ensures var l := InLeft(c, t.ptr, t.key, t.red, t.right);
            Holds(m, l, t.left) && Plug(l, t.left) == Plug(c, t) && Before(l) == Before(c)
    ensures t.ptr in m && (m[t.ptr].left == NIL <==> t.left.Leaf?)
  {
    FocusLeft(m, c, t);
    Cells(m, c, t);
    Cells(m, InLeft(c, t.ptr, t.key, t.red, t.right), t.left);
  }

  lemma StepRight(m: Memory, c: Ctx, t: Tree)
    requires Holds(m, c, t) && t.Node?
    ensures var r := InRight(t.left, t.ptr, t.key, t.red, c);
            Holds(m, r, t.right) && Plug(r, t.right) == Plug(c, t) && EndsWith(Before(r), t.ptr)
    ensures t.ptr in m && (m[t.ptr].right == NIL <==> t.right.Leaf?)
  {
    FocusRight(m, c, t);
    Cells(m, c, t);
    Cells(m, InRight(t.left, t.ptr, t.key, t.red, c), t.right);
  }

  lemma LeftEnd(t: Tree)
    requires t.Node? && t.left.Leaf?
    ensures Inorder(t) != [] && Inorder(t)[0].0 == t.ptr
  {
  }

  lemma RightEnd(c: Ctx, t: Tree)
    requires t.Node? && t.right.Leaf?
    ensures EndsWith(Before(c) + Inorder(t), t.ptr)
  {
  }

  lemma {:induction false} KeyStored(m: Memory, t: Tree, p: Ptr)
    requires Holds(m, Top, t) && p in Ptrs(t)
    ensures p in m && forall i :: 0 <= i < |Inorder(t)| && Inorder(t)[i].0 == p ==> Inorder(t)[i].1 == m[p].key
  {
    var c, u := Locate(Top, t, p);
    FocusWhole(m, c, u);
    Cells(m, c, u);
    PlugInorder(c, u);
    InorderOnce(t);
    var k := |Before(c)| + |Inorder(u.left)|;
    assert Inorder(u)[|Inorder(u.left)|] == (p, m[p].key);
    assert Inorder(t)[k] == (p, m[p].key);
    forall i | 0 <= i < |Inorder(t)| && Inorder(t)[i].0 == p ensures i == k {
      if i < k { assert false; } else if k < i { assert false; }
    }
  }

  // ---- deleting

  lemma HeldOnce(m: Memory, t: Tree, p: Ptr)
    requires Holds(m, Top, t) && p in Ptrs(t)
    ensures |Without(Inorder(t), p)| == |Inorder(t)| - 1
  {
    InorderPtrs(t);
    WithoutCount(Inorder(t), p);
  }

  lemma {:induction false} WithoutCount(s: Entries, p: Ptr)
    requires exists i :: 0 <= i < |s| && s[i].0 == p
    ensures |Without(s, p)| == |s| - 1
  {
    var i :| 0 <= i < |s| && s[i].0 == p;
    if s[0].0 != p {
      assert s[1..][i - 1].0 == p;
      WithoutCount(s[1..], p);
    }
  }

  lemma UnlinkedApart(m: Memory, c: Ctx, x: Tree)
    requires Holds(m, c, x)
    ensures x.Node? ==> x.ptr in Ptrs(x)
  {
  }

  lemma DeficitShort(m: Memory, c: Ctx, x: Tree, h: nat, s: Entries)
    requires Deficit(m, c, x, h, s) && !IsRed(x)
    ensures Short(m, c, x, h, s) && RootRed(c)
  {
  }

  /** A red sister has a black parent. */
  lemma SisterBlack(c: Ctx, h: nat)
    requires !c.Top? && CtxBalanced(Blackened(c), h + 1) && RootRed(c)
    ensures IsRed(Brother(c)) ==> c.up.Top? || !c.red
    ensures c.red || !c.up.Top?
  {
  }

  lemma EmptiedHolds(m: Memory, m': Memory)
    requires Holds(m, Top, Leaf) && NIL in m' && m'[NIL] == m[NIL]
    ensures Holds(m', Top, Leaf) && IsBalanced(Leaf) && m'[NIL].left == NIL && Painted(m', NIL, false) == m'
    ensures Inorder(Plug(Top, Leaf)) == Inorder(Leaf)
  {
    assert Balanced(Leaf, 1);
  }

  // ---- searching

  lemma SearchTop(t: Tree, key: int)
    ensures Plug(Top, t) == t && AllBelow(Before(Top), key) && AllAbove(Behind(Top), key)
  {
  }

  lemma SearchBelow(m: Memory, c: Ctx, t: Tree, key: int)
    requires Holds(m, c, t) && t.Node? && Ascending(Inorder(Plug(c, t)))
    requires AllBelow(Before(c), key) && AllAbove(Behind(c), key)
    ensures var l := InLeft(c, t.ptr, t.key, t.red, t.right);
            && Holds(m, l, t.left) && Plug(l, t.left) == Plug(c, t)
            && (key < t.key ==> AllBelow(Before(l), key) && AllAbove(Behind(l), key))
    ensures var r := InRight(t.left, t.ptr, t.key, t.red, c);
            && Holds(m, r, t.right) && Plug(r, t.right) == Plug(c, t)
            && (t.key < key ==> AllBelow(Before(r), key) && AllAbove(Behind(r), key))
  {
    FocusLeft(m, c, t);
    FocusRight(m, c, t);
    AroundNode(c, t);
    if key < t.key {
      AboveBehind((t.ptr, t.key), Inorder(t.right), Behind(c), key);
    } else if t.key < key {
      BelowBefore(Before(c), Inorder(t.left), (t.ptr, t.key), key - 1);
    }
  }

  lemma SearchHit(c: Ctx, t: Tree)
    requires t.Node? && Strict(Inorder(Plug(c, t)))
    ensures FirstWith(Inorder(Plug(c, t)), t.key) == t.ptr
  {
    hide Strict, FirstWith, Inorder;
    var e, a, b := (t.ptr, t.key), Before(c) + Inorder(t.left), Inorder(t.right) + Behind(c);
    NodeInorder(c, t);
    StrictSides(a, e, b);
    FirstIn(a, e, b, t.key);
  }

  lemma SearchMiss(c: Ctx, key: int)
    requires AllBelow(Before(c), key) && AllAbove(Behind(c), key)
    ensures FirstWith(Inorder(Plug(c, Leaf)), key) == NIL
  {
    PlugInorder(c, Leaf);
    assert Before(c) + Inorder(Leaf) + Behind(c) == Before(c) + Behind(c);
    FirstBehind(Before(c), Behind(c), key);
    NoneWith(Behind(c), key);
  }

  /** The first entry behind the hole is `saved`, and it has the key. */
  predicate Match(c: Ctx, saved: Ptr, key: int) {
    Behind(c) != [] && Behind(c)[0] == (saved, key)
  }

  lemma MatchLeft(m: Memory, c: Ctx, t: Tree)
    requires Holds(m, c, t) && t.Node?
    ensures var l := InLeft(c, t.ptr, t.key, t.red, t.right);
            && Holds(m, l, t.left) && Plug(l, t.left) == Plug(c, t) && Before(l) == Before(c) && Match(l, t.ptr, t.key)
  {
    FocusLeft(m, c, t);
  }

  lemma MatchRight(m: Memory, c: Ctx, t: Tree, saved: Ptr, key: int)
    requires Holds(m, c, t) && t.Node? && Match(c, saved, key) && t.key != key && Ascending(Inorder(Plug(c, t)))
    ensures var r := InRight(t.left, t.ptr, t.key, t.red, c);
            && Holds(m, r, t.right) && Plug(r, t.right) == Plug(c, t) && Match(r, saved, key) &&
                 AllBelow(Before(r), key)
  {
    FocusRight(m, c, t);
    AroundNode(c, t);
    var b := Inorder(t.right) + Behind(c);
    assert b[|Inorder(t.right)|] == (saved, key);
    BelowBefore(Before(c), Inorder(t.left), (t.ptr, t.key), key - 1);
  }

  lemma MatchFirst(c: Ctx, saved: Ptr, key: int)
    requires Match(c, saved, key) && AllBelow(Before(c), key)
    ensures FirstWith(Inorder(Plug(c, Leaf)), key) == saved
  {
    PlugInorder(c, Leaf);
    var b := Behind(c);
    assert Before(c) + Inorder(Leaf) + b == Before(c) + [b[0]] + b[1..];
    FirstIn(Before(c), b[0], b[1..], key);
  }

  lemma PlacedAtTop(t: Tree, key: int)
    ensures Plug(Top, t) == t && NoneAbove(Before(Top), key) && AllAbove(Behind(Top), key)
  {
  }

  /** Going left keeps the smaller keys before the place, going right the larger ones behind it. */
  lemma PlacedBelow(m: Memory, c: Ctx, t: Tree, key: int)
    requires Holds(m, c, t) && t.Node? && Ascending(Inorder(Plug(c, t)))
    requires NoneAbove(Before(c), key) && AllAbove(Behind(c), key)
    ensures var l := InLeft(c, t.ptr, t.key, t.red, t.right);
            && Holds(m, l, t.left) && Plug(l, t.left) == Plug(c, t)
            && (key < t.key ==> NoneAbove(Before(l), key) && AllAbove(Behind(l), key))
    ensures var r := InRight(t.left, t.ptr, t.key, t.red, c);
            && Holds(m, r, t.right) && Plug(r, t.right) == Plug(c, t)
            && (t.key <= key ==> NoneAbove(Before(r), key) && AllAbove(Behind(r), key))
  {
    FocusLeft(m, c, t);
    FocusRight(m, c, t);
    AroundNode(c, t);
    if key < t.key {
      AboveBehind((t.ptr, t.key), Inorder(t.right), Behind(c), key);
    } else {
      BelowBefore(Before(c), Inorder(t.left), (t.ptr, t.key), key);
    }
  }

  lemma AboveBehind(e: (Ptr, int), x: Entries, b: Entries, key: int)
    requires key < e.1 && NoneBelow(x + b, e.1)
    ensures AllAbove([e] + x + b, key)
  {
    assert [e] + x + b == [e] + (x + b);
  }

  lemma BelowBefore(a: Entries, x: Entries, e: (Ptr, int), key: int)
    requires e.1 <= key && NoneAbove(a + x, e.1)
    ensures NoneAbove(a + x + [e], key)
  {
  }
}
