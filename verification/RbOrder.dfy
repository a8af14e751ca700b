/**
  The order of a red-black tree: the nodes from left to right, where a key belongs among
  them, and what comes next to a node.
 */
module RbOrder {
  import opened RbTree

  type Entries = seq<(Ptr, int)>

  /** The entries with keys up to the given one. */
  function UpTo(s: Entries, key: int): Entries {
    if s == [] then [] else (if s[0].1 <= key then [s[0]] else []) + UpTo(s[1..], key)
  }

  function Above(s: Entries, key: int): Entries {
    if s == [] then [] else (if s[0].1 <= key then [] else [s[0]]) + Above(s[1..], key)
  }

  /** The first entry with the given key. */
  function FirstWith(s: Entries, key: int): Ptr {
    if s == [] then NIL else if s[0].1 == key then s[0].0 else FirstWith(s[1..], key)
  }

  predicate NoneAbove(s: Entries, key: int) { forall i :: 0 <= i < |s| ==> s[i].1 <= key }
  predicate AllAbove(s: Entries, key: int) { forall i :: 0 <= i < |s| ==> key < s[i].1 }
  predicate AllBelow(s: Entries, key: int) { forall i :: 0 <= i < |s| ==> s[i].1 < key }
  predicate NoneBelow(s: Entries, key: int) { forall i :: 0 <= i < |s| ==> key <= s[i].1 }

  lemma {:induction false} SplitAt(a: Entries, b: Entries, key: int)
    requires NoneAbove(a, key) && AllAbove(b, key)
    ensures UpTo(a + b, key) == a && Above(a + b, key) == b
  {
    if a != [] {
      assert (a + b)[1..] == a[1..] + b;
      SplitAt(a[1..], b, key);
    } else if b != [] {
      assert a + b == b;
      assert b[1..] == [] + b[1..];
      SplitAt([], b[1..], key);
    } else {
      assert a + b == [];
    }
  }

  lemma {:induction false} FirstBehind(a: Entries, b: Entries, key: int)
    requires AllBelow(a, key)
    ensures FirstWith(a + b, key) == FirstWith(b, key)
  {
    if a == [] {
      assert a + b == b;
    } else {
      assert (a + b)[1..] == a[1..] + b;
      FirstBehind(a[1..], b, key);
    }
  }

  lemma {:induction false} NoneWith(s: Entries, key: int)
    requires forall i :: 0 <= i < |s| ==> s[i].1 != key
    ensures FirstWith(s, key) == NIL
  {
    if s != [] { NoneWith(s[1..], key); }
  }

  predicate Strict(s: Entries) { forall i, j :: 0 <= i < j < |s| ==> s[i].1 < s[j].1 }

  predicate InOrder(dupes: bool, s: Entries) { Ascending(s) && (!dupes ==> Strict(s)) }

  /** The keys of a subtree lie between those of its two sides. */
  lemma AroundNode(c: Ctx, t: Tree)
    requires t.Node? && Ascending(Inorder(Plug(c, t)))
    ensures NoneAbove(Before(c) + Inorder(t.left), t.key) && NoneBelow(Inorder(t.right) + Behind(c), t.key)
  {
    NodeInorder(c, t);
    Sides(Before(c) + Inorder(t.left), (t.ptr, t.key), Inorder(t.right) + Behind(c));
  }

  lemma NodeInorder(c: Ctx, t: Tree)
    requires t.Node?
    ensures Inorder(Plug(c, t)) == (Before(c) + Inorder(t.left)) + [(t.ptr, t.key)] + (Inorder(t.right) + Behind(c))
  {
    PlugInorder(c, t);
    RegroupAround(Before(c), Inorder(t.left), [(t.ptr, t.key)], Inorder(t.right), Behind(c));
  }

  lemma RegroupAround<T>(a: seq<T>, x: seq<T>, b: seq<T>, y: seq<T>, d: seq<T>)
    ensures a + (x + b + y) + d == (a + x) + b + (y + d)
  {
  }

  lemma Sides(a: Entries, e: (Ptr, int), b: Entries)
    requires Ascending(a + [e] + b)
    ensures NoneAbove(a, e.1) && NoneBelow(b, e.1)
  {
    var s := a + [e] + b;
    assert s[|a|] == e;
    forall i | 0 <= i < |a| ensures a[i].1 <= e.1 { assert s[i] == a[i]; }
    forall i | 0 <= i < |b| ensures e.1 <= b[i].1 { assert s[|a| + 1 + i] == b[i]; }
  }

  lemma StrictSides(a: Entries, e: (Ptr, int), b: Entries)
    requires Strict(a + [e] + b)
    ensures AllBelow(a, e.1) && AllAbove(b, e.1)
  {
    var s := a + [e] + b;
    assert s[|a|] == e;
    forall i | 0 <= i < |a| ensures a[i].1 < e.1 { assert s[i] == a[i]; }
    forall i | 0 <= i < |b| ensures e.1 < b[i].1 { assert s[|a| + 1 + i] == b[i]; }
  }

  /** An entry put behind its equals keeps the order. */
  lemma PutInOrder(a: Entries, e: (Ptr, int), b: Entries)
    requires Ascending(a + b) && NoneAbove(a, e.1) && AllAbove(b, e.1)
    ensures Ascending(a + [e] + b)
    ensures Strict(a + b) && AllBelow(a, e.1) ==> Strict(a + [e] + b)
  {
    var s, s' := a + b, a + [e] + b;
    forall i, j | 0 <= i < j < |s'|
      ensures s'[i].1 <= s'[j].1 && (Strict(s) && AllBelow(a, e.1) ==> s'[i].1 < s'[j].1)
    {
      var i' := if i < |a| then i else i - 1;
      var j' := if j < |a| then j else j - 1;
      assert i != |a| ==> s'[i] == s[i'];
      assert j != |a| ==> s'[j] == s[j'];
      assert i < |a| ==> s'[i] == a[i];
      assert j > |a| ==> s'[j] == b[j - |a| - 1];
    }
  }

  // ---- pointers

  /** Each node occurs once. */
  predicate Once(s: Entries) { forall i, j :: 0 <= i < j < |s| ==> s[i].0 != s[j].0 }

  lemma {:induction false} InorderOnce(t: Tree)
    requires Distinct(t)
    ensures Once(Inorder(t))
  {
    if t.Node? {
      InorderOnce(t.left);
      InorderOnce(t.right);
      InorderPtrs(t.left);
      InorderPtrs(t.right);
      OnceJoined(Inorder(t.left), (t.ptr, t.key), Inorder(t.right));
    }
  }

  lemma OnceJoined(a: Entries, e: (Ptr, int), b: Entries)
    requires Once(a) && Once(b)
    requires forall x, y :: x in a && y in b ==> x.0 != y.0
    requires forall x :: x in a || x in b ==> x.0 != e.0
    ensures Once(a + [e] + b)
  {
    var s := a + [e] + b;
    forall i, j | 0 <= i < j < |s| ensures s[i].0 != s[j].0 {
      assert i < |a| ==> s[i] == a[i] && a[i] in a;
      assert j < |a| ==> s[j] == a[j] && a[j] in a;
      assert i > |a| ==> s[i] == b[i - |a| - 1] && b[i - |a| - 1] in b;
      assert j > |a| ==> s[j] == b[j - |a| - 1] && b[j - |a| - 1] in b;
    }
  }

  /** Every node of a tree is somewhere in it. */
  lemma {:induction false} Locate(c: Ctx, t: Tree, p: Ptr) returns (c': Ctx, t': Tree)
    requires p in Ptrs(t)
    ensures t'.Node? && t'.ptr == p && Plug(c', t') == Plug(c, t)
    decreases t
  {
    if t.ptr == p {
      c', t' := c, t;
    } else if p in Ptrs(t.left) {
      c', t' := Locate(InLeft(c, t.ptr, t.key, t.red, t.right), t.left, p);
    } else {
      c', t' := Locate(InRight(t.left, t.ptr, t.key, t.red, c), t.right, p);
    }
  }

  /** What the entry behind index i is, or NIL. */
  function Behind1(s: Entries, i: int): Ptr
    requires 0 <= i < |s|
  {
    if i + 1 < |s| then s[i + 1].0 else NIL
  }

  /** `next` comes right after `curr`. */
  predicate Follows(s: Entries, curr: Ptr, next: Ptr) {
    && (exists i :: 0 <= i < |s| && s[i].0 == curr)
    && forall i :: 0 <= i < |s| && s[i].0 == curr ==> next == Behind1(s, i)
  }

  lemma FollowsAt(s: Entries, i: int, curr: Ptr, next: Ptr)
    requires Once(s) && 0 <= i < |s| && s[i].0 == curr && next == Behind1(s, i)
    ensures Follows(s, curr, next)
  {
    forall j | 0 <= j < |s| && s[j].0 == curr ensures j == i {
      if j < i { assert false; } else if i < j { assert false; }
    }
  }

  predicate EndsWith(s: Entries, p: Ptr) { |s| > 0 && s[|s| - 1].0 == p }

  /** The leftmost node of a subtree comes right behind what lies before the subtree. */
  lemma LeftmostNext(c: Ctx, t: Tree, curr: Ptr)
    requires t.Node? && t.left.Leaf? && EndsWith(Before(c), curr) && Distinct(Plug(c, t))
    ensures Follows(Inorder(Plug(c, t)), curr, t.ptr)
  {
    PlugInorder(c, t);
    InorderOnce(Plug(c, t));
    var a, s := Before(c), Inorder(Plug(c, t));
    assert Inorder(t) == [(t.ptr, t.key)] + Inorder(t.right);
    assert s[|a| - 1] == a[|a| - 1] && s[|a|] == Inorder(t)[0];
    FollowsAt(s, |a| - 1, curr, t.ptr);
  }

  /** The node whose left subtree ends here comes next; at the top nothing does. */
  lemma HolderNext(c: Ctx, t: Tree, curr: Ptr)
    requires !c.InRight? && EndsWith(Before(c) + Inorder(t), curr) && Distinct(Plug(c, t))
    ensures Follows(Inorder(Plug(c, t)), curr, Holder(c))
  {
    hide Inorder, Plug, Before, Behind, Distinct, Once, Follows;
    PlugInorder(c, t);
    InorderOnce(Plug(c, t));
    BehindStarts(c);
    var a, b := Before(c) + Inorder(t), Behind(c);
    assert (a + b)[|a| - 1] == a[|a| - 1];
    assert c.InLeft? ==> (a + b)[|a|] == b[0];
    FollowsAt(a + b, |a| - 1, curr, Holder(c));
  }

  lemma BehindStarts(c: Ctx)
    ensures c.Top? ==> Behind(c) == []
    ensures c.InLeft? ==> Behind(c) != [] && Behind(c)[0].0 == c.ptr
  {
  }

  lemma UpFromRight(c: Ctx, t: Tree)
    requires c.InRight?
    ensures Before(c) + Inorder(t) == Before(c.up) + Inorder(Node(c.left, c.ptr, c.key, c.red, t))
  {
    assert Before(c.up) + Inorder(c.left) + [(c.ptr, c.key)] + Inorder(t)
        == Before(c.up) + (Inorder(c.left) + [(c.ptr, c.key)] + Inorder(t));
  }

  // ---- finding a key

  lemma {:induction false} FirstIn(a: Entries, e: (Ptr, int), b: Entries, key: int)
    requires AllBelow(a, key) && e.1 == key
    ensures FirstWith(a + [e] + b, key) == e.0
  {
    assert a + [e] + b == a + ([e] + b);
    FirstBehind(a, [e] + b, key);
  }

  // ---- taking an entry out

  function Without(s: Entries, p: Ptr): Entries {
    if s == [] then [] else if s[0].0 == p then s[1..] else [s[0]] + Without(s[1..], p)
  }

  lemma {:induction false} WithoutAt(a: Entries, e: (Ptr, int), b: Entries)
    requires Once(a + [e] + b)
    ensures Without(a + [e] + b, e.0) == a + b
  {
    var s := a + [e] + b;
    if a == [] {
      assert s[0] == e && s[1..] == b;
    } else {
      assert s[0] == a[0] && s[1..] == a[1..] + [e] + b;
      assert s[|a|] == e;
      assert Once(s[1..]) by { OnceTail(s); }
      WithoutAt(a[1..], e, b);
      assert a + b == [a[0]] + (a[1..] + b);
    }
  }

  lemma OnceTail(s: Entries)
    requires Once(s) && s != []
    ensures Once(s[1..])
  {
  }

  /** Leaving an entry out keeps the order. */
  lemma {:induction false} WithoutInOrder(dupes: bool, s: Entries, p: Ptr)
    requires InOrder(dupes, s)
    ensures InOrder(dupes, Without(s, p))
    ensures forall e :: e in Without(s, p) ==> e in s
  {
    if s != [] && s[0].0 != p {
      assert InOrder(dupes, s[1..]);
      WithoutInOrder(dupes, s[1..], p);
      var w, w' := Without(s[1..], p), Without(s, p);
      forall i, j | 0 <= i < j < |w'| ensures w'[i].1 <= w'[j].1 && (!dupes ==> w'[i].1 < w'[j].1) {
        assert w'[j] == w[j - 1] && w[j - 1] in w;
        var k :| 0 <= k < |s[1..]| && s[1..][k] == w[j - 1];
        assert s[k + 1] == w'[j];
        if i > 0 { assert w'[i] == w[i - 1]; }
      }
    }
  }

  lemma FollowsOnce(s: Entries, curr: Ptr, a: Ptr, b: Ptr)
    requires Follows(s, curr, a) && Follows(s, curr, b)
    ensures a == b
  {
  }
}
