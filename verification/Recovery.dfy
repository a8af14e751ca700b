/**
  Roll-forward recovery (fsck/mount.c): the chain of node blocks written since the last
  checkpoint is walked twice, once to find the inodes that were synced and once to mark
  what they use.
 */
module Recovery {
  import opened Segments

  const NEW_ADDR: nat := 0xFFFF_FFFF
  const COMPRESS_ADDR: nat := 0xFFFF_FFFE
  const WARM_DATA := 1
  const WARM_NODE := 4

  /** A node block: `recoverable` when it belongs to the current checkpoint, `bare` when it holds no block addresses. */
  datatype Node = Node(ino: nat, next: nat, recoverable: bool, fsync: bool, bare: bool, addrs: seq<nat>)

  /** The unchanged image: what a block of the main area reads as. */
  datatype Img = Img(g: Layout, nodes: nat -> Node)

  /** The walk goes on at this block. */
  predicate Linked(m: Img, a: nat) { m.g.InMain(a) && m.nodes(a).recoverable }

  /** Consecutive blocks of the walk. */
  predicate Walk(m: Img, start: nat, c: seq<nat>) {
    && (forall i :: 0 <= i < |c| ==> Linked(m, c[i]))
    && (|c| > 0 ==> c[0] == start) && forall i :: 0 < i < |c| ==> c[i] == m.nodes(c[i - 1]).next
  }

  function After(m: Img, start: nat, c: seq<nat>): nat { if c == [] then start else m.nodes(c[|c| - 1]).next }

  /** A walk that comes to an end. */
  predicate Chain(m: Img, start: nat, c: seq<nat>) { Walk(m, start, c) && !Linked(m, After(m, start, c)) }

  /** Two walks from one block agree as far as both go. */
  lemma {:induction false} WalksAgree(m: Img, start: nat, c: seq<nat>, d: seq<nat>, i: nat)
    requires Walk(m, start, c) && Walk(m, start, d) && i < |c| && i < |d|
    ensures c[i] == d[i]
  {
    if i > 0 { WalksAgree(m, start, c, d, i - 1); }
  }

  /** Behind a walk that another one goes past, the way goes on. */
  lemma WalkPast(m: Img, start: nat, c: seq<nat>, d: seq<nat>)
    requires Walk(m, start, c) && Walk(m, start, d) && |c| < |d|
    ensures Linked(m, After(m, start, c))
  {
    if |c| > 0 { WalksAgree(m, start, c, d, |c| - 1); }
    assert d[|c|] == After(m, start, c);
  }

  /** A chain is the longest walk. */
  lemma ChainLongest(m: Img, start: nat, c: seq<nat>, d: seq<nat>)
    requires Chain(m, start, c) && Walk(m, start, d)
    ensures |d| <= |c|
  {
    if |c| < |d| { WalkPast(m, start, c, d); }
  }

  /** A walk that ends never comes back to a block. */
  lemma ChainDistinct(m: Img, start: nat, c: seq<nat>, i: nat, j: nat)
    requires Chain(m, start, c) && i < j < |c|
    ensures c[i] != c[j]
  {
    if c[i] == c[j] {
      ChainSuffix(m, start, c, i);
      ChainSuffix(m, start, c, j);
      ChainLongest(m, c[i], c[i..], c[j..]);
      ChainLongest(m, c[i], c[j..], c[i..]);
    }
  }

  lemma ChainSuffix(m: Img, start: nat, c: seq<nat>, i: nat)
    requires Chain(m, start, c) && i < |c|
    ensures Chain(m, c[i], c[i..])
  {
    var d := c[i..];
    forall k | 0 < k < |d| ensures d[k] == m.nodes(d[k - 1]).next { assert c[i + k] == m.nodes(c[i + k - 1]).next; }
    assert d[|d| - 1] == c[|c| - 1];
  }

  // ---- the inodes that were synced

  /** fsync_inode_entry */
  datatype Entry = Entry(ino: nat, blkaddr: nat)

  /** The last of the first n blocks that is a synced block of the inode, or -1. */
  function Last(m: Img, c: seq<nat>, n: nat, ino: nat): (r: int)
    requires n <= |c|
    ensures -1 <= r < n && (r >= 0 ==> m.nodes(c[r]).fsync && m.nodes(c[r]).ino == ino)
    ensures forall k :: r < k < n ==> !(m.nodes(c[k]).fsync && m.nodes(c[k]).ino == ino)
  {
    if n == 0 then -1
    else if m.nodes(c[n - 1]).fsync && m.nodes(c[n - 1]).ino == ino then n - 1
    else Last(m, c, n - 1, ino)
  }

  predicate OneEach(list: seq<Entry>) { forall i, j :: 0 <= i < j < |list| ==> list[i].ino != list[j].ino }

  /** The inode's last synced block among the first n is at index `from` or later. */
  predicate Wanted(m: Img, c: seq<nat>, n: nat, from: int, ino: nat)
    requires n <= |c|
  {
    Last(m, c, n, ino) >= 0 && Last(m, c, n, ino) >= from
  }

  predicate EntryOk(m: Img, c: seq<nat>, n: nat, from: int, e: Entry)
    requires n <= |c|
  {
    Wanted(m, c, n, from, e.ino) && e.blkaddr == c[Last(m, c, n, e.ino)]
  }

  /** One entry for each wanted inode, with that block. */
  ghost predicate Lists(m: Img, c: seq<nat>, n: nat, from: int, list: seq<Entry>)
    requires n <= |c|
  {
    && OneEach(list) && (forall e :: e in list ==> EntryOk(m, c, n, from, e))
    && forall ino :: Wanted(m, c, n, from, ino) ==> Has(list, ino)
  }

  predicate Has(list: seq<Entry>, ino: nat) { exists i :: 0 <= i < |list| && list[i].ino == ino }

  /** get_fsync_inode: the index of the entry, or the length of the list */
  method GetFsyncInode(list: seq<Entry>, ino: nat) returns (i: nat)
    ensures i <= |list| && (i < |list| ==> list[i].ino == ino) && (i == |list| ==> !Has(list, ino))
  {
    i := 0;
    while i < |list|
      invariant i <= |list| && forall k :: 0 <= k < i ==> list[k].ino != ino
    {
      if list[i].ino == ino {
        return;
      }
      i := i + 1;
    }
  }

  /** find_fsync_inode: succeeds exactly when the walk ends within fewer blocks than are free. */
  method FindFsyncInode(m: Img, start: nat, free: nat) returns (ok: bool, list: seq<Entry>, ghost c: seq<nat>)
    ensures ok ==> Chain(m, start, c) && Lists(m, c, |c|, 0, list) && (|c| == 0 || |c| < free)
    ensures !ok ==> forall d :: Chain(m, start, d) ==> |d| >= free && |d| > 0
  {
    list, c := [], [];
    var blkaddr, count := start, 0;
    while true
      invariant Walk(m, start, c) && blkaddr == After(m, start, c) && count == |c| && (count == 0 || count < free)
      invariant Lists(m, c, |c|, 0, list)
      decreases free - count
    {
      if !m.g.InMain(blkaddr) {
        break;
      }
      var node := m.nodes(blkaddr);
      if !node.recoverable {
        break;
      }
      ghost var c' := c + [blkaddr];
      WalkOn(m, start, c);
      if node.fsync {
        var i := GetFsyncInode(list, node.ino);
        Synced(m, c, list, i, blkaddr);
        if i == |list| {
          list := list + [Entry(node.ino, blkaddr)];
        } else {
          list := list[i := list[i].(blkaddr := blkaddr)];
        }
      } else {
        NotSynced(m, c, list, blkaddr);
      }
      c := c';
      count := count + 1;
      if count >= free || blkaddr == node.next {
        forall d ensures Chain(m, start, d) ==> |d| >= free && |d| > 0 {
          if blkaddr == node.next && Walk(m, start, d) { SelfLoop(m, start, c, d); }
          if Chain(m, start, d) { ChainLongest(m, start, d, c); }
        }
        return false, list, c;
      }
      blkaddr := node.next;
    }
    return true, list, c;
  }

  lemma WalkOn(m: Img, start: nat, c: seq<nat>)
    requires Walk(m, start, c) && Linked(m, After(m, start, c))
    ensures Walk(m, start, c + [After(m, start, c)])
  {
  }

  lemma {:induction false} StaysAt(m: Img, start: nat, c: seq<nat>, d: seq<nat>, k: nat)
    requires Walk(m, start, c) && c != [] && After(m, start, c) == c[|c| - 1] && Walk(m, start, d) && |c| - 1 <= k < |d|
    ensures d[k] == c[|c| - 1]
  {
    if k == |c| - 1 { WalksAgree(m, start, c, d, k); } else { StaysAt(m, start, c, d, k - 1); }
  }

  /** From a block that leads to itself no walk ends. */
  lemma SelfLoop(m: Img, start: nat, c: seq<nat>, d: seq<nat>)
    requires Walk(m, start, c) && c != [] && After(m, start, c) == c[|c| - 1] && Walk(m, start, d)
    ensures Linked(m, After(m, start, d))
  {
    if |d| < |c| { WalkPast(m, start, d, c); } else { StaysAt(m, start, c, d, |d| - 1); }
  }

  lemma {:induction false} LastPrefix(m: Img, c: seq<nat>, d: seq<nat>, n: nat, ino: nat)
    requires n <= |c| && c <= d
    ensures Last(m, d, n, ino) == Last(m, c, n, ino)
  {
    if n > 0 { LastPrefix(m, c, d, n - 1, ino); }
  }

  lemma LastNext(m: Img, c: seq<nat>, a: nat, ino: nat)
    ensures var d := c + [a];
            Last(m, d, |d|, ino) == if m.nodes(a).fsync && m.nodes(a).ino == ino then |c| else Last(m, c, |c|, ino)
  {
    LastPrefix(m, c, c + [a], |c|, ino);
  }

  lemma Synced(m: Img, c: seq<nat>, list: seq<Entry>, i: nat, a: nat)
    requires Lists(m, c, |c|, 0, list) && m.nodes(a).fsync && i <= |list|
    requires if i < |list| then list[i].ino == m.nodes(a).ino else !Has(list, m.nodes(a).ino)
    ensures var list' := if i == |list| then list + [Entry(m.nodes(a).ino, a)] else list[i := list[i].(blkaddr := a)];
            Lists(m, c + [a], |c| + 1, 0, list')
  {
    hide Last;
    var d, entry := c + [a], Entry(m.nodes(a).ino, a);
    var list' := if i == |list| then list + [entry] else list[i := entry];
    PutEntry(list, i, entry);
    LastNext(m, c, a, entry.ino);
    forall e | e in list' ensures EntryOk(m, d, |d|, 0, e) {
      LastNext(m, c, a, e.ino);
      if e != entry { assert EntryOk(m, c, |c|, 0, e); }
    }
    forall x | Wanted(m, d, |d|, 0, x) ensures Has(list', x) {
      LastNext(m, c, a, x);
      if x != entry.ino { assert Wanted(m, c, |c|, 0, x); }
    }
  }

  /** Replacing or adding the entry of one inode. */
  lemma PutEntry(list: seq<Entry>, i: nat, e: Entry)
    requires OneEach(list) && i <= |list| && if i < |list| then list[i].ino == e.ino else !Has(list, e.ino)
    ensures var list' := if i == |list| then list + [e] else list[i := e];
            && OneEach(list') && (forall x :: x in list' && x != e ==> x in list && x.ino != e.ino)
            && (forall ino :: Has(list, ino) || ino == e.ino ==> Has(list', ino))
  {
    var list' := if i == |list| then list + [e] else list[i := e];
    forall ino | Has(list, ino) || ino == e.ino ensures Has(list', ino) {
      if ino == e.ino { assert list'[i].ino == ino; } else {
        var k :| 0 <= k < |list| && list[k].ino == ino;
        assert list'[k].ino == ino;
      }
    }
    forall x | x in list' && x != e ensures x in list && x.ino != e.ino {
      var k :| 0 <= k < |list'| && list'[k] == x;
      assert list[k] == x;
    }
  }

  /** Taking the entry of one inode out. */
  lemma DropEntry(list: seq<Entry>, i: nat)
    requires OneEach(list) && i < |list|
    ensures var list' := list[..i] + list[i + 1..];
            && OneEach(list') && (forall x :: x in list' ==> x in list && x.ino != list[i].ino)
            && (forall ino :: Has(list, ino) && ino != list[i].ino ==> Has(list', ino))
  {
    var list' := list[..i] + list[i + 1..];
    forall x | x in list' ensures x in list && x.ino != list[i].ino {
      var k :| 0 <= k < |list'| && list'[k] == x;
      assert x == list[if k < i then k else k + 1];
    }
    forall ino | Has(list, ino) && ino != list[i].ino ensures Has(list', ino) {
      var k :| 0 <= k < |list| && list[k].ino == ino;
      assert list'[if k < i then k else k - 1].ino == ino;
    }
    forall k, j | 0 <= k < j < |list'| ensures list'[k].ino != list'[j].ino {
      assert list'[k] == list[if k < i then k else k + 1] && list'[j] == list[if j < i then j else j + 1];
    }
  }

  lemma NotSynced(m: Img, c: seq<nat>, list: seq<Entry>, a: nat)
    requires Lists(m, c, |c|, 0, list) && !m.nodes(a).fsync
    ensures Lists(m, c + [a], |c| + 1, 0, list)
  {
    hide Last;
    var d := c + [a];
    forall e | e in list ensures EntryOk(m, d, |d|, 0, e) { LastNext(m, c, a, e.ino); }
    forall x | Wanted(m, d, |d|, 0, x) ensures Has(list, x) {
      LastNext(m, c, a, x);
      assert Wanted(m, c, |c|, 0, x);
    }
  }

  // ---- marking what was synced

  predicate Recorded(g: Layout, segs: seq<Seg>, a: nat)
    requires Shaped(g, segs) && g.InMain(a)
  {
    segs[g.SegOf(a)].ckpt[g.OffOf(a)]
  }

  function MarkCkpt(g: Layout, segs: seq<Seg>, a: nat, kind: int): seq<Seg>
    requires Shaped(g, segs) && g.InMain(a)
  {
    var s, e := g.SegOf(a), segs[g.SegOf(a)];
    segs[s := e.(ckptKind := if e.ckptValid == 0 then kind else e.ckptKind,
                 ckptValid := e.ckptValid + 1, ckpt := e.ckpt[g.OffOf(a) := true])]
  }

  /** Only what is kept of the last checkpoint differs. */
  predicate SameNow(e: Seg, e': Seg) {
    e'.valid == e.valid && e'.cur == e.cur && e'.kind == e.kind && e'.dirty == e.dirty
  }

  /** The blocks of s were recorded, and nothing else changed. */
  ghost predicate Marked(g: Layout, was: seq<Seg>, segs: seq<Seg>, s: set<nat>) {
    && Shaped(g, was) && Shaped(g, segs)
    && (forall i :: 0 <= i < |segs| ==> SameNow(was[i], segs[i]))
    && forall a: nat :: g.InMain(a) ==> (Recorded(g, segs, a) <==> Recorded(g, was, a) || a in s)
  }

  lemma MarkedMore(g: Layout, was: seq<Seg>, segs: seq<Seg>, s: set<nat>, a: nat, kind: int)
    requires Sound(g, segs) && Marked(g, was, segs, s) && g.InMain(a) && !Recorded(g, segs, a)
    ensures Sound(g, MarkCkpt(g, segs, a, kind)) && Marked(g, was, MarkCkpt(g, segs, a, kind), s + {a})
  {
    var t := MarkCkpt(g, segs, a, kind);
    var i := g.SegOf(a);
    assert Counted(segs[i]);
    PopUpdate(segs[i].ckpt, g.OffOf(a), true);
    forall b: nat | g.InMain(b) ensures Recorded(g, t, b) <==> Recorded(g, segs, b) || b == a {
      if g.SegOf(b) == i && g.OffOf(b) == g.OffOf(a) { assert a == b; }
    }
    forall k | 0 <= k < |t| ensures Counted(t[k]) { assert Counted(segs[k]); }
  }

  predicate IsAddr(a: nat) { a != 0 && a != NEW_ADDR && a != COMPRESS_ADDR }

  /** The data blocks a node block leads to. */
  function DataOf(n: Node, k: nat): set<nat>
    requires k <= |n.addrs|
  {
    if k == 0 then {} else DataOf(n, k - 1) + if IsAddr(n.addrs[k - 1]) then {n.addrs[k - 1]} else {}
  }

  /** Null, new and compressed pointers are passed over, and no others. */
  lemma {:induction false} DataOfIs(n: Node, k: nat)
    requires k <= |n.addrs|
    ensures forall a: nat :: a in DataOf(n, k) <==> a in n.addrs[..k] && a !in {0, 0xFFFF_FFFF, 0xFFFF_FFFE}
  {
    if k > 0 {
      DataOfIs(n, k - 1);
      assert n.addrs[..k] == n.addrs[..k - 1] + [n.addrs[k - 1]];
    }
  }

  predicate GoodData(g: Layout, n: Node) {
    n.bare || forall i :: 0 <= i < |n.addrs| && IsAddr(n.addrs[i]) ==> g.InMain(n.addrs[i])
  }

  function Uses(n: Node, a: nat): set<nat> { {a} + if n.bare then {} else DataOf(n, |n.addrs|) }

  /** The inode of block i has a synced block at i or later. */
  predicate Active(m: Img, c: seq<nat>, i: nat)
    requires i < |c|
  {
    Last(m, c, |c|, m.nodes(c[i]).ino) >= i
  }

  /** What the first n blocks of the chain record. */
  function Marks(m: Img, c: seq<nat>, n: nat): set<nat>
    requires n <= |c|
  {
    if n == 0 then {} else Marks(m, c, n - 1) + if Active(m, c, n - 1) then Uses(m.nodes(c[n - 1]), c[n - 1]) else {}
  }

  // ---- the kinds that the recorded segments get

  /** A block of the set is in segment i. */
  ghost predicate SomeIn(g: Layout, s: set<nat>, i: int) { exists a :: a in s && g.InMain(a) && g.SegOf(a) == i }

  /** Recording the blocks of s gives their segments the kind, where nothing had been recorded. */
  ghost predicate Typed(g: Layout, was: seq<Seg>, segs: seq<Seg>, s: set<nat>, kind: int) {
    && |segs| == |was|
    && forall i :: 0 <= i < |segs| ==>
         && (segs[i].ckptValid == 0 <==> was[i].ckptValid == 0 && !SomeIn(g, s, i))
         && segs[i].ckptKind == if was[i].ckptValid == 0 && SomeIn(g, s, i) then kind else was[i].ckptKind
  }

  lemma TypedNone(g: Layout, segs: seq<Seg>, kind: int)
    ensures Typed(g, segs, segs, {}, kind)
  {
  }

  lemma SomeInMore(g: Layout, s: set<nat>, a: nat, i: int)
    requires g.InMain(a)
    ensures SomeIn(g, s + {a}, i) <==> SomeIn(g, s, i) || g.SegOf(a) == i
  {
    if SomeIn(g, s, i) {
      var b :| b in s && g.InMain(b) && g.SegOf(b) == i;
      assert b in s + {a};
    }
    if g.SegOf(a) == i { assert a in s + {a}; }
  }

  lemma TypedMore(g: Layout, was: seq<Seg>, segs: seq<Seg>, s: set<nat>, a: nat, kind: int)
    requires Sound(g, segs) && Typed(g, was, segs, s, kind) && g.InMain(a)
    ensures Typed(g, was, MarkCkpt(g, segs, a, kind), s + {a}, kind)
    ensures Recorded(g, segs, a) ==> Typed(g, was, segs, s + {a}, kind)
  {
    var j := g.SegOf(a);
    assert Counted(segs[j]);
    if segs[j].ckptValid == 0 { PopNone(segs[j].ckpt, g.OffOf(a)); }
    hide SomeIn, Counted, Pop;
    forall i ensures SomeIn(g, s + {a}, i) <==> SomeIn(g, s, i) || j == i { SomeInMore(g, s, a, i); }
  }

  /**
    What kind segment i has after the first n blocks of the chain: that of the first block recorded in it, warm node
    for a node block and warm data for data; unchanged if something had been recorded before, or nothing is.
   */
  ghost function KindAfter(m: Img, c: seq<nat>, was: seq<Seg>, n: nat, i: nat): int
    requires n <= |c| && i < |was|
  {
    if n == 0 then was[i].ckptKind
    else
      var k, a := n - 1, c[n - 1];
      if was[i].ckptValid != 0 || SomeIn(m.g, Marks(m, c, k), i) || !Active(m, c, k) then KindAfter(m, c, was, k, i)
      else if m.g.InMain(a) && m.g.SegOf(a) == i then 4
      else if !m.nodes(a).bare && SomeIn(m.g, DataOf(m.nodes(a), |m.nodes(a).addrs|), i) then 1
      else KindAfter(m, c, was, k, i)
  }

  /** The kinds after the first n blocks, and where nothing is recorded yet. */
  ghost predicate KindsAre(m: Img, c: seq<nat>, was: seq<Seg>, segs: seq<Seg>, n: nat)
    requires n <= |c|
  {
    && |segs| == |was|
    && forall i :: 0 <= i < |segs| ==>
         && (segs[i].ckptValid == 0 <==> was[i].ckptValid == 0 && !SomeIn(m.g, Marks(m, c, n), i))
         && segs[i].ckptKind == KindAfter(m, c, was, n, i)
  }

  /** One node block and then its data. */
  ghost predicate NodeTyped(g: Layout, was: seq<Seg>, segs: seq<Seg>, node: Node, a: nat) {
    exists mid :: Typed(g, was, mid, {a}, 4) &&
                  Typed(g, mid, segs, if node.bare then {} else DataOf(node, |node.addrs|), 1)
  }

  lemma SomeInBoth(g: Layout, s: set<nat>, t: set<nat>, i: int)
    ensures SomeIn(g, s + t, i) <==> SomeIn(g, s, i) || SomeIn(g, t, i)
  {
    if SomeIn(g, s, i) {
      var b :| b in s && g.InMain(b) && g.SegOf(b) == i;
      assert b in s + t;
    }
    if SomeIn(g, t, i) {
      var b :| b in t && g.InMain(b) && g.SegOf(b) == i;
      assert b in s + t;
    }
  }

  lemma KindsStart(m: Img, c: seq<nat>, segs: seq<Seg>)
    ensures KindsAre(m, c, segs, segs, 0)
  {
  }

  lemma KindsSkip(m: Img, c: seq<nat>, was: seq<Seg>, segs: seq<Seg>, n: nat)
    requires n < |c| && KindsAre(m, c, was, segs, n) && !Active(m, c, n)
    ensures KindsAre(m, c, was, segs, n + 1)
  {
  }

  lemma KindsStep(m: Img, c: seq<nat>, was: seq<Seg>, segs: seq<Seg>, segs': seq<Seg>, n: nat)
    requires n < |c| && m.g.InMain(c[n]) && KindsAre(m, c, was, segs, n) && Active(m, c, n)
    requires NodeTyped(m.g, segs, segs', m.nodes(c[n]), c[n])
    ensures KindsAre(m, c, was, segs', n + 1)
  {
    var node, a := m.nodes(c[n]), c[n];
    var data := if node.bare then {} else DataOf(node, |node.addrs|);
    var mid :| Typed(m.g, segs, mid, {a}, 4) && Typed(m.g, mid, segs', data, 1);
    assert Marks(m, c, n + 1) == Marks(m, c, n) + ({a} + data);
    forall i | 0 <= i < |segs'|
      ensures SomeIn(m.g, {a}, i) == (m.g.SegOf(a) == i)
      ensures SomeIn(m.g, Marks(m, c, n + 1), i)
           == (SomeIn(m.g, Marks(m, c, n), i) || m.g.SegOf(a) == i || SomeIn(m.g, data, i))
    {
      SomeInBoth(m.g, Marks(m, c, n), {a} + data, i);
      SomeInBoth(m.g, {a}, data, i);
      SomeInMore(m.g, {}, a, i);
      assert {} + {a} == {a};
    }
    hide SomeIn, Marks, DataOf, Active;
  }

  /** Block i cannot be recorded: it is in use already, or leads outside the main area. */
  ghost predicate Stuck(m: Img, c: seq<nat>, was: seq<Seg>, i: nat)
    requires i < |c| && Shaped(m.g, was) && m.g.InMain(c[i])
  {
    Active(m, c, i) && (Recorded(m.g, was, c[i]) || c[i] in Marks(m, c, i) || !GoodData(m.g, m.nodes(c[i])))
  }

  class Recorder {
    const m: Img
    var segs: seq<Seg>

    constructor (m: Img, segs: seq<Seg>)
      ensures this.m == m && this.segs == segs
    {
      this.m, this.segs := m, segs;
    }

    /** do_record_fsync_data */
    method DoRecord(blkaddr: nat, ghost was: seq<Seg>, ghost s: set<nat>) returns (ok: bool)
      requires m.g.recording && m.g.InMain(blkaddr) && Sound(m.g, segs) && Marked(m.g, was, segs, s)
      modifies this
      ensures Sound(m.g, segs)
      ensures ok <==> !old(Recorded(m.g, segs, blkaddr)) && GoodData(m.g, m.nodes(blkaddr))
      ensures ok ==> Marked(m.g, was, segs, s + Uses(m.nodes(blkaddr), blkaddr))
      ensures ok ==> NodeTyped(m.g, old(segs), segs, m.nodes(blkaddr), blkaddr)
    {
      hide Sound, Marked, DataOf, Typed;
      var node := m.nodes(blkaddr);
      ShapedSound(m.g, segs, blkaddr);
      var i, o := m.g.SegOf(blkaddr), m.g.OffOf(blkaddr);
      if segs[i].cur[o] {
        return false;
      }
      if segs[i].ckpt[o] {
        return false;
      }
      MarkedMore(m.g, was, segs, s, blkaddr, WARM_NODE);
      TypedNone(m.g, segs, WARM_NODE);
      TypedMore(m.g, segs, segs, {}, blkaddr, WARM_NODE);
      assert {} + {blkaddr} == {blkaddr};
      segs := MarkCkpt(m.g, segs, blkaddr, WARM_NODE);
      TypedNone(m.g, segs, WARM_DATA);
      if node.bare {
        assert s + Uses(node, blkaddr) == s + {blkaddr};
        return true;
      }
      ok := RecordData(node, was, s + {blkaddr});
      assert s + Uses(node, blkaddr) == s + {blkaddr} + DataOf(node, |node.addrs|);
    }

    /** The second step of do_record_fsync_data: the blocks the node leads to. */
    method RecordData(node: Node, ghost was: seq<Seg>, ghost s: set<nat>) returns (ok: bool)
      requires m.g.recording && Sound(m.g, segs) && Marked(m.g, was, segs, s) && !node.bare
      modifies this
      ensures Sound(m.g, segs) && (ok <==> GoodData(m.g, node))
      ensures ok ==> Marked(m.g, was, segs, s + DataOf(node, |node.addrs|))
      ensures ok ==> Typed(m.g, old(segs), segs, DataOf(node, |node.addrs|), WARM_DATA)
      ensures ok <==> forall i :: 0 <= i < |node.addrs| && node.addrs[i] !in {0, 0xFFFF_FFFF, 0xFFFF_FFFE} ==>
                        m.g.main <= node.addrs[i] < m.g.main + m.g.segments * PER_SEG
    {
      hide Sound, Marked, Typed;
      var k := 0;
      TypedNone(m.g, segs, WARM_DATA);
      assert s + DataOf(node, 0) == s;
      while k < |node.addrs|
        invariant k <= |node.addrs| && Sound(m.g, segs) && Marked(m.g, was, segs, s + DataOf(node, k))
        invariant forall j :: 0 <= j < k && IsAddr(node.addrs[j]) ==> m.g.InMain(node.addrs[j])
        invariant Typed(m.g, old(segs), segs, DataOf(node, k), WARM_DATA)
      {
        var a := node.addrs[k];
        if IsAddr(a) {
          if !m.g.InMain(a) {
            return false;
          }
          assert DataOf(node, k + 1) == DataOf(node, k) + {a};
          assert s + DataOf(node, k + 1) == s + DataOf(node, k) + {a};
          ShapedSound(m.g, segs, a);
          TypedMore(m.g, old(segs), segs, DataOf(node, k), a, WARM_DATA);
          if !segs[m.g.SegOf(a)].cur[m.g.OffOf(a)] && !segs[m.g.SegOf(a)].ckpt[m.g.OffOf(a)] {
            MarkedMore(m.g, was, segs, s + DataOf(node, k), a, WARM_DATA);
            segs := MarkCkpt(m.g, segs, a, WARM_DATA);
          } else {
            MarkedAlready(m.g, was, segs, s + DataOf(node, k), a);
          }
        } else {
          assert DataOf(node, k + 1) == DataOf(node, k);
        }
        k := k + 1;
      }
      return true;
    }

    /** traverse_dnodes, on the chain that the first walk found. */
    method TraverseDnodes(start: nat, list: seq<Entry>, ghost c: seq<nat>) returns (ok: bool, rest: seq<Entry>)
      requires m.g.recording && Sound(m.g, segs) && Chain(m, start, c) && Lists(m, c, |c|, 0, list)
      modifies this
      ensures Sound(m.g, segs)
      ensures ok <==> forall i :: 0 <= i < |c| ==> !Stuck(m, c, old(segs), i)
      ensures ok ==> rest == [] && Marked(m.g, old(segs), segs, Marks(m, c, |c|))
      ensures ok ==> KindsAre(m, c, old(segs), segs, |c|)
    {
      hide Sound, Marked, Lists, Chain, Marks, Active, KindsAre, NodeTyped;
      KindsStart(m, c, segs);
      ghost var was, n := segs, 0;
      StartMarked(m.g, segs);
      ChainStart(m, start, c);
      rest := list;
      var blkaddr := start;
      while true
        invariant n <= |c| && blkaddr == At(m, start, c, n) && Sound(m.g, segs)
        invariant Marked(m.g, was, segs, Marks(m, c, n))
        invariant Lists(m, c, |c|, n, rest) && KindsAre(m, c, was, segs, n)
        invariant forall i :: 0 <= i < n ==> !Stuck(m, c, was, i)
        decreases |c| - n
      {
        ChainAt(m, start, c, n);
        if !m.g.InMain(blkaddr) {
          break;
        }
        var node := m.nodes(blkaddr);
        if !node.recoverable {
          break;
        }
        var i := GetFsyncInode(rest, node.ino);
        ActiveIffListed(m, c, n, rest, i);
        MarksNext(m, c, n);
        if i < |rest| {
          MarkedAt(m.g, was, segs, Marks(m, c, n), blkaddr);
          ghost var before := segs;
          var done := DoRecord(blkaddr, was, Marks(m, c, n));
          if !done {
            assert Stuck(m, c, was, n);
            return false, rest;
          }
          KindsStep(m, c, was, before, segs, n);
          EntryAt(m, start, c, n, rest, i);
          if rest[i].blkaddr == blkaddr {
            rest := rest[..i] + rest[i + 1..];
          }
        } else {
          Unlisted(m, c, n, rest);
          KindsSkip(m, c, was, segs, n);
        }
        blkaddr := node.next;
        n := n + 1;
      }
      AllListed(m, c, rest);
      return true, rest;
    }

    /** record_fsync_data: both walks, one after the other. */
    method RecordFsyncData(start: nat, free: nat) returns (ok: bool, ghost c: seq<nat>)
      requires Sound(m.g, segs)
      modifies this
      ensures Sound(m.g, segs) && (!m.g.recording ==> ok && segs == old(segs))
      ensures m.g.recording && ok ==>
                Chain(m, start, c) && (|c| == 0 || |c| < free) && Marked(m.g, old(segs), segs, Marks(m, c, |c|))
      ensures m.g.recording && ok ==> KindsAre(m, c, old(segs), segs, |c|)
      ensures m.g.recording && !ok ==>
                || (forall d :: Chain(m, start, d) ==> |d| >= free && |d| > 0)
                || (Chain(m, start, c) && exists i :: 0 <= i < |c| && Stuck(m, c, old(segs), i))
    {
      c := [];
      if !m.g.recording {
        return true, c;
      }
      var list;
      ok, list, c := FindFsyncInode(m, start, free);
      if ok {
        ok, list := TraverseDnodes(start, list, c);
      }
    }
  }

  lemma ShapedSound(g: Layout, segs: seq<Seg>, a: nat)
    requires Sound(g, segs) && g.InMain(a) && g.recording
    ensures Shaped(g, segs) && (segs[g.SegOf(a)].cur[g.OffOf(a)] ==> Recorded(g, segs, a))
  {
  }

  lemma MarkedAlready(g: Layout, was: seq<Seg>, segs: seq<Seg>, s: set<nat>, a: nat)
    requires Marked(g, was, segs, s) && g.InMain(a) && Recorded(g, segs, a)
    ensures Marked(g, was, segs, s + {a})
  {
  }

  lemma StartMarked(g: Layout, segs: seq<Seg>)
    requires Sound(g, segs)
    ensures Marked(g, segs, segs, {}) && Shaped(g, segs)
  {
  }

  /** The n-th block of the walk, or the one behind it. */
  function At(m: Img, start: nat, c: seq<nat>, n: nat): nat
    requires n <= |c|
  {
    if n < |c| then c[n] else After(m, start, c)
  }

  lemma ChainStart(m: Img, start: nat, c: seq<nat>)
    requires Chain(m, start, c)
    ensures At(m, start, c, 0) == start && Marks(m, c, 0) == {} && forall i :: 0 <= i < |c| ==> m.g.InMain(c[i])
  {
    assert forall i :: 0 <= i < |c| ==> Linked(m, c[i]);
  }

  lemma ChainAt(m: Img, start: nat, c: seq<nat>, n: nat)
    requires Chain(m, start, c) && n <= |c|
    ensures Linked(m, At(m, start, c, n)) <==> n < |c|
    ensures n < |c| ==> At(m, start, c, n + 1) == m.nodes(c[n]).next
  {
  }

  lemma ActiveIffListed(m: Img, c: seq<nat>, n: nat, list: seq<Entry>, i: nat)
    requires n < |c| && Lists(m, c, |c|, n, list) && i <= |list|
    requires if i < |list| then list[i].ino == m.nodes(c[n]).ino else !Has(list, m.nodes(c[n]).ino)
    ensures Active(m, c, n) <==> i < |list|
  {
    if i < |list| { assert list[i] in list; }
    assert Active(m, c, n) == Wanted(m, c, |c|, n, m.nodes(c[n]).ino);
  }

  lemma MarksNext(m: Img, c: seq<nat>, n: nat)
    requires n < |c|
    ensures Marks(m, c, n + 1) == if Active(m, c, n) then Marks(m, c, n) + Uses(m.nodes(c[n]), c[n]) else Marks(m, c, n)
  {
  }

  lemma MarkedAt(g: Layout, was: seq<Seg>, segs: seq<Seg>, s: set<nat>, a: nat)
    requires Marked(g, was, segs, s) && g.InMain(a)
    ensures Shaped(g, was) && Shaped(g, segs) && (Recorded(g, segs, a) <==> Recorded(g, was, a) || a in s)
  {
  }

  /** The entry goes when its last synced block is reached, and stays till then. */
  lemma EntryAt(m: Img, start: nat, c: seq<nat>, n: nat, list: seq<Entry>, i: nat)
    requires Chain(m, start, c) && n < |c| && Lists(m, c, |c|, n, list) && i < |list|
    requires list[i].ino == m.nodes(c[n]).ino
    ensures var list' := if list[i].blkaddr == c[n] then list[..i] + list[i + 1..] else list;
            Lists(m, c, |c|, n + 1, list')
  {
    assert list[i] in list && EntryOk(m, c, |c|, n, list[i]);
    var l := Last(m, c, |c|, list[i].ino);
    if l != n {
      ChainDistinct(m, start, c, n, l);
      NextListed(m, c, n, list, list);
    } else {
      DropEntry(list, i);
      NextListed(m, c, n, list, list[..i] + list[i + 1..]);
    }
  }

  /** The list for the next block: nothing whose last synced block is this one. */
  lemma NextListed(m: Img, c: seq<nat>, n: nat, list: seq<Entry>, list': seq<Entry>)
    requires n < |c| && Lists(m, c, |c|, n, list) && OneEach(list')
    requires forall e :: e in list' ==> e in list && Last(m, c, |c|, e.ino) != n
    requires forall ino :: Has(list, ino) && Last(m, c, |c|, ino) != n ==> Has(list', ino)
    ensures Lists(m, c, |c|, n + 1, list')
  {
    hide Last;
    forall e | e in list' ensures EntryOk(m, c, |c|, n + 1, e) { assert EntryOk(m, c, |c|, n, e); }
    forall ino | Wanted(m, c, |c|, n + 1, ino) ensures Has(list', ino) { assert Wanted(m, c, |c|, n, ino); }
  }

  lemma Unlisted(m: Img, c: seq<nat>, n: nat, list: seq<Entry>)
    requires n < |c| && Lists(m, c, |c|, n, list) && !Has(list, m.nodes(c[n]).ino)
    ensures Lists(m, c, |c|, n + 1, list)
  {
    forall e | e in list ensures Last(m, c, |c|, e.ino) != n {
      var k :| 0 <= k < |list| && list[k] == e;
    }
    assert forall ino :: Has(list, ino) ==> ino != m.nodes(c[n]).ino;
    NextListed(m, c, n, list, list);
  }

  lemma AllListed(m: Img, c: seq<nat>, list: seq<Entry>)
    requires Lists(m, c, |c|, |c|, list)
    ensures list == []
  {
    NoneWanted(m, c);
    if |list| > 0 { SomeEntry(list); }
  }

  lemma NoneWanted(m: Img, c: seq<nat>)
    ensures forall ino :: !Wanted(m, c, |c|, |c|, ino)
  {
  }

  lemma SomeEntry(list: seq<Entry>)
    requires |list| > 0
    ensures exists e :: e in list
  {
    assert list[0] in list;
  }
}
