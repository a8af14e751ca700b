/**
  Two ways through the node tree of a file: down to one block along its path
  (get_dnode_of_data), and over all of it in order (dump_inode_blk).
 */
module NodeWalk {
  import opened NodePath

  datatype Option = None | Some(addr: nat)

  /** The words of node blocks: addresses in direct nodes, node ids in indirect ones. */
  type Store = (nat, nat) -> nat

  /** The addresses and the five node ids in the inode. */
  datatype Inode = Inode(addrs: nat -> nat, nids: nat -> nat)

  // ---- along the path

  function Descend(store: Store, nid: nat, offset: seq<nat>, i: nat): Option
    requires i < |offset|
    decreases |offset| - i
  {
    if nid == 0 then None
    else if i == |offset| - 1 then Some(store(nid, offset[i]))
    else Descend(store, store(nid, offset[i]), offset, i + 1)
  }

  /** What is at the end of the path of a block; none when a node on the way is missing. */
  function Follow(g: Geo, inode: Inode, store: Store, block: nat): Option
    requires g.Ok() && block < g.Start(5)
  {
    var p := PathOf(g, block);
    if p.level == 0 then Some(inode.addrs(p.offset[0]))
    else
      TurnInInode(g, block);
      Descend(store, inode.nids(p.offset[0] - DIR1), p.offset, 1)
  }

  lemma TurnInInode(g: Geo, block: nat)
    requires g.Ok() && block < g.Start(5)
    ensures PathOf(g, block).level > 0 ==> PathOf(g, block).offset[0] >= DIR1
  {
  }

  /** The node that holds the block's address. */
  function NodeAt(store: Store, nid: nat, offset: seq<nat>, i: nat): nat
    requires i < |offset|
    decreases |offset| - i
  {
    if i == |offset| - 1 then nid else NodeAt(store, store(nid, offset[i]), offset, i + 1)
  }

  /** get_dnode_of_data when it allocates nothing: the node, the place in it and the address there */
  method GetDnode(g: Geo, inode: Inode, ino: nat, store: Store, index: nat) returns (nid: nat, ofs: nat, addr: nat)
    requires g.Ok() && index < g.Start(5)
    ensures Follow(g, inode, store, index).Some? ==> Follow(g, inode, store, index) == Some(addr)
    ensures ofs == PathOf(g, index).offset[PathOf(g, index).level]
    ensures PathOf(g, index).level == 0 ==> nid == ino
    ensures PathOf(g, index).level > 0 ==> addr == store(nid, ofs) && PathOf(g, index).offset[0] >= DIR1
    ensures PathOf(g, index).level > 0 ==>
              nid == NodeAt(store, inode.nids(PathOf(g, index).offset[0] - DIR1), PathOf(g, index).offset, 1)
  {
    var offset, noffset := new nat[4], new nat[4];
    var level := GetNodePath(g, index, offset, noffset);
    ghost var p := PathOf(g, index);
    TurnInInode(g, index);
    assert level >= 0;
    var path := offset[..level + 1];
    nid := ino;
    if level != 0 {
      nid := inode.nids(path[0] - DIR1);
    }
    var i := 1;
    while i < level
      invariant 1 <= i && (level >= 1 ==> i <= level)
      invariant level >= 1 && Follow(g, inode, store, index).Some? ==>
                  Follow(g, inode, store, index) == Descend(store, nid, p.offset, i)
      invariant level == 0 ==> nid == ino
      invariant level >= 1 ==>
                  NodeAt(store, nid, p.offset, i) == NodeAt(store, inode.nids(p.offset[0] - DIR1), p.offset, 1)
    {
      nid := store(nid, path[i]);
      i := i + 1;
    }
    ofs := path[level];
    addr := if level == 0 then inode.addrs(ofs) else store(nid, ofs);
  }

  // ---- over the whole tree

  /** What is at the j-th place under a node of the given level. */
  function Sub(g: Geo, store: Store, nid: nat, level: nat, j: nat): Option
    requires g.Ok() && 1 <= level <= 3
    decreases level
  {
    if nid == 0 then None
    else if level == 1 then Some(store(nid, j))
    else Sub(g, store, store(nid, Quo(j, g.Cap(level - 1))), level - 1, Rem(j, g.Cap(level - 1)))
  }

  /** The addresses at the first n places under a node, numbered from `base`. */
  function Listing(g: Geo, store: Store, nid: nat, level: nat, base: nat, n: nat): seq<(nat, nat)>
    requires g.Ok() && 1 <= level <= 3
  {
    if n == 0 then []
    else
      var v := Sub(g, store, nid, level, n - 1);
      Listing(g, store, nid, level, base, n - 1) + if v.Some? then [(base + n - 1, v.addr)] else []
  }

  /** The first n blocks of a file that have an address, in order. */
  function All(g: Geo, inode: Inode, store: Store, n: nat): seq<(nat, nat)>
    requires g.Ok() && n <= g.Start(5)
  {
    if n == 0 then []
    else
      var v := Follow(g, inode, store, n - 1);
      All(g, inode, store, n - 1) + if v.Some? then [(n - 1, v.addr)] else []
  }

  /** dump_node_blk: what it dumps, and the offset it goes on at */
  method DumpNode(g: Geo, store: Store, level: nat, nid: nat, ofs: nat) returns (next: nat, out: seq<(nat, nat)>)
    requires g.Ok() && 1 <= level <= 3
    ensures out == Listing(g, store, nid, level, ofs, g.Cap(level))
    ensures next == if nid == 0 && level == 3 then ofs else ofs + g.Cap(level)
    decreases level
  {
    out := [];
    next := ofs;
    if nid == 0 {
      NothingListed(g, store, level, ofs, g.Cap(level));
      if level < 3 {
        next := next + g.Cap(level);
      }
      return;
    }
    if level == 1 {
      for i := 0 to g.D
        invariant next == ofs + i && out == Listing(g, store, nid, level, ofs, i)
      {
        out := out + [(next, store(nid, i))];
        next := next + 1;
      }
    } else {
      MulZero(g.Cap(level - 1));
      for i := 0 to g.N
        invariant next == ofs + Mul(i, g.Cap(level - 1))
        invariant out == Listing(g, store, nid, level, ofs, Mul(i, g.Cap(level - 1)))
      {
        var o;
        ListingChild(g, store, nid, level, ofs, i, g.Cap(level - 1));
        MulAdd(i, 1, g.Cap(level - 1));
        next, o := DumpNode(g, store, level - 1, store(nid, i), next);
        out := out + o;
      }
      MulSwap(g.N, g.Cap(level - 1));
    }
  }

  lemma MulZero(d: nat)
    ensures Mul(0, d) == 0 && Mul(1, d) == d
  {
  }

  lemma {:induction false} NothingListed(g: Geo, store: Store, level: nat, base: nat, n: nat)
    requires g.Ok() && 1 <= level <= 3
    ensures Listing(g, store, 0, level, base, n) == []
  {
    if n > 0 { NothingListed(g, store, level, base, n - 1); }
  }

  /** The listing of a node is that of its children, one after the other. */
  lemma {:induction false} ListingChild(g: Geo, store: Store, nid: nat, level: nat, base: nat, i: nat, j: nat)
    requires g.Ok() && 2 <= level <= 3 && nid != 0 && j <= g.Cap(level - 1)
    ensures var c := g.Cap(level - 1);
            Listing(g, store, nid, level, base, Mul(i, c) + j)
            == Listing(g, store, nid, level, base, Mul(i, c)) +
                Listing(g, store, store(nid, i), level - 1, base + Mul(i, c), j)
  {
    if j > 0 {
      ListingChild(g, store, nid, level, base, i, j - 1);
      DivUnique(Mul(i, g.Cap(level - 1)) + (j - 1), i, g.Cap(level - 1), j - 1);
    }
  }

  // ---- the two agree

  function LevelOf(i: nat): nat { if i <= 1 then 1 else if i <= 3 then 2 else 3 }

  /** The path of a block leads where counting through the tree leads. */
  lemma FollowIsSub(g: Geo, inode: Inode, store: Store, i: nat, j: nat)
    requires g.Ok() && i < 5 && j < g.Cap(LevelOf(i))
    ensures g.Start(i) + j < g.Start(i + 1) <= g.Start(5)
    ensures Follow(g, inode, store, g.Start(i) + j) == Sub(g, store, inode.nids(i), LevelOf(i), j)
  {
    var p := PathOf(g, g.Start(i) + j);
    if i <= 1 {
      assert p.offset == [DIR1 + i, j];
    } else if i <= 3 {
      SingleParts(g, j);
      assert p.offset == [DIR1 + i, Quo(j, g.D), Rem(j, g.D)];
      TwoDown(g, store, inode.nids(i), p.offset, j);
    } else {
      DoubleParts(g, j);
      assert p.offset == [DIR1 + 4, Quo(j, g.Cap(2)), Rem(Quo(j, g.D), g.N), Rem(j, g.D)];
      ThreeDown(g, store, inode.nids(4), p.offset, j);
    }
  }

  lemma TwoDown(g: Geo, store: Store, nid: nat, offset: seq<nat>, j: nat)
    requires g.Ok() && |offset| == 3 && offset[1] == Quo(j, g.D) && offset[2] == Rem(j, g.D)
    ensures Descend(store, nid, offset, 1) == Sub(g, store, nid, 2, j)
  {
    assert Descend(store, store(nid, offset[1]), offset, 2) == Sub(g, store, store(nid, offset[1]), 1, offset[2]);
  }

  lemma ThreeDown(g: Geo, store: Store, nid: nat, offset: seq<nat>, j: nat)
    requires g.Ok() && |offset| == 4 && offset[1] == Quo(j, g.Cap(2))
    requires offset[2] == Quo(Rem(j, g.Cap(2)), g.D) && offset[3] == Rem(Rem(j, g.Cap(2)), g.D)
    ensures Descend(store, nid, offset, 1) == Sub(g, store, nid, 3, j)
  {
    var n1 := store(nid, offset[1]);
    var n2 := store(n1, offset[2]);
    assert Descend(store, n2, offset, 3) == Sub(g, store, n2, 1, offset[3]);
    assert Descend(store, n1, offset, 2) == Sub(g, store, n1, 2, Rem(j, g.Cap(2)));
  }

  lemma StartNext(g: Geo, i: nat)
    requires g.Ok() && i < 5
    ensures g.Start(i + 1) == g.Start(i) + g.Cap(LevelOf(i)) <= g.Start(5)
  {
  }

  /** The listing of the file up to a place under its i-th node. */
  lemma {:induction false} AllUnder(g: Geo, inode: Inode, store: Store, i: nat, j: nat)
    requires g.Ok() && i < 5 && j <= g.Cap(LevelOf(i))
    ensures g.Start(i) + j <= g.Start(i + 1) <= g.Start(5)
    ensures All(g, inode, store, g.Start(i) + j)
         == All(g, inode, store, g.Start(i)) + Listing(g, store, inode.nids(i), LevelOf(i), g.Start(i), j)
  {
    hide Follow, Sub, PathOf;
    StartNext(g, i);
    if j > 0 {
      AllUnder(g, inode, store, i, j - 1);
      FollowIsSub(g, inode, store, i, j - 1);
    }
  }

  /** dump_inode_blk for a file whose data is not inline: every block that has an address, once and in order. */
  method DumpInode(g: Geo, inode: Inode, store: Store) returns (out: seq<(nat, nat)>)
    requires g.Ok()
    ensures out == All(g, inode, store, g.Start(5))
  {
    out := [];
    var ofs := 0;
    for i := 0 to g.A
      invariant ofs == i && g.A <= g.Start(5) && out == All(g, inode, store, i)
    {
      out := out + [(ofs, inode.addrs(i))];
      ofs := ofs + 1;
    }
    for i := 0 to 5
      invariant g.Start(i) <= g.Start(5) && out == All(g, inode, store, g.Start(i)) && (i < 5 ==> ofs == g.Start(i))
    {
      var o;
      AllUnder(g, inode, store, i, g.Cap(LevelOf(i)));
      ofs, o := DumpNode(g, store, LevelOf(i), inode.nids(i), ofs);
      out := out + o;
    }
  }

  /** The listing holds exactly what the paths lead to, in ascending order. */
  lemma {:induction false} AllMeans(g: Geo, inode: Inode, store: Store, n: nat)
    requires g.Ok() && n <= g.Start(5)
    ensures forall k: nat, v: nat :: (k, v) in All(g, inode, store, n) <==>
              k < n && Follow(g, inode, store, k) == Some(v)
    ensures forall x, y :: 0 <= x < y < |All(g, inode, store, n)| ==>
              All(g, inode, store, n)[x].0 < All(g, inode, store, n)[y].0
  {
    if n > 0 {
      AllMeans(g, inode, store, n - 1);
      var a, b := All(g, inode, store, n - 1), All(g, inode, store, n);
      forall x | 0 <= x < |a| ensures a[x].0 < n - 1 { assert (a[x].0, a[x].1) in a; }
    }
  }
}
