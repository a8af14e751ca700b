/**
  The way of fsck through the block addresses of a file (fsck/fsck.c), and what the check of
  the extent says about the file in the end.
 */
module ExtentWalk {
  import opened NodePath
  import opened NodeWalk
  import opened ExtentCheck

  /** Block addresses have 32 bits. */
  ghost predicate Words(inode: Inode, store: Store) {
    (forall i :: inode.addrs(i) < U32) && forall n, i :: store(n, i) < U32
  }

  function Visits(s: seq<(nat, nat)>): seq<Visit> { seq(|s|, i requires 0 <= i < |s| => Visit(s[i].0, s[i].1)) }

  /** Where the file has a block, it is where the extent puts it; and nothing else of the file is in the extent. */
  ghost predicate Describes(g: Geo, inode: Inode, store: Store, e: Ext)
    requires g.Ok()
  {
    && (forall k: nat :: k < e.len ==> InPlace(g, inode, store, e, k))
    && forall n: nat, a: nat :: BlockIs(g, inode, store, n, a) ==> NoStranger(e, Visit(n, a))
  }

  /** Block k of the extent is where it says. */
  predicate InPlace(g: Geo, inode: Inode, store: Store, e: Ext, k: nat)
    requires g.Ok()
  {
    BlockIs(g, inode, store, e.fofs + k, e.blk + k) && !Hole(e.blk + k)
  }

  /** Block n of the file has the address a. */
  predicate BlockIs(g: Geo, inode: Inode, store: Store, n: nat, a: nat)
    requires g.Ok()
  {
    n < g.Start(5) && Follow(g, inode, store, n) == Some(a)
  }

  /** The extent ends at block 0 and the walk meets nothing of it. */
  ghost predicate Missed(g: Geo, inode: Inode, store: Store, e: Ext)
    requires g.Ok()
  {
    && e.len > 0 && LastOf(e) == 0
    && forall n: nat, a: nat :: BlockIs(g, inode, store, n, a) ==> !InRange(e, n) && (Hole(a) || !InExtent(e, a))
  }

  /**
    Extents that can be missed: they end at block 0 and lie, as far as the code can see, behind the inode's own
    blocks.
   */
  predicate CanMiss(g: Geo, e: Ext) { e.len > 0 && LastOf(e) == 0 && !(e.fofs < g.A && InRange(e, e.fofs)) }

  /** fsck_chk_inode_blk as far as the extent goes: every address of the file is looked at, in order. */
  method CheckFile(g: Geo, inode: Inode, store: Store, e: Ext) returns (unmatched: bool)
    requires g.Ok() && g.Start(5) < U32 && e.Ok() && Words(inode, store)
    ensures !unmatched <==> Describes(g, inode, store, e) || Missed(g, inode, store, e)
    ensures !CanMiss(g, e) ==> (!unmatched <==> Describes(g, inode, store, e))
  {
    hide Describes, Missed, Truthful, Overlooked, Words;
    var child := new Child(e);
    WalkFile(child, g, inode, store);
    child.CheckLast();
    unmatched := child.unmatched;
    Means(g, inode, store, e);
    if !CanMiss(g, e) { NotMissed(g, inode, store, e); }
  }

  /** The loops over the inode's own addresses and over its five node ids. */
  method WalkFile(child: Child, g: Geo, inode: Inode, store: Store)
    requires g.Ok() && g.Start(5) < U32 && Words(inode, store)
    requires child.Valid() && child.pgofs == 0 && child.seen == []
    modifies child
    ensures child.Valid() && child.seen == Visits(All(g, inode, store, g.Start(5)))
  {
    hide Follow, Listing, All, Words, Ascending, Met, Broken;
    NothingYet(g, inode, store);
    for i := 0 to g.A
      invariant child.Valid() && child.Upto(i) && child.pgofs == i
      invariant child.seen == Visits(All(g, inode, store, i))
    {
      AllNext(g, inode, store, i);
      child.CheckInfo(inode.addrs(i));
      child.pgofs := child.pgofs + 1;
    }
    WalkNodes(child, g, inode, store);
  }

  method WalkNodes(child: Child, g: Geo, inode: Inode, store: Store)
    requires g.Ok() && g.Start(5) < U32 && Words(inode, store)
    requires child.Valid() && child.Upto(g.A) && child.pgofs == g.A && child.seen == Visits(All(g, inode, store, g.A))
    modifies child
    ensures child.Valid() && child.seen == Visits(All(g, inode, store, g.Start(5)))
  {
    hide Follow, Listing, All, Words, Ascending, Met, Broken;
    for i := 0 to 5
      invariant child.Valid() && child.Upto(child.pgofs)
      invariant child.pgofs == g.Start(i) <= g.Start(5) && child.seen == Visits(All(g, inode, store, g.Start(i)))
    {
      StartNext(g, i);
      AllUnder(g, inode, store, i, g.Cap(LevelOf(i)));
      CheckNode(child, g, inode, store, LevelOf(i), inode.nids(i));
    }
  }

  /** fsck_chk_dnode_blk, fsck_chk_idnode_blk and fsck_chk_didnode_blk; a missing node is stepped over. */
  method CheckNode(child: Child, g: Geo, ghost inode: Inode, store: Store, level: nat, nid: nat)
    requires g.Ok() && 1 <= level <= 3 && Words(inode, store)
    requires child.Valid() && child.Upto(child.pgofs) && child.pgofs + g.Cap(level) < U32
    modifies child
    ensures child.Valid() && child.Upto(child.pgofs) && child.pgofs == old(child.pgofs) + g.Cap(level)
    ensures child.seen == old(child.seen) + Visits(Listing(g, store, nid, level, old(child.pgofs), g.Cap(level)))
    decreases level
  {
    hide Listing, Words, Ascending, Met, Broken;
    ghost var ofs := child.pgofs;
    ListingStart(g, store, nid, level, ofs);
    if nid == 0 {
      NothingListed(g, store, level, ofs, g.Cap(level));
      child.pgofs := child.pgofs + g.Cap(level);
      return;
    }
    if level == 1 {
      for i := 0 to g.D
        invariant child.Valid() && child.Upto(child.pgofs) && child.pgofs == ofs + i
        invariant child.seen == old(child.seen) + Visits(Listing(g, store, nid, level, ofs, i))
      {
        ListingNext(g, inode, store, nid, ofs, i);
        child.CheckInfo(store(nid, i));
        child.pgofs := child.pgofs + 1;
      }
    } else {
      MulZero(g.Cap(level - 1));
      MulSwap(g.N, g.Cap(level - 1));
      for i := 0 to g.N
        invariant child.Valid() && child.Upto(child.pgofs) && child.pgofs == ofs + Mul(i, g.Cap(level - 1))
        invariant child.seen == old(child.seen) + Visits(Listing(g, store, nid, level, ofs, Mul(i, g.Cap(level - 1))))
      {
        ListingChild(g, store, nid, level, ofs, i, g.Cap(level - 1));
        MulAdd(i, 1, g.Cap(level - 1));
        AtMost(i + 1, g.N, g.Cap(level - 1));
        CheckNode(child, g, inode, store, level - 1, store(nid, i));
      }
    }
  }

  lemma AllNext(g: Geo, inode: Inode, store: Store, i: nat)
    requires g.Ok() && i < g.A && Words(inode, store)
    ensures All(g, inode, store, i + 1) == All(g, inode, store, i) + [(i, inode.addrs(i))] && inode.addrs(i) < U32
  {
  }

  lemma NothingYet(g: Geo, inode: Inode, store: Store)
    requires g.Ok()
    ensures All(g, inode, store, 0) == []
  {
  }

  lemma ListingStart(g: Geo, store: Store, nid: nat, level: nat, base: nat)
    requires g.Ok() && 1 <= level <= 3
    ensures Listing(g, store, nid, level, base, 0) == []
  {
  }

  lemma ListingNext(g: Geo, inode: Inode, store: Store, nid: nat, base: nat, i: nat)
    requires g.Ok() && nid != 0 && Words(inode, store)
    ensures Listing(g, store, nid, 1, base, i + 1) == Listing(g, store, nid, 1, base, i) + [(base + i, store(nid, i))]
    ensures store(nid, i) < U32
  {
  }

  /** What is met is what the file has. */
  ghost predicate MeetsAll(g: Geo, inode: Inode, store: Store, vs: seq<Visit>)
    requires g.Ok()
  {
    forall n: nat, a: nat :: BlockIs(g, inode, store, n, a) <==> Visit(n, a) in vs
  }

  lemma WalkMeetsAll(g: Geo, inode: Inode, store: Store)
    requires g.Ok()
    ensures MeetsAll(g, inode, store, Visits(All(g, inode, store, g.Start(5))))
  {
    hide Follow, All;
    var s := All(g, inode, store, g.Start(5));
    var vs := Visits(s);
    AllMeans(g, inode, store, g.Start(5));
    forall n: nat, a: nat ensures BlockIs(g, inode, store, n, a) <==> Visit(n, a) in vs {
      if (n, a) in s { var j :| 0 <= j < |s| && s[j] == (n, a); assert vs[j] == Visit(n, a); }
      if Visit(n, a) in vs { var j :| 0 <= j < |vs| && vs[j] == Visit(n, a); assert s[j] == (n, a); }
    }
  }

  lemma MappedMeans(g: Geo, inode: Inode, store: Store, e: Ext, vs: seq<Visit>, k: nat)
    requires g.Ok() && MeetsAll(g, inode, store, vs)
    ensures Mapped(e, vs, |vs|, k) <==> InPlace(g, inode, store, e, k)
  {
    hide BlockIs;
    var v := Visit(e.fofs + k, e.blk + k);
    if v in vs && !Hole(e.blk + k) {
      var j :| 0 <= j < |vs| && vs[j] == v;
      assert Maps(e, vs, k, j);
    }
  }

  lemma VisitIsMet(g: Geo, inode: Inode, store: Store, vs: seq<Visit>, j: nat)
    requires g.Ok() && MeetsAll(g, inode, store, vs) && j < |vs|
    ensures BlockIs(g, inode, store, vs[j].pgofs, vs[j].addr)
  {
    hide BlockIs;
    assert vs[j] in vs && vs[j] == Visit(vs[j].pgofs, vs[j].addr);
  }

  /** What is met says about the file what the file's paths say. */
  lemma Means(g: Geo, inode: Inode, store: Store, e: Ext)
    requires g.Ok()
    ensures var vs := Visits(All(g, inode, store, g.Start(5)));
            && (Truthful(e, vs) <==> Describes(g, inode, store, e))
            && (Overlooked(e, vs) <==> Missed(g, inode, store, e))
  {
    hide BlockIs, All, Visits, Mapped, InPlace;
    var vs := Visits(All(g, inode, store, g.Start(5)));
    WalkMeetsAll(g, inode, store);
    forall k: nat ensures Mapped(e, vs, |vs|, k) <==> InPlace(g, inode, store, e, k) {
      MappedMeans(g, inode, store, e, vs, k);
    }
    forall j: nat | j < |vs| ensures BlockIs(g, inode, store, vs[j].pgofs, vs[j].addr) {
      VisitIsMet(g, inode, store, vs, j);
    }
  }

  /** An extent that cannot be missed is not, whatever the file. */
  lemma NotMissed(g: Geo, inode: Inode, store: Store, e: Ext)
    requires g.Ok() && !CanMiss(g, e)
    ensures !Missed(g, inode, store, e)
  {
    if e.fofs < g.A { assert BlockIs(g, inode, store, e.fofs, inode.addrs(e.fofs)); }
  }

  /** Any other is missed on the file of holes without nodes, of which it is not true. */
  lemma MissedOnHoles(g: Geo, e: Ext) returns (inode: Inode, store: Store)
    requires g.Ok() && e.Ok() && CanMiss(g, e)
    ensures Words(inode, store) && Missed(g, inode, store, e) && !Describes(g, inode, store, e)
  {
    inode, store := Inode(_ => 0, _ => 0), (_, _) => 0;
    forall n: nat, a: nat | BlockIs(g, inode, store, n, a) ensures n < g.A && a == 0 {
      if n >= g.A { TurnInInode(g, n); }
    }
    assert !InPlace(g, inode, store, e, 0);
  }

  /** The check is wrong about some file exactly for the extents that can be missed. */
  lemma CheckIsExact(g: Geo, e: Ext)
    requires g.Ok() && e.Ok()
    ensures CanMiss(g, e) <==>
              exists inode: Inode, store: Store ::
                Words(inode, store) && Missed(g, inode, store, e) && !Describes(g, inode, store, e)
  {
    hide Words, Missed, Describes;
    if CanMiss(g, e) {
      var inode, store := MissedOnHoles(g, e);
    } else {
      forall inode: Inode, store: Store ensures !Missed(g, inode, store, e) { NotMissed(g, inode, store, e); }
    }
  }

  /** For example one block of a file, said to be at block 0 and in truth under a node that is missing. */
  lemma MissedExample() returns (inode: Inode, store: Store)
    ensures var g, e := Geo(923, 1018, 1018), Ext(1000, 0, 1);
            && g.Ok() && g.Start(5) < U32 && e.Ok() && Words(inode, store)
            && Missed(g, inode, store, e) && !Describes(g, inode, store, e)
  {
    inode, store := MissedOnHoles(Geo(923, 1018, 1018), Ext(1000, 0, 1));
  }
}
