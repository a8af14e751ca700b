/**
  Who owns which block: node blocks are found through the node address table, data
  blocks through the pointers of node blocks, and the summary area points back.
 */
module Owners {
  datatype Extent = Extent(fofs: nat, blk: nat, len: nat)

  /** A data block, or a node block: an inode when nid == ino.  `start` is the file index of addrs[0]. */
  datatype Block = Data(bytes: int) | Node(nid: nat, ino: nat, start: nat, addrs: seq<nat>, ext: Extent)

  datatype Owner = Owner(nid: nat, ofs: nat)

  /** The main area, its live blocks (true for data), their contents, the node address table and the summaries. */
  datatype Disk = Disk(lo: nat, hi: nat, live: map<nat, bool>, blocks: map<nat, Block>, table: map<nat, nat>,
      ssa: map<nat, Owner>)

  /** The node block of a nid. */
  predicate HasNode(d: Disk, nid: nat) {
    && nid in d.table && var a := d.table[nid];
    && a in d.live && !d.live[a] && a in d.blocks && d.blocks[a].Node? && d.blocks[a].nid == nid
    && a in d.ssa && d.ssa[a].nid == nid
  }

  function NodeOf(d: Disk, nid: nat): (n: Block)
    requires HasNode(d, nid)
    ensures n.Node? && n.nid == nid
  {
    d.blocks[d.table[nid]]
  }

  /** The summary of a data block leads back to the pointer at it. */
  predicate PointedBack(d: Disk, a: nat) {
    && a in d.ssa && a in d.blocks && HasNode(d, d.ssa[a].nid)
    && var o := d.ssa[a]; var n := NodeOf(d, o.nid);
    && o.ofs < |n.addrs| && n.addrs[o.ofs] == a
  }

  /** A pointer into the main area leads to live data that leads back. */
  predicate LeadsTo(d: Disk, nid: nat, ofs: nat)
    requires HasNode(d, nid) && ofs < |NodeOf(d, nid).addrs|
  {
    var a := NodeOf(d, nid).addrs[ofs];
    d.lo <= a < d.hi ==> a in d.live && d.live[a] && a in d.ssa && d.ssa[a] == Owner(nid, ofs) && a in d.blocks
  }

  /** Block k of an extent is where it says. */
  predicate ExtentAt(d: Disk, ino: nat, k: nat)
    requires HasNode(d, ino)
  {
    && var e := NodeOf(d, ino).ext;
    && e.blk + k in d.live && d.live[e.blk + k] && PointedBack(d, e.blk + k)
    && var o := d.ssa[e.blk + k]; NodeOf(d, o.nid).ino == ino && NodeOf(d, o.nid).start + o.ofs == e.fofs + k
  }

  predicate Within(d: Disk) { forall a :: a in d.live ==> d.lo <= a < d.hi }
  predicate Tables(d: Disk) { forall nid :: nid in d.table ==> HasNode(d, nid) }
  predicate Nodes(d: Disk) {
    forall a :: a in d.live && !d.live[a] ==> a in d.ssa && d.ssa[a].nid in d.table && d.table[d.ssa[a].nid] == a
  }
  predicate DataBack(d: Disk) { forall a :: a in d.live && d.live[a] ==> PointedBack(d, a) }
  predicate Inodes(d: Disk)
    requires Tables(d)
  {
    forall nid :: nid in d.table ==> NodeOf(d, nid).ino in d.table
  }
  predicate Pointers(d: Disk)
    requires Tables(d)
  {
    forall nid, ofs :: nid in d.table && 0 <= ofs < |NodeOf(d, nid).addrs| ==> LeadsTo(d, nid, ofs)
  }
  predicate Extents(d: Disk)
    requires Tables(d)
  {
    forall ino, k :: ino in d.table && NodeOf(d, ino).ino == ino && 0 <= k < NodeOf(d, ino).ext.len ==>
        ExtentAt(d, ino, k)
  }

  predicate Owned(d: Disk) {
    Within(d) && Tables(d) && Nodes(d) && DataBack(d) && Inodes(d) && Pointers(d) && Extents(d)
  }

  // ---- what files read

  datatype Content = Hole(addr: nat) | Bytes(block: Block)

  /** What a pointer of a node reads: a live block's contents, or a special address as it is. */
  function Reads(d: Disk, nid: nat, ofs: nat): Content
    requires HasNode(d, nid) && ofs < |NodeOf(d, nid).addrs|
  {
    var a := NodeOf(d, nid).addrs[ofs];
    if a in d.live && a in d.blocks then Bytes(d.blocks[a]) else Hole(a)
  }

  /** The extent of an inode is as it was, or empty. */
  predicate SameNode(n: Block, n': Block) {
    && n.Node? && n'.Node? && n'.nid == n.nid && n'.ino == n.ino && n'.start == n.start && |n'.addrs| == |n.addrs|
    && (n'.ext == n.ext || n'.ext == n.ext.(len := 0))
  }

  predicate SameNodes(d: Disk, d': Disk)
    requires Tables(d) && Tables(d')
  {
    d'.table.Keys == d.table.Keys && forall nid :: nid in d.table ==> SameNode(NodeOf(d, nid), NodeOf(d', nid))
  }

  predicate SameReads(d: Disk, d': Disk)
    requires Tables(d) && Tables(d') && SameNodes(d, d')
  {
    forall nid, ofs :: nid in d.table && 0 <= ofs < |NodeOf(d, nid).addrs| ==> Reads(d', nid, ofs) == Reads(d, nid, ofs)
  }

  predicate SameFiles(d: Disk, d': Disk) { Tables(d) && Tables(d') && SameNodes(d, d') && SameReads(d, d') }

  /** The extent that covers a block is emptied, and every other one is as it was. */
  predicate ExtentsKept(d: Disk, d': Disk, a: nat) {
    && Tables(d) && Tables(d') && d'.table.Keys == d.table.Keys
    && forall ino :: ino in d.table && NodeOf(d, ino).ino == ino ==>
         var e := NodeOf(d, ino).ext;
         && NodeOf(d', ino).ino == ino
         && NodeOf(d', ino).ext == if e.blk <= a < e.blk + e.len then e.(len := 0) else e
  }

  /** The extents that have no block from lo up to hi are as they were. */
  predicate ExtentsOutside(d: Disk, d': Disk, lo: nat, hi: nat) {
    && Tables(d) && Tables(d') && d'.table.Keys == d.table.Keys
    && forall ino :: ino in d.table && NodeOf(d, ino).ino == ino ==>
         var e := NodeOf(d, ino).ext;
         NodeOf(d', ino).ino == ino && (e.blk + e.len <= lo || hi <= e.blk ==> NodeOf(d', ino).ext == e)
  }

  lemma OutsideSelf(d: Disk, lo: nat, hi: nat)
    requires Owned(d)
    ensures ExtentsOutside(d, d, lo, hi)
  {
  }

  lemma ExtentsOutsideStep(d: Disk, d': Disk, d'': Disk, lo: nat, a: nat, hi: nat)
    requires ExtentsOutside(d, d', lo, hi) && ExtentsKept(d', d'', a) && lo <= a < hi
    ensures ExtentsOutside(d, d'', lo, hi)
  {
    hide Tables, HasNode;
  }

  lemma SameFilesTrans(a: Disk, b: Disk, c: Disk)
    requires SameFiles(a, b) && SameFiles(b, c)
    ensures SameFiles(a, c)
  {
    forall nid | nid in a.table ensures SameNode(NodeOf(a, nid), NodeOf(c, nid)) {
      assert SameNode(NodeOf(a, nid), NodeOf(b, nid)) && SameNode(NodeOf(b, nid), NodeOf(c, nid));
    }
    forall nid, ofs | nid in a.table && 0 <= ofs < |NodeOf(a, nid).addrs|
      ensures Reads(c, nid, ofs) == Reads(a, nid, ofs)
    {
      assert SameNode(NodeOf(a, nid), NodeOf(b, nid));
      assert Reads(b, nid, ofs) == Reads(a, nid, ofs) && Reads(c, nid, ofs) == Reads(b, nid, ofs);
    }
  }

  lemma OwnedTables(d: Disk)
    requires Owned(d)
    ensures Tables(d) && Within(d) && Nodes(d)
  {
  }

  lemma OwnedData(d: Disk, a: nat)
    requires Owned(d) && a in d.live && d.live[a]
    ensures PointedBack(d, a)
  {
  }

  lemma OwnedPointer(d: Disk, nid: nat, ofs: nat)
    requires Owned(d) && nid in d.table
    ensures HasNode(d, nid) && NodeOf(d, nid).ino in d.table && HasNode(d, NodeOf(d, nid).ino)
    ensures ofs < |NodeOf(d, nid).addrs| ==> LeadsTo(d, nid, ofs)
  {
  }

  lemma OwnedExtent(d: Disk, ino: nat, k: nat)
    requires Owned(d) && ino in d.table
    ensures HasNode(d, ino) && (NodeOf(d, ino).ino == ino && k < NodeOf(d, ino).ext.len ==> ExtentAt(d, ino, k))
  {
  }

  // ---- moving a node block

  function Moved(live: map<nat, bool>, from: nat, to: nat): map<nat, bool>
    requires from in live
  {
    (live - {from})[to := live[from]]
  }

  /** A free block that may become the new place of another. */
  predicate Target(d: Disk, from: nat, to: nat) { from in d.live && to !in d.live && d.lo <= to < d.hi }

  /** The disk after a node block has moved and its table entry follows. */
  function NodeMoved(d: Disk, from: nat, to: nat): Disk
    requires from in d.live && from in d.blocks && from in d.ssa
  {
    d.(live := Moved(d.live, from, to), blocks := d.blocks[to := d.blocks[from]],
       table := d.table[d.ssa[from].nid := to], ssa := d.ssa[to := d.ssa[from]])
  }

  lemma NodeMovedNodes(d: Disk, from: nat, to: nat)
    requires Owned(d) && Target(d, from, to) && !d.live[from]
    ensures from in d.blocks && from in d.ssa
    ensures var d' := NodeMoved(d, from, to);
            Tables(d') && d'.table.Keys == d.table.Keys && forall nid :: nid in d.table ==>
                NodeOf(d', nid) == NodeOf(d, nid)
  {
    var nid := d.ssa[from].nid;
    assert HasNode(d, nid);
    var d' := NodeMoved(d, from, to);
    forall n | n in d'.table ensures HasNode(d', n) && NodeOf(d', n) == NodeOf(d, n) {
      assert n in d.table && HasNode(d, n);
      if n != nid { assert d.table[n] != from; }
    }
  }

  lemma NodeMovedData(d: Disk, from: nat, to: nat, a: nat)
    requires Owned(d) && Target(d, from, to) && !d.live[from] && a in d.live && d.live[a]
    ensures from in d.blocks && from in d.ssa && PointedBack(NodeMoved(d, from, to), a)
    ensures NodeMoved(d, from, to).blocks[a] == d.blocks[a] && NodeMoved(d, from, to).ssa[a] == d.ssa[a]
  {
    NodeMovedNodes(d, from, to);
    assert PointedBack(d, a);
  }

  lemma NodeMovedPointer(d: Disk, from: nat, to: nat, nid: nat, ofs: nat)
    requires Owned(d) && Target(d, from, to) && !d.live[from] && nid in d.table && HasNode(d, nid)
    requires ofs < |NodeOf(d, nid).addrs|
    ensures from in d.blocks && from in d.ssa
    ensures var d' := NodeMoved(d, from, to);
            && HasNode(d', nid) && NodeOf(d', nid) == NodeOf(d, nid)
            && LeadsTo(d', nid, ofs) && Reads(d', nid, ofs) == Reads(d, nid, ofs)
  {
    hide NodeMoved, Owned;
    OwnedTables(d);
    NodeMovedNodes(d, from, to);
    MovedBounds(d, from, to);
    OwnedPointer(d, nid, ofs);
    var a := NodeOf(d, nid).addrs[ofs];
    if d.lo <= a < d.hi {
      NodeMovedData(d, from, to, a);
      MovedOther(d.live, from, to, a);
    }
  }

  lemma NodeMovedPointers(d: Disk, from: nat, to: nat)
    requires Owned(d) && Target(d, from, to) && !d.live[from]
    ensures from in d.blocks && from in d.ssa && var d' := NodeMoved(d, from, to);
              Tables(d') && Pointers(d') && SameFiles(d, d')
  {
    hide NodeMoved, Owned, LeadsTo, Reads, HasNode;
    OwnedTables(d);
    NodeMovedNodes(d, from, to);
    var d' := NodeMoved(d, from, to);
    forall nid, ofs | nid in d.table && 0 <= ofs < |NodeOf(d, nid).addrs|
      ensures LeadsTo(d', nid, ofs) && Reads(d', nid, ofs) == Reads(d, nid, ofs)
    {
      NodeMovedPointer(d, from, to, nid, ofs);
    }
  }

  lemma MovedOther(live: map<nat, bool>, from: nat, to: nat, a: nat)
    requires from in live && a != from && a != to
    ensures (a in Moved(live, from, to) <==> a in live) && (a in live ==> Moved(live, from, to)[a] == live[a])
  {
  }

  lemma MovedBounds(d: Disk, from: nat, to: nat)
    requires Within(d) && Target(d, from, to) && from in d.blocks && from in d.ssa
    ensures var d' := NodeMoved(d, from, to);
            Within(d') && d'.lo == d.lo && d'.hi == d.hi && d'.live == Moved(d.live, from, to)
  {
  }

  lemma NodeMovedExtents(d: Disk, from: nat, to: nat)
    requires Owned(d) && Target(d, from, to) && !d.live[from]
    ensures from in d.blocks && from in d.ssa && var d' := NodeMoved(d, from, to); Tables(d') && Extents(d')
  {
    hide NodeMoved, Owned;
    OwnedTables(d);
    NodeMovedNodes(d, from, to);
    var d' := NodeMoved(d, from, to);
    MovedBounds(d, from, to);
    forall ino, k | ino in d'.table && NodeOf(d', ino).ino == ino && 0 <= k < NodeOf(d', ino).ext.len
      ensures ExtentAt(d', ino, k)
    {
      OwnedExtent(d, ino, k);
      var a := NodeOf(d, ino).ext.blk + k;
      NodeMovedData(d, from, to, a);
      MovedOther(d.live, from, to, a);
    }
  }

  lemma NodeMovedListed(d: Disk, from: nat, to: nat)
    requires Owned(d) && Target(d, from, to) && !d.live[from]
    ensures from in d.blocks && from in d.ssa && Nodes(NodeMoved(d, from, to))
  {
    hide Owned, PointedBack, HasNode;
    OwnedTables(d);
    NodeMovedNodes(d, from, to);
  }

  lemma NodeMovedBack(d: Disk, from: nat, to: nat)
    requires Owned(d) && Target(d, from, to) && !d.live[from]
    ensures from in d.blocks && from in d.ssa && var d' := NodeMoved(d, from, to);
              DataBack(d') && Tables(d') && Inodes(d')
  {
    hide Owned, PointedBack, NodeMoved, HasNode;
    OwnedTables(d);
    NodeMovedNodes(d, from, to);
    MovedBounds(d, from, to);
    var d' := NodeMoved(d, from, to);
    forall a | a in d'.live && d'.live[a] ensures PointedBack(d', a) {
      NodeMovedData(d, from, to, a);
    }
    forall nid | nid in d'.table ensures NodeOf(d', nid).ino in d'.table {
      OwnedPointer(d, nid, 0);
    }
  }

  lemma NodeMovedOwned(d: Disk, from: nat, to: nat)
    requires Owned(d) && Target(d, from, to) && !d.live[from]
    ensures from in d.blocks && from in d.ssa && Owned(NodeMoved(d, from, to)) && SameFiles(d, NodeMoved(d, from, to))
    ensures ExtentsKept(d, NodeMoved(d, from, to), from)
  {
    hide NodeMoved, Within, Tables, DataBack, Pointers, Extents, Nodes, Inodes, SameFiles, ExtentsKept;
    NodeMovedCovers(d, from, to);
    NodeMovedPointers(d, from, to);
    NodeMovedExtents(d, from, to);
    NodeMovedBack(d, from, to);
    NodeMovedListed(d, from, to);
    MovedBounds(d, from, to);
  }

  /** No extent covers a node block. */
  lemma NodeMovedCovers(d: Disk, from: nat, to: nat)
    requires Owned(d) && Target(d, from, to) && !d.live[from]
    ensures from in d.blocks && from in d.ssa && ExtentsKept(d, NodeMoved(d, from, to), from)
  {
    NodeMovedNodes(d, from, to);
    OwnedTables(d);
    hide NodeMoved, Owned;
    forall ino | ino in d.table && NodeOf(d, ino).ino == ino
      ensures var e := NodeOf(d, ino).ext; !(e.blk <= from < e.blk + e.len)
    {
      var e := NodeOf(d, ino).ext;
      if e.blk <= from < e.blk + e.len { OwnedExtent(d, ino, from - e.blk); }
    }
  }

  // ---- moving a data block

  predicate InExtent(e: Extent, a: nat) { e.blk <= a < e.blk + e.len }

  /** The pointer at a data block leads to its new place; the owner's extent is dropped if it covered the old one. */
  function Repointed(d: Disk, o: Owner, to: nat): map<nat, Block>
    requires HasNode(d, o.nid) && o.ofs < |NodeOf(d, o.nid).addrs| && HasNode(d, NodeOf(d, o.nid).ino)
  {
    var at, n := d.table[o.nid], NodeOf(d, o.nid);
    var blocks := d.blocks[at := n.(addrs := n.addrs[o.ofs := to])];
    var iat := d.table[n.ino];
    var inode := blocks[iat];
    if InExtent(inode.ext, n.addrs[o.ofs]) then blocks[iat := inode.(ext := inode.ext.(len := 0))] else blocks
  }

  function DataMoved(d: Disk, from: nat, to: nat): Disk
    requires PointedBack(d, from) && from in d.live && HasNode(d, NodeOf(d, d.ssa[from].nid).ino) && to !in d.live
  {
    var copied := d.(blocks := d.blocks[to := d.blocks[from]]);
    d.(live := Moved(d.live, from, to), blocks := Repointed(copied, d.ssa[from], to), ssa := d.ssa[to := d.ssa[from]])
  }

  /** What is left of a node block. */
  predicate NodeKept(d: Disk, d': Disk, from: nat, to: nat, nid: nat)
    requires HasNode(d, nid) && HasNode(d', nid) && PointedBack(d, from)
  {
    var n, n', o := NodeOf(d, nid), NodeOf(d', nid), d.ssa[from];
    && SameNode(n, n') && n'.addrs == (if nid == o.nid then n.addrs[o.ofs := to] else n.addrs)
    && n'.ext == if nid == NodeOf(d, o.nid).ino && InExtent(n.ext, from) then n.ext.(len := 0) else n.ext
  }

  lemma DataMovedNodes(d: Disk, from: nat, to: nat)
    requires Owned(d) && Target(d, from, to) && d.live[from]
    ensures PointedBack(d, from) && HasNode(d, NodeOf(d, d.ssa[from].nid).ino)
    ensures var d' := DataMoved(d, from, to);
            Tables(d') && d'.table == d.table && forall nid :: nid in d.table ==> NodeKept(d, d', from, to, nid)
  {
    assert PointedBack(d, from);
    var o := d.ssa[from];
    assert HasNode(d, o.nid) && HasNode(d, NodeOf(d, o.nid).ino);
    var d' := DataMoved(d, from, to);
    forall nid | nid in d'.table ensures HasNode(d', nid) && NodeKept(d, d', from, to, nid) {
      assert HasNode(d, nid);
    }
  }

  lemma DataMovedBounds(d: Disk, from: nat, to: nat)
    requires Owned(d) && Target(d, from, to) && d.live[from]
    requires PointedBack(d, from) && HasNode(d, NodeOf(d, d.ssa[from].nid).ino)
    ensures var d' := DataMoved(d, from, to);
            Within(d') && d'.lo == d.lo && d'.hi == d.hi && d'.live == Moved(d.live, from, to) &&
                d'.ssa == d.ssa[to := d.ssa[from]]
  {
  }

  /** Only node blocks and the target are written. */
  lemma DataMovedBytes(d: Disk, from: nat, to: nat, a: nat)
    requires Target(d, from, to) && PointedBack(d, from) && HasNode(d, NodeOf(d, d.ssa[from].nid).ino)
    requires d.live[from] && a in d.live && d.live[a] && a in d.blocks
    ensures var b := DataMoved(d, from, to).blocks; var a' := if a == from then to else a;
            a' in b && b[a'] == d.blocks[a]
  {
  }

  /** Other data stays what it is and is pointed at as before; the moved block has the old contents. */
  lemma DataMovedData(d: Disk, from: nat, to: nat, a: nat)
    requires Owned(d) && Target(d, from, to) && d.live[from] && a in d.live && d.live[a]
    ensures PointedBack(d, from) && HasNode(d, NodeOf(d, d.ssa[from].nid).ino)
    ensures var d' := DataMoved(d, from, to); var a' := if a == from then to else a;
            PointedBack(d', a') && d'.blocks[a'] == d.blocks[a] && d'.ssa[a'] == d.ssa[a]
  {
    DataMovedNodes(d, from, to);
    DataMovedBounds(d, from, to);
    OwnedData(d, a);
    DataMovedBytes(d, from, to, a);
    var d' := DataMoved(d, from, to);
    hide DataMoved, Owned;
    BackAgain(d, d', from, to, a);
  }

  lemma BackAgain(d: Disk, d': Disk, from: nat, to: nat, a: nat)
    requires PointedBack(d, from) && PointedBack(d, a) && HasNode(d', d.ssa[a].nid)
    requires NodeKept(d, d', from, to, d.ssa[a].nid)
    requires a != to && d'.ssa == d.ssa[to := d.ssa[from]] && (if a == from then to else a) in d'.blocks
    ensures PointedBack(d', if a == from then to else a)
  {
  }

  lemma PointerAgain(d: Disk, d': Disk, from: nat, to: nat, nid: nat, ofs: nat)
    requires Target(d, from, to) && PointedBack(d, from) && HasNode(d, nid) && HasNode(d', nid)
    requires NodeKept(d, d', from, to, nid)
    requires ofs < |NodeOf(d, nid).addrs| && LeadsTo(d, nid, ofs) && Within(d) && Within(d')
    requires d'.lo == d.lo && d'.hi == d.hi && d'.ssa == d.ssa[to := d.ssa[from]] && d'.live == Moved(d.live, from, to)
    requires var a := NodeOf(d, nid).addrs[ofs]; var a' := if a == from then to else a;
             d.lo <= a < d.hi ==> a' in d'.blocks && a in d.blocks && d'.blocks[a'] == d.blocks[a]
    ensures LeadsTo(d', nid, ofs) && Reads(d', nid, ofs) == Reads(d, nid, ofs)
  {
  }

  lemma DataMovedPointer(d: Disk, from: nat, to: nat, nid: nat, ofs: nat)
    requires Owned(d) && Target(d, from, to) && d.live[from] && HasNode(d, nid) && nid in d.table
    requires ofs < |NodeOf(d, nid).addrs|
    ensures PointedBack(d, from) && HasNode(d, NodeOf(d, d.ssa[from].nid).ino)
    ensures var d' := DataMoved(d, from, to);
            && HasNode(d', nid) && SameNode(NodeOf(d, nid), NodeOf(d', nid))
            && LeadsTo(d', nid, ofs) && Reads(d', nid, ofs) == Reads(d, nid, ofs)
  {
    DataMovedNodes(d, from, to);
    DataMovedBounds(d, from, to);
    var d' := DataMoved(d, from, to);
    var a := NodeOf(d, nid).addrs[ofs];
    assert NodeKept(d, d', from, to, nid) && Within(d);
    hide DataMoved, Owned, NodeKept, Within;
    OwnedPointer(d, nid, ofs);
    if d.lo <= a < d.hi { DataMovedData(d, from, to, a); }
    KeptIsSame(d, d', from, to, nid);
    PointerAgain(d, d', from, to, nid, ofs);
  }

  lemma KeptIsSame(d: Disk, d': Disk, from: nat, to: nat, nid: nat)
    requires HasNode(d, nid) && HasNode(d', nid) && PointedBack(d, from) && NodeKept(d, d', from, to, nid)
    ensures SameNode(NodeOf(d, nid), NodeOf(d', nid))
  {
  }

  lemma DataMovedPointers(d: Disk, from: nat, to: nat)
    requires Owned(d) && Target(d, from, to) && d.live[from]
    ensures PointedBack(d, from) && HasNode(d, NodeOf(d, d.ssa[from].nid).ino)
    ensures var d' := DataMoved(d, from, to); Tables(d') && Pointers(d') && SameFiles(d, d')
  {
    hide DataMoved, Owned, LeadsTo, Reads, NodeKept, SameNode, PointedBack, HasNode;
    OwnedTables(d);
    DataMovedNodes(d, from, to);
    var d' := DataMoved(d, from, to);
    forall nid | nid in d.table
      ensures SameNode(NodeOf(d, nid), NodeOf(d', nid)) && |NodeOf(d', nid).addrs| == |NodeOf(d, nid).addrs|
    {
      KeptIsSame(d, d', from, to, nid);
      SameLength(NodeOf(d, nid), NodeOf(d', nid));
    }
    forall nid, ofs | nid in d.table && 0 <= ofs < |NodeOf(d, nid).addrs|
      ensures LeadsTo(d', nid, ofs) && Reads(d', nid, ofs) == Reads(d, nid, ofs)
    {
      DataMovedPointer(d, from, to, nid, ofs);
    }
  }

  lemma SameLength(n: Block, n': Block)
    requires SameNode(n, n')
    ensures n.Node? && n'.Node? && |n'.addrs| == |n.addrs| && n'.ino == n.ino
  {
  }

  lemma ExtentAgain(d: Disk, d': Disk, from: nat, to: nat, ino: nat, k: nat)
    requires Target(d, from, to) && PointedBack(d, from) && HasNode(d, ino) && HasNode(d', ino)
    requires NodeKept(d, d', from, to, ino)
    requires d'.live == Moved(d.live, from, to) && d'.ssa == d.ssa[to := d.ssa[from]]
    requires ExtentAt(d, ino, k) && k < NodeOf(d', ino).ext.len
    requires var a := NodeOf(d, ino).ext.blk + k;
             HasNode(d', d.ssa[a].nid) && NodeKept(d, d', from, to, d.ssa[a].nid) && (a != from ==> PointedBack(d', a))
    ensures ExtentAt(d', ino, k)
  {
  }

  lemma DataMovedExtent(d: Disk, from: nat, to: nat, ino: nat, k: nat)
    requires Owned(d) && Target(d, from, to) && d.live[from] && ino in d.table
    ensures PointedBack(d, from) && HasNode(d, NodeOf(d, d.ssa[from].nid).ino)
    ensures var d' := DataMoved(d, from, to);
            HasNode(d', ino) && (NodeOf(d', ino).ino == ino && k < NodeOf(d', ino).ext.len ==> ExtentAt(d', ino, k))
  {
    hide DataMoved, Owned, NodeKept;
    OwnedTables(d);
    DataMovedNodes(d, from, to);
    DataMovedBounds(d, from, to);
    OwnedExtent(d, ino, k);
    var d' := DataMoved(d, from, to);
    KeptExtent(d, d', from, to, ino);
    if NodeOf(d', ino).ino == ino && k < NodeOf(d', ino).ext.len {
      var a := NodeOf(d, ino).ext.blk + k;
      if a != from { DataMovedData(d, from, to, a); }
      ExtentAgain(d, d', from, to, ino, k);
    }
  }

  lemma KeptExtent(d: Disk, d': Disk, from: nat, to: nat, nid: nat)
    requires HasNode(d, nid) && HasNode(d', nid) && PointedBack(d, from) && NodeKept(d, d', from, to, nid)
    ensures NodeOf(d', nid).ino == NodeOf(d, nid).ino && NodeOf(d', nid).ext.len <= NodeOf(d, nid).ext.len
  {
  }

  lemma DataMovedOwned(d: Disk, from: nat, to: nat)
    requires Owned(d) && Target(d, from, to) && d.live[from]
    ensures PointedBack(d, from) && HasNode(d, NodeOf(d, d.ssa[from].nid).ino)
    ensures Owned(DataMoved(d, from, to)) && SameFiles(d, DataMoved(d, from, to))
    ensures ExtentsKept(d, DataMoved(d, from, to), from)
  {
    hide DataMoved, NodeKept, Within, Tables, DataBack, Pointers, Extents, Nodes, Inodes, SameFiles, ExtentsKept;
    DataMovedCovers(d, from, to);
    DataMovedNodes(d, from, to);
    DataMovedBounds(d, from, to);
    DataMovedPointers(d, from, to);
    DataMovedBack(d, from, to);
    DataMovedTruths(d, from, to);
    var d' := DataMoved(d, from, to);
    assert Within(d') && Tables(d') && DataBack(d') && Pointers(d') && Extents(d') && Nodes(d') && Inodes(d');
  }

  /** An extent that covers the block is its owner's. */
  lemma DataMovedCovers(d: Disk, from: nat, to: nat)
    requires Owned(d) && Target(d, from, to) && d.live[from]
    ensures PointedBack(d, from) && HasNode(d, NodeOf(d, d.ssa[from].nid).ino)
    ensures ExtentsKept(d, DataMoved(d, from, to), from)
  {
    hide DataMoved, Owned, HasNode, NodeKept, PointedBack;
    DataMovedNodes(d, from, to);
    OwnedTables(d);
    var d' := DataMoved(d, from, to);
    forall ino | ino in d.table && NodeOf(d, ino).ino == ino
      ensures var e := NodeOf(d, ino).ext;
              && NodeOf(d', ino).ino == ino
              && NodeOf(d', ino).ext == if e.blk <= from < e.blk + e.len then e.(len := 0) else e
    {
      assert NodeKept(d, d', from, to, ino);
      var e := NodeOf(d, ino).ext;
      if e.blk <= from < e.blk + e.len { OwnedExtent(d, ino, from - e.blk); }
      ExtentIs(d, d', from, to, ino);
    }
  }

  lemma ExtentIs(d: Disk, d': Disk, from: nat, to: nat, ino: nat)
    requires HasNode(d, ino) && HasNode(d', ino) && PointedBack(d, from) && NodeKept(d, d', from, to, ino)
    requires NodeOf(d, ino).ino == ino
    requires var e := NodeOf(d, ino).ext; e.blk <= from < e.blk + e.len ==> ExtentAt(d, ino, from - e.blk)
    ensures var e := NodeOf(d, ino).ext;
            && NodeOf(d', ino).ino == ino
            && NodeOf(d', ino).ext == if e.blk <= from < e.blk + e.len then e.(len := 0) else e
  {
  }

  lemma DataMovedBack(d: Disk, from: nat, to: nat)
    requires Owned(d) && Target(d, from, to) && d.live[from]
    ensures PointedBack(d, from) && HasNode(d, NodeOf(d, d.ssa[from].nid).ino)
    ensures var d' := DataMoved(d, from, to); DataBack(d') && Nodes(d')
  {
    hide DataMoved, Owned, NodeKept;
    OwnedTables(d);
    DataMovedNodes(d, from, to);
    DataMovedBounds(d, from, to);
    var d' := DataMoved(d, from, to);
    forall a | a in d'.live && d'.live[a] ensures PointedBack(d', a) {
      DataMovedData(d, from, to, if a == to then from else a);
    }
  }

  lemma DataMovedTruths(d: Disk, from: nat, to: nat)
    requires Owned(d) && Target(d, from, to) && d.live[from]
    ensures PointedBack(d, from) && HasNode(d, NodeOf(d, d.ssa[from].nid).ino)
    ensures var d' := DataMoved(d, from, to); Tables(d') && Extents(d') && Inodes(d')
  {
    hide DataMoved, Owned, NodeKept, ExtentAt;
    OwnedTables(d);
    DataMovedNodes(d, from, to);
    var d' := DataMoved(d, from, to);
    forall ino, k | ino in d'.table && NodeOf(d', ino).ino == ino && 0 <= k < NodeOf(d', ino).ext.len
      ensures ExtentAt(d', ino, k)
    {
      DataMovedExtent(d, from, to, ino, k);
    }
    forall nid | nid in d'.table ensures NodeOf(d', nid).ino in d'.table {
      KeptExtent(d, d', from, to, nid);
      OwnedPointer(d, nid, 0);
    }
  }

  // ---- a block that stays where it is

  /** The disk after the extent of an inode has been emptied. */
  function Emptied(d: Disk, ino: nat): Disk
    requires HasNode(d, ino)
  {
    var n := NodeOf(d, ino);
    d.(blocks := d.blocks[d.table[ino] := n.(ext := n.ext.(len := 0))])
  }

  lemma EmptiedNodes(d: Disk, ino: nat)
    requires Owned(d) && HasNode(d, ino)
    ensures var d' := Emptied(d, ino);
            Tables(d') && forall nid :: nid in d.table ==>
              NodeOf(d', nid)
              == if nid == ino then NodeOf(d, nid).(ext := NodeOf(d, nid).ext.(len := 0)) else NodeOf(d, nid)
  {
    var d' := Emptied(d, ino);
    forall nid | nid in d'.table ensures HasNode(d', nid) { assert HasNode(d, nid); }
  }

  lemma EmptiedBack(d: Disk, ino: nat, a: nat)
    requires Owned(d) && HasNode(d, ino) && a in d.live && d.live[a]
    ensures PointedBack(Emptied(d, ino), a) && Emptied(d, ino).blocks[a] == d.blocks[a]
  {
    hide Owned;
    EmptiedNodes(d, ino);
    OwnedData(d, a);
  }

  lemma EmptiedPointer(d: Disk, ino: nat, nid: nat, ofs: nat)
    requires Owned(d) && HasNode(d, ino) && nid in d.table && HasNode(d, nid) && ofs < |NodeOf(d, nid).addrs|
    ensures var d' := Emptied(d, ino);
            && HasNode(d', nid) && |NodeOf(d', nid).addrs| == |NodeOf(d, nid).addrs|
            && LeadsTo(d', nid, ofs) && Reads(d', nid, ofs) == Reads(d, nid, ofs)
  {
    EmptiedNodes(d, ino);
    OwnedPointer(d, nid, ofs);
    var a := NodeOf(d, nid).addrs[ofs];
    if a in d.live && d.live[a] { EmptiedBack(d, ino, a); }
  }

  lemma EmptiedPointers(d: Disk, ino: nat)
    requires Owned(d) && HasNode(d, ino)
    ensures Tables(Emptied(d, ino)) && Pointers(Emptied(d, ino)) && SameFiles(d, Emptied(d, ino))
  {
    hide LeadsTo, Reads;
    var d' := Emptied(d, ino);
    EmptiedNodes(d, ino);
    assert Tables(d);
    forall nid, ofs | nid in d.table && 0 <= ofs < |NodeOf(d', nid).addrs|
      ensures LeadsTo(d', nid, ofs) && ofs < |NodeOf(d, nid).addrs| && Reads(d', nid, ofs) == Reads(d, nid, ofs)
    {
      EmptiedPointer(d, ino, nid, ofs);
    }
  }

  lemma EmptiedExtents(d: Disk, ino: nat)
    requires Owned(d) && HasNode(d, ino)
    ensures Tables(Emptied(d, ino)) && Extents(Emptied(d, ino))
  {
    hide Owned;
    var d' := Emptied(d, ino);
    EmptiedNodes(d, ino);
    forall i, k | i in d'.table && NodeOf(d', i).ino == i && 0 <= k < NodeOf(d', i).ext.len ensures ExtentAt(d', i, k) {
      OwnedTables(d);
      OwnedExtent(d, i, k);
      EmptiedBack(d, ino, NodeOf(d, i).ext.blk + k);
    }
  }

  lemma EmptiedOwned(d: Disk, ino: nat)
    requires Owned(d) && HasNode(d, ino)
    ensures Owned(Emptied(d, ino)) && SameFiles(d, Emptied(d, ino))
  {
    hide Pointers, Extents, SameFiles, PointedBack;
    var d' := Emptied(d, ino);
    EmptiedPointers(d, ino);
    EmptiedExtents(d, ino);
    EmptiedNodes(d, ino);
    forall a | a in d'.live && d'.live[a] ensures PointedBack(d', a) { EmptiedBack(d, ino, a); }
  }

  /** Pointing at a block where it already is changes nothing but the extent that covers it. */
  lemma StaysOwned(d: Disk, a: nat)
    requires Owned(d) && a in d.live && d.live[a]
    ensures PointedBack(d, a) && HasNode(d, NodeOf(d, d.ssa[a].nid).ino)
    ensures var d' := d.(blocks := Repointed(d, d.ssa[a], a)); Owned(d') && SameFiles(d, d')
  {
    OwnedData(d, a);
    var o := d.ssa[a];
    var n := NodeOf(d, o.nid);
    assert HasNode(d, n.ino);
    assert n.addrs[o.ofs := a] == n.addrs;
    assert d.blocks[d.table[o.nid] := n] == d.blocks;
    EmptiedOwned(d, n.ino);
  }

  /** A file of two blocks with an extent over both. */
  function TwoBlocks(): Disk {
    Disk(10, 20, map[10 := false, 11 := true, 12 := true],
         map[10 := Node(5, 5, 0, [11, 12], Extent(0, 11, 2)), 11 := Data(7), 12 := Data(8)],
         map[5 := 10], map[10 := Owner(5, 0), 11 := Owner(5, 0), 12 := Owner(5, 1)])
  }

  lemma TwoBlocksOwned()
    ensures Owned(TwoBlocks())
  {
    var d := TwoBlocks();
    assert HasNode(d, 5) && NodeOf(d, 5).addrs == [11, 12] && NodeOf(d, 5).ext == Extent(0, 11, 2);
    assert PointedBack(d, 11) && PointedBack(d, 12);
    assert ExtentAt(d, 5, 0) && ExtentAt(d, 5, 1);
    assert LeadsTo(d, 5, 0) && LeadsTo(d, 5, 1);
    hide HasNode, PointedBack, ExtentAt, LeadsTo;
  }

  /** Its first block moves: the pointer follows, the extent is emptied, and the file reads what it read. */
  lemma TwoBlocksMove()
    ensures var d := TwoBlocks();
            && Owned(d) && PointedBack(d, 11) && HasNode(d, 5) && Target(d, 11, 15)
            && var d' := DataMoved(d, 11, 15);
            && Owned(d') && HasNode(d', 5) && NodeOf(d', 5) == Node(5, 5, 0, [15, 12], Extent(0, 11, 0))
            && Reads(d', 5, 0) == Bytes(Data(7)) && Reads(d', 5, 1) == Bytes(Data(8))
  {
    hide Owned;
    TwoBlocksOwned();
    var d := TwoBlocks();
    assert HasNode(d, 5) && PointedBack(d, 11) && Target(d, 11, 15);
    DataMovedOwned(d, 11, 15);
    var d' := DataMoved(d, 11, 15);
    assert d'.blocks[10] == Node(5, 5, 0, [15, 12], Extent(0, 11, 0));
    assert d'.table == map[5 := 10] && d'.blocks[15] == Data(7) && d'.blocks[12] == Data(8);
  }
}
