/**
  Finding, taking and moving blocks of the main area (fsck/mount.c, fsck/segment.c,
  fsck/defrag.c), on an image whose journals are empty.
 */
module Image {
  import opened Segments
  import opened Owners

  datatype Verdict = NextSegment | NextBlock | Take(section: bool)

  datatype Counts = Counts(blocks: nat, nodes: nat, inodes: nat)

  /** What reserve_new_block says: an address, no space by the counts, or no block to be found. */
  datatype Reserved = Reserved(addr: nat) | NoSpace | NoBlock

  /** What the block is for: the first time a pointer is filled, a node, an inode. */
  datatype Request = Request(first: bool, kind: int, inode: bool, sum: Owner)

  class Volume {
    const g: Layout
    var segs: seq<Seg>
    var cursegs: seq<nat>

    var blocks: map<nat, Block>
    var table: map<nat, nat>
    var ssa: map<nat, Owner>

    /** total_valid_block_count, total_valid_node_count and total_valid_inode_count, and their limits */
    var counts: Counts
    const limits: Counts

    constructor (g: Layout, segs: seq<Seg>, cursegs: seq<nat>, blocks: map<nat, Block>, table: map<nat, nat>,
        ssa: map<nat, Owner>,
                 counts: Counts, limits: Counts)
      ensures this.g == g && this.segs == segs && this.cursegs == cursegs && this.counts == counts
      ensures this.limits == limits
      ensures this.blocks == blocks && this.table == table && this.ssa == ssa
    {
      this.g, this.segs, this.cursegs, this.blocks, this.table, this.ssa := g, segs, cursegs, blocks, table, ssa;
      this.counts, this.limits := counts, limits;
    }

    /** The image as blocks with owners. */
    ghost function View(): Disk
      reads this
    {
      Disk(g.main, g.End(), LiveMap(g, segs), blocks, table, ssa)
    }

    ghost predicate Valid()
      reads this
    {
      Sound(g, segs)
    }

    /** get_free_segments */
    method GetFreeSegments() returns (free: nat)
      requires Valid()
      ensures free == FreeSegs(segs, cursegs)
      ensures free == |set i: nat | i < |segs| && segs[i].valid == 0 && i !in cursegs|
    {
      FreeSegsCount(segs, cursegs);
      free := 0;
      for i := 0 to |segs|
        invariant free == FreeSegs(segs[..i], cursegs)
      {
        assert segs[..i + 1][..i] == segs[..i];
        if segs[i].valid == 0 && i !in cursegs {
          free := free + 1;
        }
      }
      assert segs[..|segs|] == segs;
    }

    /** The test for an empty section, from its first segment on. */
    method SectionIsEmpty(s: nat) returns (empty: bool)
      requires Valid() && s < |segs| && s % g.perSec == 0 && Count(g, segs[s]) == 0
      ensures empty <==> EmptySection(g, segs, s)
    {
      SectionFits(g, s);
      var i := 1;
      while i < g.perSec
        invariant 1 <= i <= g.perSec
        invariant forall k :: s <= k < s + i ==> Count(g, segs[k]) == 0
      {
        if Count(g, segs[s + i]) != 0 {
          return false;
        }
        i := i + 1;
      }
      return true;
    }

    /** What the search does at one block. */
    method Probe(to: int, want: int, newSec: bool, notEnough: bool) returns (verdict: Verdict)
      requires Valid() && g.InMain(to) && notEnough == NotEnough(g, segs, cursegs)
      ensures verdict == NextSegment ==> !Usable(g, segs, cursegs, g.SegOf(to))
      ensures verdict == NextBlock ==> NoneFit(g, segs, cursegs, want, newSec, to, to + 1)
      ensures verdict.Take? ==>
                Fits(g, segs, cursegs, want, newSec, to) && verdict.section == EmptySection(g, segs, g.SegOf(to))
      ensures verdict == Take(true) ==> g.SegOf(to) + g.perSec <= |segs|
    {
      hide Fits, NoneFit, NotEnough, EmptySection;
      var s, offset := g.SegOf(to), g.OffOf(to);
      var blocks := Count(g, segs[s]);
      FitsAt(g, segs, cursegs, want, newSec, to);
      if blocks == PER_SEG {
        return NextSegment;
      }
      if !g.readOnly && s in cursegs {
        return NextSegment;
      }
      if blocks == 0 && notEnough {
        return NextSegment;
      }
      if blocks == 0 && s % g.perSec == 0 {
        var empty := SectionIsEmpty(s);
        if empty {
          return Take(true);
        }
      }
      if Kind(g, segs[s]) == want && !newSec && !Bits(g, segs[s])[offset] {
        return Take(false);
      }
      return NextBlock;
    }

    /** find_next_free_block: the first block that fits in the given direction. */
    method FindNextFree(start: nat, left: bool, want: int, newSec: bool) returns (found: bool, to: int)
      requires Valid()
      modifies this`segs
      ensures Valid()
      ensures found ==> Fits(g, old(segs), cursegs, want, newSec, to)
      ensures NoFitPassed(g, old(segs), cursegs, want, newSec, start, left, found, to)
      ensures found ==> Ahead(start, left, to)
      ensures Searched(g, old(segs), cursegs, want, newSec, start, left, found, to)
      ensures segs == if found && EmptySection(g, old(segs), g.SegOf(to))
                      then SectionTyped(g, old(segs), g.SegOf(to), want) else old(segs)
      ensures if found then KindsAfter(g, old(segs), segs, want, to) else segs == old(segs)
    {
      hide Fits, NoneFit, FreeSegs, EmptySection, Usable, Searched, SectionTyped, KindsAfter;
      to := start;
      if to > 0 && left {
        to := to - 1;
      }
      var free := GetFreeSegments();
      var notEnough := free <= g.reserved + 1;
      ghost var first := First(start, left);
      NoneHere(g, segs, cursegs, want, newSec, first);
      while g.main <= to < g.End()
        invariant segs == old(segs) && (to != first ==> g.InMain(first))
        invariant if left then to <= first else first <= to
        invariant NoneFit(g, segs, cursegs, want, newSec,
                          if left then to + 1 else first, if left then first + 1 else to)
        decreases if left then to else g.End() - to
      {
        var s := g.SegOf(to);
        var verdict := Probe(to, want, newSec, notEnough);
        match verdict
        case NextSegment =>
          NoneInSegment(g, segs, cursegs, want, newSec, s);
          if left {
            NoneJoined(g, segs, cursegs, want, newSec,
                       g.main + s * PER_SEG, g.main + (s + 1) * PER_SEG, to + 1, first + 1);
            to := g.main + s * PER_SEG - 1;
          } else {
            NoneJoined(g, segs, cursegs, want, newSec, first, to, g.main + s * PER_SEG, g.main + (s + 1) * PER_SEG);
            to := g.main + (s + 1) * PER_SEG;
          }
        case Take(section) =>
          WasPassed(g, segs, cursegs, want, newSec, start, left, true, to);
          SearchedSo(g, segs, cursegs, want, newSec, start, left, true, to);
          KindsSo(g, segs, want, to, section);
          if section {
            SectionTypedSound(g, segs, s, want);
            segs := SectionTyped(g, segs, s, want);
          }
          return true, to;
        case NextBlock =>
          if left {
            NoneJoined(g, segs, cursegs, want, newSec, to, to + 1, to + 1, first + 1);
            to := to - 1;
          } else {
            NoneJoined(g, segs, cursegs, want, newSec, first, to, to, to + 1);
            to := to + 1;
          }
      }
      WasPassed(g, segs, cursegs, want, newSec, start, left, false, to);
      SearchedSo(g, segs, cursegs, want, newSec, start, left, false, to);
      return false, to;
    }

    /** reserve_new_block, for all tools but fsck itself. */
    method ReserveNewBlock(q: Request) returns (r: Reserved)
      requires Valid()
      modifies this`segs, this`ssa, this`counts
      ensures Valid() && (r.NoSpace? <==> Refused(old(counts), limits, q))
      ensures r.NoSpace? <==> q.first && (old(counts).blocks >= limits.blocks ||
                                          (3 <= q.kind < 6 && old(counts).nodes >= limits.nodes))
      ensures !r.Reserved? ==> segs == old(segs) && ssa == old(ssa) && counts == old(counts)
      ensures r.Reserved? ==> counts == Counted1(old(counts), q) && Taken(g, old(segs), segs, cursegs, r.addr)
      ensures r.Reserved? ==>
                counts == Counts(old(counts).blocks + (if q.first then 1 else 0),
                                 old(counts).nodes + (if q.first && 3 <= q.kind < 6 then 1 else 0),
                                 old(counts).inodes + (if q.first && 3 <= q.kind < 6 && q.inode then 1 else 0))
      ensures r.Reserved? ==> ssa == if g.readOnly then old(ssa) else old(ssa)[r.addr := q.sum]
      ensures r.Reserved? ==> HasKind(g, segs, r.addr, q.kind) && ReservedAt(g, old(segs), segs, q.kind, r.addr)
      ensures !r.NoSpace? ==>
                var to := if r.Reserved? then r.addr else 0;
                && NoFitPassed(g, old(segs), cursegs, q.kind, false, g.main, false, r.Reserved?, to)
                && Searched(g, old(segs), cursegs, q.kind, false, g.main, false, r.Reserved?, to)
    {
      hide Sound, Live, Fits, NoFitPassed, EmptySection, SectionTyped, Taken, Searched, ReservedAt, KindsAfter;
      if q.first {
        if counts.blocks >= limits.blocks {
          return NoSpace;
        }
        if IsNode(q.kind) && counts.nodes >= limits.nodes {
          return NoSpace;
        }
      }
      ghost var was := segs;
      var found, blkaddr := FindNextFree(g.main, false, q.kind, false);
      if !found {
        SoundShaped(g, segs);
        NothingFound(g, segs, cursegs, q.kind, false, g.main, false, blkaddr);
        return NoBlock;
      }
      TakenAfter(g, was, segs, cursegs, q.kind, blkaddr);
      SoundShaped(g, was);
      SoundShaped(g, segs);
      ReservedSo(g, was, segs, q.kind, blkaddr);
      var s := g.SegOf(blkaddr);
      segs := Marked(g, segs, blkaddr, q.kind);
      if g.recording {
        segs := Recorded(g, segs, blkaddr, q.kind);
      }
      if q.first {
        counts := counts.(blocks := counts.blocks + 1);
        if IsNode(q.kind) {
          counts := counts.(nodes := counts.nodes + 1);
          if q.inode {
            counts := counts.(inodes := counts.inodes + 1);
          }
        }
      }
      if !g.readOnly {
        ssa := ssa[blkaddr := q.sum];
      }
      return Reserved(blkaddr);
    }

    /**
      Any run of reservations up to the first that fails: the addresses are distinct, none was live,
      and each is live now.  The run ends early only at a limit, or where no block fits.
     */
    method ReserveAll(qs: seq<Request>) returns (addrs: seq<nat>)
      requires Valid()
      modifies this`segs, this`ssa, this`counts
      ensures Valid() && Total(segs) == old(Total(segs)) + |addrs| && |addrs| <= |qs|
      ensures forall i, j :: 0 <= i < j < |addrs| ==> addrs[i] != addrs[j]
      ensures forall i :: 0 <= i < |addrs| ==> !Live(g, old(segs), addrs[i]) && Live(g, segs, addrs[i])
      ensures forall a: nat :: Live(g, segs, a) <==> Live(g, old(segs), a) || a in addrs
      ensures counts == CountedAll(old(counts), qs[..|addrs|])
      ensures |addrs| < |qs| ==>
                var q := qs[|addrs|];
                || Refused(counts, limits, q)
                || (NoFitPassed(g, segs, cursegs, q.kind, false, g.main, false, false, 0) &&
                    Searched(g, segs, cursegs, q.kind, false, g.main, false, false, 0))
    {
      hide Sound, Live, Total, NoFitPassed, Counted1, Searched;
      addrs := [];
      while |addrs| < |qs|
        invariant Valid() && Total(segs) == old(Total(segs)) + |addrs| && |addrs| <= |qs|
        invariant forall i, j :: 0 <= i < j < |addrs| ==> addrs[i] != addrs[j]
        invariant forall i :: 0 <= i < |addrs| ==> !Live(g, old(segs), addrs[i]) && Live(g, segs, addrs[i])
        invariant forall a: nat :: Live(g, segs, a) <==> Live(g, old(segs), a) || a in addrs
        invariant counts == CountedAll(old(counts), qs[..|addrs|])
      {
        var r := ReserveNewBlock(qs[|addrs|]);
        if !r.Reserved? {
          return;
        }
        assert qs[..|addrs| + 1][..|addrs|] == qs[..|addrs|];
        addrs := addrs + [r.addr];
      }
    }

    /** update_data_blkaddr: the pointer follows, and the inode's extent goes if it covered the old address. */
    method UpdateDataBlkaddr(o: Owner, to: nat, ghost d: Disk)
      requires d.blocks == blocks && d.table == table
      requires HasNode(d, o.nid) && o.ofs < |NodeOf(d, o.nid).addrs| && HasNode(d, NodeOf(d, o.nid).ino)
      modifies this`blocks
      ensures blocks == Repointed(d, o, to)
    {
      var at := table[o.nid];
      var node := blocks[at];
      var oldaddr := node.addrs[o.ofs];
      node := node.(addrs := node.addrs[o.ofs := to]);
      blocks := blocks[at := node];
      var iat := at;
      if node.nid != node.ino {
        iat := table[node.ino];
        node := blocks[iat];
      }
      if node.ext.blk <= oldaddr < node.ext.blk + node.ext.len {
        blocks := blocks[iat := node.(ext := node.ext.(len := 0))];
      }
    }

    /** migrate_block: the block, its owner and everything that leads to it move together. */
    method MigrateBlock(from: nat, to: nat)
      requires Valid() && !g.recording && !g.readOnly && Owned(View())
      requires Live(g, segs, from) && g.InMain(to) && !Live(g, segs, to)
      requires segs[g.SegOf(to)].valid == 0 || segs[g.SegOf(to)].kind == segs[g.SegOf(from)].kind
      modifies this`segs, this`blocks, this`table, this`ssa
      ensures Valid() && Owned(View()) && SameFiles(old(View()), View()) && Total(segs) == old(Total(segs))
      ensures from in old(LiveMap(g, segs)) && LiveMap(g, segs) == Moved(old(LiveMap(g, segs)), from, to)
      ensures ExtentsKept(old(View()), View(), from) && MovedBetween(g, old(segs), segs, from, to)
    {
      hide MovedBetween, ExtentsKept, Owned, SameFiles, Sound, LiveMap, Transfer, Live;
      ghost var d := View();
      LiveShaped(g, segs, from);
      SoundShaped(g, segs);
      LiveInMap(g, segs, from);
      LiveInMap(g, segs, to);
      TransferSound(g, segs, from, to);
      TransferLive(g, segs, from, to);
      TransferIs(g, segs, from, to);
      MovedSo(g, segs, from, to);
      var kind := segs[g.SegOf(from)].kind;
      if d.live[from] { DataMovedOwned(d, from, to); } else { NodeMovedOwned(d, from, to); }
      blocks := blocks[to := blocks[from]];
      segs := Cleared(g, segs, from);
      segs := Marked(g, segs, to, kind);
      var sum := ssa[from];
      ssa := ssa[to := sum];
      if IsData(kind) {
        CopiedHolds(d, from, to);
        UpdateDataBlkaddr(sum, to, d.(blocks := blocks));
        assert View() == DataMoved(d, from, to);
      } else {
        table := table[sum.nid := to];
        assert View() == NodeMoved(d, from, to);
      }
    }

    /** migrate_main: the whole main area moves up by `offset` blocks; the summaries follow later, in their own area. */
    method MigrateMain(offset: nat) returns (ghost d: Disk)
      requires Valid() && Owned(View().(hi := g.End() + offset))
      modifies this`blocks, this`table
      ensures Owned(d) && SameFiles(old(View()).(hi := g.End() + offset), d) && d.blocks == blocks && d.table == table
      ensures d.live == Shifted(LiveMap(g, segs), g.main, offset, g.End() + offset)
      ensures forall a :: a in LiveMap(g, segs) ==> SummaryAt(d.ssa, ssa, a + offset, a)
    {
      hide Owned, SameFiles, Sound, LiveMap, Live, Shifting;
      d := View().(hi := g.End() + offset);
      ghost var d0, live := d, LiveMap(g, segs);
      SoundShaped(g, segs);
      ShiftingStart(g, segs, d, offset);
      var i := g.segments;
      while i > 0
        invariant 0 <= i <= g.segments && live == LiveMap(g, segs)
        invariant Shifting(d0, d, live, blocks, table, ssa, g.main + i * PER_SEG, offset)
      {
        i := i - 1;
        if segs[i].valid == 0 {
          ShiftingSegment(g, segs, d0, d, blocks, table, ssa, i, offset);
          continue;
        }
        var j := PER_SEG;
        while j > 0
          invariant 0 <= j <= PER_SEG && live == LiveMap(g, segs)
          invariant Shifting(d0, d, live, blocks, table, ssa, g.main + i * PER_SEG + j, offset)
        {
          j := j - 1;
          var from := g.main + i * PER_SEG + j;
          LiveIs(g, segs, from);
          LiveInMap(g, segs, from);
          if segs[i].cur[j] {
            d := MoveUp(from, from + offset, IsData(segs[i].kind), d0, d, live);
          } else {
            ShiftingSkip(d0, d, live, blocks, table, ssa, from, offset);
          }
        }
      }
      ShiftingEnd(g, segs, d0, d, blocks, table, ssa, offset);
    }

    /** One block moves up, and the pointer or table entry that leads to it follows. */
    method MoveUp(from: nat, to: nat, data: bool, ghost d0: Disk, ghost d: Disk,
                    ghost live: map<nat, bool>) returns (ghost d': Disk)
      requires from <= to && Shifting(d0, d, live, blocks, table, ssa, from + 1, to - from)
      requires from in live && live[from] == data && d0.lo <= from && to < d0.hi
      modifies this`blocks, this`table
      ensures Shifting(d0, d', live, blocks, table, ssa, from, to - from)
    {
      hide Owned, SameFiles, Shifted;
      ghost var offset := to - from;
      ShiftedStep(live, from, offset, d0.hi);
      OwnedHasSummaries(d);
      assert SummaryAt(d.ssa, ssa, from, from);
      if from == to {
        Staying(d, from, data);
      } else if data {
        DataMovedOwned(d, from, to);
        CopiedHolds(d, from, to);
      } else {
        NodeMovedOwned(d, from, to);
      }
      blocks := blocks[to := blocks[from]];
      var sum := ssa[from];
      if data {
        UpdateDataBlkaddr(sum, to, d.(blocks := blocks));
        d' := if from == to then d.(blocks := blocks) else DataMoved(d, from, to);
      } else {
        table := table[sum.nid := to];
        d' := if from == to then d else NodeMoved(d, from, to);
      }
      SameFilesTrans(d0, d, d');
    }

    /** One live block in the way of f2fs_defragment: it moves to the first place that fits, if there is one. */
    method MoveOut(idx: nat, to: nat, left: bool) returns (ok: bool, ghost target: int)
      requires Valid() && !g.recording && !g.readOnly && Owned(View()) && Live(g, segs, idx)
      modifies this`segs, this`blocks, this`table, this`ssa
      ensures Valid() && Owned(View()) && SameFiles(old(View()), View()) && Total(segs) == old(Total(segs))
      ensures !ok ==> View() == old(View()) && Stranded(g, segs, cursegs, to, left, idx)
      ensures ok ==> Ahead(to, left, target) && ExtentsKept(old(View()), View(), idx)
      ensures ok ==> target >= 0 && idx in old(LiveMap(g, segs))
      ensures ok ==> LiveMap(g, segs) == Moved(old(LiveMap(g, segs)), idx, target)
    {
      hide ExtentsKept, Owned, SameFiles, Sound, LiveMap, Live, Fits, NoFitPassed, EmptySection, SectionTyped, Searched;
      SoundShaped(g, segs);
      SameFilesSelf(View());
      LiveShaped(g, segs, idx);
      var s := g.SegOf(idx);
      ghost var was := segs;
      var found, at := FindNextFree(to, left, segs[s].kind, false);
      target := at;
      if !found {
        NothingFound(g, segs, cursegs, segs[s].kind, false, to, left, target);
        return false, target;
      }
      Found(g, was, cursegs, was[s].kind, target, segs, idx);
      MigrateBlock(idx, at);
      return true, target;
    }

    /** f2fs_defragment up to the moving of the current segments. */
    method Defragment(from: nat, len: nat, to: nat, left: bool) returns (ok: bool)
      requires Valid() && !g.recording && !g.readOnly && Owned(View())
      requires g.main <= from && from + len <= g.End()
      modifies this`segs, this`blocks, this`table, this`ssa
      ensures Valid() && Owned(View()) && SameFiles(old(View()), View()) && Total(segs) == old(Total(segs))
      ensures ok && Away(from, len, to, left) ==> NoneLive(g, segs, from, from + len)
      ensures !ok ==> exists a: nat :: from <= a < from + len && Stranded(g, segs, cursegs, to, left, a)
      ensures ExtentsOutside(old(View()), View(), from, from + len)
    {
      hide ExtentsKept, ExtentsOutside, Owned, SameFiles, Sound, LiveMap, Live, Stranded;
      OutsideSelf(View(), from, from + len);
      SameFilesSelf(View());
      var idx := from;
      while idx < from + len
        invariant from <= idx <= from + len
        invariant Valid() && Owned(View()) && SameFiles(old(View()), View()) && Total(segs) == old(Total(segs))
        invariant Away(from, len, to, left) ==> NoneLive(g, segs, from, idx)
        invariant ExtentsOutside(old(View()), View(), from, from + len)
      {
        SoundShaped(g, segs);
        LiveIs(g, segs, idx);
        if segs[g.SegOf(idx)].cur[g.OffOf(idx)] {
          ghost var was, d, target := segs, View(), 0;
          ok, target := MoveOut(idx, to, left);
          SameFilesTrans(old(View()), d, View());
          if !ok {
            return;
          }
          ExtentsOutsideStep(old(View()), d, View(), from, idx, from + len);
          NoneLiveMoved(g, was, segs, from, idx, target);
        } else {
          NoneLiveStep(g, segs, from, idx);
        }
        idx := idx + 1;
      }
      return true;
    }
  }

  predicate Refused(c: Counts, limits: Counts, q: Request) {
    q.first && (c.blocks >= limits.blocks || (IsNode(q.kind) && c.nodes >= limits.nodes))
  }

  function Counted1(c: Counts, q: Request): Counts {
    if !q.first then c
    else if !IsNode(q.kind) then c.(blocks := c.blocks + 1)
    else Counts(c.blocks + 1, c.nodes + 1, if q.inode then c.inodes + 1 else c.inodes)
  }

  function CountedAll(c: Counts, qs: seq<Request>): Counts {
    if qs == [] then c else Counted1(CountedAll(c, qs[..|qs| - 1]), qs[|qs| - 1])
  }

  predicate HasKind(g: Layout, segs: seq<Seg>, a: int, kind: int) {
    |segs| == g.segments && g.InMain(a) && segs[g.SegOf(a)].kind == kind
  }

  /** The block opens an empty section. */
  predicate OpensSection(g: Layout, segs: seq<Seg>, a: int)
    requires Shaped(g, segs)
  {
    && g.main <= a < g.main + g.segments * PER_SEG && var s := (a - g.main) / PER_SEG;
    && s % g.perSec == 0
    && forall i :: s <= i < s + g.perSec && i < |segs| ==>
         (if g.recording then segs[i].ckptValid else segs[i].valid) == 0
  }

  /** Every segment of a section that is opened gets the wanted kind; a section that is one segment is left alone. */
  ghost predicate KindsAfter(g: Layout, was: seq<Seg>, segs: seq<Seg>, want: int, to: int)
    requires Shaped(g, was)
  {
    var s := (to - g.main) / PER_SEG;
    && |segs| == |was|
    && forall i: nat :: i < |segs| ==>
         segs[i] == if OpensSection(g, was, to) && g.perSec > 1 && s <= i < s + g.perSec
                    then was[i].(kind := want) else was[i]
  }

  lemma KindsSo(g: Layout, segs: seq<Seg>, want: int, to: int, section: bool)
    requires Shaped(g, segs) && g.InMain(to) && section == EmptySection(g, segs, g.SegOf(to))
    ensures section ==> g.SegOf(to) + g.perSec <= |segs|
    ensures KindsAfter(g, segs, if section then SectionTyped(g, segs, g.SegOf(to), want) else segs, want, to)
  {
    var s := g.SegOf(to);
    if s % g.perSec == 0 { SectionFits(g, s); }
    assert section == OpensSection(g, segs, to);
    hide EmptySection, OpensSection;
  }

  /** The segments once a block is reserved: its own one, and the others as the search left them. */
  ghost predicate ReservedAt(g: Layout, was: seq<Seg>, segs: seq<Seg>, kind: int, a: int)
  {
    && Shaped(g, was) && g.main <= a < g.main + g.segments * PER_SEG && |segs| == |was|
    && var s, o := (a - g.main) / PER_SEG, (a - g.main) % PER_SEG;
    && var e := was[s].(kind := kind, valid := was[s].valid + 1, cur := was[s].cur[o := true], dirty := true);
    && segs[s] == (if !g.recording then e
                   else e.(ckptKind := kind, ckptValid := e.ckptValid + 1, ckpt := e.ckpt[o := true]))
    && forall i: nat :: i < |segs| && i != s ==>
         segs[i] == if OpensSection(g, was, a) && s <= i < s + g.perSec then was[i].(kind := kind) else was[i]
  }

  lemma ReservedSo(g: Layout, was: seq<Seg>, segs: seq<Seg>, kind: int, a: int)
    requires Shaped(g, was) && Shaped(g, segs) && g.InMain(a) && KindsAfter(g, was, segs, kind, a)
    ensures var m := Marked(g, segs, a, kind);
            ReservedAt(g, was, if g.recording then Recorded(g, m, a, kind) else m, kind, a)
  {
    hide OpensSection;
    var s := g.SegOf(a);
    assert segs[s] == was[s] || segs[s] == was[s].(kind := kind);
  }

  /** Both segments of a move are dirty, the target has the kind of the source, and the last checkpoint is as it was. */
  ghost predicate MovedBetween(g: Layout, was: seq<Seg>, segs: seq<Seg>, from: int, to: int) {
    && |segs| == |was| == g.segments && g.InMain(from) && g.InMain(to)
    && var f, t := (from - g.main) / PER_SEG, (to - g.main) / PER_SEG;
    && forall i: nat :: i < |segs| ==>
         && segs[i].kind == was[if i == t then f else i].kind
         && segs[i].dirty == (was[i].dirty || i == f || i == t)
         && segs[i].ckpt == was[i].ckpt && segs[i].ckptValid == was[i].ckptValid && segs[i].ckptKind == was[i].ckptKind
  }

  lemma MovedSo(g: Layout, segs: seq<Seg>, from: nat, to: nat)
    requires Shaped(g, segs) && g.InMain(from) && g.InMain(to)
    ensures MovedBetween(g, segs, Transfer(g, segs, from, to), from, to)
  {
  }

  /** A live block for which the search finds no place. */
  ghost predicate Stranded(g: Layout, segs: seq<Seg>, cursegs: seq<nat>, to: nat, left: bool, a: nat) {
    && Shaped(g, segs) && Live(g, segs, a)
    && NoFitPassed(g, segs, cursegs, segs[g.SegOf(a)].kind, false, to, left, false, 0)
    && Searched(g, segs, cursegs, segs[g.SegOf(a)].kind, false, to, left, false, 0)
  }

  /** The block was free, outside the current segments of a writable image, and is the only one that became live. */
  ghost predicate Taken(g: Layout, was: seq<Seg>, segs: seq<Seg>, cursegs: seq<nat>, a: nat) {
    && g.InMain(a) && !Live(g, was, a) && Live(g, segs, a) && (g.readOnly || g.SegOf(a) !in cursegs)
    && (g.recording ==>
          && Shaped(g, was) && Shaped(g, segs)
          && !was[g.SegOf(a)].ckpt[g.OffOf(a)] && segs[g.SegOf(a)].ckpt[g.OffOf(a)])
    && (forall b: nat :: b != a ==> Live(g, segs, b) == Live(g, was, b)) && Total(segs) == Total(was) + 1
  }

  function Recorded(g: Layout, segs: seq<Seg>, a: nat, kind: int): seq<Seg>
    requires |segs| == g.segments && g.InMain(a) && |segs[g.SegOf(a)].ckpt| == PER_SEG
  {
    var s, e := g.SegOf(a), segs[g.SegOf(a)];
    segs[s := e.(ckptKind := kind, ckptValid := e.ckptValid + 1, ckpt := e.ckpt[g.OffOf(a) := true])]
  }

  lemma MarkedSound(g: Layout, segs: seq<Seg>, a: nat, kind: int)
    requires Sound(g, segs) && g.InMain(a) && !Live(g, segs, a)
    requires g.recording ==> !segs[g.SegOf(a)].ckpt[g.OffOf(a)]
    ensures var m := Marked(g, segs, a, kind); var t := if g.recording then Recorded(g, m, a, kind) else m;
            Sound(g, t) && Total(t) == Total(segs) + 1 && forall b: nat :: Live(g, t, b) == (b == a || Live(g, segs, b))
  {
    var s, m := g.SegOf(a), Marked(g, segs, a, kind);
    var t := if g.recording then Recorded(g, m, a, kind) else m;
    assert Counted(segs[s]);
    PopUpdate(segs[s].cur, g.OffOf(a), true);
    if g.recording { PopUpdate(segs[s].ckpt, g.OffOf(a), true); }
    assert t == segs[s := t[s]];
    TotalUpdate(segs, s, t[s]);
    forall b: nat ensures Live(g, t, b) == (b == a || Live(g, segs, b)) {
      if g.InMain(b) { SameBlock(g, a, b); }
    }
  }

  /** Taking what the search found. */
  lemma TakenAfter(g: Layout, was: seq<Seg>, segs: seq<Seg>, cursegs: seq<nat>, kind: int, to: int)
    requires Sound(g, was) && Sound(g, segs) && Fits(g, was, cursegs, kind, false, to)
    requires segs == if EmptySection(g, was, g.SegOf(to)) then SectionTyped(g, was, g.SegOf(to), kind) else was
    ensures g.InMain(to)
    ensures var m := Marked(g, segs, to, kind); var t := if g.recording then Recorded(g, m, to, kind) else m;
            Sound(g, t) && Taken(g, was, t, cursegs, to)
  {
    FitsIsFree(g, was, cursegs, kind, false, to);
    TypedBits(g, was, segs, g.SegOf(to), kind);
    MarkedSound(g, segs, to, kind);
  }

  /** Typing a section leaves bits and counts alone. */
  lemma TypedBits(g: Layout, was: seq<Seg>, segs: seq<Seg>, s: nat, kind: int)
    requires Shaped(g, was) && s < |was|
    requires segs == if EmptySection(g, was, s) then SectionTyped(g, was, s, kind) else was
    ensures |segs| == |was| && Total(segs) == Total(was) && forall b: nat :: Live(g, segs, b) == Live(g, was, b)
    ensures forall i :: 0 <= i < |segs| ==>
              segs[i].cur == was[i].cur && segs[i].ckpt == was[i].ckpt && segs[i].valid == was[i].valid
  {
    TotalSame(segs, was);
  }

  /** The source range is out of the way of the search. */
  predicate Away(from: nat, len: nat, to: nat, left: bool) {
    if left then First(to, left) < from else from + len <= to
  }

  ghost predicate NoneLive(g: Layout, segs: seq<Seg>, lo: nat, hi: nat) {
    forall a: nat :: lo <= a < hi ==> a !in LiveMap(g, segs)
  }

  // ---- moving the whole area

  /** Whether a live block is at `a` once everything from `cur` on has moved up. */
  predicate AtNow(live: map<nat, bool>, cur: nat, offset: nat, a: nat) {
    if a < cur then a in live else a >= cur + offset && a - offset in live
  }

  ghost function Shifted(live: map<nat, bool>, cur: nat, offset: nat, hi: nat): map<nat, bool> {
    map a: nat | a < hi && AtNow(live, cur, offset, a) :: live[if a < cur then a else a - offset]
  }

  lemma ShiftedStep(live: map<nat, bool>, from: nat, offset: nat, hi: nat)
    requires from + offset < hi
    ensures from in live ==>
              from in Shifted(live, from + 1, offset, hi) && Shifted(live, from + 1, offset, hi)[from] == live[from]
    ensures from in live && offset > 0 ==>
              && from + offset !in Shifted(live, from + 1, offset, hi)
              && Moved(Shifted(live, from + 1, offset, hi), from, from + offset) == Shifted(live, from, offset, hi)
    ensures from !in live || offset == 0 ==> Shifted(live, from + 1, offset, hi) == Shifted(live, from, offset, hi)
  {
    var s, t := Shifted(live, from + 1, offset, hi), Shifted(live, from, offset, hi);
    assert forall a: nat :: offset > 0 ==> (AtNow(live, from, offset, a) <==>
        (a == from + offset && from in live) || (a != from && AtNow(live, from + 1, offset, a)));
    assert offset == 0 ==> forall a: nat :: AtNow(live, from, offset, a) <==> AtNow(live, from + 1, offset, a);
    assert AtNow(live, from + 1, offset, from) <==> from in live;
  }

  /** A block that moves nowhere: its pointer and its table entry are what they were. */
  lemma Staying(d: Disk, a: nat, data: bool)
    requires Owned(d) && a in d.live && d.live[a] == data
    ensures a in d.blocks && a in d.ssa && d.blocks[a := d.blocks[a]] == d.blocks
    ensures data ==> PointedBack(d, a) && HasNode(d, NodeOf(d, d.ssa[a].nid).ino)
    ensures data ==> var d' := d.(blocks := Repointed(d, d.ssa[a], a)); Owned(d') && SameFiles(d, d')
    ensures !data ==> d.ssa[a].nid in d.table && d.table[d.ssa[a].nid := a] == d.table && SameFiles(d, d)
  {
    hide Owned, SameFiles;
    OwnedHasSummaries(d);
    OwnedTables(d);
    SameFilesSelf(d);
    if data { StaysOwned(d, a); }
  }

  /** A segment without live blocks needs no moving. */
  lemma SegmentShifted(g: Layout, segs: seq<Seg>, i: nat, offset: nat, hi: nat)
    requires Sound(g, segs) && i < |segs| && segs[i].valid == 0
    ensures Shifted(LiveMap(g, segs), g.main + i * PER_SEG, offset, hi) ==
              Shifted(LiveMap(g, segs), g.main + (i + 1) * PER_SEG, offset, hi)
    ensures forall a :: a in LiveMap(g, segs) ==> a < g.main + i * PER_SEG || g.main + (i + 1) * PER_SEG <= a
  {
    hide LiveMap, Sound, Shifted;
    NoneLiveIn(g, segs, i);
    ShiftedGap(LiveMap(g, segs), g.main + i * PER_SEG, g.main + (i + 1) * PER_SEG, offset, hi);
  }

  lemma NoneLiveIn(g: Layout, segs: seq<Seg>, i: nat)
    requires Sound(g, segs) && i < |segs| && segs[i].valid == 0
    ensures forall a :: a in LiveMap(g, segs) ==> a < g.main + i * PER_SEG || g.main + (i + 1) * PER_SEG <= a
  {
    assert Counted(segs[i]);
    forall a | a in LiveMap(g, segs) ensures a < g.main + i * PER_SEG || g.main + (i + 1) * PER_SEG <= a {
      if g.SegOf(a) == i { PopNone(segs[i].cur, g.OffOf(a)); }
    }
  }

  lemma ShiftedGap(live: map<nat, bool>, lo: nat, up: nat, offset: nat, hi: nat)
    requires lo <= up && forall a :: a in live ==> a < lo || up <= a
    ensures Shifted(live, lo, offset, hi) == Shifted(live, up, offset, hi)
  {
    assert forall a: nat :: AtNow(live, lo, offset, a) <==> AtNow(live, up, offset, a);
  }

  lemma NothingShifted(g: Layout, segs: seq<Seg>, offset: nat)
    requires Shaped(g, segs)
    ensures Shifted(LiveMap(g, segs), g.main + g.segments * PER_SEG, offset, g.End() + offset) == LiveMap(g, segs)
    ensures forall a :: a in LiveMap(g, segs) ==> g.main <= a < g.main + g.segments * PER_SEG
  {
  }

  lemma OwnedHasSummaries(d: Disk)
    requires Owned(d)
    ensures forall a :: a in d.live ==> a in d.ssa && a in d.blocks
  {
    forall a | a in d.live ensures a in d.ssa && a in d.blocks {
      if d.live[a] { OwnedData(d, a); } else { assert HasNode(d, d.ssa[a].nid); }
    }
  }

  ghost predicate Shifting(d0: Disk, d: Disk, live: map<nat, bool>, blocks: map<nat, Block>, table: map<nat, nat>,
                           ssa: map<nat, Owner>,
                           cur: nat, offset: nat) {
    && Owned(d) && SameFiles(d0, d) && d.blocks == blocks && d.table == table &&
         d.live == Shifted(live, cur, offset, d0.hi)
    && d.lo == d0.lo && d.hi == d0.hi
    && forall a :: a in live ==> SummaryAt(d.ssa, ssa, if a < cur then a else a + offset, a)
  }

  predicate SummaryAt(now: map<nat, Owner>, ssa: map<nat, Owner>, a': nat, a: nat) {
    a in ssa && a' in now && now[a'] == ssa[a]
  }

  lemma ShiftingStart(g: Layout, segs: seq<Seg>, d: Disk, offset: nat)
    requires Shaped(g, segs) && Owned(d) && d.live == LiveMap(g, segs) && d.hi == g.End() + offset
    ensures Shifting(d, d, LiveMap(g, segs), d.blocks, d.table, d.ssa, g.main + g.segments * PER_SEG, offset)
  {
    hide Owned, SameFiles, LiveMap, Shifted;
    SameFilesSelf(d);
    NothingShifted(g, segs, offset);
    OwnedHasSummaries(d);
  }

  lemma ShiftingSkip(d0: Disk, d: Disk, live: map<nat, bool>, blocks: map<nat, Block>, table: map<nat, nat>,
                     ssa: map<nat, Owner>, from: nat, offset: nat)
    requires Shifting(d0, d, live, blocks, table, ssa, from + 1, offset) && from !in live
    requires from + offset < d0.hi
    ensures Shifting(d0, d, live, blocks, table, ssa, from, offset)
  {
    ShiftedStep(live, from, offset, d0.hi);
  }

  lemma ShiftingSegment(g: Layout, segs: seq<Seg>, d0: Disk, d: Disk, blocks: map<nat, Block>,
                    table: map<nat, nat>, ssa: map<nat, Owner>, i: nat, offset: nat)
    requires Sound(g, segs) && i < |segs| && segs[i].valid == 0
    requires Shifting(d0, d, LiveMap(g, segs), blocks, table, ssa, g.main + (i + 1) * PER_SEG, offset)
    ensures Shifting(d0, d, LiveMap(g, segs), blocks, table, ssa, g.main + i * PER_SEG, offset)
  {
    hide LiveMap, Shifted, Owned, SameFiles;
    SegmentShifted(g, segs, i, offset, d0.hi);
  }

  lemma ShiftingEnd(g: Layout, segs: seq<Seg>, d0: Disk, d: Disk, blocks: map<nat, Block>, table: map<nat, nat>,
                    ssa: map<nat, Owner>, offset: nat)
    requires Shaped(g, segs) && Shifting(d0, d, LiveMap(g, segs), blocks, table, ssa, g.main, offset)
    ensures Owned(d) && SameFiles(d0, d) && d.blocks == blocks && d.table == table
    ensures d.live == Shifted(LiveMap(g, segs), g.main, offset, d0.hi)
    ensures forall a :: a in LiveMap(g, segs) ==> SummaryAt(d.ssa, ssa, a + offset, a)
  {
    hide Owned, SameFiles, LiveMap, Shifted;
    NothingShifted(g, segs, offset);
  }

  // ---- which blocks are live

  ghost function LiveMap(g: Layout, segs: seq<Seg>): map<nat, bool> {
    map a: nat | g.main <= a < g.End() && Live(g, segs, a) :: IsData(segs[g.SegOf(a)].kind)
  }

  /** Live blocks are data in segments of the kinds hot, warm and cold data, and nodes in the others. */
  lemma LiveKinds(g: Layout, segs: seq<Seg>, a: nat)
    requires Sound(g, segs)
    ensures a in LiveMap(g, segs) <==>
              g.main <= a < g.main + |segs| * PER_SEG && segs[(a - g.main) / PER_SEG].cur[(a - g.main) % PER_SEG]
    ensures a in LiveMap(g, segs) ==> (LiveMap(g, segs)[a] <==> segs[(a - g.main) / PER_SEG].kind in {0, 1, 2})
  {
    if g.InMain(a) {
      assert Counted(segs[g.SegOf(a)]);
      assert g.SegOf(a) == (a - g.main) / PER_SEG && g.OffOf(a) == (a - g.main) % PER_SEG;
    }
  }

  /** Typing an empty section changes nothing that is live. */
  lemma SectionTypedLive(g: Layout, segs: seq<Seg>, s: nat, kind: int)
    requires Sound(g, segs) && !g.recording && s < |segs| && EmptySection(g, segs, s)
    ensures LiveMap(g, SectionTyped(g, segs, s, kind)) == LiveMap(g, segs)
    ensures Total(SectionTyped(g, segs, s, kind)) == Total(segs)
  {
    hide SectionTyped, Live;
    TypedBits(g, segs, SectionTyped(g, segs, s, kind), s, kind);
    forall a: nat | g.main <= a < g.End() && Live(g, segs, a)
      ensures SectionTyped(g, segs, s, kind)[g.SegOf(a)].kind == segs[g.SegOf(a)].kind
    {
      TypedLiveAt(g, segs, s, kind, a);
    }
  }

  lemma TypedLiveAt(g: Layout, segs: seq<Seg>, s: nat, kind: int, a: nat)
    requires Sound(g, segs) && !g.recording && s < |segs| && EmptySection(g, segs, s) && g.InMain(a) && Live(g, segs, a)
    ensures SectionTyped(g, segs, s, kind)[g.SegOf(a)].kind == segs[g.SegOf(a)].kind
  {
    var i := g.SegOf(a);
    assert Counted(segs[i]);
    if s <= i < s + g.perSec {
      assert Count(g, segs[i]) == 0;
      PopNone(segs[i].cur, g.OffOf(a));
    }
  }

  /** The bits, counts and types after a block has moved. */
  function Transfer(g: Layout, segs: seq<Seg>, from: nat, to: nat): seq<Seg>
    requires Shaped(g, segs) && g.InMain(from) && g.InMain(to)
  {
    Marked(g, Cleared(g, segs, from), to, segs[g.SegOf(from)].kind)
  }

  function Cleared(g: Layout, segs: seq<Seg>, a: nat): (r: seq<Seg>)
    requires Shaped(g, segs) && g.InMain(a)
    ensures Shaped(g, r)
  {
    var s, e := g.SegOf(a), segs[g.SegOf(a)];
    segs[s := e.(valid := e.valid - 1, cur := e.cur[g.OffOf(a) := false], dirty := true)]
  }

  function Marked(g: Layout, segs: seq<Seg>, a: nat, kind: int): seq<Seg>
    requires Shaped(g, segs) && g.InMain(a)
  {
    var s, e := g.SegOf(a), segs[g.SegOf(a)];
    segs[s := e.(kind := kind, valid := e.valid + 1, cur := e.cur[g.OffOf(a) := true], dirty := true)]
  }

  lemma SameBlock(g: Layout, a: nat, b: nat)
    requires g.InMain(a) && g.InMain(b)
    ensures g.SegOf(a) == g.SegOf(b) && g.OffOf(a) == g.OffOf(b) <==> a == b
  {
  }

  lemma TransferSound(g: Layout, segs: seq<Seg>, from: nat, to: nat)
    requires Sound(g, segs) && !g.recording && Live(g, segs, from) && g.InMain(to) && !Live(g, segs, to)
    ensures Sound(g, Transfer(g, segs, from, to)) && Total(Transfer(g, segs, from, to)) == Total(segs)
  {
    SameBlock(g, from, to);
    var s, t, c := g.SegOf(from), g.SegOf(to), Cleared(g, segs, from);
    assert Counted(segs[s]) && Counted(segs[t]);
    PopUpdate(segs[s].cur, g.OffOf(from), false);
    PopUpdate(c[t].cur, g.OffOf(to), true);
    TotalUpdate(segs, s, c[s]);
    TotalUpdate(c, t, Transfer(g, segs, from, to)[t]);
  }

  lemma TransferLive(g: Layout, segs: seq<Seg>, from: nat, to: nat)
    requires Sound(g, segs) && Live(g, segs, from) && g.InMain(to) && !Live(g, segs, to)
    requires segs[g.SegOf(to)].valid == 0 || segs[g.SegOf(to)].kind == segs[g.SegOf(from)].kind
    ensures from in LiveMap(g, segs) && LiveMap(g, Transfer(g, segs, from, to)) == Moved(LiveMap(g, segs), from, to)
  {
    hide Transfer, Live;
    LiveShaped(g, segs, from);
    var t := Transfer(g, segs, from, to);
    forall a: nat | g.main <= a < g.End()
      ensures Live(g, t, a) == (a == to || (a != from && Live(g, segs, a)))
      ensures Live(g, t, a) ==> |t| == |segs| && t[g.SegOf(a)].kind == segs[g.SegOf(if a == to then from else a)].kind
    {
      TransferLiveAt(g, segs, from, to, a);
    }
  }

  lemma LiveShaped(g: Layout, segs: seq<Seg>, a: nat)
    requires Live(g, segs, a)
    ensures g.InMain(a) && |segs| == g.segments
  {
  }

  lemma TransferLiveAt(g: Layout, segs: seq<Seg>, from: nat, to: nat, a: nat)
    requires Sound(g, segs) && Live(g, segs, from) && g.InMain(to) && !Live(g, segs, to) && g.InMain(a)
    requires segs[g.SegOf(to)].valid == 0 || segs[g.SegOf(to)].kind == segs[g.SegOf(from)].kind
    ensures var t := Transfer(g, segs, from, to);
            && |t| == |segs| && Live(g, t, a) == (a == to || (a != from && Live(g, segs, a)))
            && (Live(g, t, a) ==> t[g.SegOf(a)].kind == segs[g.SegOf(if a == to then from else a)].kind)
  {
    SameBlock(g, a, from);
    SameBlock(g, a, to);
    var s := g.SegOf(a);
    assert Counted(segs[s]);
    if segs[s].valid == 0 { PopNone(segs[s].cur, g.OffOf(a)); }
  }

  lemma SoundShaped(g: Layout, segs: seq<Seg>)
    requires Sound(g, segs)
    ensures Shaped(g, segs)
  {
  }

  lemma LiveInMap(g: Layout, segs: seq<Seg>, a: nat)
    requires Shaped(g, segs) && g.InMain(a)
    ensures a in LiveMap(g, segs) <==> Live(g, segs, a)
    ensures Live(g, segs, a) ==> LiveMap(g, segs)[a] == IsData(segs[g.SegOf(a)].kind)
  {
  }

  lemma LiveIs(g: Layout, segs: seq<Seg>, a: nat)
    requires Shaped(g, segs) && g.InMain(a)
    ensures Live(g, segs, a) <==> segs[g.SegOf(a)].cur[g.OffOf(a)]
    ensures a in LiveMap(g, segs) <==> Live(g, segs, a)
  {
  }

  lemma TransferIs(g: Layout, segs: seq<Seg>, from: nat, to: nat)
    requires Shaped(g, segs) && g.InMain(from) && g.InMain(to)
    ensures Transfer(g, segs, from, to) == Marked(g, Cleared(g, segs, from), to, segs[g.SegOf(from)].kind)
  {
  }

  /** Copying the contents to a free block disturbs no node. */
  lemma CopiedHolds(d: Disk, from: nat, to: nat)
    requires Owned(d) && Target(d, from, to) && d.live[from] && PointedBack(d, from)
    requires HasNode(d, NodeOf(d, d.ssa[from].nid).ino)
    ensures var c := d.(blocks := d.blocks[to := d.blocks[from]]); var o := d.ssa[from];
            && HasNode(c, o.nid) && NodeOf(c, o.nid) == NodeOf(d, o.nid) && o.ofs < |NodeOf(c, o.nid).addrs|
            && HasNode(c, NodeOf(c, o.nid).ino)
  {
  }

  lemma SameFilesSelf(d: Disk)
    requires Owned(d)
    ensures SameFiles(d, d)
  {
  }

  /** What the search finds is a place a block may move to. */
  lemma Found(g: Layout, was: seq<Seg>, cursegs: seq<nat>, want: int, to: int, segs: seq<Seg>, from: nat)
    requires Sound(g, was) && !g.recording && Fits(g, was, cursegs, want, false, to) && Live(g, was, from)
    requires want == was[g.SegOf(from)].kind
    requires segs == if EmptySection(g, was, g.SegOf(to)) then SectionTyped(g, was, g.SegOf(to), want) else was
    ensures g.InMain(to) && LiveMap(g, segs) == LiveMap(g, was) && Total(segs) == Total(was) && |segs| == |was|
    ensures !Live(g, segs, to) && Live(g, segs, from)
    ensures segs[g.SegOf(to)].valid == 0 || segs[g.SegOf(to)].kind == segs[g.SegOf(from)].kind
  {
    hide Fits, LiveMap, Live, SectionTyped, Pop;
    LiveShaped(g, was, from);
    FoundFree(g, was, cursegs, want, to, segs);
    FoundKind(g, was, cursegs, want, to, segs, from);
    FoundLive(g, was, to, segs, want);
  }

  lemma FoundFree(g: Layout, was: seq<Seg>, cursegs: seq<nat>, want: int, to: int, segs: seq<Seg>)
    requires Sound(g, was) && Fits(g, was, cursegs, want, false, to)
    requires segs == if EmptySection(g, was, g.SegOf(to)) then SectionTyped(g, was, g.SegOf(to), want) else was
    ensures g.InMain(to) && !Live(g, segs, to) && forall a: nat :: Live(g, segs, a) == Live(g, was, a)
  {
    FitsIsFree(g, was, cursegs, want, false, to);
    TypedBits(g, was, segs, g.SegOf(to), want);
  }

  lemma FoundLive(g: Layout, was: seq<Seg>, to: int, segs: seq<Seg>, want: int)
    requires Sound(g, was) && !g.recording && g.InMain(to)
    requires segs == if EmptySection(g, was, g.SegOf(to)) then SectionTyped(g, was, g.SegOf(to), want) else was
    ensures LiveMap(g, segs) == LiveMap(g, was) && Total(segs) == Total(was)
  {
    if EmptySection(g, was, g.SegOf(to)) { SectionTypedLive(g, was, g.SegOf(to), want); }
  }

  lemma FoundKind(g: Layout, was: seq<Seg>, cursegs: seq<nat>, want: int, to: int, segs: seq<Seg>, from: nat)
    requires Sound(g, was) && !g.recording && Fits(g, was, cursegs, want, false, to) && Live(g, was, from)
    requires want == was[g.SegOf(from)].kind
    requires segs == if EmptySection(g, was, g.SegOf(to)) then SectionTyped(g, was, g.SegOf(to), want) else was
    ensures |segs| == |was| && (segs[g.SegOf(to)].valid == 0 || segs[g.SegOf(to)].kind == segs[g.SegOf(from)].kind)
  {
    FitsIsFree(g, was, cursegs, want, false, to);
  }

  lemma NoneLiveStep(g: Layout, segs: seq<Seg>, lo: nat, a: nat)
    requires Shaped(g, segs) && g.InMain(a) && !Live(g, segs, a)
    ensures NoneLive(g, segs, lo, a) ==> NoneLive(g, segs, lo, a + 1)
  {
    LiveInMap(g, segs, a);
  }

  lemma NoneLiveMoved(g: Layout, was: seq<Seg>, segs: seq<Seg>, lo: nat, a: nat, to: nat)
    requires a in LiveMap(g, was) && LiveMap(g, segs) == Moved(LiveMap(g, was), a, to)
    ensures NoneLive(g, was, lo, a) && (to < lo || a < to) ==> NoneLive(g, segs, lo, a + 1)
  {
  }

  /** Where the search starts. */
  function First(start: nat, left: bool): nat { if left && start > 0 then start - 1 else start }

  predicate Ahead(start: nat, left: bool, a: int) { if left then a <= First(start, left) else First(start, left) <= a }

  /** The blocks the search went over without stopping; all of them when it found nothing. */
  predicate Passed(g: Layout, start: nat, left: bool, found: bool, to: int, a: int) {
    g.InMain(First(start, left)) && Ahead(start, left, a) && (found ==> if left then to < a else a < to)
  }

  ghost predicate NoFitPassed(g: Layout, segs: seq<Seg>, cursegs: seq<nat>, want: int, newSec: bool,
                        start: nat, left: bool, found: bool, to: int)
    requires Shaped(g, segs)
  {
    forall a :: Passed(g, start, left, found, to, a) ==> !Fits(g, segs, cursegs, want, newSec, a)
  }

  /**
    What a search from `start` comes to, said of counts and bits alone.  It stops outside the current segments, at a
    free block, in an empty section or in a segment of the wanted kind; and with too few free segments left it leaves
    the empty ones alone.  Every such block that lies ahead is reached: the search stops there or before.
   */
  ghost predicate Searched(g: Layout, segs: seq<Seg>, cursegs: seq<nat>, want: int, newSec: bool,
                           start: nat, left: bool, found: bool, to: int)
    requires Shaped(g, segs)
  {
    var enough := |set i: nat | i < |segs| && segs[i].valid == 0 && i !in cursegs| > g.reserved + 1;
    && (found ==> Stopped(g, segs, cursegs, want, newSec, enough, start, left, to))
    && (forall s: nat, o: nat ::
          s < |segs| && o < PER_SEG && !segs[s].cur[o] && (g.recording ==> !segs[s].ckpt[o]) &&
          Offered(g, segs, cursegs, want, newSec, enough, s)
          ==> Reached(g, start, left, found, to, g.main + s * PER_SEG + o))
  }

  /** The segment may be taken from: it starts an empty section, or is of the wanted kind; and there is enough left. */
  ghost predicate Offered(g: Layout, segs: seq<Seg>, cursegs: seq<nat>, want: int, newSec: bool, enough: bool, s: nat)
    requires Shaped(g, segs) && s < |segs|
  {
    && (g.readOnly || s !in cursegs)
    && (enough || (if g.recording then segs[s].ckptValid else segs[s].valid) != 0)
    && ((s % g.perSec == 0 &&
         forall i :: s <= i < s + g.perSec && i < |segs| ==>
             (if g.recording then segs[i].ckptValid else segs[i].valid) == 0)
        || ((if g.recording then segs[s].ckptKind else segs[s].kind) == want && !newSec))
  }

  /** If the block lies ahead of the start, the search stops at it or before. */
  predicate Reached(g: Layout, start: nat, left: bool, found: bool, to: int, a: int) {
    if left then a < start <= g.main + g.segments * PER_SEG ==> found && a <= to
    else g.main <= start <= a ==> found && to <= a
  }

  ghost predicate Stopped(g: Layout, segs: seq<Seg>, cursegs: seq<nat>, want: int, newSec: bool, enough: bool,
                          start: nat, left: bool, to: int)
    requires Shaped(g, segs)
  {
    && g.main <= to < g.main + g.segments * PER_SEG && (if left then to < start else start <= to)
    && var s, o := (to - g.main) / PER_SEG, (to - g.main) % PER_SEG;
    && !segs[s].cur[o] && (g.recording ==> !segs[s].ckpt[o]) && Offered(g, segs, cursegs, want, newSec, enough, s)
  }

  lemma SearchedSo(g: Layout, segs: seq<Seg>, cursegs: seq<nat>, want: int, newSec: bool,
                   start: nat, left: bool, found: bool, to: int)
    requires Sound(g, segs) && (found ==> Fits(g, segs, cursegs, want, newSec, to) && Ahead(start, left, to))
    requires NoFitPassed(g, segs, cursegs, want, newSec, start, left, found, to)
    ensures Searched(g, segs, cursegs, want, newSec, start, left, found, to)
  {
    hide Sound, Offered, Fits, NoFitPassed, Stopped, Reached, NotEnough, Ahead;
    var enough := |set i: nat | i < |segs| && segs[i].valid == 0 && i !in cursegs| > g.reserved + 1;
    EnoughMeans(g, segs, cursegs);
    SoundShaped(g, segs);
    if found {
      StoppedSo(g, segs, cursegs, want, newSec, enough, start, left, to);
    }
    forall s: nat, o: nat |
      s < |segs| && o < PER_SEG && !segs[s].cur[o] && (g.recording ==> !segs[s].ckpt[o]) &&
      Offered(g, segs, cursegs, want, newSec, enough, s)
      ensures Reached(g, start, left, found, to, g.main + s * PER_SEG + o)
    {
      OfferedFits(g, segs, cursegs, want, newSec, enough, s, o);
      ReachedSo(g, segs, cursegs, want, newSec, start, left, found, to, g.main + s * PER_SEG + o);
    }
  }

  lemma EnoughMeans(g: Layout, segs: seq<Seg>, cursegs: seq<nat>)
    ensures |set i: nat | i < |segs| && segs[i].valid == 0 && i !in cursegs| > g.reserved + 1
        <==> !NotEnough(g, segs, cursegs)
  {
    FreeSegsCount(segs, cursegs);
  }

  lemma ReachedSo(g: Layout, segs: seq<Seg>, cursegs: seq<nat>, want: int, newSec: bool,
                  start: nat, left: bool, found: bool, to: int, a: int)
    requires Shaped(g, segs) && NoFitPassed(g, segs, cursegs, want, newSec, start, left, found, to)
    requires Fits(g, segs, cursegs, want, newSec, a) && g.InMain(a)
    ensures Reached(g, start, left, found, to, a)
  {
    hide Fits;
    assert !Passed(g, start, left, found, to, a);
  }

  lemma StoppedSo(g: Layout, segs: seq<Seg>, cursegs: seq<nat>, want: int, newSec: bool, enough: bool,
                  start: nat, left: bool, to: int)
    requires Sound(g, segs) && Fits(g, segs, cursegs, want, newSec, to) && Ahead(start, left, to)
    requires enough == !NotEnough(g, segs, cursegs)
    ensures Stopped(g, segs, cursegs, want, newSec, enough, start, left, to)
  {
    hide NotEnough, EmptySection, Offered;
    FitsIsFree(g, segs, cursegs, want, newSec, to);
    FitsIsOffered(g, segs, cursegs, want, newSec, enough, to);
  }

  lemma FitsIsOffered(g: Layout, segs: seq<Seg>, cursegs: seq<nat>, want: int, newSec: bool, enough: bool, a: int)
    requires Shaped(g, segs) && Fits(g, segs, cursegs, want, newSec, a) && enough == !NotEnough(g, segs, cursegs)
    ensures Offered(g, segs, cursegs, want, newSec, enough, (a - g.main) / PER_SEG)
  {
    hide NotEnough;
  }

  lemma OfferedFits(g: Layout, segs: seq<Seg>, cursegs: seq<nat>, want: int, newSec: bool, enough: bool,
                    s: nat, o: nat)
    requires Sound(g, segs) && s < |segs| && o < PER_SEG && enough == !NotEnough(g, segs, cursegs)
    requires !segs[s].cur[o] && (g.recording ==> !segs[s].ckpt[o])
    requires Offered(g, segs, cursegs, want, newSec, enough, s)
    ensures Fits(g, segs, cursegs, want, newSec, g.main + s * PER_SEG + o)
  {
    hide NotEnough;
    var a := g.main + s * PER_SEG + o;
    assert g.InMain(a) && g.SegOf(a) == s && g.OffOf(a) == o;
    assert Counted(segs[s]);
    if Count(g, segs[s]) == PER_SEG { PopAll(Bits(g, segs[s]), o); }
    if s % g.perSec == 0 { SectionFits(g, s); }
  }

  /** A search that finds nothing has gone over everything, wherever it stopped. */
  lemma NothingFound(g: Layout, segs: seq<Seg>, cursegs: seq<nat>, want: int, newSec: bool, start: nat, left: bool,
                     to: int)
    requires Shaped(g, segs) && NoFitPassed(g, segs, cursegs, want, newSec, start, left, false, to)
    requires Searched(g, segs, cursegs, want, newSec, start, left, false, to)
    ensures NoFitPassed(g, segs, cursegs, want, newSec, start, left, false, 0)
    ensures Searched(g, segs, cursegs, want, newSec, start, left, false, 0)
  {
    hide Fits, Offered;
  }

  lemma WasPassed(g: Layout, segs: seq<Seg>, cursegs: seq<nat>, want: int, newSec: bool,
                  start: nat, left: bool, found: bool, to: int)
    requires Shaped(g, segs)
    requires NoneFit(g, segs, cursegs, want, newSec,
                     if left then to + 1 else First(start, left), if left then First(start, left) + 1 else to)
    requires !found ==> !g.InMain(to) && (g.InMain(First(start, left)) ==> Ahead(start, left, to))
    ensures NoFitPassed(g, segs, cursegs, want, newSec, start, left, found, to)
  {
  }

  lemma NoneHere(g: Layout, segs: seq<Seg>, cursegs: seq<nat>, want: int, newSec: bool, a: int)
    requires Shaped(g, segs)
    ensures NoneFit(g, segs, cursegs, want, newSec, a, a) && NoneFit(g, segs, cursegs, want, newSec, a + 1, a + 1)
  {
  }

  /** What decides whether the search stops at a block. */
  lemma FitsAt(g: Layout, segs: seq<Seg>, cursegs: seq<nat>, want: int, newSec: bool, a: int)
    requires Shaped(g, segs) && g.InMain(a)
    ensures var s := g.SegOf(a);
            && Fits(g, segs, cursegs, want, newSec, a)
               == (Usable(g, segs, cursegs, s) &&
                   (EmptySection(g, segs, s) || (Kind(g, segs[s]) == want && !newSec && !Bits(g, segs[s])[g.OffOf(a)])))
            && (EmptySection(g, segs, s) ==> s % g.perSec == 0 && Count(g, segs[s]) == 0)
            && (EmptySection(g, segs, s) ==> s + g.perSec <= |segs|)
    ensures !Fits(g, segs, cursegs, want, newSec, a) ==> NoneFit(g, segs, cursegs, want, newSec, a, a + 1)
  {
  }

  lemma SectionTypedSound(g: Layout, segs: seq<Seg>, s: nat, kind: int)
    requires Sound(g, segs) && s + g.perSec <= |segs|
    ensures Sound(g, SectionTyped(g, segs, s, kind))
  {
    var t := SectionTyped(g, segs, s, kind);
    forall i | 0 <= i < |t| ensures Counted(t[i]) { assert Counted(segs[i]); }
  }

  lemma Times(a: nat, b: nat, p: nat)
    requires a <= b
    ensures a * p <= b * p
  {
  }

  lemma SectionFits(g: Layout, s: nat)
    requires g.Ok() && s < g.segments && s % g.perSec == 0
    ensures s + g.perSec <= g.segments
  {
    var p, a, b := g.perSec, s / g.perSec, g.segments / g.perSec;
    assert s == a * p && g.segments == b * p;
    if b <= a { Times(b, a, p); }
    assert (a + 1) * p <= b * p;
    assert (a + 1) * p == a * p + p;
  }
}
