/**
  The quota file operations of fsck/quotaio_tree.c: allocation, insertion, removal,
  lookup and scan, each working block by block on the file.
 */
module QuotaTree {
  import opened QuotaModel
  import opened QuotaSteps
  import opened QuotaRecords
  import opened QuotaPaths

  class QuotaFile {
    var blocks: map<nat, Block>
    var dqiBlocks: nat
    var dqiFreeBlk: nat
    var dqiFreeEntry: nat
    /** How many blocks the file system lets this file have. */
    var limit: nat

    ghost var nodes: map<Key, nat>
    ghost var slotOf: map<nat, nat>
    ghost var role: map<nat, Role>
    ghost var freeList: seq<nat>
    ghost var entryList: seq<nat>

    ghost function V(): View
      reads this
    {
      View(blocks, dqiBlocks, dqiFreeBlk, dqiFreeEntry, nodes, slotOf, role, freeList, entryList)
    }

    /** The invariant, possibly with blocks taken but not yet written. */
    ghost predicate Steady()
      reads this
    {
      Inv(V(), ROOT, -1)
    }

    ghost predicate Valid()
      reads this
    {
      Steady() && Quiet(role)
    }

    /** The finite map this file stands for. */
    ghost function Map(): map<nat, Record>
      reads this
    {
      Contents(V())
    }

    /** v2_new_io: two blocks, of which the root has never been written and reads as zeros. */
    constructor (room: nat)
      ensures Valid() && Map() == map[] && limit == room && dqiBlocks == ROOT_BLOCK + 1
    {
      blocks := map[ROOT_BLOCK := Tree(NoRefs())];
      dqiBlocks := ROOT_BLOCK + 1;
      dqiFreeBlk := 0;
      dqiFreeEntry := 0;
      limit := room;
      nodes := map[ROOT := ROOT_BLOCK];
      slotOf := map[];
      role := map[ROOT_BLOCK := TreeRole(ROOT)];
      freeList := [];
      entryList := [];
      new;
      assert TreeOk(blocks, nodes, ROOT) by {
        forall k, i | k in nodes && k.depth < DEPTH && 0 <= i < FANOUT ensures RefOk(blocks, nodes, k, i) {
          ChildFacts(k, i);
        }
      }
    }

    /** get_free_dqblk: the head of the free list, or a new block at the end of the file. */
    method GetFreeBlock(ghost ex: Key, ghost pend: int) returns (ok: bool, blk: nat)
      requires Inv(V(), ex, pend)
      modifies this
      ensures Inv(V(), ex, pend) && limit == old(limit)
      ensures ok ==> V() == old(if freeList != [] then TakeFree(V()) else Grow(V()))
      ensures ok ==> Taken(old(V()), V(), blk)
      ensures ok ==> blk == old(if freeList != [] then dqiFreeBlk else dqiBlocks)
      ensures !ok ==> V() == old(V()) && freeList == [] && dqiBlocks >= limit
    {
      hide Inv, FreeLinks;
      ghost var v := V();
      FreeHead(v, ex, pend);
      if dqiFreeBlk != 0 {
        TakeFreeKeeps(v, ex, pend);
        blk := dqiFreeBlk;
        dqiFreeBlk := blocks[blk].next;
        freeList := freeList[1..];
        role := role[blk := InFlight];
        assert V() == TakeFree(v);
      } else {
        if dqiBlocks >= limit {
          return false, 0;
        }
        GrowKeeps(v, ex, pend);
        blocks := blocks[dqiBlocks := Tree(NoRefs())];
        blk := dqiBlocks;
        role := role[blk := InFlight];
        dqiBlocks := dqiBlocks + 1;
        assert V() == Grow(v);
      }
      ok := true;
    }

    /** put_free_dqblk */
    method PutFreeBlock(buf: Block, blk: nat, ghost ex: Key, ghost pend: int)
      requires Inv(V(), ex, pend) && blk in role && role[blk] == InFlight
      requires buf.Tree? ==> AllZero(buf.refs)
      modifies this
      ensures Inv(V(), ex, pend) && limit == old(limit)
      ensures V() == old(PutFree(V(), blk, buf))
    {
      hide Inv;
      ghost var w := PutFree(V(), blk, buf);
      PutFreeKeeps(V(), blk, buf, ex, pend);
      blocks := blocks[blk := AsData(buf).(next := dqiFreeBlk, prev := 0, entries := 0)];
      dqiFreeBlk := blk;
      freeList := [blk] + freeList;
      role := role[blk := FreeRole];
      assert V() == w;
    }

    /** remove_free_dqentry: joins the neighbours, clears the links of buf and writes it. */
    method RemoveFreeEntry(buf: Block, blk: nat) returns (out: Block)
      requires Unlinkable(blocks, buf)
      modifies this`blocks, this`dqiFreeEntry
      ensures blocks == old(UnlinkBlocks(blocks, blk, buf))
      ensures dqiFreeEntry == UnlinkHeadOf(old(dqiFreeEntry), buf)
      ensures out == buf.(next := 0, prev := 0)
    {
      var nextblk, prevblk := buf.next, buf.prev;
      if nextblk != 0 {
        blocks := blocks[nextblk := blocks[nextblk].(prev := prevblk)];
      }
      if prevblk != 0 {
        blocks := blocks[prevblk := blocks[prevblk].(next := nextblk)];
      } else {
        dqiFreeEntry := nextblk;
      }
      out := buf.(next := 0, prev := 0);
      blocks := blocks[blk := out];
    }

    /** insert_free_dqentry */
    method InsertFreeEntry(buf: Block, blk: nat)
      requires buf.Data? && blk != dqiFreeEntry
      requires dqiFreeEntry != 0 ==> dqiFreeEntry in blocks && blocks[dqiFreeEntry].Data?
      modifies this`blocks, this`dqiFreeEntry
      ensures blocks == old(LinkBlocks(blocks, dqiFreeEntry, blk, buf))
      ensures dqiFreeEntry == blk
    {
      blocks := blocks[blk := buf.(next := dqiFreeEntry, prev := 0)];
      if dqiFreeEntry != 0 {
        blocks := blocks[dqiFreeEntry := blocks[dqiFreeEntry].(prev := blk)];
      }
      dqiFreeEntry := blk;
    }

    /** The scan of find_free_dqentry for the first unused slot. */
    method FreeSlot(buf: Block) returns (s: nat)
      requires buf.Data? && |buf.slots| == SLOTS && CountUsed(buf.slots) < SLOTS
      ensures s < SLOTS && buf.slots[s] == EMPTY
      ensures forall i :: 0 <= i < s ==> buf.slots[i] != EMPTY
    {
      CountBounds(buf.slots);
      s := 0;
      while s < SLOTS && buf.slots[s] != EMPTY
        invariant s <= SLOTS
        invariant forall i :: 0 <= i < s ==> buf.slots[i] != EMPTY
      {
        s := s + 1;
      }
    }

    /** The rest of find_free_dqentry when an open block exists. */
    method ReserveInOpen(id: nat) returns (blk: nat, off: nat)
      requires Steady() && id < ID_LIMIT && IdKey(id) !in nodes && dqiFreeEntry != 0
      modifies this
      ensures limit == old(limit)
      ensures Inv(V(), IdKey(id), id) && Reserved(old(V()), V(), id, blk, off)
    {
      hide Inv, Reserved;
      ghost var v := V();
      OpenHasRoom(v);
      blk := dqiFreeEntry;
      var buf := blocks[blk];
      var s := FreeSlot(buf);
      if buf.entries + 1 >= SLOTS {
        ReserveLastKeeps(v, id, blk, s);
        ReserveLastReserved(v, id, blk, s);
        buf := RemoveFreeEntry(buf, blk);
        entryList := Without(entryList, 0);
      } else {
        ReserveOpenKeeps(v, id, blk, s);
        ReserveOpenReserved(v, id, blk, s);
      }
      buf := buf.(entries := buf.entries + 1);
      blocks := blocks[blk := buf];
      nodes := nodes[IdKey(id) := blk];
      slotOf := slotOf[id := s];
      off := SlotOffset(blk, s);
      assert V() == if v.blocks[blk].entries + 1 >= SLOTS
                    then ReserveLast(v, id, blk, s) else ReserveOpen(v, id, blk, s);
    }

    /** find_free_dqentry: reserves the first unused slot of an open block, or of a new one. */
    method FindFreeEntry(id: nat) returns (ok: bool, blk: nat, off: nat)
      requires Steady() && id < ID_LIMIT && IdKey(id) !in nodes
      modifies this
      ensures limit == old(limit)
      ensures !ok ==> V() == old(V()) && dqiBlocks >= limit
      ensures ok ==> Inv(V(), IdKey(id), id) && Reserved(old(V()), V(), id, blk, off)
    {
      hide Inv, Reserved;
      if dqiFreeEntry != 0 {
        blk, off := ReserveInOpen(id);
        return true, blk, off;
      }
      ghost var v := V();
      HeadIsOpen(v, ROOT, -1);
      ok, blk := GetFreeBlock(ROOT, -1);
      if !ok {
        return false, 0, 0;
      }
      ghost var u := V();
      TakenKeeps(v, u, blk);
      ReserveNewKeeps(u, id, blk);
      ReserveNewReserved(v, u, id, blk);
      dqiFreeEntry := blk;
      blocks := blocks[blk := Data(0, 0, 1, NO_SLOTS)];
      entryList := [blk];
      nodes := nodes[IdKey(id) := blk];
      slotOf := slotOf[id := 0];
      role := role[blk := DataRole];
      off := SlotOffset(blk, 0);
      assert V() == ReserveNew(u, id, blk);
    }

    /**
      do_insert_tree: descends to the leaf of id, taking blocks for missing nodes on the
      way down and linking them on the way up; a failure to grow gives them back.
     */
    method DoInsertTree(id: nat, treeblk: nat, depth: nat) returns (ok: bool, blk: nat, off: nat)
      requires Steady() && id < ID_LIMIT && depth < DEPTH && IdKey(id) !in nodes
      requires if treeblk == 0 then depth > 0 && PathKey(id, depth) !in nodes
               else PathKey(id, depth) in nodes && nodes[PathKey(id, depth)] == treeblk
      modifies this
      decreases DEPTH - depth
      ensures limit == old(limit)
      ensures ok ==> Inv(V(), if treeblk == 0 then PathKey(id, depth) else ROOT, id)
      ensures ok ==> Inserted(old(V()), V(), id, depth, blk, off)
      ensures !ok ==> Steady() && NotInserted(old(V()), V()) && dqiBlocks >= limit
    {
      hide Inv, Inserted, NotInserted, Taken, Reserved, GetIndex;
      ghost var v := V();
      PathStep(id, depth);
      var buf: Block;
      if treeblk == 0 {
        AbsentBelow(v, id, depth, -1);
        ok, blk := GetFreeBlock(ROOT, -1);
        if !ok {
          SameIsNotInserted(v, v);
          return false, 0, 0;
        }
        TakenNodes(v, V(), blk);
        buf := Tree(NoRefs());
      } else {
        blk := treeblk;
        ChildLookup(v, id, depth, -1);
        buf := blocks[treeblk];
      }
      ghost var u := V();
      var i := GetIndex(id, depth);
      var newblk := buf.refs[i];
      var son: nat;
      if depth == DEPTH - 1 {
        ok, son, off := FindFreeEntry(id);
        if ok { ReservedIsInserted(u, V(), id, son, off); } else { SameIsNotInserted(u, V()); }
      } else {
        ok, son, off := DoInsertTree(id, newblk, depth + 1);
      }
      ghost var w := V();
      if ok && newblk == 0 {
        if treeblk == 0 {
          AttachStep(v, u, w, id, depth, blk, son, off);
          blocks := blocks[blk := Tree(buf.refs[i := son])];
          nodes := nodes[PathKey(id, depth) := blk];
          role := role[blk := TreeRole(PathKey(id, depth))];
          assert V() == AttachNode(w, PathKey(id, depth), i, blk);
        } else {
          LinkStep(v, w, id, depth, son, off);
          blocks := blocks[blk := Tree(buf.refs[i := son])];
          assert V() == SetRef(w, PathKey(id, depth), i);
        }
      } else if ok {
        PassStep(v, w, id, depth, son, off);
      } else if treeblk == 0 {
        GiveBackStep(v, u, w, blk, buf);
        PutFreeBlock(buf, blk, ROOT, -1);
      }
    }

    /** The dqb_off an up-to-date dquot of this id carries: its slot's offset, or 0. */
    ghost function OffsetOf(id: nat): nat
      reads this
    {
      if id in slotOf && IdKey(id) in nodes then SlotOffset(nodes[IdKey(id)], slotOf[id]) else 0
    }

    /** free_dqentry: zeroes the slot, or frees the block with its last record. */
    method FreeEntry(id: nat, off: nat, blk: nat)
      requires Steady() && id in slotOf && IdKey(id) in nodes && nodes[IdKey(id)] == blk && off == OffsetOf(id)
      modifies this
      ensures limit == old(limit)
      ensures Inv(V(), IdKey(id), -1) && Removed(old(V()), V(), id, DEPTH)
    {
      hide Inv, Removed;
      ghost var v := V();
      HomeFacts(v, ROOT, -1, id);
      OffsetRoundTrip(blk, slotOf[id]);
      var buf := blocks[blk];
      buf := buf.(entries := buf.entries - 1);
      if buf.entries == 0 {
        ghost var j := PlaceInList(v, blk);
        ReleaseLastKeeps(v, id, j, buf);
        ReleaseLastRemoved(v, id, j, buf);
        buf := RemoveFreeEntry(buf, blk);
        entryList := Without(entryList, j);
        nodes := nodes - {IdKey(id)};
        slotOf := slotOf - {id};
        role := role[blk := InFlight];
        assert V() == ReleaseLast(v, id, j, v.blocks[blk].(entries := 0));
        PutFreeBlock(buf, blk, IdKey(id), -1);
      } else {
        buf := buf.(slots := buf.slots[OffsetSlot(off) := EMPTY]);
        assert buf == Released(v, id);
        if buf.entries == SLOTS - 1 {
          ReleaseFullKeeps(v, id);
          ReleaseFullRemoved(v, id);
          FullIsNotHead(v, blk);
          InsertFreeEntry(buf, blk);
          entryList := [blk] + entryList;
          nodes := nodes - {IdKey(id)};
          slotOf := slotOf - {id};
          assert V() == ReleaseFull(v, id);
        } else {
          CountsBounded(v, blk);
          ReleaseOpenKeeps(v, id);
          ReleaseOpenRemoved(v, id);
          blocks := blocks[blk := buf];
          nodes := nodes - {IdKey(id)};
          slotOf := slotOf - {id};
          assert V() == ReleaseOpen(v, id);
        }
      }
    }

    /** The emptiness loop of remove_tree. */
    method IsBlank(refs: seq<nat>) returns (blank: bool)
      ensures blank <==> AllZero(refs)
    {
      var i := 0;
      while i < |refs| && refs[i] == 0
        invariant 0 <= i <= |refs|
        invariant forall j :: 0 <= j < i ==> refs[j] == 0
      {
        i := i + 1;
      }
      blank := i == |refs|;
    }

    /** remove_tree: removes id below this node, then the node itself if that emptied it. */
    method RemoveTree(id: nat, off: nat, blk: nat, depth: nat) returns (left: nat)
      requires Steady() && id < ID_LIMIT && depth < DEPTH && id in slotOf && IdKey(id) in nodes && off == OffsetOf(id)
      requires PathKey(id, depth) in nodes && nodes[PathKey(id, depth)] == blk
      modifies this
      decreases DEPTH - depth
      ensures limit == old(limit)
      ensures Inv(V(), if left == 0 then PathKey(id, depth) else ROOT, -1) && Removed(old(V()), V(), id, depth)
      ensures if left == 0 then depth > 0 && PathKey(id, depth) !in nodes
              else left == blk && PathKey(id, depth) in nodes
    {
      hide Inv, Removed, GetIndex, Prefix, HasChild;
      ghost var v := V();
      PathStep(id, depth);
      PathPresent(v, id, depth + 1, -1);
      ChildLookup(v, id, depth, -1);
      var buf := blocks[blk];
      var i := GetIndex(id, depth);
      var newblk := buf.refs[i];
      if depth == DEPTH - 1 {
        FreeEntry(id, off, newblk);
        newblk := 0;
        DropsId(v, V(), id);
      } else {
        newblk := RemoveTree(id, off, newblk, depth + 1);
      }
      ghost var w := V();
      NodeUntouched(v, w, id, depth);
      left := blk;
      if newblk == 0 {
        BlankHasNoChild(w, PathKey(id, depth), i, -1);
        buf := Tree(buf.refs[i := 0]);
        var blank := IsBlank(buf.refs);
        if blank && blk != ROOT_BLOCK {
          PruneStep(v, w, id, depth, buf);
          nodes := nodes - {PathKey(id, depth)};
          role := role[blk := InFlight];
          assert V() == DetachNode(w, PathKey(id, depth));
          PutFreeBlock(buf, blk, PathKey(id, depth), -1);
          left := 0;
        } else {
          UnlinkStep(v, w, id, depth);
          blocks := blocks[blk := buf];
          assert V() == SetRef(w, PathKey(id, depth), i);
        }
      } else {
        RemovedAbove(v, w, id, depth);
      }
    }

    // ---- lookup

    /** find_block_dqentry: the slot of a data block that holds the record of id. */
    method FindBlockEntry(id: nat, blk: nat) returns (off: nat)
      requires Steady() && id in slotOf && IdKey(id) in nodes && nodes[IdKey(id)] == blk
      ensures off == OffsetOf(id)
    {
      hide Inv;
      ghost var v := V();
      HomeFacts(v, ROOT, -1, id);
      var buf := blocks[blk];
      var i := 0;
      while i < SLOTS && !(buf.slots[i] != EMPTY && buf.slots[i].id == id)
        invariant 0 <= i <= slotOf[id]
      {
        i := i + 1;
      }
      OnlySlot(v, id, blk, i);
      off := SlotOffset(blk, i);
    }

    /** find_tree_dqentry: follows the digits of id; 0 when a reference is missing. */
    method FindTreeEntry(id: nat, blk: nat, depth: nat) returns (off: nat)
      requires Steady() && id < ID_LIMIT && depth < DEPTH
      requires PathKey(id, depth) in nodes && nodes[PathKey(id, depth)] == blk
      decreases DEPTH - depth
      ensures off == OffsetOf(id)
    {
      hide Inv, GetIndex, Prefix;
      ghost var v := V();
      PathStep(id, depth);
      ChildLookup(v, id, depth, -1);
      IdsMatch(v, id);
      var buf := blocks[blk];
      var newblk := buf.refs[GetIndex(id, depth)];
      if newblk == 0 {
        AbsentAtLeaf(v, id, depth);
        return 0;
      }
      if depth < DEPTH - 1 {
        off := FindTreeEntry(id, newblk, depth + 1);
      } else {
        off := FindBlockEntry(id, newblk);
      }
    }

    /** find_dqentry */
    method FindEntry(id: nat) returns (off: nat)
      requires Steady() && id < ID_LIMIT
      ensures off == OffsetOf(id)
      ensures off == 0 <==> id !in Map()
    {
      hide Inv, Prefix;
      RootIsPath(V(), id);
      IdsMatch(V(), id);
      off := FindTreeEntry(id, ROOT_BLOCK, 0);
    }

    // ---- whole operations

    /** qtree_write_dquot: inserts an id that has no slot yet, then writes its record. */
    method WriteDquot(id: nat, m: Usage, off: nat) returns (ok: bool, newOff: nat)
      requires Valid() && id < ID_LIMIT && off == OffsetOf(id)
      modifies this
      ensures Valid() && limit == old(limit) && newOff == OffsetOf(id)
      ensures ok ==> Map() == old(Map())[id := MemToDisk(id, m)]
      ensures !ok ==> Map() == old(Map()) && off == 0 && dqiBlocks >= limit
      ensures old(id in Map()) ==> ok
    {
      hide Inv, Inserted, NotInserted, Quiet, Prefix, MemToDisk;
      ghost var v := V();
      IdsMatch(v, id);
      newOff := off;
      if off == 0 {
        RootIsPath(v, id);
        var root: nat;
        ok, root, newOff := DoInsertTree(id, ROOT_BLOCK, 0);
        if !ok {
          NotInsertedMap(v, V());
          return false, 0;
        }
        InsertedMap(v, V(), id, root, newOff);
      } else {
        SameMap(v, id);
      }
      ghost var w := V();
      ghost var pend := if off == 0 then id else -1;
      var rec := MemToDisk(id, m);
      DiskRoundTrip(id, m);
      WriteRecordKeeps(w, id, rec, pend);
      WriteRecordMap(v, w, id, rec, pend);
      OffsetRoundTrip(nodes[IdKey(id)], slotOf[id]);
      var blk, s := OffsetBlock(newOff), OffsetSlot(newOff);
      blocks := blocks[blk := blocks[blk].(slots := blocks[blk].slots[s := rec])];
      assert V() == WriteRecord(w, id, rec);
      ok := true;
    }

    /** qtree_delete_dquot */
    method DeleteDquot(id: nat, off: nat) returns (newOff: nat)
      requires Valid() && id < ID_LIMIT && off == OffsetOf(id)
      modifies this
      ensures Valid() && limit == old(limit) && newOff == OffsetOf(id)
      ensures Map() == old(Map()) - {id}
    {
      hide Inv, Removed, Quiet, Prefix;
      ghost var v := V();
      IdsMatch(v, id);
      if off == 0 {
        AbsentMap(v, id);
        return 0;
      }
      RootIsPath(v, id);
      var left := RemoveTree(id, off, ROOT_BLOCK, 0);
      RemovedMap(v, V(), id);
      newOff := 0;
    }

    /**
      v2_commit_dquot: a dquot without usage and limits is deleted, any other written.
      The caller's dquot carries the offset found when it was read.
     */
    method CommitDquot(id: nat, m: Usage, off: nat) returns (ok: bool, newOff: nat)
      requires Valid() && id < ID_LIMIT && off == OffsetOf(id)
      modifies this
      ensures Valid() && limit == old(limit) && newOff == OffsetOf(id)
      ensures ok ==> Map() == Committed(old(Map()), id, m)
      ensures ok ==> (Reads(Map(), id) == m <==> m == NOTHING || m != NOTHING.(btime := m.btime, itime := m.itime))
      ensures ok ==> (id in Map() <==> m != NOTHING.(btime := m.btime, itime := m.itime))
      ensures forall other :: other != id ==> Reads(Map(), other) == Reads(old(Map()), other)
      ensures !ok ==> Map() == old(Map()) && id !in Map() && dqiBlocks >= limit
      ensures !ok ==> m != NOTHING.(btime := m.btime, itime := m.itime)
    {
      hide Inv, Quiet, MemToDisk, Contents, DiskToMem;
      IdsMatch(V(), id);
      forall other { CommitReads(Map(), id, m, other); }
      if Fake(m) {
        newOff := DeleteDquot(id, off);
        ok := true;
      } else {
        ok, newOff := WriteDquot(id, m, off);
      }
    }

    /** qtree_read_dquot: the stored usage and its offset, or nothing and 0. */
    method ReadDquot(id: nat) returns (m: Usage, off: nat)
      requires Valid() && id < ID_LIMIT
      ensures off == OffsetOf(id)
      ensures m == Reads(Map(), id) && (off == 0 <==> id !in Map())
    {
      hide Inv, Quiet;
      ghost var v := V();
      off := FindEntry(id);
      m := NOTHING;
      if off > 0 {
        HomeFacts(v, ROOT, -1, id);
        OffsetRoundTrip(nodes[IdKey(id)], slotOf[id]);
        var rec := blocks[OffsetBlock(off)].slots[OffsetSlot(off)];
        m := DiskToMem(rec).1;
      }
    }

    /**
      A run of read-modify-commit rounds over any ids.  Whatever the order, the file
      stands for the map the commits describe; a round that could not grow the file
      changes nothing and ends the run.
     */
    method Run(changes: seq<(nat, Usage)>) returns (done: nat)
      requires Valid() && forall i :: 0 <= i < |changes| ==> changes[i].0 < ID_LIMIT
      modifies this
      ensures Valid() && limit == old(limit) && done <= |changes|
      ensures Map() == CommittedAll(old(Map()), changes[..done])
      ensures done < |changes| ==> dqiBlocks >= limit && changes[done].0 !in Map()
      ensures forall id ::
                var i := LastFor(changes[..done], id);
                if i < 0 then Reads(Map(), id) == Reads(old(Map()), id)
                else
                  var m := changes[i].1;
                  && Reads(Map(), id) == (if m == NOTHING.(btime := m.btime, itime := m.itime) then NOTHING else m)
                  && (Reads(Map(), id) == m <==> m == NOTHING || m != NOTHING.(btime := m.btime, itime := m.itime))
    {
      hide Inv, Quiet, Committed, Contents, Reads, LastFor;
      done := 0;
      assert changes[..0] == [];
      while done < |changes|
        invariant 0 <= done <= |changes|
        invariant Valid() && limit == old(limit)
        invariant Map() == CommittedAll(old(Map()), changes[..done])
      {
        var (id, m) := changes[done];
        var was, off := ReadDquot(id);
        var ok, newOff := CommitDquot(id, m, off);
        if !ok {
          break;
        }
        assert changes[..done + 1][..done] == changes[..done];
        done := done + 1;
      }
      forall id { RunReads(old(Map()), changes[..done], id); }
    }

    /**
      write_dquots (fsck/mkquota.c): dquots of distinct ids, none of them stored yet, are
      committed in dictionary order with offset 0; the first failure ends the loop.
     */
    method WriteDquots(dquots: seq<(nat, Usage)>) returns (done: nat)
      requires Valid() && forall i :: 0 <= i < |dquots| ==> dquots[i].0 < ID_LIMIT && dquots[i].0 !in Map()
      requires forall i, j :: 0 <= i < j < |dquots| ==> dquots[i].0 != dquots[j].0
      modifies this
      ensures Valid() && limit == old(limit) && done <= |dquots|
      ensures Map() == CommittedAll(old(Map()), dquots[..done])
      ensures forall i :: 0 <= i < done ==>
                var m := dquots[i].1;
                Reads(Map(), dquots[i].0) == if m == NOTHING.(btime := m.btime, itime := m.itime) then NOTHING else m
      ensures done < |dquots| ==> dqiBlocks >= limit
    {
      hide Inv, Quiet, MemToDisk, Reads, DiskToMem;
      done := 0;
      assert dquots[..0] == [];
      while done < |dquots|
        invariant 0 <= done <= |dquots|
        invariant Valid() && limit == old(limit)
        invariant Map() == CommittedAll(old(Map()), dquots[..done])
        invariant forall i :: done <= i < |dquots| ==> dquots[i].0 !in Map()
      {
        var (id, m) := dquots[done];
        assert dquots[done].0 !in Map();
        ghost var before := Map();
        var ok, off := CommitDquot(id, m, 0);
        if !ok {
          break;
        }
        assert dquots[..done + 1][..done] == dquots[..done];
        assert Map() == Committed(before, id, m);
        done := done + 1;
      }
      forall i | 0 <= i < done
        ensures Reads(Map(), dquots[i].0) == if dquots[i].1 == Times(dquots[i].1) then NOTHING else dquots[i].1
      {
        RunReads(old(Map()), dquots[..done], dquots[i].0);
      }
    }
  }
}
