/**
  What an insertion or a removal has done to a quota file at each level of the trie,
  and the steps from one level to the next.
 */
module QuotaPaths {
  import opened QuotaModel
  import opened QuotaSteps
  import opened QuotaRecords

  /** The blocks taken but not yet written are the same. */
  ghost predicate FlightSame(v: View, w: View) {
    forall b :: (b in v.role && v.role[b] == InFlight) <==> (b in w.role && w.role[b] == InFlight)
  }

  /** Tree blocks above `depth` are as they were. */
  ghost predicate TopKept(v: View, w: View, depth: nat) {
    forall k :: k in v.nodes && k.depth < depth && v.nodes[k] in v.blocks ==>
      k in w.nodes && w.nodes[k] == v.nodes[k] && v.nodes[k] in w.blocks && w.blocks[v.nodes[k]] == v.blocks[v.nodes[k]]
  }

  /** Every node stays where it was, and new ones are at `depth` or below. */
  ghost predicate GrownBelow(v: View, w: View, depth: nat) {
    && (forall k :: k in v.nodes ==> k in w.nodes && w.nodes[k] == v.nodes[k])
    && (forall k :: k in w.nodes && k !in v.nodes ==> k.depth >= depth)
  }

  ghost predicate RecordsKept(v: View, w: View) {
    forall id :: id in v.slotOf && id in w.slotOf ==> RecordOf(w, id) == RecordOf(v, id)
  }

  /** No slot of a data block changes when only other blocks, links or counts do. */
  lemma SlotsUntouched(v: View, w: View)
    requires IdBlocks(v.nodes, v.role)
    requires forall id :: id in v.slotOf && id in w.slotOf ==> w.slotOf[id] == v.slotOf[id]
    requires forall k :: k in v.nodes && k.depth == DEPTH ==> k in w.nodes && w.nodes[k] == v.nodes[k]
    requires forall id :: id in v.slotOf ==> IdKey(id) in v.nodes
    requires forall b :: b in v.role && v.role[b] == DataRole && b in v.blocks && v.blocks[b].Data? ==>
               b in w.blocks && w.blocks[b].Data? && w.blocks[b].slots == v.blocks[b].slots
    requires forall b :: b in v.role && v.role[b] == DataRole ==> b in v.blocks && v.blocks[b].Data?
    ensures RecordsKept(v, w)
  {
    forall id | id in v.slotOf && id in w.slotOf ensures RecordOf(w, id) == RecordOf(v, id) {
      var b := v.nodes[IdKey(id)];
      assert b in v.role && v.role[b] == DataRole;
    }
  }

  lemma FreeHead(v: View, ex: Key, pend: int)
    requires Inv(v, ex, pend)
    ensures v.freeBlk == 0 <==> v.freeList == []
    ensures v.freeBlk != 0 ==>
              v.freeBlk in v.role && v.role[v.freeBlk] == FreeRole && v.freeBlk in v.blocks && v.blocks[v.freeBlk].Data?
    ensures v.count !in v.role && v.count != 0
    ensures FreeLinks(v.blocks, v.freeBlk, v.freeList)
  {
    if v.freeList != [] { assert v.freeList[0] in v.freeList; }
    assert v.nodes[ROOT] in v.role;
  }

  /** What reserving a slot for id leaves behind: the id homed, everything else kept. */
  ghost predicate Reserved(v: View, w: View, id: nat, blk: nat, off: nat) {
    && blk != 0
    && w.nodes == v.nodes[IdKey(id) := blk]
    && id in w.slotOf && w.slotOf == v.slotOf[id := w.slotOf[id]]
    && off == SlotOffset(blk, w.slotOf[id])
    && RecordsKept(v, w) && FlightSame(v, w) && TopKept(v, w, DEPTH)
  }

  lemma OpenHasRoom(v: View)
    requires Inv(v, ROOT, -1) && v.freeEntry != 0
    ensures v.entryList != [] && v.entryList[0] == v.freeEntry && v.freeEntry in v.role
    ensures v.role[v.freeEntry] == DataRole
    ensures IsData(v.blocks, v.freeEntry) && v.blocks[v.freeEntry].entries < SLOTS
    ensures CountUsed(v.blocks[v.freeEntry].slots) < SLOTS
  {
    HeadIsOpen(v, ROOT, -1);
    assert HeaderOk(v.blocks, v.nodes, -1, v.freeEntry);
  }

  /** Data blocks keep their slots and tree blocks their references. */
  ghost predicate PartsKept(v: View, blocks': map<nat, Block>) {
    && (forall b :: b in v.role && v.role[b] == DataRole ==>
          && b in v.blocks && v.blocks[b].Data?
          && b in blocks' && blocks'[b].Data? && blocks'[b].slots == v.blocks[b].slots)
    && (forall b :: b in v.role && v.role[b].TreeRole? ==>
          b in v.blocks && b in blocks' && blocks'[b] == v.blocks[b])
  }

  lemma PartsKeptReserved(v: View, w: View, id: nat, blk: nat, s: nat)
    requires RolesOk(v.count, v.nodes, v.role) && IdsOk(v.nodes, v.slotOf, -1)
    requires IdKey(id) !in v.nodes && blk != 0
    requires PartsKept(v, w.blocks) && FlightSame(v, w)
    requires w.nodes == v.nodes[IdKey(id) := blk] && w.slotOf == v.slotOf[id := s]
    ensures Reserved(v, w, id, blk, SlotOffset(blk, s))
  {
    IdBlocksHold(v.count, v.nodes, v.role);
    SlotsUntouched(v, w);
  }

  lemma ReserveOpenReserved(v: View, id: nat, b: nat, s: nat)
    requires MayReserve(v, id, b, s)
    ensures Reserved(v, ReserveOpen(v, id, b, s), id, b, SlotOffset(b, s))
  {
    var w := ReserveOpen(v, id, b, s);
    DataParts(v);
    PartsKeptReserved(v, w, id, b, s);
  }

  /** Before a step: every data block is one, and every block present. */
  lemma DataParts(v: View)
    requires Inv(v, ROOT, -1)
    ensures PartsKept(v, v.blocks)
  {
    forall b | b in v.role && v.role[b] == DataRole ensures b in v.blocks && v.blocks[b].Data? {
      assert HeaderOk(v.blocks, v.nodes, -1, b);
    }
  }

  lemma ReserveLastReserved(v: View, id: nat, b: nat, s: nat)
    requires MayReserve(v, id, b, s) && v.entryList != [] && b == v.entryList[0] && Unlinkable(v.blocks, v.blocks[b])
    ensures Reserved(v, ReserveLast(v, id, b, s), id, b, SlotOffset(b, s))
  {
    var w := ReserveLast(v, id, b, s);
    DataParts(v);
    UnlinkedIsDataOnly(v, b, v.blocks[b], 0);
    PartsKeptReserved(v, w, id, b, s);
  }

  /** Taking a block changes nothing that is already in use. */
  ghost predicate Taken(v: View, u: View, blk: nat) {
    && blk != 0 && u.nodes == v.nodes && u.slotOf == v.slotOf && u.entryList == v.entryList
    && (blk in v.role ==> v.role[blk] == FreeRole)
    && u.role == v.role[blk := InFlight]
    && (u.blocks == v.blocks || u.blocks == v.blocks[blk := Tree(NoRefs())])
  }

  lemma TakenKeeps(v: View, u: View, blk: nat)
    requires Taken(v, u, blk) && Inv(v, ROOT, -1)
    ensures RecordsKept(v, u) && TopKept(v, u, DEPTH) && PartsKept(v, u.blocks)
  {
    DataParts(v);
    IdBlocksHold(v.count, v.nodes, v.role);
    SlotsUntouched(v, u);
  }

  lemma ReserveNewReserved(v: View, u: View, id: nat, b: nat)
    requires Inv(v, ROOT, -1) && Taken(v, u, b) && PartsKept(v, u.blocks)
    requires IdKey(id) !in v.nodes
    ensures Reserved(v, ReserveNew(u, id, b), id, b, SlotOffset(b, 0))
  {
    hide Inv, Reserved, RolesOk, IdsOk;
    RolesAndIds(v);
    PartsKeptReserved(v, ReserveNew(u, id, b), id, b, 0);
  }

  lemma RolesAndIds(v: View)
    requires Inv(v, ROOT, -1)
    ensures RolesOk(v.count, v.nodes, v.role) && IdsOk(v.nodes, v.slotOf, -1)
  {
  }

  // ---- insertion, level by level

  /** A path to id from `depth` down now exists; the rest of the file is kept. */
  ghost predicate Inserted(v: View, w: View, id: nat, depth: nat, blk: nat, off: nat) {
    && depth <= DEPTH && blk != 0
    && PathKey(id, depth) in w.nodes && w.nodes[PathKey(id, depth)] == blk
    && IdKey(id) in w.nodes && id in w.slotOf && w.slotOf == v.slotOf[id := w.slotOf[id]]
    && off == SlotOffset(w.nodes[IdKey(id)], w.slotOf[id])
    && GrownBelow(v, w, depth)
    && RecordsKept(v, w) && FlightSame(v, w) && TopKept(v, w, depth)
  }

  /** A failed insertion: only the free list and the file length may differ. */
  ghost predicate NotInserted(v: View, w: View) {
    && w.nodes == v.nodes && w.slotOf == v.slotOf
    && RecordsKept(v, w) && FlightSame(v, w) && TopKept(v, w, DEPTH)
  }

  lemma ReservedIsInserted(v: View, w: View, id: nat, blk: nat, off: nat)
    requires Reserved(v, w, id, blk, off) && id < ID_LIMIT && IdKey(id) !in v.nodes
    ensures Inserted(v, w, id, DEPTH, blk, off)
  {
    PrefixStep(id, 3);
  }

  lemma PathStep(id: nat, depth: nat)
    requires id < ID_LIMIT && depth < DEPTH
    ensures GetIndex(id, depth) < FANOUT
    ensures PathKey(id, depth + 1) == Child(PathKey(id, depth), GetIndex(id, depth))
    ensures Parent(PathKey(id, depth + 1)) == PathKey(id, depth)
    ensures PathKey(id, DEPTH) == IdKey(id)
    ensures PathKey(id, depth) != IdKey(id) && PathKey(id, depth + 1) != ROOT
  {
    PrefixStep(id, depth);
    PrefixStep(id, 3);
    ChildFacts(PathKey(id, depth), GetIndex(id, depth));
  }

  /** What the reference read from a node on the path says. */
  lemma ChildLookup(v: View, id: nat, depth: nat, pend: int)
    requires Inv(v, ROOT, pend) && id < ID_LIMIT && depth < DEPTH && PathKey(id, depth) in v.nodes
    ensures IsNode(v.blocks, v.nodes[PathKey(id, depth)]) && GetIndex(id, depth) < FANOUT
    ensures v.blocks[v.nodes[PathKey(id, depth)]].refs[GetIndex(id, depth)] == RefTo(v.nodes, PathKey(id, depth + 1))
    ensures RefTo(v.nodes, PathKey(id, depth + 1)) == 0 <==> PathKey(id, depth + 1) !in v.nodes
    ensures v.nodes[PathKey(id, depth)] != 0
  {
    PathStep(id, depth);
    assert RefOk(v.blocks, v.nodes, PathKey(id, depth), GetIndex(id, depth));
  }

  lemma AbsentBelow(v: View, id: nat, depth: nat, pend: int)
    requires Inv(v, ROOT, pend) && id < ID_LIMIT && depth < DEPTH && PathKey(id, depth) !in v.nodes
    ensures PathKey(id, depth + 1) !in v.nodes
  {
    PathStep(id, depth);
  }

  /** Linking a new child into an existing node completes the insertion one level up. */
  lemma LinkStep(v: View, w: View, id: nat, depth: nat, child: nat, off: nat)
    requires id < ID_LIMIT && depth < DEPTH
    requires Inv(v, ROOT, -1) && PathKey(id, depth) in v.nodes
    requires Inv(w, PathKey(id, depth + 1), id) && Inserted(v, w, id, depth + 1, child, off)
    ensures PathKey(id, depth) in w.nodes && IsNode(w.blocks, w.nodes[PathKey(id, depth)])
    ensures GetIndex(id, depth) < FANOUT
    ensures var u := SetRef(w, PathKey(id, depth), GetIndex(id, depth));
            && Inv(u, ROOT, id) && Inserted(v, u, id, depth, v.nodes[PathKey(id, depth)], off)
    ensures v.nodes[PathKey(id, depth)] in v.blocks && w.nodes[PathKey(id, depth)] == v.nodes[PathKey(id, depth)]
    ensures w.blocks[v.nodes[PathKey(id, depth)]] == v.blocks[v.nodes[PathKey(id, depth)]]
    ensures RefTo(w.nodes, Child(PathKey(id, depth), GetIndex(id, depth))) == child
  {
    var k, i := PathKey(id, depth), GetIndex(id, depth);
    PathStep(id, depth);
    ChildLookup(v, id, depth, -1);
    assert HasChild(w.nodes, k) by { assert Parent(PathKey(id, depth + 1)) == k; }
    SetRefKeeps(w, k, i, id);
    NodeWriteKept(v, w, k, SetRef(w, k, i).blocks[w.nodes[k]], id, depth, child, off);
  }

  /** Writing the node at `depth` touches no record and nothing above it. */
  lemma NodeWriteKept(v: View, w: View, k: Key, x: Block, id: nat, depth: nat, child: nat, off: nat)
    requires id < ID_LIMIT && depth < DEPTH && k == PathKey(id, depth) && k in w.nodes && k in v.nodes
    requires RolesOk(w.count, w.nodes, w.role) && RolesOk(v.count, v.nodes, v.role)
    requires w.nodes[k] != 0
    requires Inserted(v, w, id, depth + 1, child, off)
    ensures Inserted(v, w.(blocks := w.blocks[w.nodes[k] := x]), id, depth, w.nodes[k], off)
  {
    var u := w.(blocks := w.blocks[w.nodes[k] := x]);
    assert w.role[w.nodes[k]] == TreeRole(k);
    forall i | i in v.slotOf && i in u.slotOf ensures RecordOf(u, i) == RecordOf(v, i) {
      assert RecordOf(w, i) == RecordOf(v, i);
      if IdKey(i) in w.nodes { assert w.nodes[IdKey(i)] != w.nodes[k]; }
    }
    forall l | l in v.nodes && l.depth < depth && v.nodes[l] in v.blocks
      ensures l in u.nodes && u.nodes[l] == v.nodes[l] && v.nodes[l] in u.blocks
      ensures u.blocks[v.nodes[l]] == v.blocks[v.nodes[l]]
    {
      assert w.role[w.nodes[l]] == TreeRole(l);
    }
  }

  /** Writing the new node itself, when it was taken for this insertion. */
  lemma AttachStep(v: View, u: View, w: View, id: nat, depth: nat, blk: nat, child: nat, off: nat)
    requires id < ID_LIMIT && 0 < depth < DEPTH && PathKey(id, depth) !in v.nodes
    requires Inv(v, ROOT, -1) && Taken(v, u, blk)
    requires Inv(w, PathKey(id, depth + 1), id) && Inserted(u, w, id, depth + 1, child, off)
    ensures PathKey(id, depth + 1) == Child(PathKey(id, depth), GetIndex(id, depth)) && GetIndex(id, depth) < FANOUT
    ensures PathKey(id, depth + 1) in w.nodes && w.nodes[PathKey(id, depth + 1)] == child
    ensures var t := AttachNode(w, PathKey(id, depth), GetIndex(id, depth), blk);
            Inv(t, PathKey(id, depth), id) && Inserted(v, t, id, depth, blk, off)
  {
    hide Inv, RolesOk, GetIndex, Prefix;
    var k, i := PathKey(id, depth), GetIndex(id, depth);
    PathStep(id, depth);
    TakenKeeps(v, u, blk);
    RolesOf(v, ROOT, -1);
    RolesOf(w, PathKey(id, depth + 1), id);
    assert k !in w.nodes;
    assert u.role[blk] == InFlight;
    AttachNodeKeeps(w, k, i, blk, id);
    AttachKept(v, u, w, id, depth, blk, child, off);
  }

  lemma RolesOf(v: View, ex: Key, pend: int)
    requires Inv(v, ex, pend)
    ensures RolesOk(v.count, v.nodes, v.role)
  {
  }

  lemma AttachKept(v: View, u: View, w: View, id: nat, depth: nat, blk: nat, child: nat, off: nat)
    requires id < ID_LIMIT && 0 < depth < DEPTH && PathKey(id, depth) !in v.nodes && PathKey(id, depth) !in w.nodes
    requires RolesOk(v.count, v.nodes, v.role) && RolesOk(w.count, w.nodes, w.role)
    requires Taken(v, u, blk) && RecordsKept(v, u) && TopKept(v, u, DEPTH)
    requires Inserted(u, w, id, depth + 1, child, off)
    requires PathKey(id, depth + 1) == Child(PathKey(id, depth), GetIndex(id, depth)) && GetIndex(id, depth) < FANOUT
    ensures Inserted(v, AttachNode(w, PathKey(id, depth), GetIndex(id, depth), blk), id, depth, blk, off)
  {
    AttachFrame(v, u, w, PathKey(id, depth), GetIndex(id, depth), blk);
  }

  lemma AttachFrame(v: View, u: View, w: View, k: Key, i: nat, blk: nat)
    requires RolesOk(w.count, w.nodes, w.role) && Taken(v, u, blk) && RecordsKept(v, u) && TopKept(v, u, DEPTH)
    requires RecordsKept(u, w) && FlightSame(u, w) && TopKept(u, w, k.depth + 1) && GrownBelow(u, w, k.depth + 1)
    requires forall id :: id in u.slotOf ==> id in w.slotOf
    requires i < FANOUT && 0 < k.depth < DEPTH && k !in w.nodes && Child(k, i) in w.nodes
    ensures var t := AttachNode(w, k, i, blk);
            RecordsKept(v, t) && FlightSame(v, t) && TopKept(v, t, k.depth) && GrownBelow(v, t, k.depth)
  {
    hide RolesOk, RecordOf;
    var t := AttachNode(w, k, i, blk);
    assert u.role[blk] == InFlight && w.role[blk] == InFlight;
    assert FlightSame(v, t) by { FlightThrough(v.role, u.role, w.role, blk, TreeRole(k)); }
    assert TopKept(v, t, k.depth) by { TopThrough(v, u, w, t, blk, k.depth); }
    BlockIgnored(w, t, blk);
  }

  /** Records do not depend on a block that is not a data block. */
  lemma BlockIgnored(w: View, t: View, b: nat)
    requires RolesOk(w.count, w.nodes, w.role) && b in w.role && w.role[b] != DataRole
    requires t.slotOf == w.slotOf && t.blocks.Keys == w.blocks.Keys + {b}
    requires forall c :: c in w.blocks && c != b ==> t.blocks[c] == w.blocks[c]
    requires forall k: Key :: k.depth == DEPTH ==> (k in t.nodes <==> k in w.nodes)
    requires forall k: Key :: k.depth == DEPTH && k in w.nodes ==> t.nodes[k] == w.nodes[k]
    ensures forall id :: RecordOf(t, id) == RecordOf(w, id)
  {
    forall id ensures RecordOf(t, id) == RecordOf(w, id) {
      if IdKey(id) in w.nodes { assert w.nodes[IdKey(id)] != b; }
    }
  }

  lemma FlightThrough(v: map<nat, Role>, u: map<nat, Role>, w: map<nat, Role>, blk: nat, r: Role)
    requires u == v[blk := InFlight] && (blk in v ==> v[blk] != InFlight) && r != InFlight
    requires forall b :: (b in u && u[b] == InFlight) <==> (b in w && w[b] == InFlight)
    ensures forall b :: (b in v && v[b] == InFlight) <==> (b in w[blk := r] && w[blk := r][b] == InFlight)
  {
    forall b ensures (b in v && v[b] == InFlight) <==> (b in w[blk := r] && w[blk := r][b] == InFlight) {
      assert (b in u && u[b] == InFlight) <==> (b in w && w[b] == InFlight);
    }
  }

  lemma TopThrough(v: View, u: View, w: View, t: View, blk: nat, depth: nat)
    requires depth <= DEPTH && RolesOk(w.count, w.nodes, w.role) && u.nodes == v.nodes
    requires TopKept(v, u, DEPTH) && TopKept(u, w, depth)
    requires blk in w.role && !w.role[blk].TreeRole?
    requires forall k :: k in w.nodes ==> k in t.nodes && t.nodes[k] == w.nodes[k]
    requires t.blocks.Keys == w.blocks.Keys + {blk}
    requires forall c :: c in w.blocks && c != blk ==> t.blocks[c] == w.blocks[c]
    ensures TopKept(v, t, depth)
  {
    forall l | l in v.nodes && l.depth < depth && v.nodes[l] in v.blocks
      ensures l in t.nodes && t.nodes[l] == v.nodes[l] && v.nodes[l] in t.blocks
      ensures t.blocks[v.nodes[l]] == v.blocks[v.nodes[l]]
    {
      assert l in u.nodes && u.blocks[u.nodes[l]] == v.blocks[v.nodes[l]];
      assert w.role[w.nodes[l]] == TreeRole(l);
    }
  }

  /** A new child under an existing path whose own node existed: nothing more to write. */
  lemma PassStep(v: View, w: View, id: nat, depth: nat, child: nat, off: nat)
    requires id < ID_LIMIT && depth < DEPTH && Inv(v, ROOT, -1)
    requires PathKey(id, depth) in v.nodes && Inserted(v, w, id, depth + 1, child, off)
    ensures Inserted(v, w, id, depth, v.nodes[PathKey(id, depth)], off)
  {
    ChildLookup(v, id, depth, -1);
  }

  /** Giving a taken block back after a failure below. */
  lemma GiveBackStep(v: View, u: View, w: View, blk: nat, buf: Block)
    requires Inv(v, ROOT, -1) && Taken(v, u, blk) && Inv(w, ROOT, -1) && NotInserted(u, w)
    ensures blk in w.role && w.role[blk] == InFlight
    ensures NotInserted(v, PutFree(w, blk, buf))
  {
    TakenKeeps(v, u, blk);
    assert u.role[blk] == InFlight;
    GiveBackKept(v, u, w, blk, buf);
  }

  lemma GiveBackKept(v: View, u: View, w: View, blk: nat, buf: Block)
    requires RecordsKept(v, u) && TopKept(v, u, DEPTH)
    requires RolesOk(w.count, w.nodes, w.role) && Taken(v, u, blk) && NotInserted(u, w)
    requires blk in w.role && w.role[blk] == InFlight
    ensures NotInserted(v, PutFree(w, blk, buf))
  {
    var t := PutFree(w, blk, buf);
    BlockIgnored(w, t, blk);
    FlightThrough(v.role, u.role, w.role, blk, FreeRole);
    TopThrough(v, u, w, t, blk, DEPTH);
  }

  lemma SameIsNotInserted(v: View, w: View)
    requires v == w
    ensures NotInserted(v, w)
  {
  }

  lemma TakenNodes(v: View, u: View, blk: nat)
    requires Taken(v, u, blk)
    ensures u.nodes == v.nodes && blk != 0
  {
  }

  // ---- removal, level by level

  /** id and possibly nodes of its path from `depth` down are gone; the rest is kept. */
  ghost predicate Removed(v: View, w: View, id: nat, depth: nat) {
    && IdKey(id) !in w.nodes && w.slotOf == v.slotOf - {id}
    && (forall k :: k in w.nodes ==> k in v.nodes && w.nodes[k] == v.nodes[k])
    && (forall k :: k in v.nodes && k.depth < depth ==> k in w.nodes)
    && RecordsKept(v, w) && FlightSame(v, w) && TopKept(v, w, depth)
  }

  /** All nodes on the path to a stored id exist. */
  lemma {:induction false} PathPresent(v: View, id: nat, depth: nat, pend: int)
    requires Inv(v, ROOT, pend) && id < ID_LIMIT && IdKey(id) in v.nodes && depth <= DEPTH
    ensures PathKey(id, depth) in v.nodes
    decreases DEPTH - depth
  {
    if depth < DEPTH {
      PathStep(id, depth);
      PathPresent(v, id, depth + 1, pend);
    } else {
      PathStep(id, depth - 1);
    }
  }

  lemma ReleaseOpenRemoved(v: View, id: nat)
    requires Inv(v, ROOT, -1) && id in v.slotOf
    requires IdKey(id) in v.nodes && IsData(v.blocks, v.nodes[IdKey(id)]) && v.slotOf[id] < SLOTS
    requires v.blocks[v.nodes[IdKey(id)]].entries >= 1
    ensures Removed(v, ReleaseOpen(v, id), id, DEPTH)
  {
    HomeFacts(v, ROOT, -1, id);
    SlotFreed(v, ReleaseOpen(v, id), id);
  }

  /** Freeing the slot of one id keeps the records of all others. */
  lemma SlotFreed(v: View, w: View, id: nat)
    requires Inv(v, ROOT, -1) && id in v.slotOf && IdKey(id) in v.nodes && IsData(v.blocks, v.nodes[IdKey(id)])
    requires v.nodes[IdKey(id)] in v.role && v.role[v.nodes[IdKey(id)]] == DataRole && v.slotOf[id] < SLOTS
    requires w.nodes == v.nodes - {IdKey(id)} && w.slotOf == v.slotOf - {id}
    requires FlightSame(v, w)
    requires forall b :: b in v.role && b in v.blocks && v.role[b] != DataRole ==>
               b in w.blocks && w.blocks[b] == v.blocks[b]
    requires forall b ::
               b in v.role && b in v.blocks && v.role[b] == DataRole && v.blocks[b].Data? && b != v.nodes[IdKey(id)] ==>
               b in w.blocks && w.blocks[b].Data? && w.blocks[b].slots == v.blocks[b].slots
    requires IsData(w.blocks, v.nodes[IdKey(id)])
    requires forall s :: 0 <= s < SLOTS && s != v.slotOf[id] ==>
               w.blocks[v.nodes[IdKey(id)]].slots[s] == v.blocks[v.nodes[IdKey(id)]].slots[s]
    ensures Removed(v, w, id, DEPTH)
  {
    var b := v.nodes[IdKey(id)];
    forall i | i in v.slotOf && i in w.slotOf ensures RecordOf(w, i) == RecordOf(v, i) {
      HomeFacts(v, ROOT, -1, i);
      HomeFacts(v, ROOT, -1, id);
    }
    forall k | k in v.nodes && k.depth < DEPTH && v.nodes[k] in v.blocks
      ensures k in w.nodes && w.nodes[k] == v.nodes[k] && v.nodes[k] in w.blocks
      ensures w.blocks[v.nodes[k]] == v.blocks[v.nodes[k]]
    {
      assert v.role[v.nodes[k]] == TreeRole(k);
    }
  }

  lemma ReleaseFullRemoved(v: View, id: nat)
    requires Inv(v, ROOT, -1) && id in v.slotOf
    requires IdKey(id) in v.nodes && IsData(v.blocks, v.nodes[IdKey(id)]) && v.slotOf[id] < SLOTS
    requires v.blocks[v.nodes[IdKey(id)]].entries == SLOTS
    requires v.freeEntry != 0 ==> v.freeEntry in v.blocks && v.blocks[v.freeEntry].Data?
    ensures Removed(v, ReleaseFull(v, id), id, DEPTH)
  {
    HomeFacts(v, ROOT, -1, id);
    var b, x := v.nodes[IdKey(id)], Released(v, id);
    assert b !in v.entryList;
    LinkedIsDataOnly(v, b, x);
    LinkKeeps(v.blocks, v.freeEntry, v.entryList, b, x);
    SlotFreed(v, ReleaseFull(v, id), id);
  }

  lemma ReleaseLastRemoved(v: View, id: nat, j: nat, buf: Block)
    requires Inv(v, ROOT, -1) && id in v.slotOf
    requires IdKey(id) in v.nodes && IsData(v.blocks, v.nodes[IdKey(id)]) && v.slotOf[id] < SLOTS
    requires j < |v.entryList| && v.entryList[j] == v.nodes[IdKey(id)]
    requires buf == v.blocks[v.nodes[IdKey(id)]].(entries := 0) && Unlinkable(v.blocks, buf)
    ensures var b := v.nodes[IdKey(id)];
            Removed(v, PutFree(ReleaseLast(v, id, j, buf), b, buf.(next := 0, prev := 0)), id, DEPTH)
  {
    HomeFacts(v, ROOT, -1, id);
    var b := v.nodes[IdKey(id)];
    UnlinkedIsDataOnly(v, b, buf, j);
    SlotFreed(v, PutFree(ReleaseLast(v, id, j, buf), b, buf.(next := 0, prev := 0)), id);
  }

  /** A node none of whose references but i is set has no child but possibly child i. */
  lemma BlankHasNoChild(v: View, k: Key, i: nat, pend: int)
    requires i < FANOUT && k in v.nodes && k.depth < DEPTH
    requires Inv(v, Child(k, i), pend) && Child(k, i) !in v.nodes && IsNode(v.blocks, v.nodes[k])
    ensures AllZero(v.blocks[v.nodes[k]].refs[i := 0]) <==> !HasChild(v.nodes, k)
  {
    var refs := v.blocks[v.nodes[k]].refs[i := 0];
    if HasChild(v.nodes, k) {
      var c :| c in v.nodes && c.depth > 0 && Parent(c) == k;
      KeyOfParent(c);
      var j := c.prefix % FANOUT;
      assert RefOk(v.blocks, v.nodes, k, j);
      assert refs[j] != 0;
    }
    if !AllZero(refs) {
      var j :| 0 <= j < FANOUT && refs[j] != 0;
      ChildFacts(k, j);
      ChildFacts(k, i);
      assert RefOk(v.blocks, v.nodes, k, j);
      assert Parent(Child(k, j)) == k;
    }
  }

  /** The parent of a removed child, when it keeps another child or is the root. */
  lemma UnlinkStep(v: View, w: View, id: nat, depth: nat)
    requires id < ID_LIMIT && depth < DEPTH && Inv(v, ROOT, -1) && PathKey(id, depth) in v.nodes
    requires PathKey(id, depth + 1) !in w.nodes
    requires Inv(w, PathKey(id, depth + 1), -1) && Removed(v, w, id, depth + 1)
    requires depth == 0 || HasChild(w.nodes, PathKey(id, depth))
    ensures PathKey(id, depth) in w.nodes && IsNode(w.blocks, w.nodes[PathKey(id, depth)])
    ensures GetIndex(id, depth) < FANOUT
    ensures var u := SetRef(w, PathKey(id, depth), GetIndex(id, depth));
            Inv(u, ROOT, -1) && Removed(v, u, id, depth)
  {
    var k, i := PathKey(id, depth), GetIndex(id, depth);
    PathStep(id, depth);
    SetRefKeeps(w, k, i, -1);
    UnlinkFrame(v, w, k, SetRef(w, k, i), id);
  }

  lemma UnlinkFrame(v: View, w: View, k: Key, u: View, id: nat)
    requires RolesOk(v.count, v.nodes, v.role) && RolesOk(w.count, w.nodes, w.role)
    requires k in w.nodes && k.depth < DEPTH && Removed(v, w, id, k.depth + 1)
    requires u == w.(blocks := u.blocks) && u.blocks.Keys == w.blocks.Keys + {w.nodes[k]}
    requires forall c :: c in w.blocks && c != w.nodes[k] ==> u.blocks[c] == w.blocks[c]
    ensures Removed(v, u, id, k.depth)
  {
    assert w.role[w.nodes[k]] == TreeRole(k);
    BlockIgnored(w, u, w.nodes[k]);
    forall l | l in v.nodes && l.depth < k.depth && v.nodes[l] in v.blocks
      ensures l in u.nodes && u.nodes[l] == v.nodes[l] && v.nodes[l] in u.blocks
      ensures u.blocks[v.nodes[l]] == v.blocks[v.nodes[l]]
    {
      assert w.role[w.nodes[l]] == TreeRole(l);
    }
  }

  /** Facts about the node read before its child was removed. */
  lemma NodeUntouched(v: View, w: View, id: nat, depth: nat)
    requires id < ID_LIMIT && depth < DEPTH && Inv(v, ROOT, -1) && PathKey(id, depth) in v.nodes
    requires Removed(v, w, id, depth + 1)
    ensures PathKey(id, depth) in w.nodes && w.nodes[PathKey(id, depth)] == v.nodes[PathKey(id, depth)]
    ensures v.nodes[PathKey(id, depth)] in w.blocks && v.nodes[PathKey(id, depth)] in v.blocks
    ensures w.blocks[v.nodes[PathKey(id, depth)]] == v.blocks[v.nodes[PathKey(id, depth)]]
    ensures v.nodes[PathKey(id, depth)] == ROOT_BLOCK <==> depth == 0
  {
    ChildLookup(v, id, depth, -1);
    var b := v.nodes[PathKey(id, depth)];
    assert v.role[b] == TreeRole(PathKey(id, depth)) && v.role[ROOT_BLOCK] == TreeRole(ROOT);
  }

  /** An emptied node is forgotten and its block freed. */
  lemma PruneStep(v: View, w: View, id: nat, depth: nat, buf: Block)
    requires id < ID_LIMIT && 0 < depth < DEPTH && Inv(v, ROOT, -1) && PathKey(id, depth) in v.nodes
    requires PathKey(id, depth + 1) !in w.nodes
    requires Inv(w, PathKey(id, depth + 1), -1) && Removed(v, w, id, depth + 1)
    requires PathKey(id, depth) in w.nodes && !HasChild(w.nodes, PathKey(id, depth))
    ensures var k := PathKey(id, depth);
            && Inv(DetachNode(w, k), k, -1)
            && w.nodes[k] in DetachNode(w, k).role && DetachNode(w, k).role[w.nodes[k]] == InFlight
            && Removed(v, PutFree(DetachNode(w, k), w.nodes[k], buf), id, depth)
  {
    var k, i := PathKey(id, depth), GetIndex(id, depth);
    PathStep(id, depth);
    DetachNodeKeeps(w, k, i, -1);
    PruneFrame(v, w, k, id, buf);
  }

  lemma PruneFrame(v: View, w: View, k: Key, id: nat, buf: Block)
    requires RolesOk(v.count, v.nodes, v.role) && RolesOk(w.count, w.nodes, w.role)
    requires k in w.nodes && 0 < k.depth < DEPTH && Removed(v, w, id, k.depth + 1)
    ensures Removed(v, PutFree(DetachNode(w, k), w.nodes[k], buf), id, k.depth)
  {
    var u := PutFree(DetachNode(w, k), w.nodes[k], buf);
    assert w.role[w.nodes[k]] == TreeRole(k);
    assert RecordsKept(v, u) by { BlockIgnored(w, u, w.nodes[k]); }
    assert FlightSame(v, u);
    TopAboveKept(v, w, u, k);
  }

  lemma TopAboveKept(v: View, w: View, u: View, k: Key)
    requires RolesOk(w.count, w.nodes, w.role) && k in w.nodes && k.depth < DEPTH && TopKept(v, w, k.depth + 1)
    requires u.nodes == w.nodes - {k} && u.blocks.Keys == w.blocks.Keys + {w.nodes[k]}
    requires forall c :: c in w.blocks && c != w.nodes[k] ==> u.blocks[c] == w.blocks[c]
    ensures TopKept(v, u, k.depth)
  {
    forall l | l in v.nodes && l.depth < k.depth && v.nodes[l] in v.blocks
      ensures l in u.nodes && u.nodes[l] == v.nodes[l] && v.nodes[l] in u.blocks
      ensures u.blocks[v.nodes[l]] == v.blocks[v.nodes[l]]
    {
      assert w.role[w.nodes[l]] == TreeRole(l) && w.role[w.nodes[k]] == TreeRole(k);
    }
  }

  lemma RemovedAbove(v: View, w: View, id: nat, depth: nat)
    requires Removed(v, w, id, depth + 1)
    ensures Removed(v, w, id, depth)
  {
  }

  lemma DropsId(v: View, w: View, id: nat)
    requires Removed(v, w, id, DEPTH)
    ensures IdKey(id) !in w.nodes
  {
  }

  /** A block with a free slot is on the list. */
  lemma PlaceInList(v: View, b: nat) returns (j: nat)
    requires Inv(v, ROOT, -1) && b in v.role && v.role[b] == DataRole && IsData(v.blocks, b)
    requires v.blocks[b].entries < SLOTS
    ensures j < |v.entryList| && v.entryList[j] == b
  {
    assert b in v.entryList;
    j :| 0 <= j < |v.entryList| && v.entryList[j] == b;
  }

  lemma CountsBounded(v: View, b: nat)
    requires Inv(v, ROOT, -1) && b in v.role && v.role[b] == DataRole
    ensures IsData(v.blocks, b) && 1 <= v.blocks[b].entries <= SLOTS
  {
    assert HeaderOk(v.blocks, v.nodes, -1, b);
    CountBounds(v.blocks[b].slots);
  }

  lemma FullIsNotHead(v: View, b: nat)
    requires Inv(v, ROOT, -1) && IsData(v.blocks, b) && v.blocks[b].entries == SLOTS && b != 0
    ensures b != v.freeEntry
  {
    HeadIsOpen(v, ROOT, -1);
  }

  // ---- lookup

  lemma RootIsPath(v: View, id: nat)
    requires Inv(v, ROOT, -1)
    ensures PathKey(id, 0) in v.nodes && v.nodes[PathKey(id, 0)] == ROOT_BLOCK
  {
  }

  lemma IdsMatch(v: View, id: nat)
    requires Inv(v, ROOT, -1)
    ensures id in v.slotOf <==> IdKey(id) in v.nodes
    ensures id in v.slotOf ==> id < ID_LIMIT && v.nodes[IdKey(id)] >= 1
  {
    if id in v.slotOf { HomeFacts(v, ROOT, -1, id); }
  }

  /** Two slots of a block never hold the same id. */
  lemma OnlySlot(v: View, id: nat, b: nat, s: nat)
    requires Inv(v, ROOT, -1) && id in v.slotOf && IdKey(id) in v.nodes && v.nodes[IdKey(id)] == b
    requires b in v.blocks && v.blocks[b].Data? && s < |v.blocks[b].slots| == SLOTS
    requires v.blocks[b].slots[s] != EMPTY && v.blocks[b].slots[s].id == id
    ensures s == v.slotOf[id]
  {
    HomeFacts(v, ROOT, -1, id);
    assert SlotOwned(v.blocks, v.nodes, v.slotOf, b, s);
  }

  /** An id is absent once a node on its path is. */
  lemma {:induction false} AbsentAtLeaf(v: View, id: nat, depth: nat)
    requires Inv(v, ROOT, -1) && id < ID_LIMIT && depth < DEPTH && PathKey(id, depth + 1) !in v.nodes
    ensures IdKey(id) !in v.nodes
  {
    if IdKey(id) in v.nodes { PathPresent(v, id, depth + 1, -1); }
  }

  // ---- what whole operations do to the map

  /** A dquot with no usage and no limits is not kept on disk. */
  predicate Fake(m: Usage) {
    && m.curspace == 0 && m.curinodes == 0
    && m.bsoftlimit == 0 && m.isoftlimit == 0 && m.bhardlimit == 0 && m.ihardlimit == 0
  }

  ghost function Committed(stored: map<nat, Record>, id: nat, m: Usage): map<nat, Record> {
    if Fake(m) then stored - {id} else stored[id := MemToDisk(id, m)]
  }

  ghost function CommittedAll(stored: map<nat, Record>, changes: seq<(nat, Usage)>): map<nat, Record> {
    if changes == [] then stored
    else
      var last := changes[|changes| - 1];
      Committed(CommittedAll(stored, changes[..|changes| - 1]), last.0, last.1)
  }

  /** What is read for an id. */
  ghost function Reads(stored: map<nat, Record>, id: nat): Usage {
    if id in stored then DiskToMem(stored[id]).1 else NOTHING
  }

  /** Nothing but grace times, or nothing at all. */
  function Times(m: Usage): Usage { NOTHING.(btime := m.btime, itime := m.itime) }

  /** What was committed is what is read, exactly unless it was grace times only; other ids read as before. */
  lemma CommitReads(stored: map<nat, Record>, id: nat, m: Usage, other: nat)
    ensures Reads(Committed(stored, id, m), id)
         == if m == NOTHING.(btime := m.btime, itime := m.itime) then NOTHING else m
    ensures Reads(Committed(stored, id, m), id) == m <==>
              m == NOTHING || m != NOTHING.(btime := m.btime, itime := m.itime)
    ensures id in Committed(stored, id, m) <==> m != NOTHING.(btime := m.btime, itime := m.itime)
    ensures other != id ==> Reads(Committed(stored, id, m), other) == Reads(stored, other)
  {
    DiskRoundTrip(id, m);
  }

  /** For example a block grace time of 7 with nothing used and no limits. */
  lemma GraceTimeDropped(stored: map<nat, Record>, id: nat)
    ensures var m := NOTHING.(btime := 7); Reads(Committed(stored, id, m), id) != m
  {
    CommitReads(stored, id, NOTHING.(btime := 7), id);
  }

  /** The last change of an id, or -1. */
  function LastFor(changes: seq<(nat, Usage)>, id: nat): (i: int)
    ensures -1 <= i < |changes| && (i >= 0 ==> changes[i].0 == id) && forall k :: i < k < |changes| ==>
              changes[k].0 != id
  {
    if changes == [] then -1
    else if changes[|changes| - 1].0 == id then |changes| - 1
    else LastFor(changes[..|changes| - 1], id)
  }

  /** After any run each id reads what its last commit says; ids that were not committed read as before. */
  lemma {:induction false} RunReads(stored: map<nat, Record>, changes: seq<(nat, Usage)>, id: nat)
    ensures var i := LastFor(changes, id); var r := Reads(CommittedAll(stored, changes), id);
            && (i < 0 ==> r == Reads(stored, id))
            && (i >= 0 ==> r == if changes[i].1 == Times(changes[i].1) then NOTHING else changes[i].1)
    decreases |changes|
  {
    if changes != [] {
      var last := changes[|changes| - 1];
      RunReads(stored, changes[..|changes| - 1], id);
      CommitReads(CommittedAll(stored, changes[..|changes| - 1]), last.0, last.1, id);
    }
  }

  lemma NotInsertedMap(v: View, w: View)
    requires NotInserted(v, w) && Quiet(v.role)
    ensures Contents(w) == Contents(v) && Quiet(w.role) && w.slotOf == v.slotOf
  {
    assert forall b :: b in w.role && w.role[b] == InFlight ==> b in v.role && v.role[b] == InFlight;
  }

  lemma InsertedMap(v: View, w: View, id: nat, blk: nat, off: nat)
    requires Inserted(v, w, id, 0, blk, off) && Quiet(v.role) && id !in v.slotOf
    ensures id in w.slotOf && IdKey(id) in w.nodes && off == SlotOffset(w.nodes[IdKey(id)], w.slotOf[id])
    ensures Quiet(w.role) && w.slotOf.Keys == v.slotOf.Keys + {id}
    ensures forall i :: i in v.slotOf ==> RecordOf(w, i) == RecordOf(v, i)
  {
    assert forall b :: b in w.role && w.role[b] == InFlight ==> b in v.role && v.role[b] == InFlight;
  }

  lemma SameMap(v: View, id: nat)
    requires id in v.slotOf
    ensures v.slotOf.Keys == v.slotOf.Keys + {id}
  {
  }

  lemma WriteRecordMap(v: View, w: View, id: nat, rec: Record, pend: int)
    requires Inv(w, ROOT, pend) && (pend == id || pend == -1)
    requires id in w.slotOf && IdKey(id) in w.nodes && IsData(w.blocks, w.nodes[IdKey(id)]) && w.slotOf[id] < SLOTS
    requires w.slotOf.Keys == v.slotOf.Keys + {id}
    requires forall i :: i in v.slotOf && i != id ==> RecordOf(w, i) == RecordOf(v, i)
    ensures Contents(WriteRecord(w, id, rec)) == Contents(v)[id := rec]
    ensures OnlyWrites(w, WriteRecord(w, id, rec))
  {
    hide Inv;
    var t := WriteRecord(w, id, rec);
    forall i | i in w.slotOf && i != id ensures RecordOf(t, i) == RecordOf(w, i) {
      DistinctHomes(w, pend, i, id);
    }
    assert RecordOf(t, id) == rec;
  }

  lemma DistinctHomes(w: View, pend: int, i: nat, id: nat)
    requires Inv(w, ROOT, pend) && (pend == id || pend == -1) && i in w.slotOf && id in w.slotOf && i != id
    ensures IdKey(i) in w.nodes && IdKey(id) in w.nodes
    ensures w.nodes[IdKey(i)] != w.nodes[IdKey(id)] || w.slotOf[i] != w.slotOf[id]
  {
    HomeFacts(w, ROOT, pend, i);
    HomeFacts(w, ROOT, pend, id);
  }

  ghost predicate OnlyWrites(w: View, t: View) {
    t == w.(blocks := t.blocks)
  }

  lemma RemovedMap(v: View, w: View, id: nat)
    requires Removed(v, w, id, 0) && Quiet(v.role)
    ensures Contents(w) == Contents(v) - {id} && Quiet(w.role) && id !in w.slotOf
  {
    assert forall b :: b in w.role && w.role[b] == InFlight ==> b in v.role && v.role[b] == InFlight;
  }

  lemma AbsentMap(v: View, id: nat)
    requires id !in v.slotOf
    ensures Contents(v) == Contents(v) - {id}
  {
    assert id !in Contents(v);
  }
}
