/**
  Record slots and the doubly linked list of data blocks with a free slot: what
  reserving, releasing and writing a slot do to the view, and that the invariant
  of QuotaModel survives.
 */
module QuotaRecords {
  import opened QuotaModel
  import opened QuotaSteps

  // ---- list links

  ghost predicate SameButLinks(x: Block, y: Block) {
    x.Data? && y.Data? && x.entries == y.entries && x.slots == y.slots
  }

  /** The neighbours named by a data block's header are data blocks of the file. */
  ghost predicate Unlinkable(blocks: map<nat, Block>, buf: Block) {
    && buf.Data?
    && (buf.next != 0 ==> buf.next in blocks && blocks[buf.next].Data?)
    && (buf.prev != 0 ==> buf.prev in blocks && blocks[buf.prev].Data?)
  }

  /** remove_free_dqentry on the blocks: the neighbours are joined, then buf is written at b. */
  ghost function UnlinkBlocks(blocks: map<nat, Block>, b: nat, buf: Block): map<nat, Block>
    requires buf.Data?
    requires Unlinkable(blocks, buf)
  {
    var one := if buf.next != 0 then blocks[buf.next := blocks[buf.next].(prev := buf.prev)] else blocks;
    var two := if buf.prev != 0 then one[buf.prev := one[buf.prev].(next := buf.next)] else one;
    two[b := buf.(next := 0, prev := 0)]
  }

  function UnlinkHeadOf(freeEntry: nat, buf: Block): nat
    requires buf.Data?
  {
    if buf.prev == 0 then buf.next else freeEntry
  }

  function Without(list: seq<nat>, j: nat): seq<nat>
    requires j < |list|
  {
    list[..j] + list[j + 1..]
  }

  lemma WithoutFacts(list: seq<nat>, j: nat)
    requires j < |list| && NoDup(list)
    ensures NoDup(Without(list, j))
    ensures forall c :: c in Without(list, j) <==> c in list && c != list[j]
  {
    var r := Without(list, j);
    assert forall i :: 0 <= i < |r| ==> r[i] == list[if i < j then i else i + 1];
    forall c | c in list && c != list[j] ensures c in r {
      var i :| 0 <= i < |list| && list[i] == c;
      assert r[if i < j then i else i - 1] == c;
    }
  }

  lemma NeighboursListed(blocks: map<nat, Block>, freeEntry: nat, list: seq<nat>, j: nat)
    requires EntryLinks(blocks, freeEntry, list) && j < |list|
    ensures blocks[list[j]].next != 0 ==> j + 1 < |list| && blocks[list[j]].next == list[j + 1]
    ensures blocks[list[j]].prev != 0 ==> j >= 1 && blocks[list[j]].prev == list[j - 1]
    ensures blocks[list[j]].next == 0 ==> j + 1 == |list|
    ensures blocks[list[j]].prev == 0 ==> j == 0
  {
    assert blocks[list[j]].next == NextIn(list, j) && blocks[list[j]].prev == PrevIn(list, j);
    if j + 1 < |list| { assert list[j + 1] in list; }
    if j >= 1 { assert list[j - 1] in list; }
  }

  /** Block contents after the unlink, by position in the list. */
  lemma UnlinkAt(blocks: map<nat, Block>, freeEntry: nat, list: seq<nat>, j: nat, buf: Block, o: nat)
    requires EntryLinks(blocks, freeEntry, list) && j < |list| && o < |list| && o != j
    requires buf.Data? && buf.next == blocks[list[j]].next && buf.prev == blocks[list[j]].prev
    requires Unlinkable(blocks, buf)
    ensures var after := UnlinkBlocks(blocks, list[j], buf);
            && list[o] in after
            && SameButLinks(blocks[list[o]], after[list[o]])
            && after[list[o]].next == (if o + 1 == j then NextIn(list, j) else NextIn(list, o))
            && after[list[o]].prev == (if o == j + 1 then PrevIn(list, j) else PrevIn(list, o))
  {
    NeighboursListed(blocks, freeEntry, list, j);
    assert list[o] != list[j];
    if buf.next != 0 { assert list[o] == buf.next <==> o == j + 1; }
    if buf.prev != 0 { assert list[o] == buf.prev <==> o + 1 == j; }
  }

  lemma UnlinkFrame(blocks: map<nat, Block>, freeEntry: nat, list: seq<nat>, j: nat, buf: Block)
    requires EntryLinks(blocks, freeEntry, list) && j < |list|
    requires buf.Data? && buf.next == blocks[list[j]].next && buf.prev == blocks[list[j]].prev
    ensures Unlinkable(blocks, buf)
    ensures UnlinkBlocks(blocks, list[j], buf).Keys == blocks.Keys
    ensures forall c :: c in blocks && c !in list ==> UnlinkBlocks(blocks, list[j], buf)[c] == blocks[c]
    ensures UnlinkBlocks(blocks, list[j], buf)[list[j]] == buf.(next := 0, prev := 0)
  {
    NeighboursListed(blocks, freeEntry, list, j);
  }

  lemma UnlinkKeeps(blocks: map<nat, Block>, freeEntry: nat, list: seq<nat>, j: nat, buf: Block)
    requires EntryLinks(blocks, freeEntry, list) && j < |list|
    requires buf.Data? && buf.next == blocks[list[j]].next && buf.prev == blocks[list[j]].prev
    requires Unlinkable(blocks, buf)
    ensures EntryLinks(UnlinkBlocks(blocks, list[j], buf), UnlinkHeadOf(freeEntry, buf), Without(list, j))
    ensures forall c :: c in list && c != list[j] ==>
              c in UnlinkBlocks(blocks, list[j], buf) && SameButLinks(blocks[c], UnlinkBlocks(blocks, list[j], buf)[c])
  {
    NeighboursListed(blocks, freeEntry, list, j);
    WithoutFacts(list, j);
    var r := Without(list, j);
    var after := UnlinkBlocks(blocks, list[j], buf);
    forall i | 0 <= i < |r|
      ensures r[i] in after && after[r[i]].Data?
      ensures after[r[i]].next == NextIn(r, i) && after[r[i]].prev == PrevIn(r, i)
    {
      var o := if i < j then i else i + 1;
      assert r[i] == list[o];
      UnlinkAt(blocks, freeEntry, list, j, buf, o);
      assert i + 1 < |r| ==> r[i + 1] == list[if i + 1 < j then i + 1 else i + 2];
      assert i > 0 ==> r[i - 1] == list[if i - 1 < j then i - 1 else i];
    }
    forall c | c in list && c != list[j] ensures c in after && SameButLinks(blocks[c], after[c]) {
      var o :| 0 <= o < |list| && list[o] == c;
      UnlinkAt(blocks, freeEntry, list, j, buf, o);
    }
  }

  /** insert_free_dqentry on the blocks. */
  function LinkBlocks(blocks: map<nat, Block>, freeEntry: nat, b: nat, buf: Block): map<nat, Block>
    requires buf.Data?
    requires freeEntry != 0 ==> freeEntry in blocks && blocks[freeEntry].Data?
  {
    var one := blocks[b := buf.(next := freeEntry, prev := 0)];
    if freeEntry != 0 && one[freeEntry].Data? then one[freeEntry := one[freeEntry].(prev := b)] else one
  }

  lemma LinkKeeps(blocks: map<nat, Block>, freeEntry: nat, list: seq<nat>, b: nat, buf: Block)
    requires EntryLinks(blocks, freeEntry, list) && b !in list && b != 0 && buf.Data?
    ensures freeEntry != 0 ==> freeEntry in blocks && blocks[freeEntry].Data?
    ensures EntryLinks(LinkBlocks(blocks, freeEntry, b, buf), b, [b] + list)
    ensures LinkBlocks(blocks, freeEntry, b, buf).Keys == blocks.Keys + {b}
    ensures forall c :: c in blocks && c !in list && c != b ==> LinkBlocks(blocks, freeEntry, b, buf)[c] == blocks[c]
    ensures forall c :: c in list ==> SameButLinks(blocks[c], LinkBlocks(blocks, freeEntry, b, buf)[c])
    ensures SameButLinks(buf, LinkBlocks(blocks, freeEntry, b, buf)[b])
  {
    var after := LinkBlocks(blocks, freeEntry, b, buf);
    var all := [b] + list;
    if freeEntry != 0 { assert list[0] == freeEntry; }
    forall i | 0 <= i < |all|
      ensures all[i] in after && after[all[i]].Data?
      ensures after[all[i]].next == NextIn(all, i) && after[all[i]].prev == PrevIn(all, i)
    {
      if i > 0 {
        assert all[i] == list[i - 1];
        assert NextIn(all, i) == NextIn(list, i - 1);
        assert i > 1 ==> PrevIn(all, i) == PrevIn(list, i - 1);
      }
    }
  }

  // ---- the trie sees ids come and go

  lemma AddIdShape(blocks: map<nat, Block>, nodes: map<Key, nat>, id: nat, b: nat)
    requires TreeOk(blocks, nodes, ROOT) && Closed(nodes, ROOT) && NoEmptyNode(nodes, ROOT)
    requires IdKey(id) !in nodes
    ensures TreeOk(blocks, nodes[IdKey(id) := b], IdKey(id))
    ensures Closed(nodes[IdKey(id) := b], IdKey(id))
    ensures NoEmptyNode(nodes[IdKey(id) := b], IdKey(id))
  {
    var nodes' := nodes[IdKey(id) := b];
    forall k, i | k in nodes' && k.depth < DEPTH && 0 <= i < FANOUT && Child(k, i) != IdKey(id)
      ensures RefOk(blocks, nodes', k, i)
    {
      ChildFacts(k, i);
      assert RefOk(blocks, nodes, k, i);
    }
    forall k | k in nodes' && 0 < k.depth < DEPTH ensures HasChild(nodes', k) {
      assert HasChild(nodes, k);
      var c :| c in nodes && c.depth > 0 && Parent(c) == k;
      assert c in nodes';
    }
  }

  lemma DropIdShape(blocks: map<nat, Block>, nodes: map<Key, nat>, id: nat)
    requires TreeOk(blocks, nodes, ROOT) && Closed(nodes, ROOT) && NoEmptyNode(nodes, ROOT)
    requires forall k :: k in nodes ==> k.depth <= DEPTH
    ensures TreeOk(blocks, nodes - {IdKey(id)}, IdKey(id))
    ensures Closed(nodes - {IdKey(id)}, IdKey(id))
    ensures NoEmptyNode(nodes - {IdKey(id)}, IdKey(id))
  {
    var nodes' := nodes - {IdKey(id)};
    forall k, i | k in nodes' && k.depth < DEPTH && 0 <= i < FANOUT && Child(k, i) != IdKey(id)
      ensures RefOk(blocks, nodes', k, i)
    {
      ChildFacts(k, i);
      assert RefOk(blocks, nodes, k, i);
    }
    forall k | k in nodes' && 0 < k.depth < DEPTH && k != Parent(IdKey(id)) ensures HasChild(nodes', k) {
      assert HasChild(nodes, k);
      var c :| c in nodes && c.depth > 0 && Parent(c) == k;
      assert c in nodes';
    }
  }

  /** Tree blocks and free blocks do not notice a change confined to other blocks. */
  lemma TreeIgnores(blocks: map<nat, Block>, blocks': map<nat, Block>, nodes: map<Key, nat>, ex: Key)
    requires TreeOk(blocks, nodes, ex)
    requires forall k :: k in nodes && k.depth < DEPTH && nodes[k] in blocks ==>
                           nodes[k] in blocks' && blocks'[nodes[k]] == blocks[nodes[k]]
    ensures TreeOk(blocks', nodes, ex)
  {
    forall k, i | k in nodes && k.depth < DEPTH && 0 <= i < FANOUT && Child(k, i) != ex
      ensures RefOk(blocks', nodes, k, i)
    {
      assert RefOk(blocks, nodes, k, i);
    }
  }

  // ---- records

  /** Links are no part of what a data block means. */
  lemma DataIgnoresLinks(blocks: map<nat, Block>, blocks': map<nat, Block>, nodes: map<Key, nat>,
                         slotOf: map<nat, nat>, role: map<nat, Role>, pend: int)
    requires DataOk(blocks, nodes, slotOf, role, pend)
    requires forall k :: k in nodes && k.depth == DEPTH ==> nodes[k] in role && role[nodes[k]] == DataRole
    requires forall b :: b in role && role[b] == DataRole && b in blocks ==>
                           b in blocks' && (blocks'[b] == blocks[b] || SameButLinks(blocks[b], blocks'[b]))
    ensures DataOk(blocks', nodes, slotOf, role, pend)
  {
    forall b | b in role && role[b] == DataRole ensures HeaderOk(blocks', nodes, pend, b) {
      assert HeaderOk(blocks, nodes, pend, b);
    }
    forall id | id in slotOf && IdKey(id) in nodes
      ensures SlotHolds(blocks', nodes[IdKey(id)], slotOf[id], id, pend)
    {
      assert SlotHolds(blocks, nodes[IdKey(id)], slotOf[id], id, pend);
    }
    forall b, s | b in role && role[b] == DataRole && 0 <= s < SLOTS
      ensures SlotOwned(blocks', nodes, slotOf, b, s)
    {
      assert SlotOwned(blocks, nodes, slotOf, b, s);
    }
  }

  /** Counting a reserved slot in the header. */
  lemma ReserveData(blocks: map<nat, Block>, nodes: map<Key, nat>, slotOf: map<nat, nat>, role: map<nat, Role>,
                    b: nat, s: nat, id: nat, x: Block)
    requires IdsOk(nodes, slotOf, -1) && DataOk(blocks, nodes, slotOf, role, -1)
    requires forall k :: k in nodes && k.depth == DEPTH ==> nodes[k] in role && role[nodes[k]] == DataRole
    requires b in role && role[b] == DataRole && IsData(blocks, b)
    requires s < SLOTS && blocks[b].slots[s] == EMPTY
    requires id < ID_LIMIT && IdKey(id) !in nodes
    requires x.Data? && x.slots == blocks[b].slots && x.entries == blocks[b].entries + 1
    ensures IdsOk(nodes[IdKey(id) := b], slotOf[id := s], id)
    ensures DataOk(blocks[b := x], nodes[IdKey(id) := b], slotOf[id := s], role, id)
  {
    var blocks', nodes', slotOf' := blocks[b := x], nodes[IdKey(id) := b], slotOf[id := s];
    forall c | c in role && role[c] == DataRole ensures HeaderOk(blocks', nodes', id, c) {
      assert HeaderOk(blocks, nodes, -1, c);
    }
    forall i | i in slotOf' && IdKey(i) in nodes'
      ensures SlotHolds(blocks', nodes'[IdKey(i)], slotOf'[i], i, id)
    {
      if i != id { assert SlotHolds(blocks, nodes[IdKey(i)], slotOf[i], i, -1); }
    }
    forall c, t | c in role && role[c] == DataRole && 0 <= t < SLOTS
      ensures SlotOwned(blocks', nodes', slotOf', c, t)
    {
      assert SlotOwned(blocks, nodes, slotOf, c, t);
    }
  }

  /** A fresh data block with one reserved slot. */
  lemma ReserveNewData(blocks: map<nat, Block>, nodes: map<Key, nat>, slotOf: map<nat, nat>, role: map<nat, Role>,
                       b: nat, id: nat)
    requires IdsOk(nodes, slotOf, -1) && DataOk(blocks, nodes, slotOf, role, -1)
    requires forall k :: k in nodes && k.depth == DEPTH ==> nodes[k] in role && role[nodes[k]] == DataRole
    requires b in role && role[b] == InFlight
    requires id < ID_LIMIT && IdKey(id) !in nodes
    ensures IdsOk(nodes[IdKey(id) := b], slotOf[id := 0], id)
    ensures DataOk(blocks[b := Data(0, 0, 1, NO_SLOTS)], nodes[IdKey(id) := b], slotOf[id := 0], role[b := DataRole],
              id)
  {
    var blocks', nodes', slotOf' := blocks[b := Data(0, 0, 1, NO_SLOTS)], nodes[IdKey(id) := b], slotOf[id := 0];
    var role' := role[b := DataRole];
    CountBounds(NO_SLOTS);
    forall c | c in role' && role'[c] == DataRole ensures HeaderOk(blocks', nodes', id, c) {
      if c != b { assert HeaderOk(blocks, nodes, -1, c); }
    }
    forall i | i in slotOf' && IdKey(i) in nodes'
      ensures SlotHolds(blocks', nodes'[IdKey(i)], slotOf'[i], i, id)
    {
      if i != id { assert SlotHolds(blocks, nodes[IdKey(i)], slotOf[i], i, -1); }
    }
    forall c, t | c in role' && role'[c] == DataRole && 0 <= t < SLOTS
      ensures SlotOwned(blocks', nodes', slotOf', c, t)
    {
      if c != b { assert SlotOwned(blocks, nodes, slotOf, c, t); }
    }
  }

  /** Filling the reserved slot, or overwriting the record already there. */
  lemma WriteData(blocks: map<nat, Block>, nodes: map<Key, nat>, slotOf: map<nat, nat>, role: map<nat, Role>,
                  id: nat, rec: Record, pend: int)
    requires IdsOk(nodes, slotOf, pend) && DataOk(blocks, nodes, slotOf, role, pend)
    requires forall k :: k in nodes && k.depth == DEPTH ==> nodes[k] in role && role[nodes[k]] == DataRole
    requires id in slotOf && (pend == id || pend == -1) && rec != EMPTY && rec.id == id
    ensures IdsOk(nodes, slotOf, -1) && IsData(blocks, nodes[IdKey(id)])
    ensures var b := nodes[IdKey(id)];
            DataOk(blocks[b := blocks[b].(slots := blocks[b].slots[slotOf[id] := rec])], nodes, slotOf, role, -1)
  {
    var b, s := nodes[IdKey(id)], slotOf[id];
    assert SlotHolds(blocks, b, s, id, pend);
    var blocks' := blocks[b := blocks[b].(slots := blocks[b].slots[s := rec])];
    CountUpdate(blocks[b].slots, s, rec);
    forall c | c in role && role[c] == DataRole ensures HeaderOk(blocks', nodes, -1, c) {
      assert HeaderOk(blocks, nodes, pend, c);
    }
    forall i | i in slotOf && IdKey(i) in nodes
      ensures SlotHolds(blocks', nodes[IdKey(i)], slotOf[i], i, -1)
    {
      assert SlotHolds(blocks, nodes[IdKey(i)], slotOf[i], i, pend);
      if i != id && nodes[IdKey(i)] == b {
        assert SlotOwned(blocks, nodes, slotOf, b, slotOf[i]);
        assert slotOf[i] != s;
      }
    }
    forall c, t | c in role && role[c] == DataRole && 0 <= t < SLOTS
      ensures SlotOwned(blocks', nodes, slotOf, c, t)
    {
      assert SlotOwned(blocks, nodes, slotOf, c, t);
    }
  }

  /** Zeroing a slot of a block that keeps other records. */
  lemma ReleaseData(blocks: map<nat, Block>, nodes: map<Key, nat>, slotOf: map<nat, nat>, role: map<nat, Role>,
                    id: nat, x: Block)
    requires IdsOk(nodes, slotOf, -1) && DataOk(blocks, nodes, slotOf, role, -1)
    requires forall k :: k in nodes && k.depth == DEPTH ==> nodes[k] in role && role[nodes[k]] == DataRole
    requires id in slotOf && IsData(blocks, nodes[IdKey(id)]) && blocks[nodes[IdKey(id)]].entries > 1
    requires x.Data? && x.entries == blocks[nodes[IdKey(id)]].entries - 1
    requires x.slots == blocks[nodes[IdKey(id)]].slots[slotOf[id] := EMPTY]
    ensures IdsOk(nodes - {IdKey(id)}, slotOf - {id}, -1)
    ensures DataOk(blocks[nodes[IdKey(id)] := x], nodes - {IdKey(id)}, slotOf - {id}, role, -1)
  {
    var b, s := nodes[IdKey(id)], slotOf[id];
    var blocks', nodes', slotOf' := blocks[b := x], nodes - {IdKey(id)}, slotOf - {id};
    assert SlotHolds(blocks, b, s, id, -1);
    CountUpdate(blocks[b].slots, s, EMPTY);
    forall c | c in role && role[c] == DataRole ensures HeaderOk(blocks', nodes', -1, c) {
      assert HeaderOk(blocks, nodes, -1, c);
    }
    forall i | i in slotOf' && IdKey(i) in nodes'
      ensures SlotHolds(blocks', nodes'[IdKey(i)], slotOf'[i], i, -1)
    {
      assert SlotHolds(blocks, nodes[IdKey(i)], slotOf[i], i, -1);
    }
    forall c, t | c in role && role[c] == DataRole && 0 <= t < SLOTS
      ensures SlotOwned(blocks', nodes', slotOf', c, t)
    {
      assert SlotOwned(blocks, nodes, slotOf, c, t);
    }
  }

  /** In a block with a single entry no other id lives. */
  lemma LastEntry(blocks: map<nat, Block>, nodes: map<Key, nat>, slotOf: map<nat, nat>, role: map<nat, Role>,
                  id: nat, other: nat)
    requires IdsOk(nodes, slotOf, -1) && DataOk(blocks, nodes, slotOf, role, -1)
    requires id in slotOf && nodes[IdKey(id)] in role && role[nodes[IdKey(id)]] == DataRole
    requires IsData(blocks, nodes[IdKey(id)]) && blocks[nodes[IdKey(id)]].entries == 1
    requires other in slotOf && nodes[IdKey(other)] == nodes[IdKey(id)]
    ensures other == id
  {
    var b := nodes[IdKey(id)];
    assert HeaderOk(blocks, nodes, -1, b);
    assert SlotHolds(blocks, b, slotOf[id], id, -1);
    assert SlotHolds(blocks, b, slotOf[other], other, -1);
    if other != id {
      CountUpdate(blocks[b].slots, slotOf[id], EMPTY);
      var rest := blocks[b].slots[slotOf[id] := EMPTY];
      assert rest[slotOf[other]] != EMPTY;
      CountBounds(rest);
    }
  }

  /** Dropping a data block with its last record. */
  lemma DropBlockData(blocks: map<nat, Block>, nodes: map<Key, nat>, slotOf: map<nat, nat>, role: map<nat, Role>,
                      id: nat, x: Block)
    requires IdsOk(nodes, slotOf, -1) && DataOk(blocks, nodes, slotOf, role, -1)
    requires forall k :: k in nodes && k.depth == DEPTH ==> nodes[k] in role && role[nodes[k]] == DataRole
    requires id in slotOf && IsData(blocks, nodes[IdKey(id)]) && blocks[nodes[IdKey(id)]].entries == 1
    ensures IdsOk(nodes - {IdKey(id)}, slotOf - {id}, -1)
    ensures forall k :: k in nodes - {IdKey(id)} && k.depth == DEPTH ==> nodes[k] != nodes[IdKey(id)]
    ensures DataOk(blocks[nodes[IdKey(id)] := x], nodes - {IdKey(id)}, slotOf - {id},
              role[nodes[IdKey(id)] := InFlight], -1)
  {
    var b := nodes[IdKey(id)];
    var blocks', nodes', slotOf', role' := blocks[b := x], nodes - {IdKey(id)}, slotOf - {id}, role[b := InFlight];
    forall k | k in nodes' && k.depth == DEPTH ensures nodes[k] != b {
      if nodes[k] == b {
        assert k == IdKey(k.prefix);
        LastEntry(blocks, nodes, slotOf, role, id, k.prefix);
      }
    }
    forall c | c in role' && role'[c] == DataRole ensures HeaderOk(blocks', nodes', -1, c) {
      assert HeaderOk(blocks, nodes, -1, c);
    }
    forall i | i in slotOf' && IdKey(i) in nodes'
      ensures SlotHolds(blocks', nodes'[IdKey(i)], slotOf'[i], i, -1)
    {
      assert SlotHolds(blocks, nodes[IdKey(i)], slotOf[i], i, -1);
      assert nodes[IdKey(i)] != b;
    }
    forall c, t | c in role' && role'[c] == DataRole && 0 <= t < SLOTS
      ensures SlotOwned(blocks', nodes', slotOf', c, t)
    {
      assert SlotOwned(blocks, nodes, slotOf, c, t);
    }
  }

  // ---- whole steps on the view

  lemma FreeIgnores(blocks: map<nat, Block>, blocks': map<nat, Block>, freeBlk: nat, list: seq<nat>)
    requires FreeLinks(blocks, freeBlk, list)
    requires forall b :: b in list && b in blocks ==> b in blocks' && blocks'[b] == blocks[b]
    ensures FreeLinks(blocks', freeBlk, list)
  {
  }

  /**
    A change confined to data blocks: if tree blocks and free blocks are untouched,
    only the record part of the invariant and the list of open blocks need care.
   */
  ghost predicate DataOnly(v: View, blocks': map<nat, Block>) {
    && blocks'.Keys == v.blocks.Keys
    && forall b :: b in v.role && b in v.blocks && v.role[b] != DataRole ==> b in blocks' && blocks'[b] == v.blocks[b]
  }

  lemma DataOnlyKeeps(v: View, blocks': map<nat, Block>, ex: Key)
    requires RolesOk(v.count, v.nodes, v.role) && Present(v.blocks, v.role)
    requires FreeLinks(v.blocks, v.freeBlk, v.freeList) && FreeMembers(v.role, v.freeList)
    requires TreeOk(v.blocks, v.nodes, ex)
    requires DataOnly(v, blocks')
    ensures Present(blocks', v.role)
    ensures FreeLinks(blocks', v.freeBlk, v.freeList)
    ensures TreeOk(blocks', v.nodes, ex)
  {
    FreeIgnores(v.blocks, blocks', v.freeBlk, v.freeList);
    TreeIgnores(v.blocks, blocks', v.nodes, ex);
  }

  ghost predicate IdBlocks(nodes: map<Key, nat>, role: map<nat, Role>) {
    forall k :: k in nodes && k.depth == DEPTH ==> nodes[k] in role && role[nodes[k]] == DataRole
  }

  lemma IdBlocksHold(count: nat, nodes: map<Key, nat>, role: map<nat, Role>)
    requires RolesOk(count, nodes, role)
    ensures IdBlocks(nodes, role)
    ensures forall k :: k in nodes ==> k.depth <= DEPTH
  {
  }

  lemma EntrySameLinks(blocks: map<nat, Block>, freeEntry: nat, list: seq<nat>, b: nat, x: Block)
    requires EntryLinks(blocks, freeEntry, list) && b in blocks && blocks[b].Data?
    requires x.Data? && x.next == blocks[b].next && x.prev == blocks[b].prev
    ensures EntryLinks(blocks[b := x], freeEntry, list)
  {
  }

  lemma AddIdRoles(count: nat, nodes: map<Key, nat>, role: map<nat, Role>, id: nat, b: nat)
    requires RolesOk(count, nodes, role) && b in role && role[b] == DataRole
    ensures RolesOk(count, nodes[IdKey(id) := b], role)
  {
  }

  lemma DropIdRoles(count: nat, nodes: map<Key, nat>, role: map<nat, Role>, id: nat)
    requires RolesOk(count, nodes, role)
    ensures RolesOk(count, nodes - {IdKey(id)}, role)
  {
  }

  lemma DropBlockRoles(count: nat, nodes: map<Key, nat>, role: map<nat, Role>, b: nat)
    requires RolesOk(count, nodes, role) && b in role && role[b] == DataRole
    requires forall k :: k in nodes && k.depth == DEPTH ==> nodes[k] != b
    ensures RolesOk(count, nodes, role[b := InFlight])
  {
  }

  lemma NewBlockRoles(count: nat, nodes: map<Key, nat>, role: map<nat, Role>, b: nat)
    requires RolesOk(count, nodes, role) && b in role && role[b] == InFlight
    ensures RolesOk(count, nodes, role[b := DataRole])
  {
  }

  /** The first open block of the file, when there is one, is a data block with room. */
  lemma HeadIsOpen(v: View, ex: Key, pend: int)
    requires Inv(v, ex, pend)
    ensures v.freeEntry == 0 <==> v.entryList == []
    ensures v.freeEntry != 0 ==>
              && v.entryList[0] == v.freeEntry && v.freeEntry in v.role && v.role[v.freeEntry] == DataRole
              && IsData(v.blocks, v.freeEntry) && v.blocks[v.freeEntry].entries < SLOTS
  {
    if v.entryList != [] {
      var b := v.entryList[0];
      assert b in v.entryList;
      assert HeaderOk(v.blocks, v.nodes, pend, b);
    }
  }

  /** Reserving slot s of open block b, which stays open. */
  ghost function ReserveOpen(v: View, id: nat, b: nat, s: nat): View
    requires IsData(v.blocks, b)
  {
    v.(blocks := v.blocks[b := v.blocks[b].(entries := v.blocks[b].entries + 1)],
       nodes := v.nodes[IdKey(id) := b],
       slotOf := v.slotOf[id := s])
  }

  ghost predicate MayReserve(v: View, id: nat, b: nat, s: nat) {
    && Inv(v, ROOT, -1)
    && id < ID_LIMIT && IdKey(id) !in v.nodes
    && b in v.role && v.role[b] == DataRole && IsData(v.blocks, b)
    && s < SLOTS && v.blocks[b].slots[s] == EMPTY
  }

  lemma ReserveOpenKeeps(v: View, id: nat, b: nat, s: nat)
    requires MayReserve(v, id, b, s) && v.blocks[b].entries + 1 < SLOTS
    ensures Inv(ReserveOpen(v, id, b, s), IdKey(id), id)
  {
    var w := ReserveOpen(v, id, b, s);
    OpenBlockWrite(v, ROOT, -1, b, w.blocks[b]);
    ReserveOpenRest(v, id, b, s);
  }

  /** Rewriting a data block without changing its links or whether it is open. */
  lemma OpenBlockWrite(v: View, ex: Key, pend: int, b: nat, x: Block)
    requires Inv(v, ex, pend) && b in v.role && v.role[b] == DataRole && IsData(v.blocks, b)
    requires x.Data? && x.next == v.blocks[b].next && x.prev == v.blocks[b].prev
    requires x.entries < SLOTS <==> v.blocks[b].entries < SLOTS
    ensures Present(v.blocks[b := x], v.role) && FreeLinks(v.blocks[b := x], v.freeBlk, v.freeList)
    ensures TreeOk(v.blocks[b := x], v.nodes, ex)
    ensures EntryLinks(v.blocks[b := x], v.freeEntry, v.entryList)
    ensures EntryMembers(v.blocks[b := x], v.role, v.entryList)
  {
    EntrySameLinks(v.blocks, v.freeEntry, v.entryList, b, x);
    DataOnlyKeeps(v, v.blocks[b := x], ex);
    OpenStays(v.blocks, v.role, v.entryList, b, x);
  }

  lemma ReserveOpenRest(v: View, id: nat, b: nat, s: nat)
    requires MayReserve(v, id, b, s)
    requires TreeOk(ReserveOpen(v, id, b, s).blocks, v.nodes, ROOT)
    ensures var w := ReserveOpen(v, id, b, s);
            && RolesOk(w.count, w.nodes, w.role) && TreeOk(w.blocks, w.nodes, IdKey(id))
            && Closed(w.nodes, IdKey(id)) && NoEmptyNode(w.nodes, IdKey(id))
            && IdsOk(w.nodes, w.slotOf, id) && DataOk(w.blocks, w.nodes, w.slotOf, w.role, id)
  {
    var w := ReserveOpen(v, id, b, s);
    IdBlocksHold(v.count, v.nodes, v.role);
    ReserveData(v.blocks, v.nodes, v.slotOf, v.role, b, s, id, w.blocks[b]);
    AddIdShape(w.blocks, v.nodes, id, b);
    AddIdRoles(v.count, v.nodes, v.role, id, b);
  }

  lemma OpenStays(blocks: map<nat, Block>, role: map<nat, Role>, list: seq<nat>, b: nat, x: Block)
    requires EntryMembers(blocks, role, list) && b in role && role[b] == DataRole && b in blocks && blocks[b].Data?
    requires x.Data? && (x.entries < SLOTS <==> blocks[b].entries < SLOTS)
    ensures EntryMembers(blocks[b := x], role, list)
  {
  }

  /** Reserving the last slot: the block leaves the list. */
  ghost function ReserveLast(v: View, id: nat, b: nat, s: nat): View
    requires IsData(v.blocks, b) && v.entryList != []
    requires Unlinkable(v.blocks, v.blocks[b])
  {
    var buf := v.blocks[b];
    v.(blocks := UnlinkBlocks(v.blocks, b, buf)[b := buf.(next := 0, prev := 0, entries := buf.entries + 1)],
       freeEntry := UnlinkHeadOf(v.freeEntry, buf),
       entryList := Without(v.entryList, 0),
       nodes := v.nodes[IdKey(id) := b],
       slotOf := v.slotOf[id := s])
  }

  lemma ReserveLastKeeps(v: View, id: nat, b: nat, s: nat)
    requires MayReserve(v, id, b, s) && v.blocks[b].entries + 1 == SLOTS
    requires v.entryList != [] && b == v.entryList[0]
    ensures Unlinkable(v.blocks, v.blocks[b])
    ensures Inv(ReserveLast(v, id, b, s), IdKey(id), id)
  {
    var buf := v.blocks[b];
    UnlinkFrame(v.blocks, v.freeEntry, v.entryList, 0, buf);
    UnlinkKeeps(v.blocks, v.freeEntry, v.entryList, 0, buf);
    WithoutFacts(v.entryList, 0);
    var mid := UnlinkBlocks(v.blocks, b, buf);
    var x := buf.(next := 0, prev := 0, entries := buf.entries + 1);
    var w := ReserveLast(v, id, b, s);
    IdBlocksHold(v.count, v.nodes, v.role);
    UnlinkedIsDataOnly(v, b, buf, 0);
    DataIgnoresLinks(v.blocks, mid, v.nodes, v.slotOf, v.role, -1);
    ReserveData(mid, v.nodes, v.slotOf, v.role, b, s, id, x);
    DataOnlyKeeps(v, mid, ROOT);
    FrameEntry(mid, w.freeEntry, w.entryList, b, x);
    DataOnlyKeeps(v.(blocks := mid), w.blocks, ROOT);
    AddIdShape(w.blocks, v.nodes, id, b);
    AddIdRoles(v.count, v.nodes, v.role, id, b);
    MemberLeaves(v.blocks, w.blocks, v.role, v.role, v.entryList, 0);
  }

  /** Unlinking touches listed blocks only, all of which are data blocks. */
  lemma UnlinkedIsDataOnly(v: View, b: nat, buf: Block, j: nat)
    requires EntryMembers(v.blocks, v.role, v.entryList) && Present(v.blocks, v.role)
    requires EntryLinks(v.blocks, v.freeEntry, v.entryList) && j < |v.entryList| && v.entryList[j] == b
    requires buf.Data? && buf.next == v.blocks[b].next && buf.prev == v.blocks[b].prev
    ensures Unlinkable(v.blocks, buf)
    ensures DataOnly(v, UnlinkBlocks(v.blocks, b, buf))
    ensures forall c :: c in v.role && v.role[c] == DataRole && c != b && c in v.blocks ==>
              || UnlinkBlocks(v.blocks, b, buf)[c] == v.blocks[c]
              || SameButLinks(v.blocks[c], UnlinkBlocks(v.blocks, b, buf)[c])
  {
    UnlinkFrame(v.blocks, v.freeEntry, v.entryList, j, buf);
    UnlinkKeeps(v.blocks, v.freeEntry, v.entryList, j, buf);
    var after := UnlinkBlocks(v.blocks, b, buf);
    forall c | c in v.role && c in v.blocks && v.role[c] != DataRole ensures c in after && after[c] == v.blocks[c] {
      assert c !in v.entryList;
    }
  }

  /** Membership after block j of the list filled up or went away. */
  lemma MemberLeaves(blocks: map<nat, Block>, blocks': map<nat, Block>, role: map<nat, Role>, role': map<nat, Role>,
                     list: seq<nat>, j: nat)
    requires EntryMembers(blocks, role, list) && NoDup(list) && j < |list|
    requires blocks'.Keys == blocks.Keys && role'.Keys == role.Keys
    requires forall c :: c in role && c != list[j] ==> role'[c] == role[c]
    requires forall c :: c in role && role[c] == DataRole && c != list[j] && c in blocks ==>
               blocks'[c] == blocks[c] || SameButLinks(blocks[c], blocks'[c])
    requires role'[list[j]] != DataRole || (blocks'[list[j]].Data? && blocks'[list[j]].entries >= SLOTS)
    ensures EntryMembers(blocks', role', Without(list, j))
  {
    WithoutFacts(list, j);
  }

  /** Reserving a slot of a fresh data block, when no block is open. */
  ghost function ReserveNew(v: View, id: nat, b: nat): View {
    v.(blocks := v.blocks[b := Data(0, 0, 1, NO_SLOTS)],
       freeEntry := b,
       entryList := [b],
       nodes := v.nodes[IdKey(id) := b],
       slotOf := v.slotOf[id := 0],
       role := v.role[b := DataRole])
  }

  lemma ReserveNewKeeps(v: View, id: nat, b: nat)
    requires Inv(v, ROOT, -1) && v.entryList == []
    requires id < ID_LIMIT && IdKey(id) !in v.nodes
    requires b in v.role && v.role[b] == InFlight
    ensures Inv(ReserveNew(v, id, b), IdKey(id), id)
  {
    var x := Data(0, 0, 1, NO_SLOTS);
    var w := ReserveNew(v, id, b);
    IdBlocksHold(v.count, v.nodes, v.role);
    assert b != 0 && b !in v.freeList;
    ReserveNewData(v.blocks, v.nodes, v.slotOf, v.role, b, id);
    FrameFree(v.blocks, v.freeBlk, v.freeList, b, x);
    FrameTree(v, ROOT, b, x);
    AddIdShape(w.blocks, v.nodes, id, b);
    NewBlockRoles(v.count, v.nodes, v.role, b);
    AddIdRoles(v.count, v.nodes, w.role, id, b);
    OnlyMember(v.blocks, v.role, b, x);
    assert FreeMembers(w.role, v.freeList);
  }

  lemma OnlyMember(blocks: map<nat, Block>, role: map<nat, Role>, b: nat, x: Block)
    requires EntryMembers(blocks, role, []) && b in role && b != 0
    requires x.Data? && x.entries < SLOTS && x.next == 0 && x.prev == 0
    ensures EntryMembers(blocks[b := x], role[b := DataRole], [b])
    ensures EntryLinks(blocks[b := x], b, [b])
  {
  }

  /** Writing the record of an id whose slot is known. */
  ghost function WriteRecord(v: View, id: nat, rec: Record): View
    requires id in v.slotOf && IdKey(id) in v.nodes && IsData(v.blocks, v.nodes[IdKey(id)]) && v.slotOf[id] < SLOTS
  {
    var b := v.nodes[IdKey(id)];
    v.(blocks := v.blocks[b := v.blocks[b].(slots := v.blocks[b].slots[v.slotOf[id] := rec])])
  }

  lemma HomeFacts(v: View, ex: Key, pend: int, id: nat)
    requires Inv(v, ex, pend) && id in v.slotOf
    ensures IdKey(id) in v.nodes && IsData(v.blocks, v.nodes[IdKey(id)]) && v.slotOf[id] < SLOTS
    ensures v.nodes[IdKey(id)] in v.role && v.role[v.nodes[IdKey(id)]] == DataRole
    ensures v.blocks[v.nodes[IdKey(id)]].entries >= 1
    ensures SlotHolds(v.blocks, v.nodes[IdKey(id)], v.slotOf[id], id, pend)
    ensures v.nodes[IdKey(id)] >= 1
  {
    assert SlotHolds(v.blocks, v.nodes[IdKey(id)], v.slotOf[id], id, pend);
    assert HeaderOk(v.blocks, v.nodes, pend, v.nodes[IdKey(id)]);
  }

  lemma WriteRecordKeeps(v: View, id: nat, rec: Record, pend: int)
    requires Inv(v, ROOT, pend)
    requires id in v.slotOf && (pend == id || pend == -1) && rec != EMPTY && rec.id == id
    ensures IdKey(id) in v.nodes && IsData(v.blocks, v.nodes[IdKey(id)]) && v.slotOf[id] < SLOTS
    ensures Inv(WriteRecord(v, id, rec), ROOT, -1)
  {
    HomeFacts(v, ROOT, pend, id);
    IdBlocksHold(v.count, v.nodes, v.role);
    WriteData(v.blocks, v.nodes, v.slotOf, v.role, id, rec, pend);
    var w := WriteRecord(v, id, rec);
    var b := v.nodes[IdKey(id)];
    OpenBlockWrite(v, ROOT, pend, b, w.blocks[b]);
  }

  /** Releasing the slot of id in a block that was open and stays in use. */
  ghost function Released(v: View, id: nat): Block
    requires id in v.slotOf && IdKey(id) in v.nodes && IsData(v.blocks, v.nodes[IdKey(id)]) && v.slotOf[id] < SLOTS
    requires v.blocks[v.nodes[IdKey(id)]].entries >= 1
  {
    var was := v.blocks[v.nodes[IdKey(id)]];
    was.(entries := was.entries - 1, slots := was.slots[v.slotOf[id] := EMPTY])
  }

  ghost function ReleaseOpen(v: View, id: nat): View
    requires id in v.slotOf && IdKey(id) in v.nodes && IsData(v.blocks, v.nodes[IdKey(id)]) && v.slotOf[id] < SLOTS
    requires v.blocks[v.nodes[IdKey(id)]].entries >= 1
  {
    v.(blocks := v.blocks[v.nodes[IdKey(id)] := Released(v, id)],
       nodes := v.nodes - {IdKey(id)},
       slotOf := v.slotOf - {id})
  }

  lemma ReleaseOpenKeeps(v: View, id: nat)
    requires Inv(v, ROOT, -1) && id in v.slotOf
    requires IdKey(id) in v.nodes && IsData(v.blocks, v.nodes[IdKey(id)]) && v.slotOf[id] < SLOTS
    requires 1 < v.blocks[v.nodes[IdKey(id)]].entries < SLOTS
    ensures Inv(ReleaseOpen(v, id), IdKey(id), -1)
  {
    var b, x := v.nodes[IdKey(id)], Released(v, id);
    var w := ReleaseOpen(v, id);
    HomeFacts(v, ROOT, -1, id);
    IdBlocksHold(v.count, v.nodes, v.role);
    ReleaseData(v.blocks, v.nodes, v.slotOf, v.role, id, x);
    OpenBlockWrite(v, ROOT, -1, b, x);
    DropIdShape(w.blocks, v.nodes, id);
    DropIdRoles(v.count, v.nodes, v.role, id);
  }

  /** Releasing a slot of a full block: the block becomes the head of the list. */
  ghost function ReleaseFull(v: View, id: nat): View
    requires id in v.slotOf && IdKey(id) in v.nodes && IsData(v.blocks, v.nodes[IdKey(id)]) && v.slotOf[id] < SLOTS
    requires v.blocks[v.nodes[IdKey(id)]].entries >= 1
    requires v.freeEntry != 0 ==> v.freeEntry in v.blocks && v.blocks[v.freeEntry].Data?
  {
    var b := v.nodes[IdKey(id)];
    v.(blocks := LinkBlocks(v.blocks, v.freeEntry, b, Released(v, id)),
       freeEntry := b,
       entryList := [b] + v.entryList,
       nodes := v.nodes - {IdKey(id)},
       slotOf := v.slotOf - {id})
  }

  lemma ReleaseFullKeeps(v: View, id: nat)
    requires Inv(v, ROOT, -1) && id in v.slotOf
    requires IdKey(id) in v.nodes && IsData(v.blocks, v.nodes[IdKey(id)]) && v.slotOf[id] < SLOTS
    requires v.blocks[v.nodes[IdKey(id)]].entries == SLOTS
    ensures v.freeEntry != 0 ==> v.freeEntry in v.blocks && v.blocks[v.freeEntry].Data?
    ensures Inv(ReleaseFull(v, id), IdKey(id), -1)
  {
    var b, x := v.nodes[IdKey(id)], Released(v, id);
    HomeFacts(v, ROOT, -1, id);
    assert b !in v.entryList;
    LinkKeeps(v.blocks, v.freeEntry, v.entryList, b, x);
    var w := ReleaseFull(v, id);
    IdBlocksHold(v.count, v.nodes, v.role);
    ReleaseData(v.blocks, v.nodes, v.slotOf, v.role, id, x);
    DropIdRoles(v.count, v.nodes, v.role, id);
    IdBlocksHold(v.count, w.nodes, v.role);
    LinkedIsDataOnly(v, b, x);
    DataIgnoresLinks(v.blocks[b := x], w.blocks, w.nodes, w.slotOf, v.role, -1);
    DataOnlyKeeps(v, w.blocks, ROOT);
    DropIdShape(w.blocks, v.nodes, id);
    MemberJoins(v.blocks, w.blocks, v.role, v.entryList, b);
  }

  lemma LinkedIsDataOnly(v: View, b: nat, x: Block)
    requires EntryMembers(v.blocks, v.role, v.entryList)
    requires EntryLinks(v.blocks, v.freeEntry, v.entryList)
    requires b in v.role && v.role[b] == DataRole && b in v.blocks && b !in v.entryList && b != 0 && x.Data?
    ensures v.freeEntry != 0 ==> v.freeEntry in v.blocks && v.blocks[v.freeEntry].Data?
    ensures DataOnly(v, LinkBlocks(v.blocks, v.freeEntry, b, x))
    ensures forall c :: c in v.role && v.role[c] == DataRole && c in v.blocks ==>
              || LinkBlocks(v.blocks, v.freeEntry, b, x)[c] == v.blocks[b := x][c]
              || SameButLinks(v.blocks[b := x][c], LinkBlocks(v.blocks, v.freeEntry, b, x)[c])
  {
    LinkKeeps(v.blocks, v.freeEntry, v.entryList, b, x);
    var after := LinkBlocks(v.blocks, v.freeEntry, b, x);
    assert after.Keys == v.blocks.Keys;
    forall c | c in v.role && c in v.blocks && v.role[c] != DataRole ensures c in after && after[c] == v.blocks[c] {
      assert c !in v.entryList;
    }
  }

  lemma MemberJoins(blocks: map<nat, Block>, blocks': map<nat, Block>, role: map<nat, Role>, list: seq<nat>, b: nat)
    requires EntryMembers(blocks, role, list) && b in role && role[b] == DataRole && b in blocks
    requires blocks'.Keys == blocks.Keys
    requires forall c :: c in role && role[c] == DataRole && c != b && c in blocks ==>
               blocks'[c] == blocks[c] || SameButLinks(blocks[c], blocks'[c])
    requires blocks'[b].Data? && blocks'[b].entries < SLOTS
    ensures EntryMembers(blocks', role, [b] + list)
  {
    assert forall c :: c in [b] + list <==> c == b || c in list;
  }

  /** Releasing the last record of block j of the list: the block leaves it and is in flight. */
  ghost function ReleaseLast(v: View, id: nat, j: nat, buf: Block): View
    requires IdKey(id) in v.nodes && j < |v.entryList| && buf.Data?
    requires Unlinkable(v.blocks, buf)
  {
    var b := v.nodes[IdKey(id)];
    v.(blocks := UnlinkBlocks(v.blocks, b, buf),
       freeEntry := UnlinkHeadOf(v.freeEntry, buf),
       entryList := Without(v.entryList, j),
       nodes := v.nodes - {IdKey(id)},
       slotOf := v.slotOf - {id},
       role := v.role[b := InFlight])
  }

  lemma ReleaseLastKeeps(v: View, id: nat, j: nat, buf: Block)
    requires Inv(v, ROOT, -1) && id in v.slotOf
    requires IdKey(id) in v.nodes && IsData(v.blocks, v.nodes[IdKey(id)]) && v.slotOf[id] < SLOTS
    requires v.blocks[v.nodes[IdKey(id)]].entries == 1
    requires j < |v.entryList| && v.entryList[j] == v.nodes[IdKey(id)]
    requires buf == v.blocks[v.nodes[IdKey(id)]].(entries := 0)
    ensures Unlinkable(v.blocks, buf)
    ensures Inv(ReleaseLast(v, id, j, buf), IdKey(id), -1)
  {
    HomeFacts(v, ROOT, -1, id);
    ReleaseLastLists(v, id, j, buf);
    ReleaseLastRest(v, id, j, buf);
  }

  lemma ReleaseLastLists(v: View, id: nat, j: nat, buf: Block)
    requires Inv(v, ROOT, -1) && id in v.slotOf
    requires IdKey(id) in v.nodes && v.nodes[IdKey(id)] in v.role && v.role[v.nodes[IdKey(id)]] == DataRole
    requires IsData(v.blocks, v.nodes[IdKey(id)])
    requires j < |v.entryList| && v.entryList[j] == v.nodes[IdKey(id)]
    requires buf == v.blocks[v.nodes[IdKey(id)]].(entries := 0)
    ensures Unlinkable(v.blocks, buf)
    ensures var w := ReleaseLast(v, id, j, buf);
            && EntryLinks(w.blocks, w.freeEntry, w.entryList) && EntryMembers(w.blocks, w.role, w.entryList)
            && Present(w.blocks, w.role) && FreeLinks(w.blocks, w.freeBlk, w.freeList) &&
                 FreeMembers(w.role, w.freeList)
            && TreeOk(w.blocks, v.nodes, ROOT)
  {
    var b := v.nodes[IdKey(id)];
    UnlinkFrame(v.blocks, v.freeEntry, v.entryList, j, buf);
    UnlinkKeeps(v.blocks, v.freeEntry, v.entryList, j, buf);
    UnlinkedIsDataOnly(v, b, buf, j);
    var w := ReleaseLast(v, id, j, buf);
    DataOnlyKeeps(v, w.blocks, ROOT);
    MemberLeaves(v.blocks, w.blocks, v.role, w.role, v.entryList, j);
    RoleOnly(w.blocks, v.role, w.role, v.freeList, b);
  }

  lemma ReleaseLastRest(v: View, id: nat, j: nat, buf: Block)
    requires Inv(v, ROOT, -1) && id in v.slotOf
    requires IdKey(id) in v.nodes && v.nodes[IdKey(id)] in v.role && v.role[v.nodes[IdKey(id)]] == DataRole
    requires IsData(v.blocks, v.nodes[IdKey(id)]) && v.blocks[v.nodes[IdKey(id)]].entries == 1
    requires j < |v.entryList| && v.entryList[j] == v.nodes[IdKey(id)]
    requires buf == v.blocks[v.nodes[IdKey(id)]].(entries := 0)
    requires Unlinkable(v.blocks, buf) && TreeOk(ReleaseLast(v, id, j, buf).blocks, v.nodes, ROOT)
    ensures var w := ReleaseLast(v, id, j, buf);
            && RolesOk(w.count, w.nodes, w.role) && TreeOk(w.blocks, w.nodes, IdKey(id))
            && Closed(w.nodes, IdKey(id)) && NoEmptyNode(w.nodes, IdKey(id))
            && IdsOk(w.nodes, w.slotOf, -1) && DataOk(w.blocks, w.nodes, w.slotOf, w.role, -1)
  {
    var b := v.nodes[IdKey(id)];
    var w := ReleaseLast(v, id, j, buf);
    IdBlocksHold(v.count, v.nodes, v.role);
    DropIdShape(w.blocks, v.nodes, id);
    DropBlockData(v.blocks, v.nodes, v.slotOf, v.role, id, w.blocks[b]);
    DropIdRoles(v.count, v.nodes, v.role, id);
    DropBlockRoles(v.count, w.nodes, v.role, b);
    IdBlocksHold(v.count, w.nodes, w.role);
    UnlinkedIsDataOnly(v, b, buf, j);
    DataIgnoresLinks(v.blocks[b := w.blocks[b]], w.blocks, w.nodes, w.slotOf, w.role, -1);
  }

  lemma RoleOnly(blocks: map<nat, Block>, role: map<nat, Role>, role': map<nat, Role>, list: seq<nat>, b: nat)
    requires Present(blocks, role) && FreeMembers(role, list)
    requires b in role && role[b] != FreeRole && role' == role[b := InFlight]
    ensures Present(blocks, role') && FreeMembers(role', list)
  {
  }
}
