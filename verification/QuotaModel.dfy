/**
  The quota file of fsck/quotaio_tree.c: a four-level, 256-way trie over numbered
  blocks whose leaves point at data blocks of 14 record slots.

  This module holds the on-disk types, the ghost view of a file and the invariant
  every operation keeps.  Blocks are typed: a tree block is 256 references, a data
  block is a header and 14 slots.  A block of zero bytes reads as either, and
  `AsData` is that reading.
 */
module QuotaModel {
  const FANOUT: nat := 256
  const DEPTH: nat := 4
  const SLOTS: nat := 14
  const ROOT_BLOCK: nat := 1
  const BLOCK_SIZE: nat := 1024
  const HEADER_SIZE: nat := 16
  const ENTRY_SIZE: nat := 72
  const ID_LIMIT: nat := 0x1_0000_0000

  /** Limits, usage and grace times of one id (struct util_dqblk). */
  datatype Usage = Usage(
    ihardlimit: int, isoftlimit: int, curinodes: int,
    bhardlimit: int, bsoftlimit: int, curspace: int,
    btime: int, itime: int)

  const NOTHING: Usage := Usage(0, 0, 0, 0, 0, 0, 0, 0)

  /** One on-disk record (struct v2r1_disk_dqblk without its padding word). */
  datatype Record = Record(id: nat, usage: Usage)

  /** A slot is unused exactly when all its bytes are zero. */
  const EMPTY: Record := Record(0, NOTHING)

  /** v2r1_mem2diskdqblk: an all-zero record is marked by itime 1 so that it is not unused. */
  function MemToDisk(id: nat, m: Usage): Record {
    var d := Record(id, m);
    if d == EMPTY then Record(id, m.(itime := 1)) else d
  }

  /** v2r1_disk2memdqblk */
  function DiskToMem(d: Record): (nat, Usage) {
    (d.id, if d == Record(0, NOTHING.(itime := 1)) then d.usage.(itime := 0) else d.usage)
  }

  /**
    A record survives the trip to disk and back, except the one that looks like the
    marker of an all-zero record; and no record is written as an unused slot.
   */
  lemma DiskRoundTrip(id: nat, m: Usage)
    ensures DiskToMem(MemToDisk(id, m)) == (id, m) <==> !(id == 0 && m == NOTHING.(itime := 1))
    ensures MemToDisk(id, m) != EMPTY && MemToDisk(id, m).id == id
    ensures MemToDisk(id, m).usage == if id == 0 && m == NOTHING then NOTHING.(itime := 1) else m
  {
    if Record(id, m) == EMPTY {
      assert MemToDisk(id, m).usage == NOTHING.(itime := 1);
      assert DiskToMem(MemToDisk(id, m)).1 == m;
    } else if Record(id, m) == Record(0, NOTHING.(itime := 1)) {
      assert DiskToMem(MemToDisk(id, m)).1.itime == 0;
    }
  }

  datatype Block =
    | Tree(refs: seq<nat>)
    | Data(next: nat, prev: nat, entries: nat, slots: seq<Record>)

  const NO_SLOTS: seq<Record> := [EMPTY, EMPTY, EMPTY, EMPTY, EMPTY, EMPTY, EMPTY, EMPTY, EMPTY, EMPTY, EMPTY, EMPTY,
      EMPTY, EMPTY]

  function NoRefs(): (refs: seq<nat>)
    ensures |refs| == FANOUT && AllZero(refs)
  {
    seq(FANOUT, (i: nat) => 0)
  }

  predicate AllZero(refs: seq<nat>) {
    forall i :: 0 <= i < |refs| ==> refs[i] == 0
  }

  /** The reading of a block through the data-block header. */
  function AsData(b: Block): Block {
    match b
    case Tree(_) => Data(0, 0, 0, NO_SLOTS)
    case Data(_, _, _, _) => b
  }

  function CountUsed(slots: seq<Record>): nat {
    if slots == [] then 0
    else CountUsed(slots[..|slots| - 1]) + (if slots[|slots| - 1] == EMPTY then 0 else 1)
  }

  // ---- ids, prefixes and offsets

  /** 2 to the power (DEPTH - depth - 1) * 8, the shift of get_index. */
  function Unit(depth: nat): nat
    requires depth < DEPTH
  {
    if depth == 0 then 0x100_0000 else if depth == 1 then 0x1_0000 else if depth == 2 then 0x100 else 1
  }

  function GetIndex(id: nat, depth: nat): nat
    requires depth < DEPTH
  {
    id / Unit(depth) % FANOUT
  }

  /** The leading `depth` base-256 digits of an id. */
  function Prefix(id: nat, depth: nat): nat
    requires depth <= DEPTH
  {
    if depth == 0 then 0 else id / Unit(depth - 1)
  }

  lemma PrefixStep(id: nat, depth: nat)
    requires id < ID_LIMIT && depth < DEPTH
    ensures Prefix(id, depth + 1) == Prefix(id, depth) * FANOUT + GetIndex(id, depth)
    ensures GetIndex(id, depth) < FANOUT
    ensures Prefix(id, DEPTH) == id
  {
    if depth == 0 {
      assert id / 0x100_0000 < 256;
    } else if depth == 1 {
      assert id / 0x1_0000 / 0x100 == id / 0x100_0000;
    } else if depth == 2 {
      assert id / 0x100 / 0x100 == id / 0x1_0000;
    } else {
      assert id / 1 == id;
    }
  }

  /** Byte offset of a slot, as kept in dqb_off. */
  function SlotOffset(block: nat, slot: nat): nat {
    block * BLOCK_SIZE + HEADER_SIZE + slot * ENTRY_SIZE
  }

  function OffsetBlock(off: nat): nat { off / BLOCK_SIZE }

  function OffsetSlot(off: nat): int { (off % BLOCK_SIZE - HEADER_SIZE) / ENTRY_SIZE }

  lemma OffsetRoundTrip(block: nat, slot: nat)
    requires slot < SLOTS
    ensures OffsetBlock(SlotOffset(block, slot)) == block
    ensures OffsetSlot(SlotOffset(block, slot)) == slot
  {
    var r := HEADER_SIZE + slot * ENTRY_SIZE;
    assert (block * 1024 + r) / 1024 == block;
    assert (block * 1024 + r) % 1024 == r;
  }

  // ---- the ghost view

  /** A place in the trie: a tree node (depth below 4) or an id (depth 4). */
  datatype Key = Key(depth: nat, prefix: nat)

  const ROOT: Key := Key(0, 0)

  function Child(k: Key, i: nat): Key { Key(k.depth + 1, k.prefix * FANOUT + i) }

  function Parent(k: Key): Key
    requires k.depth > 0
  {
    Key(k.depth - 1, k.prefix / FANOUT)
  }

  function IdKey(id: nat): Key { Key(DEPTH, id) }

  function PathKey(id: nat, depth: nat): Key
    requires depth <= DEPTH
  {
    Key(depth, Prefix(id, depth))
  }

  /** What a block is for: one tree node, records, the free list, or just allocated. */
  datatype Role = TreeRole(key: Key) | DataRole | FreeRole | InFlight

  datatype View = View(
    blocks: map<nat, Block>,
    count: nat,
    freeBlk: nat,
    freeEntry: nat,
    nodes: map<Key, nat>,
    slotOf: map<nat, nat>,
    role: map<nat, Role>,
    freeList: seq<nat>,
    entryList: seq<nat>)

  ghost predicate NoDup(s: seq<nat>) {
    forall i, j :: 0 <= i < j < |s| ==> s[i] != s[j]
  }

  function HeadOf(s: seq<nat>): nat { if s == [] then 0 else s[0] }

  function NextIn(s: seq<nat>, i: int): nat {
    if 0 <= i + 1 < |s| then s[i + 1] else 0
  }

  function PrevIn(s: seq<nat>, i: int): nat {
    if 0 <= i - 1 < |s| then s[i - 1] else 0
  }

  /** Every block from 1 to count - 1 has one role, and the roles match the trie. */
  ghost predicate RolesOk(count: nat, nodes: map<Key, nat>, role: map<nat, Role>) {
    && (forall b :: b in role <==> 1 <= b < count)
    && ROOT in nodes && nodes[ROOT] == ROOT_BLOCK
    && (forall k :: k in nodes ==>
          && k.depth <= DEPTH
          && nodes[k] in role
          && role[nodes[k]] == (if k.depth < DEPTH then TreeRole(k) else DataRole))
    && (forall b :: b in role && role[b].TreeRole? ==> role[b].key in nodes && nodes[role[b].key] == b)
  }

  ghost predicate Present(blocks: map<nat, Block>, role: map<nat, Role>) {
    forall b :: b in role ==> b in blocks
  }

  /** The singly linked list of free blocks, as linked. */
  ghost predicate FreeLinks(blocks: map<nat, Block>, freeBlk: nat, list: seq<nat>) {
    && freeBlk == HeadOf(list)
    && NoDup(list)
    && (forall b :: b in list ==> b in blocks && blocks[b].Data?)
    && (forall i {:trigger NextIn(list, i)} :: 0 <= i < |list| ==> blocks[list[i]].next == NextIn(list, i))
  }

  /** ... and it holds exactly the blocks with no other role. */
  ghost predicate FreeMembers(role: map<nat, Role>, list: seq<nat>) {
    forall b :: b in list <==> b in role && role[b] == FreeRole
  }

  /** The doubly linked list of data blocks with a free slot, as linked. */
  ghost predicate EntryLinks(blocks: map<nat, Block>, freeEntry: nat, list: seq<nat>) {
    && freeEntry == HeadOf(list)
    && NoDup(list)
    && 0 !in list
    && (forall b :: b in list ==> b in blocks && blocks[b].Data?)
    && (forall i {:trigger NextIn(list, i)} :: 0 <= i < |list| ==> blocks[list[i]].next == NextIn(list, i))
    && (forall i {:trigger PrevIn(list, i)} :: 0 <= i < |list| ==> blocks[list[i]].prev == PrevIn(list, i))
  }

  /** ... and it holds exactly the data blocks that are not full. */
  ghost predicate EntryMembers(blocks: map<nat, Block>, role: map<nat, Role>, list: seq<nat>) {
    forall b :: b in list <==>
      b in role && role[b] == DataRole && b in blocks && blocks[b].Data? && blocks[b].entries < SLOTS
  }

  ghost predicate IsNode(blocks: map<nat, Block>, b: nat) {
    b in blocks && blocks[b].Tree? && |blocks[b].refs| == FANOUT
  }

  /** Reference i of node k is its child's block, or zero when it has no such child. */
  ghost predicate RefOk(blocks: map<nat, Block>, nodes: map<Key, nat>, k: Key, i: nat) {
    && k in nodes && i < FANOUT && IsNode(blocks, nodes[k])
    && blocks[nodes[k]].refs[i] == (if Child(k, i) in nodes then nodes[Child(k, i)] else 0)
  }

  /** Tree blocks hold exactly the references to their children, `ex` exempted. */
  ghost predicate TreeOk(blocks: map<nat, Block>, nodes: map<Key, nat>, ex: Key) {
    && (forall k :: k in nodes && k.depth < DEPTH ==> IsNode(blocks, nodes[k]))
    && (forall k, i {:trigger RefOk(blocks, nodes, k, i)} ::
          k in nodes && k.depth < DEPTH && 0 <= i < FANOUT && Child(k, i) != ex ==> RefOk(blocks, nodes, k, i))
  }

  ghost predicate Closed(nodes: map<Key, nat>, ex: Key) {
    forall c {:trigger Parent(c)} :: c in nodes && c.depth > 0 && c != ex ==> Parent(c) in nodes
  }

  ghost predicate HasChild(nodes: map<Key, nat>, k: Key) {
    exists c {:trigger Parent(c)} :: c in nodes && c.depth > 0 && Parent(c) == k
  }

  /** No tree block but the root (or the parent of `ex`) is empty. */
  ghost predicate NoEmptyNode(nodes: map<Key, nat>, ex: Key) {
    forall k {:trigger HasChild(nodes, k)} ::
      k in nodes && 0 < k.depth < DEPTH && !(ex.depth > 0 && k == Parent(ex)) ==> HasChild(nodes, k)
  }

  /** Number of reserved but unwritten slots in block b: one if the pending id lives there. */
  function PendingIn(nodes: map<Key, nat>, pend: int, b: nat): nat {
    if pend >= 0 && IdKey(pend) in nodes && nodes[IdKey(pend)] == b then 1 else 0
  }

  ghost predicate IdsOk(nodes: map<Key, nat>, slotOf: map<nat, nat>, pend: int) {
    && (pend >= 0 ==> pend in slotOf)
    && (forall id {:trigger IdKey(id)} {:trigger id in slotOf} :: id in slotOf <==> IdKey(id) in nodes)
    && (forall id :: id in slotOf ==> id < ID_LIMIT && slotOf[id] < SLOTS)
  }

  ghost predicate IsData(blocks: map<nat, Block>, b: nat) {
    b in blocks && blocks[b].Data? && |blocks[b].slots| == SLOTS
  }

  ghost predicate HomedAt(nodes: map<Key, nat>, slotOf: map<nat, nat>, id: nat, b: nat, s: nat) {
    id in slotOf && slotOf[id] == s && IdKey(id) in nodes && nodes[IdKey(id)] == b
  }

  /** The slot holds the id's record, or is reserved when the id is pending. */
  ghost predicate SlotHolds(blocks: map<nat, Block>, b: nat, s: nat, id: nat, pend: int) {
    && IsData(blocks, b) && s < SLOTS
    && (if id == pend then blocks[b].slots[s] == EMPTY
        else blocks[b].slots[s] != EMPTY && blocks[b].slots[s].id == id)
  }

  ghost predicate HeaderOk(blocks: map<nat, Block>, nodes: map<Key, nat>, pend: int, b: nat) {
    && IsData(blocks, b)
    && blocks[b].entries >= 1
    && blocks[b].entries == CountUsed(blocks[b].slots) + PendingIn(nodes, pend, b)
  }

  /** A used slot is the home of the id written in it. */
  ghost predicate SlotOwned(blocks: map<nat, Block>, nodes: map<Key, nat>, slotOf: map<nat, nat>, b: nat, s: nat) {
    IsData(blocks, b) && s < SLOTS && blocks[b].slots[s] != EMPTY ==>
      HomedAt(nodes, slotOf, blocks[b].slots[s].id, b, s)
  }

  /** Headers count used slots; slots and ids correspond one to one. */
  ghost predicate DataOk(blocks: map<nat, Block>, nodes: map<Key, nat>, slotOf: map<nat, nat>,
                    role: map<nat, Role>, pend: int) {
    && (forall b :: b in role && role[b] == DataRole ==> HeaderOk(blocks, nodes, pend, b))
    && (forall id :: id in slotOf && IdKey(id) in nodes ==> SlotHolds(blocks, nodes[IdKey(id)], slotOf[id], id, pend))
    && (forall b, s {:trigger SlotOwned(blocks, nodes, slotOf, b, s)} ::
          b in role && role[b] == DataRole && 0 <= s < SLOTS ==> SlotOwned(blocks, nodes, slotOf, b, s))
  }

  /**
    The invariant of a quota file.  Between operations `ex` is ROOT and `pend` is -1;
    inside an insert or a delete the link to the child `ex` is being changed and the
    slot of `pend` is reserved but not yet written.
   */
  ghost predicate Inv(v: View, ex: Key, pend: int) {
    && RolesOk(v.count, v.nodes, v.role)
    && Present(v.blocks, v.role)
    && FreeLinks(v.blocks, v.freeBlk, v.freeList)
    && FreeMembers(v.role, v.freeList)
    && EntryLinks(v.blocks, v.freeEntry, v.entryList)
    && EntryMembers(v.blocks, v.role, v.entryList)
    && TreeOk(v.blocks, v.nodes, ex)
    && Closed(v.nodes, ex)
    && NoEmptyNode(v.nodes, ex)
    && IdsOk(v.nodes, v.slotOf, pend)
    && DataOk(v.blocks, v.nodes, v.slotOf, v.role, pend)
  }

  /** The meaning of a quota file: the finite map from ids to their records. */
  ghost function Contents(v: View): map<nat, Record> {
    map id | id in v.slotOf :: RecordOf(v, id)
  }

  /** The record in the slot an id is homed at. */
  ghost function RecordOf(v: View, id: nat): Record {
    if id in v.slotOf && IdKey(id) in v.nodes then SlotAt(v.blocks, v.nodes[IdKey(id)], v.slotOf[id]) else EMPTY
  }

  function SlotAt(blocks: map<nat, Block>, b: nat, s: nat): Record {
    if b in blocks && blocks[b].Data? && s < |blocks[b].slots| then blocks[b].slots[s] else EMPTY
  }

  /** Between operations no block is left taken and unwritten. */
  ghost predicate Quiet(role: map<nat, Role>) {
    forall b :: b in role ==> role[b] != InFlight
  }

  // ---- counting

  lemma {:induction false} CountUpdate(slots: seq<Record>, i: nat, r: Record)
    requires i < |slots|
    ensures CountUsed(slots[i := r]) ==
            CountUsed(slots) - (if slots[i] == EMPTY then 0 else 1) + (if r == EMPTY then 0 else 1)
  {
    var n := |slots| - 1;
    if i == n {
      assert slots[i := r][..n] == slots[..n];
    } else {
      assert slots[i := r][..n] == slots[..n][i := r];
      CountUpdate(slots[..n], i, r);
    }
  }

  lemma {:induction false} CountBounds(slots: seq<Record>)
    ensures CountUsed(slots) <= |slots|
    ensures CountUsed(slots) == |slots| <==> forall i :: 0 <= i < |slots| ==> slots[i] != EMPTY
    ensures CountUsed(slots) == 0 <==> forall i :: 0 <= i < |slots| ==> slots[i] == EMPTY
  {
    if slots != [] {
      var n := |slots| - 1;
      CountBounds(slots[..n]);
      assert forall i :: 0 <= i < n ==> slots[..n][i] == slots[i];
    }
  }
}
