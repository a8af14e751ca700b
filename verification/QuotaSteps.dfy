/**
  The single steps of the quota file operations as functions of the view, and the
  proof that each keeps the invariant of QuotaModel.
 */
module QuotaSteps {
  import opened QuotaModel

  // ---- what a change of one block or one role leaves alone

  lemma FrameFree(blocks: map<nat, Block>, freeBlk: nat, list: seq<nat>, b: nat, x: Block)
    requires FreeLinks(blocks, freeBlk, list) && b !in list
    ensures FreeLinks(blocks[b := x], freeBlk, list)
  {
  }

  lemma FrameEntry(blocks: map<nat, Block>, freeEntry: nat, list: seq<nat>, b: nat, x: Block)
    requires EntryLinks(blocks, freeEntry, list) && b !in list
    ensures EntryLinks(blocks[b := x], freeEntry, list)
  {
  }

  lemma FrameTree(v: View, ex: Key, b: nat, x: Block)
    requires RolesOk(v.count, v.nodes, v.role) && TreeOk(v.blocks, v.nodes, ex)
    requires b in v.role ==> !v.role[b].TreeRole?
    ensures TreeOk(v.blocks[b := x], v.nodes, ex)
  {
    forall k, i | k in v.nodes && k.depth < DEPTH && 0 <= i < FANOUT && Child(k, i) != ex
      ensures RefOk(v.blocks[b := x], v.nodes, k, i)
    {
      assert RefOk(v.blocks, v.nodes, k, i);
      assert v.nodes[k] != b;
    }
  }

  lemma FrameData(v: View, pend: int, b: nat, x: Block, r: Role)
    requires RolesOk(v.count, v.nodes, v.role) && IdsOk(v.nodes, v.slotOf, pend)
    requires DataOk(v.blocks, v.nodes, v.slotOf, v.role, pend)
    requires b in v.role ==> v.role[b] != DataRole
    requires r != DataRole
    ensures DataOk(v.blocks[b := x], v.nodes, v.slotOf, v.role[b := r], pend)
  {
    var blocks, role := v.blocks[b := x], v.role[b := r];
    forall c | c in role && role[c] == DataRole ensures HeaderOk(blocks, v.nodes, pend, c) {
      assert c != b && HeaderOk(v.blocks, v.nodes, pend, c);
    }
    forall id | id in v.slotOf && IdKey(id) in v.nodes
      ensures SlotHolds(blocks, v.nodes[IdKey(id)], v.slotOf[id], id, pend)
    {
      assert SlotHolds(v.blocks, v.nodes[IdKey(id)], v.slotOf[id], id, pend);
      assert v.nodes[IdKey(id)] != b;
    }
    forall c, s | c in role && role[c] == DataRole && 0 <= s < SLOTS
      ensures SlotOwned(blocks, v.nodes, v.slotOf, c, s)
    {
      assert SlotOwned(v.blocks, v.nodes, v.slotOf, c, s);
    }
  }

  lemma FrameEntryMembers(blocks: map<nat, Block>, role: map<nat, Role>, list: seq<nat>, b: nat, x: Block, r: Role)
    requires EntryMembers(blocks, role, list)
    requires b in role ==> role[b] != DataRole
    requires r != DataRole
    ensures EntryMembers(blocks[b := x], role[b := r], list)
    ensures b !in list
  {
  }

  // ---- the free-block list

  ghost function TakeFree(v: View): View
    requires FreeLinks(v.blocks, v.freeBlk, v.freeList) && v.freeList != []
  {
    v.(freeBlk := v.blocks[v.freeBlk].next,
       freeList := v.freeList[1..],
       role := v.role[v.freeBlk := InFlight])
  }

  lemma UnlinkHead(blocks: map<nat, Block>, freeBlk: nat, list: seq<nat>)
    requires FreeLinks(blocks, freeBlk, list) && list != []
    ensures FreeLinks(blocks, blocks[freeBlk].next, list[1..])
  {
    var rest := list[1..];
    assert blocks[list[0]].next == NextIn(list, 0);
    forall i | 0 <= i < |rest|
      ensures rest[i] in blocks && blocks[rest[i]].Data? && blocks[rest[i]].next == NextIn(rest, i)
    {
      assert rest[i] == list[i + 1];
      assert NextIn(rest, i) == NextIn(list, i + 1);
    }
  }

  lemma TakeFreeKeeps(v: View, ex: Key, pend: int)
    requires Inv(v, ex, pend) && v.freeList != []
    ensures Inv(TakeFree(v), ex, pend)
    ensures v.freeBlk in v.role && v.role[v.freeBlk] == FreeRole
  {
    var b := v.freeBlk;
    assert v.freeList[0] == b;
    assert b in v.role && v.role[b] == FreeRole;
    UnlinkHead(v.blocks, b, v.freeList);
    assert v.blocks[b := v.blocks[b]] == v.blocks;
    FrameData(v, pend, b, v.blocks[b], InFlight);
    FrameEntryMembers(v.blocks, v.role, v.entryList, b, v.blocks[b], InFlight);
    HeadLeaves(v.role, v.freeList);
    RoleChange(v.count, v.nodes, v.role, b, InFlight);
  }

  lemma HeadLeaves(role: map<nat, Role>, list: seq<nat>)
    requires FreeMembers(role, list) && NoDup(list) && list != []
    ensures FreeMembers(role[list[0] := InFlight], list[1..])
  {
    forall b ensures b in list <==> b == list[0] || b in list[1..] {
      if b in list {
        var i :| 0 <= i < |list| && list[i] == b;
        assert i == 0 || list[1..][i - 1] == b;
      }
    }
    assert list[0] !in list[1..];
  }

  lemma RoleChange(count: nat, nodes: map<Key, nat>, role: map<nat, Role>, b: nat, r: Role)
    requires RolesOk(count, nodes, role)
    requires b in role && !role[b].TreeRole? && role[b] != DataRole
    requires !r.TreeRole?
    ensures RolesOk(count, nodes, role[b := r])
  {
  }

  ghost function Grow(v: View): View {
    v.(blocks := v.blocks[v.count := Tree(NoRefs())],
       count := v.count + 1,
       role := v.role[v.count := InFlight])
  }

  lemma GrowKeeps(v: View, ex: Key, pend: int)
    requires Inv(v, ex, pend)
    ensures Inv(Grow(v), ex, pend)
    ensures v.count !in v.role && v.count >= 2
  {
    var b := v.count;
    GrowRoles(v.count, v.nodes, v.role, v.freeList);
    var zero := Tree(NoRefs());
    FrameEntryMembers(v.blocks, v.role, v.entryList, b, zero, InFlight);
    FrameFree(v.blocks, v.freeBlk, v.freeList, b, zero);
    FrameEntry(v.blocks, v.freeEntry, v.entryList, b, zero);
    FrameTree(v, ex, b, zero);
    FrameData(v, pend, b, zero, InFlight);
  }

  lemma GrowRoles(count: nat, nodes: map<Key, nat>, role: map<nat, Role>, list: seq<nat>)
    requires RolesOk(count, nodes, role) && FreeMembers(role, list)
    ensures RolesOk(count + 1, nodes, role[count := InFlight])
    ensures FreeMembers(role[count := InFlight], list)
    ensures count !in role && count !in list && count >= 2
  {
    assert nodes[ROOT] in role;
    assert count !in role;
  }

  ghost function PutFree(v: View, b: nat, buf: Block): View {
    v.(blocks := v.blocks[b := AsData(buf).(next := v.freeBlk, prev := 0, entries := 0)],
       freeBlk := b,
       freeList := [b] + v.freeList,
       role := v.role[b := FreeRole])
  }

  lemma LinkHead(blocks: map<nat, Block>, freeBlk: nat, list: seq<nat>, b: nat, x: Block)
    requires FreeLinks(blocks, freeBlk, list) && b !in list
    requires x.Data? && x.next == freeBlk
    ensures FreeLinks(blocks[b := x], b, [b] + list)
  {
    var all := [b] + list;
    forall i | 0 <= i < |all|
      ensures all[i] in blocks[b := x] && blocks[b := x][all[i]].Data?
      ensures blocks[b := x][all[i]].next == NextIn(all, i)
    {
      if i > 0 {
        assert all[i] == list[i - 1];
        assert NextIn(all, i) == NextIn(list, i - 1);
      }
    }
  }

  lemma PutFreeKeeps(v: View, b: nat, buf: Block, ex: Key, pend: int)
    requires Inv(v, ex, pend)
    requires b in v.role && v.role[b] == InFlight
    ensures Inv(PutFree(v, b, buf), ex, pend)
  {
    var w := PutFree(v, b, buf);
    var x := w.blocks[b];
    assert b !in v.freeList;
    FrameEntryMembers(v.blocks, v.role, v.entryList, b, x, FreeRole);
    FrameEntry(v.blocks, v.freeEntry, v.entryList, b, x);
    FrameTree(v, ex, b, x);
    FrameData(v, pend, b, x, FreeRole);
    LinkHead(v.blocks, v.freeBlk, v.freeList, b, x);
    RoleChange(v.count, v.nodes, v.role, b, FreeRole);
    HeadJoins(v.role, v.freeList, b);
  }

  lemma HeadJoins(role: map<nat, Role>, list: seq<nat>, b: nat)
    requires FreeMembers(role, list)
    ensures FreeMembers(role[b := FreeRole], [b] + list)
  {
    assert forall c :: c in [b] + list <==> c == b || c in list;
  }

  // ---- tree links

  lemma ChildFacts(k: Key, i: nat)
    requires i < FANOUT
    ensures Parent(Child(k, i)) == k
    ensures Child(k, i).prefix % FANOUT == i
    ensures Child(k, i) != ROOT
  {
  }

  lemma KeyOfParent(c: Key)
    requires c.depth > 0
    ensures Child(Parent(c), c.prefix % FANOUT) == c
  {
  }

  function RefTo(nodes: map<Key, nat>, c: Key): nat {
    if c in nodes then nodes[c] else 0
  }

  /** Store the reference to child i of node k. */
  ghost function SetRef(v: View, k: Key, i: nat): View
    requires k in v.nodes && IsNode(v.blocks, v.nodes[k]) && i < FANOUT
  {
    v.(blocks := v.blocks[v.nodes[k] := Tree(v.blocks[v.nodes[k]].refs[i := RefTo(v.nodes, Child(k, i))])])
  }

  lemma SetRefTree(v: View, k: Key, i: nat)
    requires i < FANOUT && k in v.nodes && k.depth < DEPTH
    requires RolesOk(v.count, v.nodes, v.role) && TreeOk(v.blocks, v.nodes, Child(k, i))
    ensures TreeOk(SetRef(v, k, i).blocks, v.nodes, ROOT)
  {
    var w := SetRef(v, k, i);
    forall l, j | l in v.nodes && l.depth < DEPTH && 0 <= j < FANOUT
      ensures RefOk(w.blocks, v.nodes, l, j)
    {
      ChildFacts(l, j);
      ChildFacts(k, i);
      if l == k {
        if j != i { assert RefOk(v.blocks, v.nodes, l, j); }
      } else {
        assert v.nodes[l] != v.nodes[k];
        assert RefOk(v.blocks, v.nodes, l, j);
      }
    }
  }

  /** Rewriting one tree block touches neither lists nor records. */
  lemma FrameNodeWrite(v: View, k: Key, x: Block, pend: int)
    requires k in v.nodes && k.depth < DEPTH
    requires RolesOk(v.count, v.nodes, v.role) && FreeMembers(v.role, v.freeList)
    requires FreeLinks(v.blocks, v.freeBlk, v.freeList)
    requires EntryLinks(v.blocks, v.freeEntry, v.entryList) && EntryMembers(v.blocks, v.role, v.entryList)
    requires IdsOk(v.nodes, v.slotOf, pend) && DataOk(v.blocks, v.nodes, v.slotOf, v.role, pend)
    ensures FreeLinks(v.blocks[v.nodes[k] := x], v.freeBlk, v.freeList)
    ensures EntryLinks(v.blocks[v.nodes[k] := x], v.freeEntry, v.entryList)
    ensures EntryMembers(v.blocks[v.nodes[k] := x], v.role, v.entryList)
    ensures DataOk(v.blocks[v.nodes[k] := x], v.nodes, v.slotOf, v.role, pend)
  {
    var b := v.nodes[k];
    assert v.role[b] == TreeRole(k);
    assert v.role[b := TreeRole(k)] == v.role;
    FrameEntryMembers(v.blocks, v.role, v.entryList, b, x, TreeRole(k));
    FrameFree(v.blocks, v.freeBlk, v.freeList, b, x);
    FrameEntry(v.blocks, v.freeEntry, v.entryList, b, x);
    FrameData(v, pend, b, x, TreeRole(k));
  }

  /** Repairing the one exempted link makes the whole tree consistent. */
  lemma SetRefKeeps(v: View, k: Key, i: nat, pend: int)
    requires i < FANOUT && k in v.nodes && k.depth < DEPTH
    requires Inv(v, Child(k, i), pend)
    requires k.depth == 0 || HasChild(v.nodes, k)
    ensures Inv(SetRef(v, k, i), ROOT, pend)
  {
    var x := Tree(v.blocks[v.nodes[k]].refs[i := RefTo(v.nodes, Child(k, i))]);
    SetRefTree(v, k, i);
    FrameNodeWrite(v, k, x, pend);
    ChildFacts(k, i);
    ClosedAfterLink(v.nodes, k, i);
  }

  lemma ClosedAfterLink(nodes: map<Key, nat>, k: Key, i: nat)
    requires i < FANOUT && k in nodes
    requires Closed(nodes, Child(k, i)) && NoEmptyNode(nodes, Child(k, i))
    requires k.depth == 0 || HasChild(nodes, k)
    ensures Closed(nodes, ROOT) && NoEmptyNode(nodes, ROOT)
  {
    ChildFacts(k, i);
  }

  /** Write an in-flight block as the node k whose only child is the exempted key. */
  ghost function AttachNode(v: View, k: Key, i: nat, b: nat): View
    requires Child(k, i) in v.nodes && i < FANOUT
  {
    v.(blocks := v.blocks[b := Tree(NoRefs()[i := v.nodes[Child(k, i)]])],
       nodes := v.nodes[k := b],
       role := v.role[b := TreeRole(k)])
  }

  lemma AttachTree(v: View, k: Key, i: nat, b: nat)
    requires i < FANOUT && 0 < k.depth < DEPTH && k !in v.nodes && Child(k, i) in v.nodes
    requires RolesOk(v.count, v.nodes, v.role) && TreeOk(v.blocks, v.nodes, Child(k, i))
    requires Closed(v.nodes, Child(k, i))
    requires b in v.role && v.role[b] == InFlight
    ensures TreeOk(AttachNode(v, k, i, b).blocks, v.nodes[k := b], k)
  {
    var w := AttachNode(v, k, i, b);
    ChildFacts(k, i);
    forall l, j | l in w.nodes && l.depth < DEPTH && 0 <= j < FANOUT && Child(l, j) != k
      ensures RefOk(w.blocks, w.nodes, l, j)
    {
      ChildFacts(l, j);
      if l == k {
        if j != i {
          assert Parent(Child(k, j)) !in v.nodes;
        }
      } else {
        assert v.role[v.nodes[l]] == TreeRole(l);
        assert RefOk(v.blocks, v.nodes, l, j);
      }
    }
  }

  lemma AttachShape(nodes: map<Key, nat>, k: Key, i: nat, b: nat)
    requires i < FANOUT && 0 < k.depth < DEPTH && k !in nodes && Child(k, i) in nodes
    requires Closed(nodes, Child(k, i)) && NoEmptyNode(nodes, Child(k, i))
    ensures Closed(nodes[k := b], k) && NoEmptyNode(nodes[k := b], k)
  {
    ChildFacts(k, i);
    forall l | l in nodes[k := b] && 0 < l.depth < DEPTH && l != Parent(k)
      ensures HasChild(nodes[k := b], l)
    {
      if l == k {
        assert Parent(Child(k, i)) == k;
      } else {
        assert HasChild(nodes, l);
        var c :| c in nodes && c.depth > 0 && Parent(c) == l;
        assert c in nodes[k := b];
      }
    }
  }

  /** Naming an in-flight block, or dropping a node, says nothing new about ids. */
  lemma DataIgnoresNodes(blocks: map<nat, Block>, nodes: map<Key, nat>, nodes': map<Key, nat>,
                    slotOf: map<nat, nat>, role: map<nat, Role>, pend: int)
    requires IdsOk(nodes, slotOf, pend) && DataOk(blocks, nodes, slotOf, role, pend)
    requires forall k: Key :: k.depth == DEPTH ==> (k in nodes <==> k in nodes')
    requires forall k: Key :: k.depth == DEPTH && k in nodes ==> nodes[k] == nodes'[k]
    ensures IdsOk(nodes', slotOf, pend) && DataOk(blocks, nodes', slotOf, role, pend)
  {
    forall b | b in role && role[b] == DataRole ensures HeaderOk(blocks, nodes', pend, b) {
      assert HeaderOk(blocks, nodes, pend, b);
    }
    forall id | id in slotOf && IdKey(id) in nodes'
      ensures SlotHolds(blocks, nodes'[IdKey(id)], slotOf[id], id, pend)
    {
      assert SlotHolds(blocks, nodes[IdKey(id)], slotOf[id], id, pend);
    }
    forall b, s | b in role && role[b] == DataRole && 0 <= s < SLOTS
      ensures SlotOwned(blocks, nodes', slotOf, b, s)
    {
      assert SlotOwned(blocks, nodes, slotOf, b, s);
    }
  }

  lemma AttachNodeKeeps(v: View, k: Key, i: nat, b: nat, pend: int)
    requires i < FANOUT && 0 < k.depth < DEPTH && k !in v.nodes
    requires Inv(v, Child(k, i), pend) && Child(k, i) in v.nodes
    requires b in v.role && v.role[b] == InFlight
    ensures Inv(AttachNode(v, k, i, b), k, pend)
  {
    var w := AttachNode(v, k, i, b);
    var x := w.blocks[b];
    AttachTree(v, k, i, b);
    AttachShape(v.nodes, k, i, b);
    FrameEntryMembers(v.blocks, v.role, v.entryList, b, x, TreeRole(k));
    FrameFree(v.blocks, v.freeBlk, v.freeList, b, x);
    FrameEntry(v.blocks, v.freeEntry, v.entryList, b, x);
    FrameData(v, pend, b, x, TreeRole(k));
    DataIgnoresNodes(w.blocks, v.nodes, w.nodes, v.slotOf, w.role, pend);
    assert FreeMembers(w.role, v.freeList);
    AttachRoles(v.count, v.nodes, v.role, k, b);
  }

  lemma AttachRoles(count: nat, nodes: map<Key, nat>, role: map<nat, Role>, k: Key, b: nat)
    requires RolesOk(count, nodes, role) && b in role && role[b] == InFlight
    requires 0 < k.depth < DEPTH && k !in nodes
    ensures RolesOk(count, nodes[k := b], role[b := TreeRole(k)])
  {
  }

  /** Forget an emptied tree node; its block becomes in-flight. */
  ghost function DetachNode(v: View, k: Key): View
    requires k in v.nodes
  {
    v.(nodes := v.nodes - {k}, role := v.role[v.nodes[k] := InFlight])
  }

  lemma DetachTree(v: View, k: Key, i: nat)
    requires i < FANOUT && 0 < k.depth < DEPTH && k in v.nodes && Child(k, i) !in v.nodes
    requires TreeOk(v.blocks, v.nodes, Child(k, i))
    ensures TreeOk(v.blocks, v.nodes - {k}, k)
  {
    forall l, j | l in v.nodes - {k} && l.depth < DEPTH && 0 <= j < FANOUT && Child(l, j) != k
      ensures RefOk(v.blocks, v.nodes - {k}, l, j)
    {
      ChildFacts(l, j);
      ChildFacts(k, i);
      assert RefOk(v.blocks, v.nodes, l, j);
    }
  }

  lemma DetachShape(nodes: map<Key, nat>, k: Key, i: nat)
    requires i < FANOUT && 0 < k.depth < DEPTH && k in nodes && Child(k, i) !in nodes
    requires Closed(nodes, Child(k, i)) && NoEmptyNode(nodes, Child(k, i)) && !HasChild(nodes, k)
    ensures Closed(nodes - {k}, k) && NoEmptyNode(nodes - {k}, k)
  {
    ChildFacts(k, i);
    forall l | l in nodes - {k} && 0 < l.depth < DEPTH && l != Parent(k)
      ensures HasChild(nodes - {k}, l)
    {
      assert HasChild(nodes, l);
      var c :| c in nodes && c.depth > 0 && Parent(c) == l;
      assert c in nodes - {k};
    }
  }

  lemma DetachNodeKeeps(v: View, k: Key, i: nat, pend: int)
    requires i < FANOUT && 0 < k.depth < DEPTH && k in v.nodes
    requires Inv(v, Child(k, i), pend) && Child(k, i) !in v.nodes
    requires !HasChild(v.nodes, k)
    ensures Inv(DetachNode(v, k), k, pend)
    ensures v.nodes[k] in v.role
  {
    var w := DetachNode(v, k);
    var b := v.nodes[k];
    assert v.role[b] == TreeRole(k);
    DetachTree(v, k, i);
    DetachShape(v.nodes, k, i);
    assert v.blocks[b := v.blocks[b]] == v.blocks;
    FrameEntryMembers(v.blocks, v.role, v.entryList, b, v.blocks[b], InFlight);
    FrameData(v, pend, b, v.blocks[b], InFlight);
    DataIgnoresNodes(w.blocks, v.nodes, w.nodes, v.slotOf, w.role, pend);
    assert FreeMembers(w.role, v.freeList);
    DetachRoles(v.count, v.nodes, v.role, k);
  }

  lemma DetachRoles(count: nat, nodes: map<Key, nat>, role: map<nat, Role>, k: Key)
    requires RolesOk(count, nodes, role)
    requires 0 < k.depth < DEPTH && k in nodes
    ensures RolesOk(count, nodes - {k}, role[nodes[k] := InFlight])
  {
  }
}
