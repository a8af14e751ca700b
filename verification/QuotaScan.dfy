/**
  qtree_scan_dquots: walks the trie, reads each data block once and reports every
  record.  A bitmap remembers the data blocks already read, since many references
  lead to the same block.
 */
module QuotaScan {
  import opened QuotaModel
  import opened QuotaSteps
  import opened QuotaRecords
  import opened QuotaPaths
  import opened QuotaTree

  /** One call of the callback: the record and its offset. */
  datatype Report = Report(rec: Record, off: nat)

  function BlockReports(b: nat, slots: seq<Record>): seq<Report> {
    if slots == [] then []
    else
      var n := |slots| - 1;
      BlockReports(b, slots[..n]) + (if slots[n] == EMPTY then [] else [Report(slots[n], SlotOffset(b, n))])
  }

  ghost predicate FromSlot(b: nat, slots: seq<Record>, r: Report, s: nat) {
    s < |slots| && slots[s] != EMPTY && r == Report(slots[s], SlotOffset(b, s))
  }

  /** One report per used slot, in slot order. */
  lemma {:induction false} BlockReportsOrder(b: nat, slots: seq<Record>)
    ensures |BlockReports(b, slots)| == CountUsed(slots)
    ensures forall r :: r in BlockReports(b, slots) ==> r.off < SlotOffset(b, |slots|)
    ensures forall i, j :: 0 <= i < j < |BlockReports(b, slots)| ==>
              BlockReports(b, slots)[i].off < BlockReports(b, slots)[j].off
  {
    if slots != [] {
      var n := |slots| - 1;
      var prior := BlockReports(b, slots[..n]);
      BlockReportsOrder(b, slots[..n]);
      assert forall i :: 0 <= i < |prior| ==> prior[i] in prior;
    }
  }

  /** Every report comes from a used slot. */
  lemma {:induction false} BlockReportsFrom(b: nat, slots: seq<Record>)
    ensures forall r :: r in BlockReports(b, slots) ==> exists s :: FromSlot(b, slots, r, s)
  {
    if slots != [] {
      var n := |slots| - 1;
      BlockReportsFrom(b, slots[..n]);
      forall r | r in BlockReports(b, slots) ensures exists s :: FromSlot(b, slots, r, s) {
        if r in BlockReports(b, slots[..n]) {
          var s :| FromSlot(b, slots[..n], r, s);
          assert FromSlot(b, slots, r, s);
        } else {
          assert FromSlot(b, slots, r, n);
        }
      }
    }
  }

  /** ... and every used slot is reported. */
  lemma {:induction false} BlockReportsAll(b: nat, slots: seq<Record>, s: nat)
    requires s < |slots| && slots[s] != EMPTY
    ensures Report(slots[s], SlotOffset(b, s)) in BlockReports(b, slots)
  {
    var n := |slots| - 1;
    if s < n {
      BlockReportsAll(b, slots[..n], s);
      assert slots[..n][s] == slots[s];
    }
  }

  /** r is the stored record of its id, found in a block already read. */
  ghost predicate Truthful(v: View, seen: seq<bool>, r: Report) {
    && r.rec.id in v.slotOf && IdKey(r.rec.id) in v.nodes
    && v.nodes[IdKey(r.rec.id)] < |seen| && seen[v.nodes[IdKey(r.rec.id)]]
    && r.rec == RecordOf(v, r.rec.id)
    && r.off == SlotOffset(v.nodes[IdKey(r.rec.id)], v.slotOf[r.rec.id])
  }

  ghost predicate Reported(out: seq<Report>, id: nat) {
    exists i :: 0 <= i < |out| && out[i].rec.id == id
  }

  ghost predicate NoIdTwice(out: seq<Report>) {
    forall i, j :: 0 <= i < j < |out| ==> out[i].rec.id != out[j].rec.id
  }

  ghost predicate SeenHome(v: View, seen: seq<bool>, id: nat) {
    IdKey(id) in v.nodes && v.nodes[IdKey(id)] < |seen| && seen[v.nodes[IdKey(id)]]
  }

  /** The reports so far are exactly the records of the data blocks read so far. */
  ghost predicate ScanOk(v: View, seen: seq<bool>, out: seq<Report>) {
    && |seen| == v.count
    && (forall b :: 0 <= b < |seen| && seen[b] ==> b in v.role && v.role[b] == DataRole)
    && (forall r :: r in out ==> Truthful(v, seen, r))
    && NoIdTwice(out)
    && (forall id :: id in v.slotOf && SeenHome(v, seen, id) ==> Reported(out, id))
  }

  lemma BlockIsTruthful(v: View, seen: seq<bool>, b: nat, r: Report)
    requires Inv(v, ROOT, -1) && b in v.role && v.role[b] == DataRole && IsData(v.blocks, b)
    requires |seen| == v.count && b < |seen| && seen[b]
    requires r in BlockReports(b, v.blocks[b].slots)
    ensures Truthful(v, seen, r) && v.nodes[IdKey(r.rec.id)] == b
  {
    BlockReportsFrom(b, v.blocks[b].slots);
    var s :| FromSlot(b, v.blocks[b].slots, r, s);
    assert SlotOwned(v.blocks, v.nodes, v.slotOf, b, s);
  }

  lemma ScanBlockStep(v: View, seen: seq<bool>, out: seq<Report>, b: nat)
    requires Inv(v, ROOT, -1) && ScanOk(v, seen, out)
    requires b in v.role && v.role[b] == DataRole && IsData(v.blocks, b) && b < |seen| && !seen[b]
    ensures ScanOk(v, seen[b := true], out + BlockReports(b, v.blocks[b].slots))
    ensures |BlockReports(b, v.blocks[b].slots)| == v.blocks[b].entries
  {
    var seen', more := seen[b := true], BlockReports(b, v.blocks[b].slots);
    BlockReportsOrder(b, v.blocks[b].slots);
    assert HeaderOk(v.blocks, v.nodes, -1, b);
    NewReportsTruthful(v, seen, out, b);
    NewReportsOnce(v, seen, out, b);
    forall id | id in v.slotOf && SeenHome(v, seen', id) ensures Reported(out + more, id) {
      if v.nodes[IdKey(id)] == b {
        HomeFacts(v, ROOT, -1, id);
        var r := Report(v.blocks[b].slots[v.slotOf[id]], SlotOffset(b, v.slotOf[id]));
        BlockReportsAll(b, v.blocks[b].slots, v.slotOf[id]);
        var i :| 0 <= i < |more| && more[i] == r;
        assert (out + more)[|out| + i].rec.id == id;
      } else {
        assert SeenHome(v, seen, id);
        var i :| 0 <= i < |out| && out[i].rec.id == id;
        assert (out + more)[i].rec.id == id;
      }
    }
  }

  lemma NewReportsTruthful(v: View, seen: seq<bool>, out: seq<Report>, b: nat)
    requires Inv(v, ROOT, -1) && ScanOk(v, seen, out)
    requires b in v.role && v.role[b] == DataRole && IsData(v.blocks, b) && b < |seen| && !seen[b]
    ensures forall r :: r in out + BlockReports(b, v.blocks[b].slots) ==> Truthful(v, seen[b := true], r)
  {
    var more := BlockReports(b, v.blocks[b].slots);
    forall r | r in out + more ensures Truthful(v, seen[b := true], r) {
      if r in more {
        BlockIsTruthful(v, seen[b := true], b, r);
      } else {
        assert r in out && Truthful(v, seen, r);
      }
    }
  }

  lemma NewReportsOnce(v: View, seen: seq<bool>, out: seq<Report>, b: nat)
    requires Inv(v, ROOT, -1) && ScanOk(v, seen, out)
    requires b in v.role && v.role[b] == DataRole && IsData(v.blocks, b) && b < |seen| && !seen[b]
    ensures NoIdTwice(out + BlockReports(b, v.blocks[b].slots))
  {
    hide Inv;
    var more := BlockReports(b, v.blocks[b].slots);
    BlockReportsOrder(b, v.blocks[b].slots);
    var all := out + more;
    forall i, j | 0 <= i < j < |all| ensures all[i].rec.id != all[j].rec.id {
      if j >= |out| {
        assert all[j] in more;
        BlockIsTruthful(v, seen[b := true], b, all[j]);
        if i >= |out| {
          assert all[i] in more;
          BlockIsTruthful(v, seen[b := true], b, all[i]);
          assert more[i - |out|].off < more[j - |out|].off;
        } else {
          assert all[i] in out && Truthful(v, seen, all[i]);
        }
      }
    }
  }

  /** Every id below node k has had its data block read. */
  ghost predicate Covered(v: View, seen: seq<bool>, k: Key) {
    forall id {:trigger SeenHome(v, seen, id)} ::
      id in v.slotOf && id < ID_LIMIT && k.depth <= DEPTH && PathKey(id, k.depth) == k ==> SeenHome(v, seen, id)
  }

  ghost predicate Extends(seen: seq<bool>, seen': seq<bool>) {
    |seen| == |seen'| && forall b :: 0 <= b < |seen| && seen[b] ==> seen'[b]
  }

  lemma CoveredExtends(v: View, seen: seq<bool>, seen': seq<bool>, k: Key)
    requires Covered(v, seen, k) && Extends(seen, seen')
    ensures Covered(v, seen', k)
  {
    forall id | id in v.slotOf && id < ID_LIMIT && k.depth <= DEPTH && PathKey(id, k.depth) == k
      ensures SeenHome(v, seen', id)
    {
      assert SeenHome(v, seen, id);
    }
  }

  lemma AbsentIsCovered(v: View, seen: seq<bool>, k: Key)
    requires Inv(v, ROOT, -1) && k !in v.nodes
    ensures Covered(v, seen, k)
  {
    forall id | id in v.slotOf && id < ID_LIMIT && k.depth <= DEPTH ensures PathKey(id, k.depth) in v.nodes {
      IdsMatch(v, id);
      PathPresent(v, id, k.depth, -1);
    }
  }

  lemma LeafIsCovered(v: View, seen: seq<bool>, c: Key)
    requires Inv(v, ROOT, -1) && c in v.nodes && c.depth == DEPTH && v.nodes[c] < |seen| && seen[v.nodes[c]]
    ensures Covered(v, seen, c)
  {
    forall id | id in v.slotOf && id < ID_LIMIT && PathKey(id, c.depth) == c ensures SeenHome(v, seen, id) {
      PathStep(id, 3);
    }
  }

  lemma ChildrenCover(v: View, seen: seq<bool>, k: Key)
    requires k.depth < DEPTH
    requires forall j {:trigger Child(k, j)} :: 0 <= j < FANOUT ==> Covered(v, seen, Child(k, j))
    ensures Covered(v, seen, k)
  {
    forall id | id in v.slotOf && id < ID_LIMIT && PathKey(id, k.depth) == k ensures SeenHome(v, seen, id) {
      PathStep(id, k.depth);
      assert Covered(v, seen, Child(k, GetIndex(id, k.depth)));
    }
  }

  /** report_block */
  method ReportBlock(f: QuotaFile, blk: nat, bitmap: array<bool>, out: seq<Report>)
    returns (all: seq<Report>, entries: nat)
    requires f.Valid() && bitmap.Length == f.dqiBlocks && ScanOk(f.V(), bitmap[..], out)
    requires blk in f.role && f.role[blk] == DataRole && blk < bitmap.Length && !bitmap[blk]
    modifies bitmap
    ensures ScanOk(f.V(), bitmap[..], all) && |all| == |out| + entries
    ensures bitmap[..] == old(bitmap[..])[blk := true]
  {
    hide Inv, Quiet, ScanOk;
    ghost var seen := bitmap[..];
    CountsBounded(f.V(), blk);
    ScanBlockStep(f.V(), seen, out, blk);
    bitmap[blk] := true;
    assert bitmap[..] == seen[blk := true];
    var buf := f.blocks[blk];
    entries := buf.entries;
    all := out;
    var i := 0;
    assert buf.slots[..0] == [];
    while i < SLOTS
      invariant 0 <= i <= SLOTS
      invariant all == out + BlockReports(blk, buf.slots[..i])
    {
      assert buf.slots[..i + 1][..i] == buf.slots[..i];
      if buf.slots[i] != EMPTY {
        all := all + [Report(buf.slots[i], SlotOffset(blk, i))];
      }
      i := i + 1;
    }
    assert buf.slots[..SLOTS] == buf.slots;
  }

  /** What a reference read from a node of the walk leads to. */
  lemma RefLeads(v: View, k: Key, i: nat)
    requires Inv(v, ROOT, -1) && k in v.nodes && k.depth < DEPTH && i < FANOUT
    ensures IsNode(v.blocks, v.nodes[k])
    ensures v.blocks[v.nodes[k]].refs[i] == 0 <==> Child(k, i) !in v.nodes
    ensures Child(k, i) in v.nodes ==>
              && v.blocks[v.nodes[k]].refs[i] == v.nodes[Child(k, i)] < v.count
              && v.nodes[Child(k, i)] in v.role
              && (k.depth == DEPTH - 1 ==> v.role[v.nodes[Child(k, i)]] == DataRole)
  {
    ChildFacts(k, i);
    assert RefOk(v.blocks, v.nodes, k, i);
  }

  /** report_tree */
  method ReportTree(f: QuotaFile, blk: nat, ghost k: Key, depth: nat, bitmap: array<bool>, out: seq<Report>, count: nat)
    returns (ok: bool, all: seq<Report>, entries: nat)
    requires f.Valid() && bitmap.Length == f.dqiBlocks && ScanOk(f.V(), bitmap[..], out) && count == |out|
    requires k in f.nodes && f.nodes[k] == blk && k.depth == depth < DEPTH
    modifies bitmap
    decreases DEPTH - depth
    ensures ok && ScanOk(f.V(), bitmap[..], all) && entries == |all|
    ensures Extends(old(bitmap[..]), bitmap[..]) && Covered(f.V(), bitmap[..], k)
  {
    hide Inv, Quiet, ScanOk, Covered;
    all, entries := out, count;
    ghost var v := f.V();
    RefLeads(v, k, 0);
    var buf := f.blocks[blk];
    var i := 0;
    while i < FANOUT
      invariant 0 <= i <= FANOUT && f.V() == v
      invariant ScanOk(v, bitmap[..], all) && entries == |all|
      invariant Extends(old(bitmap[..]), bitmap[..])
      invariant forall j {:trigger Child(k, j)} :: 0 <= j < i ==> Covered(v, bitmap[..], Child(k, j))
    {
      ghost var before := bitmap[..];
      ghost var c := Child(k, i);
      RefLeads(v, k, i);
      var ref := buf.refs[i];
      if ref == 0 {
        AbsentIsCovered(v, bitmap[..], c);
      } else if ref >= f.dqiBlocks {
        return false, all, entries;
      } else if depth == DEPTH - 1 {
        if !bitmap[ref] {
          var n: nat;
          all, n := ReportBlock(f, ref, bitmap, all);
          entries := entries + n;
        }
        LeafIsCovered(v, bitmap[..], c);
      } else {
        ok, all, entries := ReportTree(f, ref, c, depth + 1, bitmap, all, entries);
        if !ok {
          return false, all, entries;
        }
      }
      forall j {:trigger Child(k, j)} | 0 <= j < i ensures Covered(v, bitmap[..], Child(k, j)) {
        CoveredExtends(v, before, bitmap[..], Child(k, j));
      }
      i := i + 1;
    }
    ChildrenCover(v, bitmap[..], k);
    ok := true;
  }

  function CountTrue(s: seq<bool>): nat {
    if s == [] then 0 else CountTrue(s[..|s| - 1]) + (if s[|s| - 1] then 1 else 0)
  }

  lemma {:induction false} CountTrueIsSize(s: seq<bool>)
    ensures CountTrue(s) == |set i | 0 <= i < |s| && s[i]|
  {
    if s != [] {
      var n := |s| - 1;
      CountTrueIsSize(s[..n]);
      var rest := set i | 0 <= i < n && s[..n][i];
      assert (set i | 0 <= i < |s| && s[i]) == if s[n] then rest + {n} else rest;
    }
  }

  /** find_set_bits */
  method FindSetBits(bitmap: array<bool>) returns (used: nat)
    ensures used == |set i | 0 <= i < bitmap.Length && bitmap[i]|
  {
    used := 0;
    var i := 0;
    assert bitmap[..0] == [];
    while i < bitmap.Length
      invariant 0 <= i <= bitmap.Length
      invariant used == CountTrue(bitmap[..i])
    {
      assert bitmap[..i + 1][..i] == bitmap[..i];
      if bitmap[i] {
        used := used + 1;
      }
      i := i + 1;
    }
    CountTrueIsSize(bitmap[..i]);
    assert (set j | 0 <= j < |bitmap[..i]| && bitmap[..i][j]) == (set j | 0 <= j < bitmap.Length && bitmap[j]);
  }

  ghost function DataBlocks(v: View): set<nat> {
    set b | b in v.role && v.role[b] == DataRole
  }

  /** A complete, repetition-free list of records. */
  ghost predicate Lists(out: seq<Report>, stored: map<nat, Record>) {
    && NoIdTwice(out)
    && (forall r :: r in out ==> r.rec.id in stored && stored[r.rec.id] == r.rec)
    && (forall id :: id in stored ==> Reported(out, id))
  }

  lemma {:induction false} ListsCount(out: seq<Report>, ids: set<nat>)
    requires NoIdTwice(out)
    requires forall r :: r in out ==> r.rec.id in ids
    requires forall id :: id in ids ==> Reported(out, id)
    ensures |out| == |ids|
  {
    if out == [] {
      assert ids == {};
    } else {
      var n := |out| - 1;
      var last := out[n].rec.id;
      assert out[n] in out;
      forall id | id in ids - {last} ensures Reported(out[..n], id) {
        var i :| 0 <= i < |out| && out[i].rec.id == id;
        assert out[..n][i].rec.id == id;
      }
      forall r | r in out[..n] ensures r.rec.id in ids - {last} {
        var i :| 0 <= i < n && out[i] == r;
        assert r in out;
      }
      ListsCount(out[..n], ids - {last});
      assert ids == (ids - {last}) + {last};
    }
  }

  lemma EmptyScan(v: View, seen: seq<bool>)
    requires Inv(v, ROOT, -1) && |seen| == v.count && forall b :: 0 <= b < |seen| ==> !seen[b]
    ensures ScanOk(v, seen, [])
  {
  }

  /** A scan that covers the root has read every data block and reported every record. */
  lemma FullScan(v: View, seen: seq<bool>, out: seq<Report>)
    requires Inv(v, ROOT, -1) && ScanOk(v, seen, out) && Covered(v, seen, ROOT)
    ensures Lists(out, Contents(v)) && |out| == |Contents(v)|
    ensures (set i | 0 <= i < |seen| && seen[i]) == DataBlocks(v)
  {
    forall id | id in v.slotOf ensures SeenHome(v, seen, id) && Reported(out, id) {
      IdsMatch(v, id);
    }
    forall b | b in DataBlocks(v) ensures b < |seen| && seen[b] {
      var id := SomeIdIn(v, b);
      assert SeenHome(v, seen, id);
    }
    forall r | r in out ensures r.rec.id in Contents(v) && Contents(v)[r.rec.id] == r.rec {
      assert Truthful(v, seen, r);
    }
    ListsCount(out, Contents(v).Keys);
  }

  /** Every data block holds some id. */
  lemma SomeIdIn(v: View, b: nat) returns (id: nat)
    requires Inv(v, ROOT, -1) && b in v.role && v.role[b] == DataRole
    ensures id in v.slotOf && IdKey(id) in v.nodes && v.nodes[IdKey(id)] == b
  {
    assert HeaderOk(v.blocks, v.nodes, -1, b);
    CountBounds(v.blocks[b].slots);
    var s :| 0 <= s < SLOTS && v.blocks[b].slots[s] != EMPTY;
    assert SlotOwned(v.blocks, v.nodes, v.slotOf, b, s);
    id := v.blocks[b].slots[s].id;
  }

  /** qtree_scan_dquots */
  method ScanDquots(f: QuotaFile) returns (ok: bool, reports: seq<Report>, usedEntries: nat, dataBlocks: nat)
    requires f.Valid()
    ensures ok
    ensures Lists(reports, f.Map())
    ensures usedEntries == |f.Map()|
    ensures dataBlocks == |DataBlocks(f.V())|
  {
    hide Inv, Quiet, ScanOk, Covered, Lists, DataBlocks;
    ghost var v := f.V();
    RootIsPath(v, 0);
    var bitmap := new bool[f.dqiBlocks](i => false);
    EmptyScan(v, bitmap[..]);
    ok, reports, usedEntries := ReportTree(f, ROOT_BLOCK, ROOT, 0, bitmap, [], 0);
    FullScan(v, bitmap[..], reports);
    dataBlocks := FindSetBits(bitmap);
    assert (set i | 0 <= i < |bitmap[..]| && bitmap[..][i]) == (set i | 0 <= i < bitmap.Length && bitmap[i]);
  }

  // ---- the file as a whole

  ghost function TreeBlocks(v: View): set<nat> {
    set b | b in v.role && v.role[b].TreeRole?
  }

  ghost function FreeBlocks(v: View): set<nat> {
    set b | b in v.freeList
  }

  ghost predicate InUse(v: View, b: nat) {
    b in TreeBlocks(v) || b in DataBlocks(v) || b in FreeBlocks(v)
  }

  /**
    In a quota file at rest the blocks after the header are exactly the tree blocks,
    each the node of one key, the data blocks, each home of some id, and the blocks
    of the free list, each listed once.
   */
  lemma BlocksPartitioned(v: View)
    requires Inv(v, ROOT, -1) && Quiet(v.role)
    ensures forall b: nat :: InUse(v, b) <==> 1 <= b < v.count
    ensures TreeBlocks(v) !! DataBlocks(v) !! FreeBlocks(v)
    ensures forall k, l ::
              k in v.nodes && l in v.nodes && k.depth < DEPTH && l.depth < DEPTH && v.nodes[k] == v.nodes[l] ==> k == l
    ensures TreeBlocks(v) == set k | k in v.nodes && k.depth < DEPTH :: v.nodes[k]
    ensures DataBlocks(v) == set k | k in v.nodes && k.depth == DEPTH :: v.nodes[k]
    ensures forall b :: b in v.entryList <==> b in DataBlocks(v) && CountUsed(v.blocks[b].slots) < SLOTS
  {
    assert forall k :: k in v.nodes && k.depth < DEPTH ==> v.role[v.nodes[k]] == TreeRole(k);
    forall b | b in DataBlocks(v)
      ensures b in v.blocks && v.blocks[b].Data? && v.blocks[b].entries == CountUsed(v.blocks[b].slots)
    {
      assert HeaderOk(v.blocks, v.nodes, -1, b);
    }
    forall b | b in DataBlocks(v) ensures exists k :: k in v.nodes && k.depth == DEPTH && v.nodes[k] == b {
      var id := SomeIdIn(v, b);
      assert IdKey(id) in v.nodes;
    }
    forall b | b in TreeBlocks(v) ensures exists k :: k in v.nodes && k.depth < DEPTH && v.nodes[k] == b {
      var k := v.role[b].key;
      assert k in v.nodes && v.role[v.nodes[k]] == v.role[b];
    }
  }
}
