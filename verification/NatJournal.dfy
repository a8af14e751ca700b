/**
  The node address table with its journal (fsck/mount.c): looking up a nid, flushing the
  journal into the table, and the table that fsck builds from both.
 */
module NatJournal {
  const ENTRIES: nat := 455

  datatype Entry = Entry(ino: nat, addr: nat)

  const NONE := Entry(0, 0)

  datatype Item = Item(nid: nat, e: Entry)

  predicate InTable(j: seq<Item>, n: nat) { forall i :: 0 <= i < |j| ==> j[i].nid < n }

  predicate Distinct(j: seq<Item>) { forall i, k :: 0 <= i < k < |j| ==> j[i].nid != j[k].nid }

  /** The first item of the journal for a nid, or its length. */
  function First(j: seq<Item>, nid: nat): (i: nat)
    ensures i <= |j| && (i < |j| ==> j[i].nid == nid) && forall k :: 0 <= k < i ==> j[k].nid != nid
    decreases |j|
  {
    if j == [] then 0 else if j[0].nid == nid then 0 else 1 + First(j[1..], nid)
  }

  /** What the last item among the first n says about a nid, over what the table says. */
  function Over(t: seq<Entry>, j: seq<Item>, n: nat, nid: nat): Entry
    requires n <= |j| && nid < |t|
  {
    if n == 0 then t[nid] else if j[n - 1].nid == nid then j[n - 1].e else Over(t, j, n - 1, nid)
  }

  /** get_nat_entry: the first item in the journal wins */
  function Lookup(t: seq<Entry>, j: seq<Item>, nid: nat): Entry
    requires nid < |t|
  {
    if First(j, nid) < |j| then j[First(j, nid)].e else t[nid]
  }

  /** An item that a nid has comes first or has one before it. */
  lemma {:induction false} OverIsLast(t: seq<Entry>, j: seq<Item>, n: nat, nid: nat) returns (i: int)
    requires n <= |j| && nid < |t|
    ensures -1 <= i < n && (i >= 0 ==> j[i].nid == nid && Over(t, j, n, nid) == j[i].e)
    ensures (forall k :: i < k < n ==> j[k].nid != nid) && (i == -1 ==> Over(t, j, n, nid) == t[nid])
  {
    if n == 0 { i := -1; } else if j[n - 1].nid == nid { i := n - 1; } else { i := OverIsLast(t, j, n - 1, nid); }
  }

  /** The first and the last word on a nid are the same. */
  predicate Settled(t: seq<Entry>, j: seq<Item>, nid: nat)
    requires nid < |t|
  {
    forall k :: 0 <= k < |j| && j[k].nid == nid && (forall m :: k < m < |j| ==> j[m].nid != nid) ==>
        j[k].e == Lookup(t, j, nid)
  }

  lemma LookupIsOver(t: seq<Entry>, j: seq<Item>, nid: nat)
    requires nid < |t|
    ensures Settled(t, j, nid) <==> Over(t, j, |j|, nid) == Lookup(t, j, nid)
    ensures Distinct(j) ==> Settled(t, j, nid)
  {
    var i := OverIsLast(t, j, |j|, nid);
  }

  class Nat {
    var table: seq<Entry>
    var journal: seq<Item>

    constructor (table: seq<Entry>, journal: seq<Item>)
      ensures this.table == table && this.journal == journal
    {
      this.table, this.journal := table, journal;
    }

    /** lookup_nat_in_journal */
    method LookupInJournal(nid: nat) returns (i: int)
      ensures i == (if First(journal, nid) < |journal| then First(journal, nid) else -1)
    {
      i := 0;
      while i < |journal|
        invariant 0 <= i <= |journal| && forall k :: 0 <= k < i ==> journal[k].nid != nid
      {
        if journal[i].nid == nid {
          return;
        }
        i := i + 1;
      }
      return -1;
    }

    /** get_nat_entry */
    method GetNatEntry(nid: nat) returns (e: Entry)
      requires nid < |table|
      ensures e == Lookup(table, journal, nid)
    {
      var i := LookupInJournal(nid);
      e := if i >= 0 then journal[i].e else table[nid];
    }

    /** flush_nat_journal_entries: every lookup is the same afterwards exactly where first and last item agree. */
    method Flush() returns (flushed: nat)
      requires InTable(journal, |table|)
      modifies this
      ensures journal == [] && flushed == |old(journal)| && |table| == old(|table|)
      ensures forall nid: nat :: nid < |table| ==>
                Lookup(table, journal, nid) == Over(old(table), old(journal), |old(journal)|, nid)
      ensures forall nid: nat :: nid < |table| ==>
                (Lookup(table, journal, nid) == Lookup(old(table), old(journal), nid) <==>
                    Settled(old(table), old(journal), nid))
      ensures Distinct(old(journal)) ==> forall nid: nat :: nid < |table| ==>
                Lookup(table, journal, nid) == Lookup(old(table), old(journal), nid)
    {
      var i := 0;
      while i < |journal|
        invariant i <= |journal| && journal == old(journal) && |table| == old(|table|)
        invariant forall nid: nat :: nid < |table| ==> table[nid] == Over(old(table), journal, i, nid)
      {
        table := table[journal[i].nid := journal[i].e];
        i := i + 1;
      }
      journal := [];
      flushed := i;
      forall nid: nat | nid < |table|
        ensures Settled(old(table), old(journal), nid) <==> table[nid] == Lookup(old(table), old(journal), nid)
        ensures Distinct(old(journal)) ==> Settled(old(table), old(journal), nid)
      {
        LookupIsOver(old(table), old(journal), nid);
      }
    }
  }

  // ---- the table fsck works on

  /** The live nids below n that are not in `skip`. */
  function Live(t: seq<Entry>, skip: set<nat>, n: nat): nat
    requires n <= |t|
  {
    if n == 0 then 0 else Live(t, skip, n - 1) + if n - 1 !in skip && t[n - 1].addr != 0 then 1 else 0
  }

  /** The live nids below n that are. */
  function LiveIn(t: seq<Entry>, skip: set<nat>, n: nat): nat
    requires n <= |t|
  {
    if n == 0 then 0 else LiveIn(t, skip, n - 1) + if n - 1 in skip && t[n - 1].addr != 0 then 1 else 0
  }

  lemma {:induction false} LiveSplit(t: seq<Entry>, skip: set<nat>, n: nat)
    requires n <= |t|
    ensures Live(t, {}, n) == Live(t, skip, n) + LiveIn(t, skip, n)
  {
    if n > 0 { LiveSplit(t, skip, n - 1); }
  }

  lemma {:induction false} LiveUpdate(t: seq<Entry>, n: nat, nid: nat, e: Entry)
    requires n <= |t| && nid < |t|
    ensures Live(t[nid := e], {}, n)
         == Live(t, {}, n) + if nid < n then (if e.addr != 0 then 1 else 0) - (if t[nid].addr != 0 then 1 else 0) else 0
  {
    if n > 0 { LiveUpdate(t, n - 1, nid, e); }
  }

  /** The live nids below n whose entry says that they are inodes. */
  function Inodes(t: seq<Entry>, n: nat): nat
    requires n <= |t|
  {
    if n == 0 then 0 else Inodes(t, n - 1) + IsInode(t[n - 1], n - 1)
  }

  function IsInode(e: Entry, nid: nat): nat { if e.addr != 0 && e.ino == nid then 1 else 0 }

  lemma {:induction false} InodesUpdate(t: seq<Entry>, n: nat, nid: nat, e: Entry)
    requires n <= |t| && nid < |t|
    ensures Inodes(t[nid := e], n) == Inodes(t, n) + if nid < n then IsInode(e, nid) - IsInode(t[nid], nid) else 0
  {
    if n > 0 { InodesUpdate(t, n - 1, nid, e); }
  }

  /** An entry as fsck keeps it: nothing is kept of one without an address. */
  function Kept(e: Entry): Entry { if e.addr == 0 then NONE else e }

  /** 1 when nid 0 is live in the table, which it must not be. */
  function Zero(table: seq<Entry>): int { if |table| > 0 && table[0].addr != 0 then 1 else 0 }

  /** The table without the node and meta inodes. */
  function Base(table: seq<Entry>, special: set<nat>): (t: seq<Entry>)
    ensures |t| == |table|
  {
    seq(|table|, k requires 0 <= k < |table| => if k in special then NONE else table[k])
  }

  /** What table and journal together say, item over item. */
  function Final(table: seq<Entry>, journal: seq<Item>, special: set<nat>): (t: seq<Entry>)
    ensures |t| == |table|
  {
    seq(|table|, k requires 0 <= k < |table| => Over(Base(table, special), journal, |journal|, k))
  }

  /** The last item for a nid is a live one. */
  ghost predicate EndsLive(j: seq<Item>, nid: nat) {
    exists i :: 0 <= i < |j| && j[i].nid == nid && j[i].e.addr != 0 && forall k :: i < k < |j| ==> j[k].nid != nid
  }

  /** Some item among the first n for a nid is a live one. */
  ghost predicate EverLive(j: seq<Item>, n: nat, nid: nat)
    requires n <= |j|
  {
    exists i :: 0 <= i < n && j[i].nid == nid && j[i].e.addr != 0
  }

  /** The node and meta inodes below n that end live in the journal. */
  ghost function SpecialLive(j: seq<Item>, special: set<nat>, n: nat): nat {
    if n == 0 then 0 else SpecialLive(j, special, n - 1) + if n - 1 in special && EndsLive(j, n - 1) then 1 else 0
  }

  /** How far the count of valid entries is off: live items for special nids, and what the journal does to nid 0. */
  ghost function Off(table: seq<Entry>, journal: seq<Item>, special: set<nat>): int {
    SpecialLive(journal, special, |table|)
    + (if |table| > 0 && Over(table, journal, |journal|, 0).addr != 0 then 1 else 0) - Zero(table)
  }

  /**
    build_nat_area_bitmap: fsck's entries, bitmap and counts, all given by table and journal.  The count of valid
    entries is that of the ordinary live nids exactly when `Off` is 0, as it is when the journal has no other nids.
   */
  method BuildArea(table: seq<Entry>, journal: seq<Item>, special: set<nat>)
    returns (entries: seq<Entry>, bitmap: seq<bool>, count: int, inodes: int)
    requires |table| % ENTRIES == 0 && InTable(journal, |table|) && 0 !in special
    ensures |entries| == |table| == |bitmap|
    ensures forall nid: nat :: nid < |table| ==> Kept(entries[nid]) == Kept(Final(table, journal, special)[nid])
    ensures forall nid: nat :: nid < |table| ==> (bitmap[nid] <==> Marked(table, journal, special, |journal|, nid))
    ensures forall nid: nat :: nid < |table| && nid !in special ==>
              && Kept(entries[nid]) == Kept(Over(table, journal, |journal|, nid)) &&
                   (bitmap[nid] <==> entries[nid].addr != 0)
              && (Distinct(journal) ==> Kept(entries[nid]) == Kept(Lookup(table, journal, nid)))
    ensures count == Live(Final(table, journal, special), {0} + special, |table|) + Off(table, journal, special)
    ensures Ordinary(journal, special) ==> Off(table, journal, special) == 0
    ensures inodes == Inodes(Final(table, journal, special), |table|)
  {
    hide Live, LiveIn, Inodes, Over, Lookup, Final, Marked, Off, Kept;
    entries, bitmap, count, inodes := LoadTable(table, special);
    LoadedIsMerged(table, journal, special, entries, bitmap, count, inodes);
    entries, bitmap, count, inodes := MergeJournal(table, journal, special, entries, bitmap, count, inodes);
    MergedIsFinal(table, journal, special, entries, bitmap, count, inodes);
    CountIsOff(table, journal, special);
    if Ordinary(journal, special) { OrdinaryIsRight(table, journal, special); }
    forall nid: nat | nid < |table|
      ensures Distinct(journal) ==> Over(table, journal, |journal|, nid) == Lookup(table, journal, nid)
    {
      LookupIsOver(table, journal, nid);
    }
  }

  /** nid 0 and the node and meta inodes are not ordinary. */
  predicate Ordinary(j: seq<Item>, special: set<nat>) {
    forall i :: 0 <= i < |j| ==> j[i].nid != 0 && j[i].nid !in special
  }

  /**
    The bit of a nid: live ones have it; a special one without live items has it when the table has the wrong
    address for it.
   */
  ghost predicate Marked(table: seq<Entry>, journal: seq<Item>, special: set<nat>, n: nat, nid: nat)
    requires n <= |journal| && nid < |table|
  {
    if nid in special && !EverLive(journal, n, nid) then table[nid].addr != 1
    else Over(Base(table, special), journal, n, nid).addr != 0
  }

  /** The first loop: what the table itself says. */
  method LoadTable(table: seq<Entry>, special: set<nat>)
    returns (entries: seq<Entry>, bitmap: seq<bool>, count: int, inodes: int)
    requires |table| % ENTRIES == 0 && 0 !in special
    ensures Loaded(table, special, entries, bitmap, count, inodes, |table|)
  {
    hide Live, Inodes;
    entries := seq(|table|, _ => NONE);
    bitmap := seq(|table|, _ => false);
    count, inodes := 0, 0;
    LiveNone(entries, |table|);
    var blockOff := 0;
    while blockOff < |table| / ENTRIES
      invariant 0 <= blockOff <= |table| / ENTRIES
      invariant Loaded(table, special, entries, bitmap, count, inodes, blockOff * ENTRIES)
    {
      for i := 0 to ENTRIES
        invariant Loaded(table, special, entries, bitmap, count, inodes, blockOff * ENTRIES + i)
      {
        var nid: nat := blockOff * ENTRIES + i;
        if nid in special {
          if table[nid].addr != 1 {
            bitmap := bitmap[nid := true];
          }
        } else if table[nid].addr != 0 {
          LiveUpdate(entries, |table|, nid, table[nid]);
          InodesUpdate(entries, |table|, nid, table[nid]);
          if table[nid].ino == nid {
            inodes := inodes + 1;
          }
          if nid == 0 {
            count := count - 1;
          }
          bitmap := bitmap[nid := true];
          count := count + 1;
          entries := entries[nid := table[nid]];
        }
      }
      blockOff := blockOff + 1;
    }
  }

  lemma LoadedIsMerged(table: seq<Entry>, journal: seq<Item>, special: set<nat>, entries: seq<Entry>, bitmap: seq<bool>,
                       count: int, inodes: int)
    requires Loaded(table, special, entries, bitmap, count, inodes, |table|) && 0 !in special
    ensures Merged(table, journal, special, entries, bitmap, count, inodes, 0)
  {
    hide Live, Inodes;
  }

  /** The second loop: items of the journal replace what the table says. */
  method MergeJournal(table: seq<Entry>, journal: seq<Item>, special: set<nat>, start: seq<Entry>, bits: seq<bool>,
                      n: int, m: int)
    returns (entries: seq<Entry>, bitmap: seq<bool>, count: int, inodes: int)
    requires InTable(journal, |table|) && 0 !in special && Merged(table, journal, special, start, bits, n, m, 0)
    ensures Merged(table, journal, special, entries, bitmap, count, inodes, |journal|)
  {
    hide Live, Inodes, EverLive;
    entries, bitmap, count, inodes := start, bits, n, m;
    var i := 0;
    while i < |journal|
      invariant i <= |journal| && Merged(table, journal, special, entries, bitmap, count, inodes, i)
    {
      var nid, raw := journal[i].nid, journal[i].e;
      LiveUpdate(entries, |table|, nid, raw);
      InodesUpdate(entries, |table|, nid, raw);
      forall k: nat | k < |table|
        ensures EverLive(journal, i + 1, k) <==> EverLive(journal, i, k) || (k == nid && raw.addr != 0)
        ensures Over(Base(table, special), journal, i, k).addr != 0 && k in special ==> EverLive(journal, i, k)
      {
        EverNext(journal, i, k);
        LiveEver(Base(table, special), journal, i, k);
      }
      if entries[nid].addr != 0 {
        count := count - 1;
        bitmap := bitmap[nid := false];
        if entries[nid].ino == nid {
          inodes := inodes - 1;
        }
      }
      if raw.addr != 0 {
        if raw.ino == nid {
          inodes := inodes + 1;
        }
        bitmap := bitmap[nid := true];
        count := count + 1;
      }
      entries := entries[nid := raw];
      i := i + 1;
    }
  }

  lemma EverNext(j: seq<Item>, n: nat, nid: nat)
    requires n < |j|
    ensures EverLive(j, n + 1, nid) <==> EverLive(j, n, nid) || (j[n].nid == nid && j[n].e.addr != 0)
  {
  }

  lemma {:induction false} LiveEver(t: seq<Entry>, j: seq<Item>, n: nat, nid: nat)
    requires n <= |j| && nid < |t|
    ensures Over(t, j, n, nid).addr != 0 ==> EverLive(j, n, nid) || t[nid].addr != 0
  {
    if n > 0 { LiveEver(t, j, n - 1, nid); }
  }

  lemma {:induction false} LiveNone(t: seq<Entry>, n: nat)
    requires n <= |t| && forall k :: 0 <= k < |t| ==> t[k] == NONE
    ensures Live(t, {}, n) == 0 && Inodes(t, n) == 0
  {
    if n > 0 { LiveNone(t, n - 1); }
  }

  /** The first n nids of the table have been taken over. */
  predicate Loaded(table: seq<Entry>, special: set<nat>, entries: seq<Entry>, bitmap: seq<bool>, count: int,
                   inodes: int, n: nat) {
    && n <= |table| && |entries| == |table| == |bitmap| && inodes == Inodes(entries, |entries|)
    && count == Live(entries, {}, |entries|) - (if n > 0 then Zero(table) else 0)
    && (forall k: nat :: n <= k < |table| ==> entries[k] == NONE && !bitmap[k])
    && (forall k: nat :: k < n ==> entries[k] == if k in special then NONE else Kept(table[k]))
    && (forall k: nat :: k < n ==> (bitmap[k] <==> if k in special then table[k].addr != 1 else table[k].addr != 0))
  }

  /** The first n items of the journal have been taken over. */
  ghost predicate Merged(table: seq<Entry>, journal: seq<Item>, special: set<nat>, entries: seq<Entry>,
                         bitmap: seq<bool>,
                         count: int, inodes: int, n: nat)
    requires n <= |journal|
  {
    && |entries| == |table| == |bitmap| && inodes == Inodes(entries, |entries|)
    && count == Live(entries, {}, |entries|) - Zero(table)
    && (forall k: nat :: k < |table| ==> Kept(entries[k]) == Kept(Over(Base(table, special), journal, n, k)))
    && (forall k: nat :: k < |table| ==> (bitmap[k] <==> Marked(table, journal, special, n, k)))
  }

  // ---- the counts by table and journal alone

  lemma {:induction false} SameCounts(t: seq<Entry>, u: seq<Entry>, skip: set<nat>, n: nat)
    requires |t| == |u| && n <= |t| && forall k: nat :: k < n ==> Kept(t[k]) == Kept(u[k])
    ensures Live(t, skip, n) == Live(u, skip, n) && Inodes(t, n) == Inodes(u, n)
  {
    if n > 0 { SameCounts(t, u, skip, n - 1); }
  }

  lemma {:induction false} OverBase(table: seq<Entry>, journal: seq<Item>, special: set<nat>, n: nat, nid: nat)
    requires n <= |journal| && nid < |table| && nid !in special
    ensures Over(Base(table, special), journal, n, nid) == Over(table, journal, n, nid)
  {
    if n > 0 { OverBase(table, journal, special, n - 1, nid); }
  }

  lemma MergedIsFinal(table: seq<Entry>, journal: seq<Item>, special: set<nat>, entries: seq<Entry>, bitmap: seq<bool>,
                      count: int, inodes: int)
    requires Merged(table, journal, special, entries, bitmap, count, inodes, |journal|)
    ensures forall nid: nat :: nid < |table| ==> Kept(entries[nid]) == Kept(Final(table, journal, special)[nid])
    ensures forall nid: nat :: nid < |table| && nid !in special ==>
              Kept(entries[nid]) == Kept(Over(table, journal, |journal|, nid)) &&
                  (bitmap[nid] <==> entries[nid].addr != 0)
    ensures count == Live(Final(table, journal, special), {}, |table|) - Zero(table)
    ensures inodes == Inodes(Final(table, journal, special), |table|)
  {
    hide Live, Inodes;
    SameCounts(entries, Final(table, journal, special), {}, |table|);
    forall nid: nat | nid < |table| && nid !in special
      ensures Over(Base(table, special), journal, |journal|, nid) == Over(table, journal, |journal|, nid)
    {
      OverBase(table, journal, special, |journal|, nid);
    }
  }

  /** A special nid is live in the end exactly when its last item is. */
  lemma SpecialEnds(table: seq<Entry>, journal: seq<Item>, special: set<nat>, nid: nat)
    requires nid < |table| && nid in special
    ensures Over(Base(table, special), journal, |journal|, nid).addr != 0 <==> EndsLive(journal, nid)
  {
    var i := OverIsLast(Base(table, special), journal, |journal|, nid);
  }

  lemma {:induction false} CountSpecial(table: seq<Entry>, journal: seq<Item>, special: set<nat>, n: nat)
    requires n <= |table| && 0 !in special
    ensures LiveIn(Final(table, journal, special), {0} + special, n)
         == SpecialLive(journal, special, n) + if n > 0 && Over(table, journal, |journal|, 0).addr != 0 then 1 else 0
  {
    hide Over, EndsLive;
    if n > 0 {
      CountSpecial(table, journal, special, n - 1);
      if n - 1 in special { SpecialEnds(table, journal, special, n - 1); }
      OverBase(table, journal, special, |journal|, 0);
    }
  }

  /** The count is that of the ordinary live nids, and off by `Off`. */
  lemma CountIsOff(table: seq<Entry>, journal: seq<Item>, special: set<nat>)
    requires 0 !in special
    ensures Live(Final(table, journal, special), {}, |table|) - Zero(table)
         == Live(Final(table, journal, special), {0} + special, |table|) + Off(table, journal, special)
  {
    hide Final, Over;
    LiveSplit(Final(table, journal, special), {0} + special, |table|);
    CountSpecial(table, journal, special, |table|);
  }

  lemma {:induction false} NoneSpecial(j: seq<Item>, special: set<nat>, n: nat)
    requires forall i :: 0 <= i < |j| ==> j[i].nid !in special
    ensures SpecialLive(j, special, n) == 0
  {
    if n > 0 { NoneSpecial(j, special, n - 1); }
  }

  lemma OrdinaryIsRight(table: seq<Entry>, journal: seq<Item>, special: set<nat>)
    requires Ordinary(journal, special)
    ensures Off(table, journal, special) == 0
  {
    NoneSpecial(journal, special, |table|);
    if |table| > 0 { var i := OverIsLast(table, journal, |journal|, 0); }
  }

  /** One live item for the node inode, and nothing else: the count says 1 and no ordinary nid is live. */
  lemma OffExample()
    ensures var table, journal := seq(ENTRIES, _ => NONE), [Item(1, Entry(9, 9))];
            && InTable(journal, |table|) && Off(table, journal, {1, 2}) == 1
            && Live(Final(table, journal, {1, 2}), {0, 1, 2}, |table|) == 0
  {
    var table, journal := seq(ENTRIES, _ => NONE), [Item(1, Entry(9, 9))];
    assert EndsLive(journal, 1) && !EndsLive(journal, 2) by { assert journal[0].nid == 1; }
    OneSpecial(journal, |table|);
    OneItem(table, journal, 0);
    forall k: nat | k < |table| ensures k !in {0, 1, 2} ==> Final(table, journal, {1, 2})[k].addr == 0 {
      OneItem(Base(table, {1, 2}), journal, k);
    }
    NoneOrdinary(Final(table, journal, {1, 2}), {0, 1, 2}, |table|);
  }

  lemma OneItem(t: seq<Entry>, j: seq<Item>, nid: nat)
    requires |j| == 1 && nid < |t|
    ensures Over(t, j, 1, nid) == if j[0].nid == nid then j[0].e else t[nid]
  {
    assert Over(t, j, 0, nid) == t[nid];
  }

  lemma {:induction false} OneSpecial(j: seq<Item>, n: nat)
    requires EndsLive(j, 1) && !EndsLive(j, 2)
    ensures SpecialLive(j, {1, 2}, n) == if n > 1 then 1 else 0
  {
    hide EndsLive;
    if n > 0 { OneSpecial(j, n - 1); }
  }

  lemma {:induction false} NoneOrdinary(t: seq<Entry>, skip: set<nat>, n: nat)
    requires n <= |t| && forall k: nat :: k < |t| && k !in skip ==> t[k].addr == 0
    ensures Live(t, skip, n) == 0
  {
    if n > 0 { NoneOrdinary(t, skip, n - 1); }
  }
}
