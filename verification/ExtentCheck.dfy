/**
  The single-pass check of an inode's extent (fsck/fsck.c): one look at every block
  address of the file, in ascending order, decides whether the extent tells the truth.
 */
module ExtentCheck {
  const U32: nat := 0x1_0000_0000
  const NEW_ADDR: nat := 0xFFFF_FFFF

  datatype Ext = Ext(fofs: nat, blk: nat, len: nat) {
    predicate Ok() { fofs < U32 && blk < U32 && len < U32 }
  }

  /** An address the traversal meets, at its place in the file. */
  datatype Visit = Visit(pgofs: nat, addr: nat)

  /** No file is long enough for its last index to be the largest 32-bit number. */
  predicate Ascending(vs: seq<Visit>) {
    && (forall i :: 0 <= i < |vs| ==> vs[i].pgofs < U32 - 1 && vs[i].addr < U32)
    && forall i, j :: 0 <= i < j < |vs| ==> vs[i].pgofs < vs[j].pgofs
  }

  predicate Hole(a: nat) { a == 0 || a == NEW_ADDR }

  /** The address is where the extent puts block k. */
  predicate Maps(e: Ext, vs: seq<Visit>, k: nat, j: int) {
    0 <= j < |vs| && vs[j] == Visit(e.fofs + k, e.blk + k) && !Hole(vs[j].addr)
  }

  ghost predicate Mapped(e: Ext, vs: seq<Visit>, i: nat, k: nat) { exists j :: j < i && Maps(e, vs, k, j) }

  /** Nothing outside the extent's range of the file is in the extent. */
  predicate NoStranger(e: Ext, v: Visit) {
    e.fofs <= v.pgofs < e.fofs + e.len || Hole(v.addr) || v.addr < e.blk || v.addr >= e.blk + e.len
  }

  /** The extent describes the file, blocks that are not met counting as holes. */
  ghost predicate Truthful(e: Ext, vs: seq<Visit>) {
    && (forall k: nat :: k < e.len ==> Mapped(e, vs, |vs|, k))
    && forall j :: 0 <= j < |vs| ==> NoStranger(e, vs[j])
  }

  // ---- as the code computes it, in 32 bits

  predicate InRange(e: Ext, pgofs: nat) { e.fofs <= pgofs < (e.fofs + e.len) % U32 }
  predicate InExtent(e: Ext, addr: nat) { e.blk <= addr < (e.blk + e.len) % U32 }
  function LastOf(e: Ext): nat
    requires e.len > 0
  {
    (e.blk + e.len - 1) % U32
  }

  /** The one case the last test lets through: an extent whose last block would be block 0, of which nothing is met. */
  predicate Overlooked(e: Ext, vs: seq<Visit>) {
    && e.len > 0 && LastOf(e) == 0
    && forall j :: 0 <= j < |vs| ==> !InRange(e, vs[j].pgofs) && (Hole(vs[j].addr) || !InExtent(e, vs[j].addr))
  }

  /** So far m blocks of the extent have been met, in order, and nothing is wrong. */
  ghost predicate Met(e: Ext, vs: seq<Visit>, i: nat, m: nat, last: nat) {
    && i <= |vs| && m <= e.len && last == (if m == 0 then 0 else e.blk + m - 1)
    && (forall k: nat :: k < m ==> Mapped(e, vs, i, k))
    && (forall j :: 0 <= j < i && InRange(e, vs[j].pgofs) ==> vs[j].pgofs < e.fofs + m)
    && (m > 0 ==> exists j :: 0 <= j < i && InRange(e, vs[j].pgofs))
    && forall j :: 0 <= j < i && !InRange(e, vs[j].pgofs) ==> Hole(vs[j].addr) || !InExtent(e, vs[j].addr)
  }

  /** The tests at a block that do not find anything wrong. */
  predicate Passes(e: Ext, v: Visit, last: nat) {
    if InRange(e, v.pgofs) then
      && !Hole(v.addr) && v.addr == (v.pgofs - e.fofs + e.blk) % U32
      && if last == 0 then v.pgofs == e.fofs else (last + 1) % U32 == v.addr
    else
      Hole(v.addr) || !InExtent(e, v.addr)
  }

  ghost predicate BrokenAt(e: Ext, vs: seq<Visit>, i: nat, m: nat, last: nat) {
    i < |vs| && Met(e, vs, i, m, last) && !Passes(e, vs[i], last)
  }

  /** Something wrong has been met. */
  ghost predicate Broken(e: Ext, vs: seq<Visit>) { exists i: nat, m: nat, last: nat :: BrokenAt(e, vs, i, m, last) }

  /** What fsck carries along on its way through a file: the extent, the place in the file and the last block met. */
  class Child {
    const e: Ext
    var pgofs: nat
    var last: nat
    var unmatched: bool
    ghost var seen: seq<Visit>
    ghost var met: nat

    constructor (e: Ext)
      requires e.Ok()
      ensures this.e == e && pgofs == 0 && seen == [] && Valid() && Upto(0)
    {
      this.e, pgofs, last, unmatched, seen, met := e, 0, 0, false, [], 0;
    }

    ghost predicate Valid()
      reads this
    {
      && e.Ok() && Ascending(seen) && (e.len == 0 ==> !unmatched)
      && (e.len > 0 ==> if unmatched then Broken(e, seen) else Met(e, seen, |seen|, met, last))
    }

    ghost predicate Upto(n: nat)
      reads this
    {
      forall i :: 0 <= i < |seen| ==> seen[i].pgofs < n
    }

    /** check_extent_info at a block address of a file whose data is not inline */
    method CheckInfo(blkaddr: nat)
      requires Valid() && Upto(pgofs) && pgofs < U32 - 1 && blkaddr < U32
      modifies this`last, this`unmatched, this`seen, this`met
      ensures Valid() && Upto(pgofs + 1) && seen == old(seen) + [Visit(pgofs, blkaddr)]
    {
      hide Met, Ascending, Broken, BrokenAt, Passes;
      ghost var v := Visit(pgofs, blkaddr);
      AscendingNext(seen, v);
      PassesIs(e, v, last);
      if e.len > 0 { if unmatched { BrokenStays(e, seen, v); } else { NextMet(e, seen, v, met, last); } }
      seen := seen + [v];
      if e.len == 0 || unmatched {
        return;
      }
      if InRange(e, pgofs) {
        if Hole(blkaddr) || blkaddr != (pgofs - e.fofs + e.blk) % U32 {
          unmatched := true;
          return;
        }
        if last == 0 {
          if pgofs != e.fofs {
            unmatched := true;
            return;
          }
        } else if (last + 1) % U32 != blkaddr {
          unmatched := true;
          return;
        }
        last := blkaddr;
        met := met + 1;
        return;
      }
      if Hole(blkaddr) {
        return;
      }
      if blkaddr < e.blk || blkaddr >= (e.blk + e.len) % U32 {
        return;
      }
      unmatched := true;
    }

    /** check_extent_info once more at the end: clear for an extent that is true, or overlooked */
    method CheckLast()
      requires Valid()
      modifies this`unmatched
      ensures !unmatched <==> Truthful(e, seen) || Overlooked(e, seen)
    {
      if e.len == 0 {
        EmptyTruthful(e, seen);
        return;
      }
      if unmatched {
        BrokenMeans(e, seen);
        return;
      }
      LastTest(e, seen, met, last);
      if last != LastOf(e) {
        unmatched := true;
      }
    }
  }

  lemma AscendingNext(vs: seq<Visit>, v: Visit)
    requires Ascending(vs) && v.pgofs < U32 - 1 && v.addr < U32
    requires forall i :: 0 <= i < |vs| ==> vs[i].pgofs < v.pgofs
    ensures Ascending(vs + [v])
  {
  }

  lemma PassesIs(e: Ext, v: Visit, last: nat)
    ensures InRange(e, v.pgofs) ==>
              (Passes(e, v, last) <==>
                && !Hole(v.addr) && v.addr == (v.pgofs - e.fofs + e.blk) % U32
                && if last == 0 then v.pgofs == e.fofs else (last + 1) % U32 == v.addr)
    ensures !InRange(e, v.pgofs) ==> (Passes(e, v, last) <==> Hole(v.addr) || !InExtent(e, v.addr))
  {
  }

  /** One more block: all is well as before, or something is wrong for good. */
  lemma NextMet(e: Ext, vs: seq<Visit>, v: Visit, m: nat, last: nat)
    requires e.Ok() && e.len > 0 && Ascending(vs + [v]) && Met(e, vs, |vs|, m, last)
    ensures !Passes(e, v, last) ==> Broken(e, vs + [v])
    ensures Passes(e, v, last) && InRange(e, v.pgofs) ==> Met(e, vs + [v], |vs| + 1, m + 1, v.addr)
    ensures Passes(e, v, last) && !InRange(e, v.pgofs) ==> Met(e, vs + [v], |vs| + 1, m, last)
  {
    hide Met;
    MetStays(e, vs, v, |vs|, m, last);
    if !Passes(e, v, last) {
      assert BrokenAt(e, vs + [v], |vs|, m, last);
    } else if InRange(e, v.pgofs) {
      InStep(e, vs + [v], |vs|, m, last);
    } else {
      OutKeeps(e, vs + [v], |vs|, m, last);
    }
  }

  lemma MetStays(e: Ext, vs: seq<Visit>, v: Visit, i: nat, m: nat, last: nat)
    requires Met(e, vs, i, m, last)
    ensures Met(e, vs + [v], i, m, last)
  {
    forall k: nat | k < m ensures Mapped(e, vs + [v], i, k) {
      assert Mapped(e, vs, i, k);
      var j :| j < i && Maps(e, vs, k, j);
      assert Maps(e, vs + [v], k, j);
    }
    if m > 0 {
      var j :| 0 <= j < i && InRange(e, vs[j].pgofs);
      assert InRange(e, (vs + [v])[j].pgofs);
    }
  }

  lemma BrokenStays(e: Ext, vs: seq<Visit>, v: Visit)
    requires Broken(e, vs)
    ensures Broken(e, vs + [v])
  {
    var i: nat, m: nat, last: nat :| BrokenAt(e, vs, i, m, last);
    MetStays(e, vs, v, i, m, last);
    assert BrokenAt(e, vs + [v], i, m, last);
  }

  /** Whatever comes after it, something wrong makes the extent untrue, and it is not overlooked. */
  lemma BrokenMeans(e: Ext, vs: seq<Visit>)
    requires e.Ok() && e.len > 0 && Ascending(vs) && Broken(e, vs)
    ensures !Truthful(e, vs) && !Overlooked(e, vs)
  {
    var i: nat, m: nat, last: nat :| BrokenAt(e, vs, i, m, last);
    if InRange(e, vs[i].pgofs) { InFails(e, vs, i, m, last); } else { OutStep(e, vs, i); }
  }

  lemma EmptyTruthful(e: Ext, vs: seq<Visit>)
    requires e.len == 0
    ensures Truthful(e, vs)
  {
  }

  /** A true extent does not wrap. */
  lemma TruthBounds(e: Ext, vs: seq<Visit>)
    requires e.Ok() && Ascending(vs) && Truthful(e, vs) && e.len > 0
    ensures e.fofs + e.len < U32 && 0 < e.blk && e.blk + e.len < U32
  {
    assert Mapped(e, vs, |vs|, 0) && Mapped(e, vs, |vs|, e.len - 1);
  }

  /** The last block met is a real one. */
  lemma LastMet(e: Ext, vs: seq<Visit>, i: nat, m: nat, last: nat)
    requires e.Ok() && Ascending(vs) && Met(e, vs, i, m, last) && m > 0
    ensures last == e.blk + m - 1 && 0 < last && last + 1 < U32 && e.fofs + m < U32
  {
    assert Mapped(e, vs, i, m - 1);
  }

  lemma RangeBounds(e: Ext, pgofs: nat)
    requires e.Ok() && InRange(e, pgofs)
    ensures e.fofs + e.len < U32 && pgofs < e.fofs + e.len
  {
  }

  /** At a block of the range, a true extent continues where it was. */
  lemma TrueStep(e: Ext, vs: seq<Visit>, i: nat, m: nat, last: nat)
    requires e.Ok() && Ascending(vs) && i < |vs| && Met(e, vs, i, m, last) && InRange(e, vs[i].pgofs) && e.len > 0
    ensures Truthful(e, vs) ==> vs[i] == Visit(e.fofs + m, e.blk + m) && !Hole(vs[i].addr)
    ensures !Overlooked(e, vs)
  {
    if Truthful(e, vs) {
      RangeBounds(e, vs[i].pgofs);
      var k: nat := vs[i].pgofs - e.fofs;
      assert Mapped(e, vs, |vs|, k);
      var j :| j < |vs| && Maps(e, vs, k, j);
      assert j == i by { if j < i {} else if i < j {} }
      assert k < m ==> Mapped(e, vs, i, k);
      assert m < k ==> Mapped(e, vs, |vs|, m);
    }
  }

  /** The tests at a block of the range. */
  lemma InStep(e: Ext, vs: seq<Visit>, i: nat, m: nat, last: nat)
    requires e.Ok() && Ascending(vs) && i < |vs| && Met(e, vs, i, m, last) && InRange(e, vs[i].pgofs) && e.len > 0
    requires !Hole(vs[i].addr) && vs[i].addr == (vs[i].pgofs - e.fofs + e.blk) % U32
    requires if last == 0 then vs[i].pgofs == e.fofs else (last + 1) % U32 == vs[i].addr
    ensures Met(e, vs, i + 1, m + 1, vs[i].addr)
  {
    RangeBounds(e, vs[i].pgofs);
    if m > 0 { LastMet(e, vs, i, m, last); }
    assert vs[i] == Visit(e.fofs + m, e.blk + m);
    assert Maps(e, vs, m, i);
    var next := i + 1;
    forall k: nat | k < m + 1 ensures Mapped(e, vs, next, k) {
      if k < m { assert Mapped(e, vs, i, k); }
    }
  }

  /** A failed test at a block of the range. */
  lemma InFails(e: Ext, vs: seq<Visit>, i: nat, m: nat, last: nat)
    requires e.Ok() && Ascending(vs) && i < |vs| && Met(e, vs, i, m, last) && InRange(e, vs[i].pgofs) && e.len > 0
    requires || Hole(vs[i].addr) || vs[i].addr != (vs[i].pgofs - e.fofs + e.blk) % U32
             || if last == 0 then vs[i].pgofs != e.fofs else (last + 1) % U32 != vs[i].addr
    ensures !Truthful(e, vs) && !Overlooked(e, vs)
  {
    TrueStep(e, vs, i, m, last);
    if m > 0 { LastMet(e, vs, i, m, last); }
  }

  lemma OutStep(e: Ext, vs: seq<Visit>, i: nat)
    requires e.Ok() && Ascending(vs) && i < |vs| && !InRange(e, vs[i].pgofs) && !Hole(vs[i].addr)
    requires InExtent(e, vs[i].addr)
    ensures !Truthful(e, vs) && !Overlooked(e, vs)
  {
    if Truthful(e, vs) { TruthBounds(e, vs); }
  }

  lemma OutKeeps(e: Ext, vs: seq<Visit>, i: nat, m: nat, last: nat)
    requires Met(e, vs, i, m, last) && i < |vs| && !InRange(e, vs[i].pgofs)
    requires (Hole(vs[i].addr) || !InExtent(e, vs[i].addr))
    ensures Met(e, vs, i + 1, m, last)
  {
    var next := i + 1;
    forall k: nat | k < m ensures Mapped(e, vs, next, k) { assert Mapped(e, vs, i, k); }
  }

  /** With everything met, the last test decides. */
  lemma LastTest(e: Ext, vs: seq<Visit>, m: nat, last: nat)
    requires e.Ok() && Ascending(vs) && Met(e, vs, |vs|, m, last) && e.len > 0
    ensures last == LastOf(e) <==> Truthful(e, vs) || Overlooked(e, vs)
  {
    if m > 0 { LastMet(e, vs, |vs|, m, last); }
    if Truthful(e, vs) {
      TruthBounds(e, vs);
      assert m < e.len ==> Mapped(e, vs, |vs|, m);
    }
  }
}
