/**
  One block of directory entries (fsck/dir.c): entries take one slot for every eight bytes
  of their name, a bitmap says which slots are taken, and the names lie side by side.
 */
module Dentry {
  const NR: nat := 214
  const SLOT: nat := 8

  datatype Entry = Entry(hash: nat, len: nat, ino: nat, kind: int)

  datatype Block = Block(bits: seq<bool>, dents: seq<Entry>, names: seq<int>)

  datatype Option = None | Some(at: nat)

  predicate Shaped(d: Block) { |d.bits| == NR && |d.dents| == NR && |d.names| == NR * SLOT }

  /** GET_DENTRY_SLOTS */
  function Slots(len: nat): nat { (len + SLOT - 1) / SLOT }

  predicate Taken(d: Block, lo: nat, hi: nat)
    requires Shaped(d) && hi <= NR
  {
    forall k :: lo <= k < hi ==> d.bits[k]
  }

  predicate Free(d: Block, lo: nat, hi: nat)
    requires Shaped(d) && hi <= NR
  {
    forall k :: lo <= k < hi ==> !d.bits[k]
  }

  /** From slot p on the block is free slots and whole entries. */
  predicate WellFormed(d: Block, p: nat)
    requires Shaped(d)
    decreases NR - p
  {
    && p <= NR
    && (p == NR ||
        if !d.bits[p] then WellFormed(d, p + 1)
        else
          var s := Slots(d.dents[p].len);
          s > 0 && p + s <= NR && Taken(d, p, p + s) && WellFormed(d, p + s))
  }

  function NameAt(d: Block, p: nat, len: nat): seq<int>
    requires Shaped(d) && p * SLOT + len <= NR * SLOT
  {
    d.names[p * SLOT..p * SLOT + len]
  }

  predicate Matches(d: Block, p: nat, name: seq<int>, hash: nat)
    requires Shaped(d) && p < NR && p * SLOT + |name| <= NR * SLOT
  {
    d.dents[p].len == |name| && d.dents[p].hash == hash && NameAt(d, p, |name|) == name
  }

  /** The entry with a name, searching from slot p on. */
  function FindFrom(d: Block, name: seq<int>, hash: nat, p: nat): Option
    requires Shaped(d) && WellFormed(d, p)
    decreases NR - p
  {
    if p == NR then None
    else if !d.bits[p] then FindFrom(d, name, hash, p + 1)
    else if d.dents[p].len == |name| && Matches(d, p, name, hash) then Some(p)
    else FindFrom(d, name, hash, p + Slots(d.dents[p].len))
  }

  /** find_target_dentry */
  method FindTarget(d: Block, name: seq<int>, hash: nat) returns (r: Option)
    requires Shaped(d) && WellFormed(d, 0)
    ensures r == FindFrom(d, name, hash, 0)
  {
    var p := 0;
    while p < NR
      invariant p <= NR && WellFormed(d, p) && FindFrom(d, name, hash, p) == FindFrom(d, name, hash, 0)
    {
      if !d.bits[p] {
        p := p + 1;
        continue;
      }
      if d.dents[p].len == |name| && d.dents[p].hash == hash && d.names[p * SLOT..p * SLOT + |name|] == name {
        return Some(p);
      }
      p := p + Slots(d.dents[p].len);
    }
    return None;
  }

  // ---- room for a name

  predicate Room(d: Block, p: nat, slots: nat)
    requires Shaped(d)
  {
    p + slots <= NR && Free(d, p, p + slots)
  }

  /** The first run of free slots that is long enough, from slot p on; NR if there is none. */
  function FirstRoom(d: Block, slots: nat, p: nat): (r: nat)
    requires Shaped(d) && p <= NR && slots > 0
    ensures p <= r <= NR && (r < NR ==> Room(d, r, slots)) && forall q: nat :: p <= q < r ==> !Room(d, q, slots)
    decreases NR - p
  {
    if p == NR || Room(d, p, slots) then p else FirstRoom(d, slots, p + 1)
  }

  /** room_for_filename */
  method RoomFor(d: Block, slots: nat) returns (r: nat)
    requires Shaped(d) && slots > 0
    ensures r == FirstRoom(d, slots, 0)
  {
    var start := 0;
    while true
      invariant start <= NR
      invariant forall p: nat :: p < start ==> !Room(d, p, slots)
      decreases NR - start
    {
      var zero := start;
      while zero < NR && d.bits[zero]
        invariant start <= zero <= NR && Taken(d, start, zero)
      {
        zero := zero + 1;
      }
      forall p: nat | start <= p < zero ensures !Room(d, p, slots) {
        assert d.bits[p];
      }
      if zero >= NR {
        return NR;
      }
      var end := zero + 1;
      while end < NR && !d.bits[end]
        invariant zero < end <= NR && Free(d, zero, end)
      {
        end := end + 1;
      }
      if end - zero >= slots {
        assert Room(d, zero, slots);
        return zero;
      }
      forall p: nat | zero <= p < end ensures !Room(d, p, slots) {
        assert end < NR ==> d.bits[end];
      }
      start := end;
    }
  }

  // ---- adding an entry

  /** f2fs_update_dentry; the byte it writes behind the name is dropped when it would lie behind the block. */
  function Updated(d: Block, p: nat, name: seq<int>, e: Entry): (r: Block)
    requires Shaped(d) && p + Slots(|name|) <= NR && e.len == |name| > 0
    ensures Shaped(r)
  {
    var at, end := p * SLOT, p * SLOT + |name|;
    var named := d.names[..at] + name + d.names[end..];
    Block(seq(NR, k requires 0 <= k < NR => d.bits[k] || p <= k < p + Slots(|name|)),
          d.dents[p := e], if end < NR * SLOT then named[end := 0] else named)
  }

  /** The entry right behind the new one loses the first byte of its name: exactly when the name fills its slots. */
  predicate Spoils(d: Block, p: nat, name: seq<int>)
    requires Shaped(d) && p + Slots(|name|) <= NR
  {
    |name| % SLOT == 0 && p + Slots(|name|) < NR && d.bits[p + Slots(|name|)] &&
        d.names[(p + Slots(|name|)) * SLOT] != 0
  }

  /** The name of the entry behind, before and after it is spoiled, with the hash of that entry. */
  predicate Affected(d: Block, p: nat, name: seq<int>, other: seq<int>, hash: nat)
    requires Shaped(d) && p + Slots(|name|) <= NR
  {
    && Spoils(d, p, name) && var q := p + Slots(|name|);
    && d.dents[q].hash == hash && d.dents[q].len == |other| > 0 && q + Slots(|other|) <= NR
    && (other == NameAt(d, q, |other|) || other == NameAt(d, q, |other|)[0 := 0])
  }

  /** In a free run the search goes slot by slot. */
  lemma {:induction false} SkipFree(d: Block, p: nat, n: nat, name: seq<int>, hash: nat)
    requires Shaped(d) && WellFormed(d, p) && p + n <= NR && Free(d, p, p + n)
    ensures WellFormed(d, p + n) && FindFrom(d, name, hash, p + n) == FindFrom(d, name, hash, p)
    decreases n
  {
    if n > 0 { SkipFree(d, p + 1, n - 1, name, hash); }
  }

  /** Names apart from the new one stay as they are unless one is spoiled. */
  lemma OtherName(d: Block, p: nat, name: seq<int>, e: Entry, q: nat)
    requires Shaped(d) && p + Slots(|name|) <= NR && e.len == |name| > 0 && q < NR
    requires q + Slots(d.dents[q].len) <= p || p + Slots(|name|) <= q
    requires Slots(d.dents[q].len) > 0 && q + Slots(d.dents[q].len) <= NR && d.bits[q]
    ensures !Spoils(d, p, name) || q != p + Slots(|name|) ==>
              NameAt(Updated(d, p, name, e), q, d.dents[q].len) == NameAt(d, q, d.dents[q].len)
    ensures Spoils(d, p, name) && q == p + Slots(|name|) ==>
              NameAt(Updated(d, p, name, e), q, d.dents[q].len) != NameAt(d, q, d.dents[q].len)
  {
    var r, len := Updated(d, p, name, e), d.dents[q].len;
    var lo, hi := q * SLOT, q * SLOT + len;
    assert len > 0;
    if Spoils(d, p, name) && q == p + Slots(|name|) {
      assert lo == p * SLOT + |name|;
      assert NameAt(r, q, len)[0] == r.names[lo] == 0;
      assert NameAt(d, q, len)[0] == d.names[lo];
    } else {
      forall k | lo <= k < hi ensures r.names[k] == d.names[k] {
        var at, end := p * SLOT, p * SLOT + |name|;
        assert k < at || end <= k;
      }
    }
  }

  lemma SlotsPositive(len: nat)
    ensures len > 0 <==> Slots(len) > 0
  {
  }

  /** Free and taken slots do not overlap. */
  lemma Apart(d: Block, p: nat, n: nat, q: nat, s: nat)
    requires Shaped(d) && n > 0 && s > 0 && Room(d, p, n) && q + s <= NR && Taken(d, q, q + s)
    ensures q + s <= p || p + n <= q
  {
    var k := if p < q then q else p;
    assert d.bits[k] || !d.bits[k];
  }

  /** The step of the search at an entry that is not the new one. */
  lemma EntryKept(d: Block, p: nat, name: seq<int>, e: Entry, q: nat, other: seq<int>, hash: nat)
    requires Shaped(d) && e.len == |name| > 0 && Room(d, p, Slots(|name|))
    requires q < NR && d.bits[q] && Slots(d.dents[q].len) > 0 && q + Slots(d.dents[q].len) <= NR
    requires Taken(d, q, q + Slots(d.dents[q].len))
    ensures var r := Updated(d, p, name, e);
            && r.dents[q] == d.dents[q] && r.bits[q] && Taken(r, q, q + Slots(d.dents[q].len))
            && (q + Slots(d.dents[q].len) <= p || p + Slots(|name|) <= q)
            && ((q < p || !Affected(d, p, name, other, hash)) && d.dents[q].len == |other| ==>
                  (Matches(r, q, other, hash) <==> Matches(d, q, other, hash)))
  {
    SlotsPositive(|name|);
    Apart(d, p, Slots(|name|), q, Slots(d.dents[q].len));
    if d.dents[q].len == |other| { MatchKept(d, p, name, e, q, other, hash); }
  }

  lemma MatchKept(d: Block, p: nat, name: seq<int>, e: Entry, q: nat, other: seq<int>, hash: nat)
    requires Shaped(d) && e.len == |name| > 0 && p + Slots(|name|) <= NR
    requires q < NR && d.bits[q] && Slots(d.dents[q].len) > 0 && q + Slots(d.dents[q].len) <= NR
    requires (q + Slots(d.dents[q].len) <= p || p + Slots(|name|) <= q) && d.dents[q].len == |other|
    ensures q < p || !Affected(d, p, name, other, hash) ==>
              (Matches(Updated(d, p, name, e), q, other, hash) <==> Matches(d, q, other, hash))
  {
    hide Updated, NameAt, Spoils;
    SlotsPositive(|other|);
    SlotsPositive(|name|);
    OtherName(d, p, name, e, q);
    UpdatedDents(d, p, name, e);
    if Spoils(d, p, name) && q == p + Slots(|name|) { SpoiledIs(d, p, name, e); }
  }

  lemma UpdatedDents(d: Block, p: nat, name: seq<int>, e: Entry)
    requires Shaped(d) && p + Slots(|name|) <= NR && e.len == |name| > 0
    ensures p < NR && Updated(d, p, name, e).dents == d.dents[p := e]
  {
  }

  /** What becomes of the name behind. */
  lemma SpoiledIs(d: Block, p: nat, name: seq<int>, e: Entry)
    requires Shaped(d) && e.len == |name| > 0 && p + Slots(|name|) <= NR && Spoils(d, p, name)
    requires var q := p + Slots(|name|); d.dents[q].len > 0 && q + Slots(d.dents[q].len) <= NR
    ensures var q := p + Slots(|name|); var len := d.dents[q].len;
            && NameAt(Updated(d, p, name, e), q, len) == NameAt(d, q, len)[0 := 0] != NameAt(d, q, len)
            && Updated(d, p, name, e).dents[q] == d.dents[q]
  {
    var r, q := Updated(d, p, name, e), p + Slots(|name|);
    var lo, len := q * SLOT, d.dents[q].len;
    assert lo == p * SLOT + |name|;
    assert forall k :: lo < k < lo + len ==> r.names[k] == d.names[k];
    assert NameAt(r, q, len)[0] == 0 && NameAt(d, q, len)[0] == d.names[lo];
  }

  /** Behind the new entry nothing changes. */
  lemma {:induction false} KeptBehind(d: Block, p: nat, name: seq<int>, e: Entry, q: nat, other: seq<int>, hash: nat)
    requires Shaped(d) && e.len == |name| > 0 && Room(d, p, Slots(|name|)) && p + Slots(|name|) <= q && WellFormed(d, q)
    ensures var r := Updated(d, p, name, e);
            WellFormed(r, q) && (!Affected(d, p, name, other, hash) ==>
                FindFrom(r, other, hash, q) == FindFrom(d, other, hash, q))
    decreases NR - q
  {
    if q < NR {
      var r := Updated(d, p, name, e);
      if d.bits[q] {
        EntryKept(d, p, name, e, q, other, hash);
        KeptBehind(d, p, name, e, q + Slots(d.dents[q].len), other, hash);
      } else {
        assert !r.bits[q];
        KeptBehind(d, p, name, e, q + 1, other, hash);
      }
    }
  }

  /** The new entry is found, and no other name is affected but the one it spoils. */
  lemma {:induction false} Added(d: Block, p: nat, name: seq<int>, e: Entry, q: nat, other: seq<int>, hash: nat)
    requires Shaped(d) && e.len == |name| > 0 && Room(d, p, Slots(|name|)) && q <= p && WellFormed(d, q)
    ensures var r := Updated(d, p, name, e);
            && WellFormed(r, q)
            && (!Affected(d, p, name, other, hash) && (other != name || hash != e.hash) ==>
                  FindFrom(r, other, hash, q) == FindFrom(d, other, hash, q))
            && (other == name && hash == e.hash && FindFrom(d, other, hash, q) == None ==>
                 FindFrom(r, other, hash, q) == Some(p))
    decreases NR - q
  {
    var r := Updated(d, p, name, e);
    if q == p {
      NewEntry(d, p, name, e);
      SkipFree(d, p, Slots(|name|), other, hash);
      KeptBehind(d, p, name, e, p + Slots(|name|), other, hash);
    } else if d.bits[q] {
      EntryKept(d, p, name, e, q, other, hash);
      Added(d, p, name, e, q + Slots(d.dents[q].len), other, hash);
    } else {
      assert !r.bits[q];
      Added(d, p, name, e, q + 1, other, hash);
    }
  }

  lemma NewEntry(d: Block, p: nat, name: seq<int>, e: Entry)
    requires Shaped(d) && e.len == |name| > 0 && Room(d, p, Slots(|name|))
    ensures var r := Updated(d, p, name, e);
            && p < NR && r.bits[p] && r.dents[p] == e && Taken(r, p, p + Slots(|name|)) && NameAt(r, p, |name|) == name
            && Slots(|name|) > 0
  {
    var r := Updated(d, p, name, e);
    var at, end := p * SLOT, p * SLOT + |name|;
    assert forall k :: at <= k < end ==> r.names[k] == name[k - at];
  }

  /** A run of free slots does not begin inside an entry, and does not end inside one. */
  lemma {:induction false} Reached(d: Block, p: nat, n: nat, q: nat)
    requires Shaped(d) && WellFormed(d, q) && q <= p && Room(d, p, n) && n > 0
    ensures WellFormed(d, p) && WellFormed(d, p + n)
    decreases p - q
  {
    if q == p {
      SkipFree(d, p, n, [], 0);
    } else if d.bits[q] {
      Apart(d, p, n, q, Slots(d.dents[q].len));
      Reached(d, p, n, q + Slots(d.dents[q].len));
    } else {
      Reached(d, p, n, q + 1);
    }
  }

  /** Slot q holds an entry that a search comes to unless it stops before. */
  lemma {:induction false} StopsBy(d: Block, name: seq<int>, hash: nat, q: nat, p: nat)
    requires Shaped(d) && WellFormed(d, p) && p <= q < NR && d.bits[q] && Entered(d, p, q)
    requires d.dents[q].len == |name| && q * SLOT + |name| <= NR * SLOT
    ensures Matches(d, q, name, hash) ==> FindFrom(d, name, hash, p) != None
    ensures !Matches(d, q, name, hash) ==> FindFrom(d, name, hash, p) != Some(q)
    decreases q - p
  {
    if p < q {
      StopsBy(d, name, hash, q, if d.bits[p] then p + Slots(d.dents[p].len) else p + 1);
    } else {
      FoundBehind(d, name, hash, p + Slots(d.dents[p].len));
    }
  }

  /** The walk over the entries from slot p on comes to slot q. */
  predicate Entered(d: Block, p: nat, q: nat)
    requires Shaped(d) && WellFormed(d, p)
    decreases NR - p
  {
    p == q || (p < q && p < NR && Entered(d, if d.bits[p] then p + Slots(d.dents[p].len) else p + 1, q))
  }

  lemma {:induction false} FoundBehind(d: Block, name: seq<int>, hash: nat, p: nat)
    requires Shaped(d) && WellFormed(d, p)
    ensures FindFrom(d, name, hash, p).Some? ==> FindFrom(d, name, hash, p).at >= p
    decreases NR - p
  {
    if p < NR { FoundBehind(d, name, hash, if d.bits[p] then p + Slots(d.dents[p].len) else p + 1); }
  }

  /** The walk comes to the slot behind a free run, whatever is before. */
  lemma {:induction false} ComesBehind(d: Block, p: nat, n: nat, q: nat)
    requires Shaped(d) && WellFormed(d, q) && q <= p && Room(d, p, n) && n > 0
    ensures Entered(d, q, p + n) && Entered(d, q, p)
    decreases p + n - q
  {
    if q < p {
      if d.bits[q] { Apart(d, p, n, q, Slots(d.dents[q].len)); }
      ComesBehind(d, p, n, if d.bits[q] then q + Slots(d.dents[q].len) else q + 1);
    } else {
      FreeWalk(d, p, n);
    }
  }

  lemma {:induction false} FreeWalk(d: Block, p: nat, n: nat)
    requires Shaped(d) && WellFormed(d, p) && Room(d, p, n)
    ensures Entered(d, p, p + n)
    decreases n
  {
    if n > 0 { FreeWalk(d, p + 1, n - 1); }
  }

  /** The walk over the old entries is the same with the new one in place. */
  lemma {:induction false} SameWalk(d: Block, p: nat, name: seq<int>, e: Entry, q: nat)
    requires Shaped(d) && e.len == |name| > 0 && Room(d, p, Slots(|name|)) && q <= p && WellFormed(d, q)
    ensures WellFormed(Updated(d, p, name, e), q) && Entered(Updated(d, p, name, e), q, p + Slots(|name|))
    decreases p - q
  {
    var r := Updated(d, p, name, e);
    Added(d, p, name, e, q, [], 0);
    if q == p {
      NewEntry(d, p, name, e);
    } else if d.bits[q] {
      EntryKept(d, p, name, e, q, [], 0);
      SameWalk(d, p, name, e, q + Slots(d.dents[q].len));
    } else {
      assert !r.bits[q];
      SameWalk(d, p, name, e, q + 1);
    }
  }

  /**
    A name that fills its slots spoils the entry behind it: a lookup of the old name that came to that entry
    does not any more, and one of the name with a zero in front finds something now.
   */
  lemma SpoiledName(d: Block, p: nat, name: seq<int>, e: Entry, behind: seq<int>, hash: nat)
    requires Shaped(d) && WellFormed(d, 0) && e.len == |name| > 0 && Room(d, p, Slots(|name|)) && Spoils(d, p, name)
    requires Named(d, p + Slots(|name|), behind, hash)
    ensures WellFormed(Updated(d, p, name, e), 0) && |behind| > 0
    ensures FindFrom(d, behind, hash, 0) != None
    ensures FindFrom(Updated(d, p, name, e), behind, hash, 0) != Some(p + Slots(|name|))
    ensures FindFrom(Updated(d, p, name, e), behind[0 := 0], hash, 0) != None
  {
    hide Updated, FindFrom, NameAt, Entered;
    var q, r := p + Slots(|name|), Updated(d, p, name, e);
    SlotsPositive(|name|);
    Reached(d, p, Slots(|name|), 0);
    ComesBehind(d, p, Slots(|name|), 0);
    SlotsPositive(|behind|);
    SpoiledIs(d, p, name, e);
    SameWalk(d, p, name, e, 0);
    assert r.bits[q] by { BitsKept(d, p, name, e, q); }
    StopsBy(d, behind, hash, q, 0);
    StopsBy(r, behind, hash, q, 0);
    StopsBy(r, behind[0 := 0], hash, q, 0);
  }

  /** The entry at slot q has this name. */
  predicate Named(d: Block, q: nat, name: seq<int>, hash: nat)
    requires Shaped(d)
  {
    q < NR && q * SLOT + |name| <= NR * SLOT && Matches(d, q, name, hash)
  }

  lemma BitsKept(d: Block, p: nat, name: seq<int>, e: Entry, q: nat)
    requires Shaped(d) && p + Slots(|name|) <= NR && e.len == |name| > 0 && q < NR && d.bits[q]
    ensures Updated(d, p, name, e).bits[q]
  {
  }

  /** The block with the name behind spoiled and nothing else changed, if it is to be spoiled. */
  function Spoiled(d: Block, p: nat, name: seq<int>): (r: Block)
    requires Shaped(d) && p + Slots(|name|) <= NR
    ensures Shaped(r) && r.bits == d.bits && r.dents == d.dents
  {
    if Spoils(d, p, name) then d.(names := d.names[(p + Slots(|name|)) * SLOT := 0]) else d
  }

  lemma {:induction false} SpoiledFormed(d: Block, p: nat, name: seq<int>, q: nat)
    requires Shaped(d) && p + Slots(|name|) <= NR && WellFormed(d, q)
    ensures WellFormed(Spoiled(d, p, name), q)
    decreases NR - q
  {
    if q < NR { SpoiledFormed(d, p, name, if d.bits[q] then q + Slots(d.dents[q].len) else q + 1); }
  }

  /** Adding an entry is spoiling the name behind, and then adding it where it does no harm. */
  lemma SpoiledFirst(d: Block, p: nat, name: seq<int>, e: Entry)
    requires Shaped(d) && p + Slots(|name|) <= NR && e.len == |name| > 0
    ensures Updated(Spoiled(d, p, name), p, name, e) == Updated(d, p, name, e) && !Spoils(Spoiled(d, p, name), p, name)
  {
    var r, q := Spoiled(d, p, name), p + Slots(|name|);
    if Spoils(d, p, name) {
      assert q * SLOT == p * SLOT + |name|;
      assert Updated(r, p, name, e).names == Updated(d, p, name, e).names;
    }
  }

  /** The name behind is gone from its block when no other entry has it. */
  lemma {:induction false} SpoiledGone(d: Block, p: nat, name: seq<int>, behind: seq<int>, hash: nat, q: nat)
    requires Shaped(d) && WellFormed(d, q) && p + Slots(|name|) <= NR && Spoils(d, p, name) && q <= p + Slots(|name|)
    requires FindFrom(d, behind, hash, q) == Some(p + Slots(|name|)) && |behind| > 0
    requires WellFormed(d, p + Slots(|name|) + Slots(|behind|))
    requires FindFrom(d, behind, hash, p + Slots(|name|) + Slots(|behind|)) == None
    ensures WellFormed(Spoiled(d, p, name), q) && FindFrom(Spoiled(d, p, name), behind, hash, q) == None
    decreases NR - q
  {
    hide Spoiled, Spoils, NameAt, Taken;
    var at, r := p + Slots(|name|), Spoiled(d, p, name);
    SpoiledFormed(d, p, name, q);
    var next := if d.bits[q] then q + Slots(d.dents[q].len) else q + 1;
    FoundBehind(d, behind, hash, next);
    if q < at {
      if d.bits[q] && d.dents[q].len == |behind| { SpoiledOther(d, p, name, q, |behind|); }
      SpoiledGone(d, p, name, behind, hash, next);
    } else {
      SpoiledHere(d, p, name, |behind|);
      SpoiledBehind(d, p, name, behind, hash, at + Slots(|behind|));
    }
  }

  lemma SpoiledOther(d: Block, p: nat, name: seq<int>, q: nat, len: nat)
    requires Shaped(d) && p + Slots(|name|) <= NR && q * SLOT + len <= NR * SLOT
    requires q + Slots(len) <= p + Slots(|name|) || p + Slots(|name|) < q
    ensures NameAt(Spoiled(d, p, name), q, len) == NameAt(d, q, len)
  {
    var r := Spoiled(d, p, name);
    assert forall k :: q * SLOT <= k < q * SLOT + len ==> r.names[k] == d.names[k];
  }

  lemma SpoiledHere(d: Block, p: nat, name: seq<int>, len: nat)
    requires Shaped(d) && p + Slots(|name|) <= NR && Spoils(d, p, name) && len > 0
    requires (p + Slots(|name|)) * SLOT + len <= NR * SLOT
    ensures NameAt(Spoiled(d, p, name), p + Slots(|name|), len) != NameAt(d, p + Slots(|name|), len)
  {
    var r, q := Spoiled(d, p, name), p + Slots(|name|);
    assert NameAt(r, q, len)[0] == r.names[q * SLOT] == 0 && NameAt(d, q, len)[0] == d.names[q * SLOT];
  }

  lemma {:induction false} SpoiledBehind(d: Block, p: nat, name: seq<int>, other: seq<int>, hash: nat, q: nat)
    requires Shaped(d) && WellFormed(d, q) && p + Slots(|name|) < q <= NR
    ensures WellFormed(Spoiled(d, p, name), q)
    ensures FindFrom(Spoiled(d, p, name), other, hash, q) == FindFrom(d, other, hash, q)
    decreases NR - q
  {
    SpoiledFormed(d, p, name, q);
    if q < NR {
      if d.bits[q] && d.dents[q].len == |other| { SpoiledOther(d, p, name, q, |other|); }
      SpoiledBehind(d, p, name, other, hash, if d.bits[q] then q + Slots(d.dents[q].len) else q + 1);
    }
  }

  /** For example: a name of eight bytes goes in front of the name "a", which is then gone. */
  lemma SpoiledExample() returns (d: Block)
    ensures Shaped(d) && WellFormed(d, 0) && FirstRoom(d, 1, 0) == 0 && FindFrom(d, [97], 7, 0) == Some(1)
    ensures var r := Updated(d, 0, [98, 98, 98, 98, 98, 98, 98, 98], Entry(9, 8, 3, 1));
            WellFormed(r, 0) && FindFrom(r, [97], 7, 0) == None
  {
    hide WellFormed, FindFrom;
    d := Block(seq(NR, k => k == 1), seq(NR, _ => Entry(7, 1, 5, 1)), seq(NR * SLOT, _ => 97));
    var r := Updated(d, 0, [98, 98, 98, 98, 98, 98, 98, 98], Entry(9, 8, 3, 1));
    assert NameAt(d, 1, 1)[0] == 97 && NameAt(r, 1, 1)[0] == 0;
    OnlySecond(d, [97], 7);
    OnlySecond(r, [97], 7);
    assert Room(d, 0, 1);
  }

  /** A block with an entry of one byte in slot 1, and at most one of eight bytes in front of it. */
  lemma OnlySecond(d: Block, name: seq<int>, hash: nat)
    requires Shaped(d) && d.bits[1] && d.dents[1].len == 1 && Free(d, 2, NR) && (d.bits[0] ==> d.dents[0].len == 8)
    requires |name| == 1
    ensures WellFormed(d, 0) && FindFrom(d, name, hash, 0) == if Matches(d, 1, name, hash) then Some(1) else None
  {
    AllFree(d, 2);
    SkipFree(d, 2, NR - 2, name, hash);
    assert WellFormed(d, 1);
  }

  lemma {:induction false} AllFree(d: Block, p: nat)
    requires Shaped(d) && p <= NR && Free(d, p, NR)
    ensures WellFormed(d, p)
    decreases NR - p
  {
    if p < NR { AllFree(d, p + 1); }
  }
}
