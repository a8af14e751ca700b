/**
  The two metadata areas that a resize moves over themselves, block by block: the node
  address table with its two sets of blocks, and the summary area (fsck/resize.c).
 */
module ResizeAreas {
  const PER_SEG: nat := 512
  /** Entries in a block of the node address table. */
  const ENTRIES: nat := 455

  // ---- the node address table

  type NatBlock = b: seq<int> | |b| == ENTRIES witness seq(ENTRIES, _ => 0)

  function Zeros(): NatBlock { seq(ENTRIES, _ => 0) }

  /** Block b of the table: segments of set 0 and set 1 take turns (current_nat_addr). */
  function NatAt(base: nat, b: nat, second: bool): nat {
    base + (b / PER_SEG) * (2 * PER_SEG) + b % PER_SEG + if second then PER_SEG else 0
  }

  predicate HasBlocks(dev: map<nat, NatBlock>, base: nat, n: nat) {
    forall b: nat, second: bool :: b < n ==> NatAt(base, b, second) in dev
  }

  predicate HasEntry(dev: map<nat, NatBlock>, base: nat, bitmap: seq<bool>, nid: nat) {
    nid / ENTRIES < |bitmap| && NatAt(base, nid / ENTRIES, bitmap[nid / ENTRIES]) in dev
  }

  /** What a nid maps to. */
  function Entry(dev: map<nat, NatBlock>, base: nat, bitmap: seq<bool>, nid: nat): int
    requires HasEntry(dev, base, bitmap, nid)
  {
    dev[NatAt(base, nid / ENTRIES, bitmap[nid / ENTRIES])][nid % ENTRIES]
  }

  predicate SameBlock(dev': map<nat, NatBlock>, a': nat, dev: map<nat, NatBlock>, a: nat) {
    a' in dev' && a in dev && dev'[a'] == dev[a]
  }

  /**
    Where the blocks are, in addresses: the table starts at its base, blocks of a segment follow one another, the
    segment behind is that of the other set, and the two copies of a block are a segment apart.
   */
  lemma NatLayout(base: nat, b: nat)
    ensures NatAt(base, 0, false) == base
    ensures NatAt(base, b, true) == NatAt(base, b, false) + PER_SEG
    ensures NatAt(base, b + 1, false) == NatAt(base, b, false) + if (b + 1) % PER_SEG == 0 then PER_SEG + 1 else 1
  {
  }

  lemma NatPlace(base: nat, s: nat, o: nat)
    requires o < PER_SEG
    ensures NatAt(base, s * PER_SEG + o, false) == base + 2 * s * PER_SEG + o
    ensures NatAt(base, s * PER_SEG + o, true) == base + 2 * s * PER_SEG + o + PER_SEG
  {
    var b := s * PER_SEG + o;
    assert b / PER_SEG == s && b % PER_SEG == o;
  }

  /** Block o of segment s of the table is in the first set of the new place as it was in the set in use of the old. */
  ghost predicate MovedTo(dev': map<nat, NatBlock>, newBase: nat, dev: map<nat, NatBlock>, oldBase: nat,
                          bitmap: seq<bool>, s: nat, o: nat)
  {
    var b := s * PER_SEG + o;
    b < |bitmap| ==>
      SameBlock(dev', newBase + 2 * s * PER_SEG + o,
                dev, oldBase + 2 * s * PER_SEG + o + if bitmap[b] then PER_SEG else 0)
  }

  lemma MovedInPlace(dev': map<nat, NatBlock>, newBase: nat, dev: map<nat, NatBlock>, oldBase: nat, bitmap: seq<bool>)
    requires forall b: nat :: b < |bitmap| ==>
               SameBlock(dev', NatAt(newBase, b, false), dev, NatAt(oldBase, b, bitmap[b]))
    ensures forall s: nat, o: nat :: o < PER_SEG ==> MovedTo(dev', newBase, dev, oldBase, bitmap, s, o)
  {
    hide NatAt;
    forall s: nat, o: nat | o < PER_SEG ensures MovedTo(dev', newBase, dev, oldBase, bitmap, s, o) {
      NatPlace(newBase, s, o);
      NatPlace(oldBase, s, o);
    }
  }

  /** A table that moves up by whole segments never writes over a block it has yet to read. */
  lemma NatApart(oldBase: nat, newBase: nat, b: nat, c: nat, second: bool)
    requires oldBase <= newBase && (newBase - oldBase) % PER_SEG == 0 && c < b
    ensures NatAt(newBase, b, false) != NatAt(oldBase, c, second)
  {
    var k := (newBase - oldBase) / PER_SEG;
    assert newBase == oldBase + k * PER_SEG;
    var d := NatAt(newBase, b, false) - NatAt(oldBase, c, second);
    var q := k + 2 * (b / PER_SEG) - 2 * (c / PER_SEG) - if second then 1 else 0;
    assert d == q * PER_SEG + b % PER_SEG - c % PER_SEG;
    if b / PER_SEG == c / PER_SEG { assert b % PER_SEG > c % PER_SEG; }
  }

  lemma NatDistinct(base: nat, b: nat, c: nat)
    requires b != c
    ensures NatAt(base, b, false) != NatAt(base, c, false)
  {
  }

  /** The device after the first n blocks have gone to set 0 of the new place, last block first. */
  function MovedNat(dev: map<nat, NatBlock>, bitmap: seq<bool>, oldBase: nat, newBase: nat, n: nat): map<nat, NatBlock>
    requires n <= |bitmap| && HasBlocks(dev, oldBase, n)
    decreases n
  {
    if n == 0 then dev
    else
      var b := n - 1;
      MovedNat(dev[NatAt(newBase, b, false) := dev[NatAt(oldBase, b, bitmap[b])]], bitmap, oldBase, newBase, b)
  }

  /** No block in use is written over before it is read. */
  predicate NatSafe(oldBase: nat, newBase: nat, bitmap: seq<bool>) {
    forall b, c :: 0 <= c < b < |bitmap| ==> NatAt(newBase, b, false) != NatAt(oldBase, c, bitmap[c])
  }

  /** Moving up by whole segments is safe, whatever sets are in use. */
  lemma UpIsSafe(oldBase: nat, newBase: nat, bitmap: seq<bool>)
    requires oldBase <= newBase && (newBase - oldBase) % PER_SEG == 0
    ensures NatSafe(oldBase, newBase, bitmap)
  {
    forall b, c | 0 <= c < b < |bitmap| ensures NatAt(newBase, b, false) != NatAt(oldBase, c, bitmap[c]) {
      NatApart(oldBase, newBase, b, c, bitmap[c]);
    }
  }

  /** A safe move puts every block in use where it belongs and touches nothing else. */
  lemma {:induction false} NatMoved(dev: map<nat, NatBlock>, bitmap: seq<bool>, oldBase: nat, newBase: nat, n: nat)
    requires n <= |bitmap| && HasBlocks(dev, oldBase, n) && NatSafe(oldBase, newBase, bitmap)
    ensures var r := MovedNat(dev, bitmap, oldBase, newBase, n);
            && (forall b: nat :: b < n ==> SameBlock(r, NatAt(newBase, b, false), dev, NatAt(oldBase, b, bitmap[b])))
            && (forall a :: a in dev && (forall b: nat :: b < n ==> NatAt(newBase, b, false) != a) ==>
                 a in r && r[a] == dev[a])
    decreases n
  {
    hide NatAt;
    if n > 0 {
      var b := n - 1;
      var dev' := dev[NatAt(newBase, b, false) := dev[NatAt(oldBase, b, bitmap[b])]];
      NatMoved(dev', bitmap, oldBase, newBase, b);
      forall c: nat | c < b ensures NatAt(newBase, b, false) != NatAt(newBase, c, false) { NatDistinct(newBase, b, c); }
    }
  }

  // ---- an unsafe move loses a block

  function Filled(x: int): NatBlock { seq(ENTRIES, _ => x) }

  /** Block c in use differs from everything else on the device. */
  function MarkedNat(at: nat, size: nat): map<nat, NatBlock> {
    map a: nat | a < size && Exists(a) :: if a == at then Filled(1) else Filled(2)
  }

  predicate NoOnes(dev: map<nat, NatBlock>, except: int) { forall a :: a in dev && a != except ==> dev[a][0] != 1 }

  lemma SourcesDiffer(base: nat, b: nat, x: bool, c: nat, y: bool)
    requires b != c
    ensures NatAt(base, b, x) != NatAt(base, c, y)
  {
  }

  lemma {:induction false} NatForgets(dev: map<nat, NatBlock>, bitmap: seq<bool>, oldBase: nat, newBase: nat, n: nat,
                                      b: nat, c: nat)
    requires n <= |bitmap| && HasBlocks(dev, oldBase, n) && c < b < |bitmap|
    requires NatAt(newBase, b, false) == NatAt(oldBase, c, bitmap[c]) && NatAt(newBase, c, false) in dev
    requires NoOnes(dev, if n <= b then -1 else NatAt(oldBase, c, bitmap[c]))
    ensures var r := MovedNat(dev, bitmap, oldBase, newBase, n);
            NatAt(newBase, c, false) in r && r[NatAt(newBase, c, false)][0] != 1
    decreases n
  {
    hide NatAt;
    if n > 0 {
      var k := n - 1;
      if k != c { SourcesDiffer(oldBase, k, bitmap[k], c, bitmap[c]); }
      NatForgets(dev[NatAt(newBase, k, false) := dev[NatAt(oldBase, k, bitmap[k])]], bitmap, oldBase, newBase, k, b, c);
    }
  }

  /** Where a block would be written over before it is read, some image loses it. */
  lemma NatLost(oldBase: nat, newBase: nat, bitmap: seq<bool>, b: nat, c: nat, size: nat)
    requires c < b < |bitmap| && NatAt(newBase, b, false) == NatAt(oldBase, c, bitmap[c])
    requires forall k: nat, x: bool :: k < |bitmap| ==> NatAt(oldBase, k, x) < size && NatAt(newBase, k, x) < size
    ensures var dev := MarkedNat(NatAt(oldBase, c, bitmap[c]), size);
            && HasBlocks(dev, oldBase, |bitmap|)
            && !SameBlock(MovedNat(dev, bitmap, oldBase, newBase, |bitmap|), NatAt(newBase, c, false), dev,
                 NatAt(oldBase, c, bitmap[c]))
  {
    hide NatAt;
    var dev := MarkedNat(NatAt(oldBase, c, bitmap[c]), size);
    NatForgets(dev, bitmap, oldBase, newBase, |bitmap|, b, c);
    assert dev[NatAt(oldBase, c, bitmap[c])][0] == 1;
  }

  /** Every block in use is where it belongs. */
  ghost predicate NatInPlace(dev: map<nat, NatBlock>, bitmap: seq<bool>, oldBase: nat, newBase: nat)
    requires HasBlocks(dev, oldBase, |bitmap|)
  {
    var r := MovedNat(dev, bitmap, oldBase, newBase, |bitmap|);
    forall b: nat :: b < |bitmap| ==> SameBlock(r, NatAt(newBase, b, false), dev, NatAt(oldBase, b, bitmap[b]))
  }

  lemma NatBelow(base: nat, b: nat, x: bool, n: nat)
    requires b < n
    ensures NatAt(base, b, x) < base + 2 * n + 2 * PER_SEG
  {
  }

  /** Safe moves are exactly those that put every block in its place on every image. */
  lemma NatSafeIsExact(oldBase: nat, newBase: nat, bitmap: seq<bool>)
    ensures NatSafe(oldBase, newBase, bitmap) <==>
              forall dev :: HasBlocks(dev, oldBase, |bitmap|) ==> NatInPlace(dev, bitmap, oldBase, newBase)
  {
    hide NatAt, MovedNat;
    if NatSafe(oldBase, newBase, bitmap) {
      forall dev | HasBlocks(dev, oldBase, |bitmap|) ensures NatInPlace(dev, bitmap, oldBase, newBase) {
        NatMoved(dev, bitmap, oldBase, newBase, |bitmap|);
      }
    } else {
      var b: nat, c: nat :| c < b < |bitmap| && NatAt(newBase, b, false) == NatAt(oldBase, c, bitmap[c]);
      var size := oldBase + newBase + 2 * |bitmap| + 2 * PER_SEG;
      forall k: nat, x: bool | k < |bitmap| ensures NatAt(oldBase, k, x) < size && NatAt(newBase, k, x) < size {
        NatBelow(oldBase, k, x, |bitmap|);
        NatBelow(newBase, k, x, |bitmap|);
      }
      NatLost(oldBase, newBase, bitmap, b, c, size);
      assert !NatInPlace(MarkedNat(NatAt(oldBase, c, bitmap[c]), size), bitmap, oldBase, newBase);
    }
  }

  class NatArea {
    var dev: map<nat, NatBlock>
    var bitmap: seq<bool>

    constructor (dev: map<nat, NatBlock>, bitmap: seq<bool>)
      ensures this.dev == dev && this.bitmap == bitmap
    {
      this.dev, this.bitmap := dev, bitmap;
    }

    /** migrate_nat, for a table that ends on a block boundary: where the move is safe, every nid keeps its entry. */
    method MigrateNat(oldBase: nat, newBase: nat, newBlocks: nat)
      requires HasBlocks(dev, oldBase, |bitmap|)
      modifies this
      ensures |bitmap| == old(|bitmap|) && forall b :: 0 <= b < |bitmap| ==> !bitmap[b]
      ensures old(NatSafe(oldBase, newBase, bitmap)) ==> forall nid: nat :: nid < ENTRIES * |bitmap| ==>
                HasEntry(dev, newBase, bitmap, nid) &&
                    Entry(dev, newBase, bitmap, nid) == old(Entry(dev, oldBase, bitmap, nid))
      ensures old(NatSafe(oldBase, newBase, bitmap)) ==>
                forall s: nat, o: nat :: o < PER_SEG ==>
                    MovedTo(dev, newBase, old(dev), oldBase, old(bitmap), s, o)
      ensures forall b: nat :: |bitmap| <= b < newBlocks ==>
                NatAt(newBase, b, false) in dev && dev[NatAt(newBase, b, false)] == Zeros()
      ensures forall b: nat, k: nat :: |bitmap| <= b < newBlocks && k < ENTRIES ==>
                dev[NatAt(newBase, b, false)][k] == 0
      ensures old(NatSafe(oldBase, newBase, bitmap)) ==>
                forall a :: a in old(dev) && !Written(newBase, |bitmap|, newBlocks, a) ==>
                    a in dev && dev[a] == old(dev)[a]
    {
      hide NatAt, MovedNat, NatSafe, MovedTo;
      MoveBlocks(oldBase, newBase);
      ghost var moved, safe := dev, NatSafe(oldBase, newBase, old(bitmap));
      if safe { NatMoved(old(dev), old(bitmap), oldBase, newBase, |bitmap|); }
      ZeroBlocks(newBase, newBlocks);
      if safe { MovedInPlace(dev, newBase, old(dev), oldBase, old(bitmap)); }
      forall nid: nat | nid < ENTRIES * |bitmap| && safe
        ensures HasEntry(dev, newBase, bitmap, nid) &&
                  Entry(dev, newBase, bitmap, nid) == old(Entry(dev, oldBase, bitmap, nid))
      {
        var b := nid / ENTRIES;
        assert SameBlock(moved, NatAt(newBase, b, false), old(dev), NatAt(oldBase, b, old(bitmap)[b]));
      }
      forall a | a in old(dev) && !Written(newBase, |bitmap|, newBlocks, a) && safe
        ensures a in dev && dev[a] == old(dev)[a]
      {
        forall b: nat | b < |bitmap| || b < newBlocks ensures NatAt(newBase, b, false) != a {
          NotWritten(newBase, |bitmap|, newBlocks, a, b);
        }
      }
    }

    /** The first loop: every block in use goes to set 0 of the new place, last block first. */
    method MoveBlocks(oldBase: nat, newBase: nat)
      requires HasBlocks(dev, oldBase, |bitmap|)
      modifies this
      ensures |bitmap| == old(|bitmap|) && forall b :: 0 <= b < |bitmap| ==> !bitmap[b]
      ensures dev == MovedNat(old(dev), old(bitmap), oldBase, newBase, |bitmap|)
      ensures old(NatSafe(oldBase, newBase, bitmap)) ==>
                forall s: nat, o: nat :: o < PER_SEG ==>
                    MovedTo(dev, newBase, old(dev), oldBase, old(bitmap), s, o)
    {
      hide NatAt, NatSafe, MovedTo;
      var nid: int := ENTRIES * |bitmap| - 1;
      while nid >= 0
        invariant -1 <= nid < ENTRIES * |bitmap| && (nid + 1) % ENTRIES == 0 && |bitmap| == old(|bitmap|)
        invariant forall a :: a in old(dev) ==> a in dev
        invariant forall b: nat :: b < |bitmap| ==>
                    bitmap[b] == (if b < (nid + 1) / ENTRIES then old(bitmap)[b] else false)
        invariant MovedNat(dev, old(bitmap), oldBase, newBase, (nid + 1) / ENTRIES) ==
                    MovedNat(old(dev), old(bitmap), oldBase, newBase, |bitmap|)
      {
        var b := nid / ENTRIES;
        assert b == (nid + 1) / ENTRIES - 1;
        var from := NatAt(oldBase, b, bitmap[b]);
        if bitmap[b] {
          bitmap := bitmap[b := false];
        }
        dev := dev[NatAt(newBase, b, false) := dev[from]];
        nid := nid - ENTRIES;
      }
      if NatSafe(oldBase, newBase, old(bitmap)) {
        NatMoved(old(dev), old(bitmap), oldBase, newBase, |bitmap|);
        MovedInPlace(dev, newBase, old(dev), oldBase, old(bitmap));
      }
    }

    /** The second loop: new blocks start empty. */
    method ZeroBlocks(newBase: nat, newBlocks: nat)
      modifies this`dev
      ensures forall b: nat :: |bitmap| <= b < newBlocks ==>
                NatAt(newBase, b, false) in dev && dev[NatAt(newBase, b, false)] == Zeros()
      ensures forall b: nat, k: nat :: |bitmap| <= b < newBlocks && k < ENTRIES ==>
                dev[NatAt(newBase, b, false)][k] == 0
      ensures forall b: nat :: b < |bitmap| && NatAt(newBase, b, false) in old(dev) ==>
                SameBlock(dev, NatAt(newBase, b, false), old(dev), NatAt(newBase, b, false))
      ensures forall a :: a in old(dev) && (forall b: nat :: b < newBlocks ==> NatAt(newBase, b, false) != a) ==>
                a in dev && dev[a] == old(dev)[a]
    {
      hide NatAt;
      var n := |bitmap|;
      while n < newBlocks
        invariant |bitmap| <= n && (newBlocks >= |bitmap| ==> n <= newBlocks)
        invariant forall a :: a in old(dev) ==> a in dev
        invariant forall b: nat :: b < |bitmap| && NatAt(newBase, b, false) in old(dev) ==>
                    dev[NatAt(newBase, b, false)] == old(dev)[NatAt(newBase, b, false)]
        invariant forall b: nat :: |bitmap| <= b < n ==>
                    NatAt(newBase, b, false) in dev && dev[NatAt(newBase, b, false)] == Zeros()
        invariant forall a :: a in old(dev) && (forall b: nat :: b < newBlocks ==> NatAt(newBase, b, false) != a) ==>
                    dev[a] == old(dev)[a]
      {
        forall c: nat | c != n
          ensures NatAt(newBase, n, false) != NatAt(newBase, c, false)
        {
          NatDistinct(newBase, n, c);
        }
        dev := dev[NatAt(newBase, n, false) := Zeros()];
        n := n + 1;
      }
    }
  }

  ghost predicate Written(base: nat, blocks: nat, newBlocks: nat, a: nat) {
    exists b: nat :: (b < blocks || b < newBlocks) && NatAt(base, b, false) == a
  }

  lemma NotWritten(base: nat, blocks: nat, newBlocks: nat, a: nat, b: nat)
    requires !Written(base, blocks, newBlocks, a) && (b < blocks || b < newBlocks)
    ensures NatAt(base, b, false) != a
  {
  }

  // ---- the summary area

  /** A summary block; `known` when its footer says node or data. */
  datatype Summary = Summary(entries: int, known: bool)

  /** A zero footer says data. */
  const ZERO := Summary(0, true)

  /** Where the summaries are and where they go: segment s from oldBase + s to newBase + s - offset, up to `end`. */
  datatype Plan = Plan(oldBase: nat, newBase: nat, end: nat, total: nat, offset: nat, cached: map<nat, Summary>) {
    function Expand(): int { newBase + total - offset }

    /** The new area has room for every summary that is kept. */
    predicate Ok() { offset <= total && Expand() <= end && newBase > 0 }

    /** No summary is read after it has been written over. */
    predicate Safe() {
      offset > 0 || newBase >= oldBase || forall s: nat :: s < total && s !in cached ==> end <= Src(this, s)
    }
  }

  type Device = map<nat, Summary>

  /** Where the summary of a segment is. */
  function Src(p: Plan, s: nat): nat { p.oldBase + s }

  predicate Complete(p: Plan, dev: Device) {
    forall s: nat :: s < p.total ==> Src(p, s) in dev
  }

  /** get_sum_block: the copy in memory of a current segment, or the block on the device */
  function GetSum(p: Plan, dev: Device, s: nat): Summary
    requires s in p.cached || Src(p, s) in dev
  {
    if s in p.cached then p.cached[s] else dev[Src(p, s)]
  }

  /** move_ssa: a block with an unknown footer is not written. */
  function MoveSsa(p: Plan, dev: Device, s: nat, a: nat): Device
    requires Src(p, s) in dev
  {
    if s in p.cached || dev[Src(p, s)].known then dev[a := GetSum(p, dev, s)] else dev
  }

  /** The device after writing from address `a` upwards. */
  function Up(p: Plan, dev: Device, a: nat): Device
    requires p.Ok() && Complete(p, dev) && p.newBase <= a <= p.end
    decreases p.end - a
  {
    if a == p.end then dev
    else if a < p.Expand() then Up(p, MoveSsa(p, dev, p.offset + a - p.newBase, a), a + 1)
    else Up(p, dev[a := ZERO], a + 1)
  }

  /** The device after writing from below address `a` downwards. */
  function Down(p: Plan, dev: Device, a: nat): Device
    requires p.Ok() && Complete(p, dev) && p.newBase <= a <= p.end
    decreases a
  {
    if a == p.newBase then dev
    else if a - 1 >= p.Expand() then Down(p, dev[a - 1 := ZERO], a - 1)
    else Down(p, MoveSsa(p, dev, p.offset + a - 1 - p.newBase, a - 1), a - 1)
  }

  predicate GoesUp(p: Plan) { p.offset > 0 && p.newBase < p.oldBase + p.offset }

  function MovedSsa(p: Plan, dev: Device): Device
    requires p.Ok() && Complete(p, dev)
  {
    if GoesUp(p) then Up(p, dev, p.newBase) else Down(p, dev, p.end)
  }

  /** Every footer that is read from the device is known. */
  predicate Known(p: Plan, dev: Device)
    requires Complete(p, dev)
  {
    forall s: nat :: p.offset <= s < p.total && s !in p.cached ==> dev[Src(p, s)].known
  }

  /**
    In addresses: the summary of segment s, from memory or from its old place, is at its new place; if its footer is
    not known, that place is as it was.
   */
  predicate SummaryMoved(p: Plan, was: Device, dev: Device, s: nat) {
    var from, to := p.oldBase + s, p.newBase + s - p.offset;
    if s in p.cached then to in dev && dev[to] == p.cached[s]
    else from in was && if was[from].known then to in dev && dev[to] == was[from] else SameAt(was, dev, to)
  }

  predicate SameAt(was: Device, dev: Device, a: int) {
    (a in dev <==> a in was) && (a in was ==> dev[a] == was[a])
  }

  class SsaArea {
    var dev: Device

    constructor (dev: Device)
      ensures this.dev == dev
    {
      this.dev := dev;
    }

    /** migrate_ssa */
    method MigrateSsa(p: Plan)
      requires p.Ok() && Complete(p, dev)
      modifies this
      ensures dev == MovedSsa(p, old(dev))
      ensures p.Safe() ==>
                && (forall s: nat :: p.offset <= s < p.total ==> SummaryMoved(p, old(dev), dev, s))
                && (forall a: nat :: p.newBase + p.total - p.offset <= a < p.end ==>
                      a in dev && dev[a] == Summary(0, true))
    {
      if p.Safe() { SsaAddresses(p, dev); }
      var offset: int := p.offset;
      if p.offset != 0 && p.newBase < p.oldBase + p.offset {
        var a := p.newBase;
        while a < p.end
          invariant p.newBase <= a <= p.end && Complete(p, dev)
          invariant (a <= p.Expand() ==> offset == p.offset + a - p.newBase)
          invariant Up(p, dev, a) == MovedSsa(p, old(dev))
        {
          if a < p.Expand() {
            dev := MoveSsa(p, dev, offset, a);
            offset := offset + 1;
          } else {
            dev := dev[a := ZERO];
          }
          a := a + 1;
        }
      } else {
        var a: int := p.end - 1;
        offset := p.total - 1;
        while a >= p.newBase
          invariant p.newBase - 1 <= a < p.end && Complete(p, dev)
          invariant offset == if a >= p.Expand() then p.total - 1 else p.offset + a - p.newBase
          invariant Down(p, dev, a + 1) == MovedSsa(p, old(dev))
        {
          if a >= p.Expand() {
            dev := dev[a := ZERO];
          } else {
            dev := MoveSsa(p, dev, offset, a);
            offset := offset - 1;
          }
          a := a - 1;
        }
      }
    }
  }

  /** Address `a` of the new area holds what it should. */
  predicate Placed(p: Plan, was: Device, dev: Device, a: nat)
    requires p.Ok() && Complete(p, was) && p.newBase <= a < p.end
  {
    var s := p.offset + a - p.newBase;
    if a < p.Expand() && s !in p.cached && !was[Src(p, s)].known then SameAt(was, dev, a)
    else a in dev && dev[a] == if a < p.Expand() then GetSum(p, was, s) else ZERO
  }

  /** Sources of the addresses from `a` on are untouched. */
  predicate Unread(p: Plan, was: Device, dev: Device, lo: int, hi: int)
    requires Complete(p, was) && Complete(p, dev)
  {
    forall s: nat :: p.offset <= s < p.total && lo <= p.newBase + s - p.offset < hi && s !in p.cached ==>
        dev[Src(p, s)] == was[Src(p, s)]
  }

  ghost predicate Outside(p: Plan, was: Device, dev: Device, lo: nat, hi: nat) {
    forall b: nat :: !(p.newBase <= b < lo) && !(hi <= b < p.end) ==> SameAt(was, dev, b)
  }

  predicate AllPlaced(p: Plan, was: Device, dev: Device, lo: int, hi: int)
    requires p.Ok() && Complete(p, was) && p.newBase <= lo && hi <= p.end
  {
    forall b: nat :: lo <= b < hi ==> Placed(p, was, dev, b)
  }

  /** Half way: [lo, hi) of the new area is still to be written. */
  ghost predicate Halfway(p: Plan, was: Device, dev: Device, lo: nat, hi: nat) {
    && p.Ok() && Complete(p, was) && Complete(p, dev) && p.newBase <= lo <= hi <= p.end
    && Unread(p, was, dev, lo, hi) && AllPlaced(p, was, dev, p.newBase, lo) && AllPlaced(p, was, dev, hi, p.end) &&
         Outside(p, was, dev, lo, hi)
  }

  function Write(p: Plan, dev: Device, a: nat): Device
    requires p.Ok() && Complete(p, dev) && p.newBase <= a < p.end
  {
    if a < p.Expand() then MoveSsa(p, dev, p.offset + a - p.newBase, a) else dev[a := ZERO]
  }

  /** The source of a summary that is still to be moved is not where `a` is. */
  predicate Clear(p: Plan, a: nat, lo: int, hi: int) {
    forall s: nat :: p.offset <= s < p.total && lo <= p.newBase + s - p.offset < hi && s !in p.cached ==> Src(p, s) != a
  }

  lemma WriteStep(p: Plan, was: Device, dev: Device, a: nat, lo: nat, hi: nat)
    requires Halfway(p, was, dev, lo, hi) && lo <= a < hi
    requires (a == lo && Clear(p, a, a + 1, hi)) || (a + 1 == hi && Clear(p, a, lo, a))
    ensures Halfway(p, was, Write(p, dev, a), if a == lo then a + 1 else lo, if a == lo then hi else a)
  {
    var s, dev' := p.offset + a - p.newBase, Write(p, dev, a);
    assert a < p.Expand() && s !in p.cached ==> dev[Src(p, s)] == was[Src(p, s)];
    assert a < p.Expand() && (s in p.cached || was[Src(p, s)].known) ==> dev'[a] == GetSum(p, was, s);
    assert Placed(p, was, dev', a);
    WriteElsewhere(p, was, dev, a, p.newBase, lo);
    WriteElsewhere(p, was, dev, a, hi, p.end);
    forall b: nat | !(p.newBase <= b < lo) && !(hi <= b < p.end) && b != a ensures SameAt(was, dev', b) {
      assert SameAt(was, dev, b);
    }
  }

  lemma WriteElsewhere(p: Plan, was: Device, dev: Device, a: nat, lo: nat, hi: nat)
    requires p.Ok() && Complete(p, was) && Complete(p, dev) && p.newBase <= lo && hi <= p.end
    requires AllPlaced(p, was, dev, lo, hi)
    requires p.newBase <= a < p.end && !(lo <= a < hi)
    ensures AllPlaced(p, was, Write(p, dev, a), lo, hi)
  {
    forall b: nat | lo <= b < hi ensures Placed(p, was, Write(p, dev, a), b) { assert Placed(p, was, dev, b); }
  }

  lemma {:induction false} UpPlaces(p: Plan, was: Device, dev: Device, a: nat)
    requires Halfway(p, was, dev, a, p.end) && GoesUp(p)
    ensures Halfway(p, was, Up(p, dev, a), p.end, p.end)
    decreases p.end - a
  {
    if a < p.end {
      assert Clear(p, a, a + 1, p.end);
      UpIs(p, was, dev, a);
      hide Halfway, Write, Up, Clear;
      WriteStep(p, was, dev, a, a, p.end);
      UpPlaces(p, was, Write(p, dev, a), a + 1);
    }
  }

  lemma UpIs(p: Plan, was: Device, dev: Device, a: nat)
    requires Halfway(p, was, dev, a, p.end) && a < p.end
    ensures Complete(p, Write(p, dev, a)) && Up(p, dev, a) == Up(p, Write(p, dev, a), a + 1)
  {
  }

  lemma DownIs(p: Plan, was: Device, dev: Device, a: nat)
    requires Halfway(p, was, dev, p.newBase, a) && p.newBase < a
    ensures Complete(p, Write(p, dev, a - 1)) && Down(p, dev, a) == Down(p, Write(p, dev, a - 1), a - 1)
  {
  }

  lemma {:induction false} DownPlaces(p: Plan, was: Device, dev: Device, a: nat)
    requires Halfway(p, was, dev, p.newBase, a) && !GoesUp(p) && p.Safe()
    ensures Halfway(p, was, Down(p, dev, a), p.newBase, p.newBase)
    decreases a
  {
    if a > p.newBase {
      assert Clear(p, a - 1, p.newBase, a - 1);
      DownIs(p, was, dev, a);
      hide Halfway, Write, Down, Clear;
      if a - 1 > p.newBase { WriteStep(p, was, dev, a - 1, p.newBase, a); } else { LastStep(p, was, dev); }
      DownPlaces(p, was, Write(p, dev, a - 1), a - 1);
    }
  }

  /** The lowest block is the last one on the way down. */
  lemma LastStep(p: Plan, was: Device, dev: Device)
    requires Halfway(p, was, dev, p.newBase, p.newBase + 1)
    ensures Halfway(p, was, Write(p, dev, p.newBase), p.newBase, p.newBase)
  {
    WriteStep(p, was, dev, p.newBase, p.newBase, p.newBase + 1);
    var dev' := Write(p, dev, p.newBase);
    forall b: nat | p.newBase <= b < p.end ensures Placed(p, was, dev', b) {
      if b == p.newBase {
        assert AllPlaced(p, was, dev', p.newBase, p.newBase + 1);
      } else {
        assert AllPlaced(p, was, dev', p.newBase + 1, p.end);
      }
    }
  }

  /** A safe plan moves every summary to its place, clears the rest of the area and touches nothing else. */
  lemma SsaMoved(p: Plan, dev: Device)
    requires p.Ok() && Complete(p, dev) && p.Safe()
    ensures forall a: nat :: p.newBase <= a < p.end ==> Placed(p, dev, MovedSsa(p, dev), a)
    ensures forall a: nat :: !(p.newBase <= a < p.end) ==> SameAt(dev, MovedSsa(p, dev), a)
  {
    if GoesUp(p) { UpPlaces(p, dev, dev, p.newBase); } else { DownPlaces(p, dev, dev, p.end); }
  }

  lemma SsaAddresses(p: Plan, dev: Device)
    requires p.Ok() && Complete(p, dev) && p.Safe()
    ensures forall s: nat :: p.offset <= s < p.total ==> SummaryMoved(p, dev, MovedSsa(p, dev), s)
    ensures forall a: nat :: p.newBase + p.total - p.offset <= a < p.end ==>
              a in MovedSsa(p, dev) && MovedSsa(p, dev)[a] == Summary(0, true)
  {
    hide MovedSsa;
    SsaMoved(p, dev);
    forall s: nat | p.offset <= s < p.total ensures SummaryMoved(p, dev, MovedSsa(p, dev), s) {
      assert Placed(p, dev, MovedSsa(p, dev), p.newBase + s - p.offset);
    }
    forall a: nat | p.newBase + p.total - p.offset <= a < p.end
      ensures a in MovedSsa(p, dev) && MovedSsa(p, dev)[a] == Summary(0, true)
    {
      assert Placed(p, dev, MovedSsa(p, dev), a);
    }
  }

  // ---- an unsafe plan loses a summary

  /** Two devices that differ at one address at most. */
  predicate SameBut(d1: Device, d2: Device, except: int) {
    d1.Keys == d2.Keys && forall b :: b in d1 && b != except ==> d1[b] == d2[b]
  }

  /** Writing downwards leaves what lies above alone. */
  lemma {:induction false} DownKeeps(p: Plan, dev: Device, a: nat, b: nat)
    requires p.Ok() && Complete(p, dev) && p.newBase <= a <= p.end && b in dev
    ensures b in Down(p, dev, a) && (a <= b ==> Down(p, dev, a)[b] == dev[b])
    decreases a
  {
    if a > p.newBase { DownKeeps(p, Write(p, dev, a - 1), a - 1, b); }
  }

  /**
    A summary that lies where an earlier write goes is written over before it is read, or stays where another one
    belongs.
   */
  lemma {:induction false} DownForgets(p: Plan, d1: Device, d2: Device, a: nat, s: nat)
    requires p.Ok() && p.offset == 0 && p.newBase < p.oldBase && s < p.total && s !in p.cached
    requires Complete(p, d1) && Complete(p, d2) && SameBut(d1, d2, Src(p, s)) && Src(p, s) < a <= p.end
    ensures var r1, r2, at := Down(p, d1, a), Down(p, d2, a), Src(p, s);
            r1 == r2 || (at in r1 && at in r2 && r1[at] == d1[at] && r2[at] == d2[at])
    decreases a
  {
    var w1, w2 := Write(p, d1, a - 1), Write(p, d2, a - 1);
    assert a - 1 < p.Expand() ==> Src(p, a - 1 - p.newBase) != Src(p, s);
    if a - 1 > Src(p, s) {
      DownForgets(p, w1, w2, a - 1, s);
    } else if w1 != w2 {
      DownKeeps(p, w1, a - 1, Src(p, s));
      DownKeeps(p, w2, a - 1, Src(p, s));
    }
  }

  /** A device with something of its own in place of one summary. */
  function Marked(p: Plan, at: nat, x: int): Device {
    map a: nat | a < p.oldBase + p.total + p.end && Exists(a) :: Summary(if a == at then x else 0, true)
  }

  predicate Exists(a: nat) { true }

  /** On one of two images that differ in that summary alone, some address is wrong. */
  lemma LostOnOne(p: Plan, s: nat)
    requires p.Ok() && p.offset == 0 && p.newBase < p.oldBase && s < p.total && s !in p.cached && Src(p, s) < p.end
    ensures forall x :: Complete(p, Marked(p, Src(p, s), x)) && Known(p, Marked(p, Src(p, s), x))
    ensures !InOrder(p, Marked(p, Src(p, s), 1)) || !InOrder(p, Marked(p, Src(p, s), 2))
  {
    var at := Src(p, s);
    var d1, d2 := Marked(p, at, 1), Marked(p, at, 2);
    DownForgets(p, d1, d2, p.end, s);
    assert InOrder(p, d1) ==> Placed(p, d1, MovedSsa(p, d1), p.newBase + s) && Placed(p, d1, MovedSsa(p, d1), at);
    assert InOrder(p, d2) ==> Placed(p, d2, MovedSsa(p, d2), p.newBase + s) && Placed(p, d2, MovedSsa(p, d2), at);
  }

  /** Every address of the new area holds what it should. */
  ghost predicate InOrder(p: Plan, dev: Device)
    requires p.Ok() && Complete(p, dev)
  {
    AllPlaced(p, dev, MovedSsa(p, dev), p.newBase, p.end)
  }

  /** An unsafe plan fails on some image whose footers are all known, whatever is cached. */
  lemma SsaLost(p: Plan) returns (dev: Device)
    requires p.Ok() && !p.Safe()
    ensures Complete(p, dev) && Known(p, dev) && !InOrder(p, dev)
  {
    var s: nat :| s < p.total && s !in p.cached && Src(p, s) < p.end;
    LostOnOne(p, s);
    dev := if InOrder(p, Marked(p, Src(p, s), 1)) then Marked(p, Src(p, s), 2) else Marked(p, Src(p, s), 1);
  }

  /** Safe plans are exactly those that put every summary in its place on every image. */
  lemma SafeIsExact(p: Plan)
    requires p.Ok()
    ensures p.Safe() <==> forall dev :: Complete(p, dev) ==> InOrder(p, dev)
  {
    if p.Safe() {
      forall dev | Complete(p, dev) ensures InOrder(p, dev) { SsaMoved(p, dev); }
    } else {
      var dev := SsaLost(p);
    }
  }
}
