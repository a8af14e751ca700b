/**
  The two checkpoint packs: how a mount picks one (fsck/mount.c), and how a resize
  replaces one by the other, write by write (fsck/resize.c).  The checksum is ideal: a
  block passes it exactly when it is a whole checkpoint block.
 */
module Checkpoint {
  const PER_SEG: nat := 512
  const U32: nat := 0x1_0000_0000
  const U64: nat := 0x1_0000_0000_0000_0000

  /**
    A checkpoint block: its version, the number of blocks in its pack, the place of the summaries in the pack,
    whether it says that there are orphan blocks, and the rest; or any other block.
   */
  datatype Block = Cp(ver: nat, total: nat, startSum: nat, orphaned: bool, body: int) | Raw(x: int)

  type Device = map<int, Block>

  function At(dev: Device, a: int): Block { if a in dev then dev[a] else Raw(0) }

  /** ver_after: a is ahead of b, counting modulo 2^64 */
  predicate VerAfter(a: nat, b: nat) { 0 < (a - b) % U64 < U64 / 2 }

  datatype Option<T> = None | Some(value: T)

  /** validate_checkpoint: the first block of the pack says where the last one is, and both carry the version. */
  function Validate(dev: Device, addr: int): Option<nat> {
    var first := At(dev, addr);
    if !first.Cp? || first.total > PER_SEG then None
    else
      var last := At(dev, addr + first.total - 1);
      if last.Cp? && last.ver == first.ver then Some(first.ver) else None
  }

  datatype Choice = NoCp | Pack(which: nat, ver: nat)

  function PackAt(base: int, which: nat): int { if which == 2 then base + PER_SEG else base }

  /** get_valid_checkpoint */
  function Choose(dev: Device, base: int): Choice {
    var cp1, cp2 := Validate(dev, base), Validate(dev, base + PER_SEG);
    if cp1.Some? && cp2.Some? then
      if VerAfter(cp2.value, cp1.value) then Pack(2, cp2.value) else Pack(1, cp1.value)
    else if cp1.Some? then Pack(1, cp1.value)
    else if cp2.Some? then Pack(2, cp2.value)
    else NoCp
  }

  /** What a mount takes for orphan blocks of the pack at `addr` (fsck_chk_orphan_node). */
  function OrphansRead(dev: Device, addr: int, payload: nat): seq<Block> {
    var first := At(dev, addr);
    if first.Cp? && first.orphaned && first.startSum >= 1 + payload
    then seq(first.startSum - 1 - payload, i requires 0 <= i => At(dev, addr + 1 + payload + i)) else []
  }

  /** What a mount of a cleanly unmounted image takes for the summaries of the current segments (sum_blk_addr). */
  function SumsRead(dev: Device, addr: int): seq<Block> {
    var first := At(dev, addr);
    if first.Cp? then seq(6, i requires 0 <= i => At(dev, addr + first.total - 7 + i)) else []
  }

  /** The blocks of a new pack in the order they are written; its first block is also its last. */
  function NewPack(first: Block, payload: nat, orphans: nat, orphan: Block, sums: seq<Block>): (p: seq<Block>)
    ensures |p| == 2 + payload + orphans + |sums|
  {
    [first] + seq(payload, _ => Raw(0)) + seq(orphans, _ => orphan) + sums + [first]
  }

  predicate Holds(dev: Device, at: int, blocks: seq<Block>, n: nat)
    requires n <= |blocks|
  {
    forall i :: 0 <= i < n ==> At(dev, at + i) == blocks[i]
  }

  predicate Carries(b: Block, ver: nat) { b.Cp? && b.ver == ver }

  /**
    What a rebuild is given: the packs, the current one and its version, the new blocks and the blocks of nat
    bits.  `orphans` is the number the code computes: all blocks of the old pack between its first and its
    summaries, the payload among them, if it says that there are orphan blocks.
   */
  datatype Plan = Plan(base: int, cur: nat, ver: nat, body: int, oldPayload: nat, payload: nat, orphans: nat,
                       sums: seq<Block>, bits: seq<int>) {
    predicate Ok() {
      && cur in {1, 2} && ver < U64 && |sums| == 6 && oldPayload < PER_SEG - 1
      && Total() < U32 && |bits| < U32
    }
    function Total(): nat { 8 + payload + orphans }
    function Old(): int { PackAt(base, cur) }
    function Other(): nat { if cur == 1 then 2 else 1 }
    function New(): int { PackAt(base, Other()) }
    function Next(): nat { (ver + 1) % U64 }
    /** The new checkpoint block: the summaries are said to be right behind the payload, and the flags are kept. */
    function First(dev: Device): Block { Cp(Next(), Total(), 1 + payload, Flagged(dev), body) }
    predicate Flagged(dev: Device) { At(dev, Old()).Cp? && At(dev, Old()).orphaned }
    function Blocks(dev: Device): seq<Block> {
      NewPack(First(dev), payload, orphans, At(dev, Old() + 1 + oldPayload), sums)
    }

    /** update_nat_bits_flags, with its 32-bit difference: whether nat bits are written at all. */
    predicate KeepsBits() { Total() <= (PER_SEG - |bits|) % U32 }

    /** The new pack fits into a segment, and so would the nat bits alone. */
    predicate Fits() { Total() <= PER_SEG && |bits| <= PER_SEG }

    /**
      The current pack is the one a mount picks, its summaries are behind its payload, and the other pack holds
      nothing of the next version.
     */
    ghost predicate Ready(dev: Device) {
      && Ok() && Choose(dev, base) == Pack(cur, ver) && At(dev, Old()).Cp? && At(dev, Old()).total > 0
      && At(dev, Old()).startSum >= 1 + oldPayload
      && orphans == (if Flagged(dev) then At(dev, Old()).startSum - 1 else 0)
      && forall a :: New() <= a < New() + PER_SEG ==> !Carries(At(dev, a), Next())
    }

    /** A mount picks the old pack, or the new one with every block in its place. */
    predicate Recovers(was: Device, dev: Device) {
      || Choose(dev, base) == Pack(cur, ver)
      || (Choose(dev, base) == Pack(Other(), Next()) && Holds(dev, New(), Blocks(was), |Blocks(was)|))
    }
  }

  /** Blocks of the old pack are as they were. */
  predicate Untouched(p: Plan, was: Device, dev: Device) {
    forall a :: p.Old() <= a < p.Old() + PER_SEG ==> At(dev, a) == At(was, a)
  }

  lemma OldValid(p: Plan, was: Device, dev: Device)
    requires p.Ready(was) && Untouched(p, was, dev)
    ensures Validate(was, p.Old()) == Some(p.ver) && Validate(dev, p.Old()) == Some(p.ver)
  {
    var t := At(was, p.Old()).total;
    assert At(dev, p.Old()) == At(was, p.Old());
    assert t <= PER_SEG ==> At(dev, p.Old() + t - 1) == At(was, p.Old() + t - 1);
  }

  /** Of two versions the one that is less than 2^63 steps behind the other comes after it. */
  lemma AfterGap(v: nat, k: nat)
    requires v < U64 && k < U64
    ensures VerAfter((v + k) % U64, v) <==> 0 < k < 0x8000_0000_0000_0000
    ensures VerAfter(v, (v + k) % U64) <==> k > 0x8000_0000_0000_0000
  {
    var w := if v + k < U64 then v + k else v + k - U64;
    assert (v + k) % U64 == w;
    assert (w - v) % U64 == k && (k > 0 ==> (v - w) % U64 == U64 - k);
  }

  lemma NextAfter(v: nat)
    requires v < U64
    ensures VerAfter((v + 1) % U64, v) && !VerAfter(v, (v + 1) % U64)
  {
    AfterGap(v, 1);
  }

  /** Of two valid packs a mount picks the newer one, whichever it is and however far ahead below 2^63. */
  lemma NewerIsChosen(dev: Device, base: int, which: nat, v: nat, k: nat)
    requires which in {1, 2} && v < U64 && 0 < k < 0x8000_0000_0000_0000
    requires Validate(dev, if which == 1 then base else base + PER_SEG) == Some((v + k) % U64)
    requires Validate(dev, if which == 1 then base + PER_SEG else base) == Some(v)
    ensures Choose(dev, base) == Pack(which, (v + k) % U64)
  {
    hide Validate, VerAfter;
    AfterGap(v, k);
  }

  /** While the last block is missing the old pack is picked. */
  lemma MidwayOld(p: Plan, was: Device, dev: Device, n: nat)
    requires p.Ready(was) && p.Fits() && Untouched(p, was, dev) && 0 < n < |p.Blocks(was)|
    requires Holds(dev, p.New(), p.Blocks(was), n)
    requires forall a :: p.New() + n <= a < p.New() + PER_SEG ==> At(dev, a) == At(was, a)
    ensures Choose(dev, p.base) == Pack(p.cur, p.ver)
  {
    OldValid(p, was, dev);
    var b := p.Blocks(was);
    assert At(dev, p.New() + 0) == b[0];
    assert At(dev, p.New() + |b| - 1) == At(was, p.New() + |b| - 1);
    assert Validate(dev, p.New()) == None;
  }

  /** With the last block in place the new pack is picked. */
  lemma CompleteNew(p: Plan, was: Device, dev: Device)
    requires p.Ready(was) && p.Fits() && Holds(dev, p.New(), p.Blocks(was), |p.Blocks(was)|)
    requires Untouched(p, was, dev) || At(dev, p.Old()) == Raw(0)
    ensures Choose(dev, p.base) == Pack(p.Other(), p.Next())
  {
    var b := p.Blocks(was);
    assert At(dev, p.New() + 0) == b[0] && At(dev, p.New() + (|b| - 1)) == b[|b| - 1];
    assert Validate(dev, p.New()) == Some(p.Next());
    NextAfter(p.ver);
    if Untouched(p, was, dev) { OldValid(p, was, dev); }
  }

  // ---- the writes

  ghost predicate OneWrite(d: Device, d': Device) { exists a: int, b: Block :: Stored(d, a, b) == d' }

  function Stored(d: Device, a: int, b: Block): Device { d[a := b] }

  /** A run of single writes, each of which leaves something to recover. */
  ghost predicate Recoverable(p: Plan, was: Device, trace: seq<Device>) {
    && trace != [] && trace[0] == was && (forall i :: 0 < i < |trace| ==> OneWrite(trace[i - 1], trace[i]))
    && (p.Fits() ==> forall i :: 0 <= i < |trace| ==> p.Recovers(was, trace[i]))
  }

  /** n blocks of the new pack are written. */
  ghost predicate Progress(p: Plan, was: Device, dev: Device, trace: seq<Device>, n: nat) {
    && p.Ready(was) && Recoverable(p, was, trace) && trace[|trace| - 1] == dev && n <= |p.Blocks(was)|
    && (n > 0 ==> At(dev, p.New()) == p.Blocks(was)[0])
    && (forall a :: !(p.New() <= a < p.New() + n) ==> At(dev, a) == At(was, a))
    && (p.Fits() ==> Holds(dev, p.New(), p.Blocks(was), n))
  }

  lemma Extended(p: Plan, was: Device, trace: seq<Device>, d: Device, a: int, b: Block)
    requires Recoverable(p, was, trace) && d == Stored(trace[|trace| - 1], a, b) && (p.Fits() ==> p.Recovers(was, d))
    ensures Recoverable(p, was, trace + [d])
  {
    var t := trace + [d];
    forall i | 0 < i < |t| ensures OneWrite(t[i - 1], t[i]) {
      if i < |trace| { assert OneWrite(trace[i - 1], trace[i]); }
    }
    forall i | 0 <= i < |t| && p.Fits() ensures p.Recovers(was, t[i]) {
      if i < |trace| { assert p.Recovers(was, trace[i]); }
    }
  }

  lemma PackStep(p: Plan, was: Device, dev: Device, trace: seq<Device>, n: nat, b: Block)
    requires Progress(p, was, dev, trace, n) && n < |p.Blocks(was)| && (p.Fits() || n == 0 ==> b == p.Blocks(was)[n])
    ensures var d := Stored(dev, p.New() + n, b); Progress(p, was, d, trace + [d], n + 1)
  {
    var d := Stored(dev, p.New() + n, b);
    if p.Fits() {
      assert Holds(d, p.New(), p.Blocks(was), n + 1);
      if n + 1 < |p.Blocks(was)| { MidwayOld(p, was, d, n + 1); } else { CompleteNew(p, was, d); }
    }
    Extended(p, was, trace, d, p.New() + n, b);
  }

  class Area {
    var dev: Device
    ghost var trace: seq<Device>

    constructor (dev: Device)
      ensures this.dev == dev && trace == [dev]
    {
      this.dev := dev;
      trace := [dev];
    }

    method Put(a: int, b: Block)
      modifies this
      ensures dev == Stored(old(dev), a, b) && trace == old(trace) + [dev]
    {
      dev := dev[a := b];
      trace := trace + [dev];
    }

    /**
      The writes of rebuild_checkpoint: whatever prefix reaches the device, a mount finds the old pack or all of
      the new one.
     */
    method Rebuild(p: Plan)
      requires p.Ready(dev) && trace == [dev]
      modifies this
      ensures Recoverable(p, old(dev), trace) && trace[|trace| - 1] == dev
      ensures Choose(dev, p.base) == if p.Fits() then Pack(p.Other(), p.Next()) else NoCp
      ensures p.Fits() ==> Holds(dev, p.New(), p.Blocks(old(dev)), |p.Blocks(old(dev))|)
      ensures p.Fits() ==>
                && At(old(dev), p.Old()).Cp?
                && At(dev, p.New()) == Cp((p.ver + 1) % U64, 8 + p.payload + p.orphans, 1 + p.payload,
                                          At(old(dev), p.Old()).orphaned, p.body)
      ensures p.Fits() && p.Total() + |p.bits| <= PER_SEG ==>
                forall k: nat :: k < |p.bits| ==> At(dev, p.New() + PER_SEG - |p.bits| + k) == Raw(p.bits[k])
      ensures p.Fits() ==> SumsRead(dev, p.New()) == p.sums && OrphansRead(dev, p.New(), p.payload) == []
      ensures p.Fits() ==> (OrphansRead(dev, p.New(), p.payload) == OrphansRead(old(dev), p.Old(), p.oldPayload) <==>
                              !p.Flagged(old(dev)) || At(old(dev), p.Old()).startSum == 1 + p.oldPayload)
      ensures p.Fits() ==> forall n: nat :: n <= p.orphans ==>
                (OrphansCarried(p, old(dev), dev, n) <==> OrphansAlike(p, old(dev), n))
    {
      hide Recoverable, Holds, Choose, NewPack, Stored, OrphansCarried, OrphansAlike, OrphansRead, SumsRead;
      ghost var was := dev;
      Started(p, dev);
      WritePack(p, was);
      WriteBits(p, was);
      Finished(p, was, dev, trace);
      Put(p.Old(), Raw(0));
      assert p.Fits() && p.Total() + |p.bits| <= PER_SEG ==> BitsWritten(p, dev);
      if p.Fits() {
        PackRead(p, was, dev);
        OldOrphans(p, was);
        FirstIs(p, was, dev);
      }
      forall n: nat | p.Fits() && n <= p.orphans ensures OrphansCarried(p, was, dev, n) <==> OrphansAlike(p, was, n) {
        OrphanBlocks(p, was, dev, n);
      }
    }

    /** First block, payload, orphan blocks, summaries, and the first block again. */
    method WritePack(p: Plan, ghost was: Device)
      requires Progress(p, was, dev, trace, 0)
      modifies this
      ensures Progress(p, was, dev, trace, |p.Blocks(was)|)
    {
      hide Progress, Stored;
      ProgressReady(p, was, dev, trace, 0);
      BlocksAre(p, was);
      StartedAt(p, was, dev, trace);
      var at, first := p.New(), p.First(dev);
      PackStep(p, was, dev, trace, 0, first);
      Put(at, first);
      at := at + 1;
      for i := 0 to p.payload
        invariant at == p.New() + 1 + i && Progress(p, was, dev, trace, 1 + i)
      {
        PackStep(p, was, dev, trace, 1 + i, Raw(0));
        Put(at, Raw(0));
        at := at + 1;
      }
      for i := 0 to p.orphans
        invariant at == p.New() + 1 + p.payload + i && Progress(p, was, dev, trace, 1 + p.payload + i)
      {
        // the source starts again at the first orphan block on every turn
        var orphan := At(dev, p.Old() + 1 + p.oldPayload);
        OrphanKept(p, was, dev, trace, 1 + p.payload + i);
        PackStep(p, was, dev, trace, 1 + p.payload + i, orphan);
        Put(at, orphan);
        at := at + 1;
      }
      for i := 0 to 6
        invariant at == p.New() + 1 + p.payload + p.orphans + i
        invariant Progress(p, was, dev, trace, 1 + p.payload + p.orphans + i)
      {
        PackStep(p, was, dev, trace, 1 + p.payload + p.orphans + i, p.sums[i]);
        Put(at, p.sums[i]);
        at := at + 1;
      }
      PackStep(p, was, dev, trace, 7 + p.payload + p.orphans, first);
      Put(at, first);
    }

    /** write_nat_bits: the last blocks of the segment of the new pack, if they are kept */
    method WriteBits(p: Plan, ghost was: Device)
      requires Progress(p, was, dev, trace, |p.Blocks(was)|)
      modifies this
      ensures Bitted(p, was, dev, trace, if p.KeepsBits() then |p.bits| else 0)
    {
      hide Bitted, Stored;
      NoBits(p, was, dev, trace);
      if p.KeepsBits() {
        for i := 0 to |p.bits|
          invariant Bitted(p, was, dev, trace, i)
        {
          BitStep(p, was, dev, trace, i);
          Put(p.New() + PER_SEG - |p.bits| + i, Raw(p.bits[i]));
        }
      }
    }
  }

  lemma Started(p: Plan, dev: Device)
    requires p.Ready(dev)
    ensures Progress(p, dev, dev, [dev], 0)
  {
  }

  lemma ProgressReady(p: Plan, was: Device, dev: Device, trace: seq<Device>, n: nat)
    requires Progress(p, was, dev, trace, n)
    ensures p.Ready(was)
  {
  }

  lemma BlocksAre(p: Plan, was: Device)
    requires p.Ok()
    ensures var b := p.Blocks(was); var total := 8 + p.payload + p.orphans;
            && |b| == total && b[0] == b[total - 1] == p.First(was)
            && (forall k :: 1 <= k < 1 + p.payload ==> b[k] == Raw(0))
            && (forall k :: 1 + p.payload <= k < 1 + p.payload + p.orphans ==>
                 b[k] == At(was, p.Old() + 1 + p.oldPayload))
            && (forall k :: 1 + p.payload + p.orphans <= k < total - 1 ==>
                 b[k] == p.sums[k - 1 - p.payload - p.orphans])
  {
  }

  /** The fields taken over are those of the old pack. */
  lemma StartedAt(p: Plan, was: Device, dev: Device, trace: seq<Device>)
    requires Progress(p, was, dev, trace, 0)
    ensures p.First(dev) == p.First(was)
  {
    assert At(dev, p.Old()) == At(was, p.Old());
  }

  lemma OrphanKept(p: Plan, was: Device, dev: Device, trace: seq<Device>, n: nat)
    requires Progress(p, was, dev, trace, n)
    ensures p.Fits() ==> At(dev, p.Old() + 1 + p.oldPayload) == At(was, p.Old() + 1 + p.oldPayload)
  {
  }

  /** i blocks of nat bits are written. */
  ghost predicate Bitted(p: Plan, was: Device, dev: Device, trace: seq<Device>, i: nat) {
    && p.Ready(was) && Recoverable(p, was, trace) && trace[|trace| - 1] == dev && i <= |p.bits|
    && (p.Fits() ==> Holds(dev, p.New(), p.Blocks(was), |p.Blocks(was)|) && Untouched(p, was, dev))
    && (At(dev, p.New()) == p.Blocks(was)[0] || At(dev, p.New()).Raw?)
    && forall k :: 0 <= k < i ==> BitAt(p, dev, k) == Raw(p.bits[k])
  }

  function BitAt(p: Plan, dev: Device, k: int): Block { At(dev, p.New() + PER_SEG - |p.bits| + k) }

  /** The nat bits are the last blocks of the new pack's segment. */
  predicate BitsWritten(p: Plan, dev: Device) {
    forall k: nat :: k < |p.bits| ==> BitAt(p, dev, k) == Raw(p.bits[k])
  }

  lemma NoBits(p: Plan, was: Device, dev: Device, trace: seq<Device>)
    requires Progress(p, was, dev, trace, |p.Blocks(was)|)
    ensures Bitted(p, was, dev, trace, 0)
  {
  }

  lemma BitStep(p: Plan, was: Device, dev: Device, trace: seq<Device>, i: nat)
    requires Bitted(p, was, dev, trace, i) && i < |p.bits| && p.KeepsBits()
    ensures var d := Stored(dev, p.New() + PER_SEG - |p.bits| + i, Raw(p.bits[i]));
            Bitted(p, was, d, trace + [d], i + 1)
  {
    var a := p.New() + PER_SEG - |p.bits| + i;
    var d := Stored(dev, a, Raw(p.bits[i]));
    if p.Fits() { CompleteNew(p, was, d); }
    Extended(p, was, trace, d, a, Raw(p.bits[i]));
    forall k | 0 <= k < i + 1 ensures BitAt(p, d, k) == Raw(p.bits[k]) {
      if k < i { assert BitAt(p, dev, k) == Raw(p.bits[k]); }
    }
  }

  /** Disabling the old pack leaves the new one, or nothing if it did not fit. */
  lemma Finished(p: Plan, was: Device, dev: Device, trace: seq<Device>)
    requires Bitted(p, was, dev, trace, if p.KeepsBits() then |p.bits| else 0)
    ensures var d := Stored(dev, p.Old(), Raw(0));
            && Recoverable(p, was, trace + [d])
            && Choose(d, p.base) == (if p.Fits() then Pack(p.Other(), p.Next()) else NoCp)
            && (p.Fits() ==> Holds(d, p.New(), p.Blocks(was), |p.Blocks(was)|))
            && (p.Fits() && p.KeepsBits() ==> BitsWritten(p, d))
  {
    var d := Stored(dev, p.Old(), Raw(0));
    if p.Fits() {
      CompleteNew(p, was, d);
    } else {
      var b := p.Blocks(was);
      assert At(d, p.New()) == At(dev, p.New()) && At(d, p.Old()) == Raw(0);
      if |b| <= PER_SEG {
        var k := |p.bits| - PER_SEG;
        assert p.KeepsBits() && k >= 0 && p.New() + PER_SEG - |p.bits| + k == p.New();
        assert BitAt(p, dev, k).Raw?;
      }
    }
    if p.Fits() && p.KeepsBits() {
      forall k: nat | k < |p.bits| ensures BitAt(p, d, k) == Raw(p.bits[k]) {
        assert BitAt(p, dev, k) == Raw(p.bits[k]);
      }
    }
    Extended(p, was, trace, d, p.Old(), Raw(0));
  }

  // ---- the orphan blocks

  /** The blocks behind the payload, in the old pack and in the new one. */
  function OldOrphan(p: Plan, was: Device, i: nat): Block { At(was, p.Old() + 1 + p.oldPayload + i) }

  function NewOrphan(p: Plan, dev: Device, i: nat): Block { At(dev, p.New() + 1 + p.payload + i) }

  predicate OrphansCarried(p: Plan, was: Device, dev: Device, n: nat) {
    forall i: nat :: i < n ==> NewOrphan(p, dev, i) == OldOrphan(p, was, i)
  }

  /** They are all the same block. */
  predicate OrphansAlike(p: Plan, was: Device, n: nat) {
    forall i: nat :: i < n ==> OldOrphan(p, was, i) == OldOrphan(p, was, 0)
  }

  /** The new pack has the first n orphan blocks of the old one exactly when they are all alike. */
  lemma OrphanBlocks(p: Plan, was: Device, dev: Device, n: nat)
    requires p.Ok() && n <= p.orphans && Holds(dev, p.New(), p.Blocks(was), |p.Blocks(was)|)
    ensures OrphansCarried(p, was, dev, n) <==> OrphansAlike(p, was, n)
  {
    BlocksAre(p, was);
    forall i: nat | i < n ensures NewOrphan(p, dev, i) == OldOrphan(p, was, 0) {
      assert At(dev, p.New() + (1 + p.payload + i)) == p.Blocks(was)[1 + p.payload + i];
    }
  }

  lemma FirstIs(p: Plan, was: Device, dev: Device)
    requires p.Ready(was) && Holds(dev, p.New(), p.Blocks(was), |p.Blocks(was)|)
    ensures At(was, p.Old()).Cp?
    ensures At(dev, p.New()) == Cp((p.ver + 1) % U64, 8 + p.payload + p.orphans, 1 + p.payload,
                                   At(was, p.Old()).orphaned, p.body)
  {
    OldValid(p, was, was);
    BlocksAre(p, was);
    assert At(dev, p.New() + 0) == p.Blocks(was)[0];
  }

  /** What a mount reads from the new pack: its summaries, and never an orphan block. */
  lemma PackRead(p: Plan, was: Device, dev: Device)
    requires p.Ok() && Holds(dev, p.New(), p.Blocks(was), |p.Blocks(was)|)
    ensures SumsRead(dev, p.New()) == p.sums && OrphansRead(dev, p.New(), p.payload) == []
  {
    BlocksAre(p, was);
    assert At(dev, p.New() + 0) == p.First(was);
    forall i | 0 <= i < 6 ensures SumsRead(dev, p.New())[i] == p.sums[i] {
      var k := 1 + p.payload + p.orphans + i;
      assert At(dev, p.New() + k) == p.Blocks(was)[k];
    }
  }

  /** The old pack has orphan blocks to read exactly when it says so and its summaries leave room for them. */
  lemma OldOrphans(p: Plan, was: Device)
    requires p.Ready(was)
    ensures OrphansRead(was, p.Old(), p.oldPayload) == [] <==>
              !p.Flagged(was) || At(was, p.Old()).startSum == 1 + p.oldPayload
    ensures forall i: nat :: i < |OrphansRead(was, p.Old(), p.oldPayload)| ==>
              OrphansRead(was, p.Old(), p.oldPayload)[i] == OldOrphan(p, was, i)
  {
    assert OrphansRead(was, p.Old(), p.oldPayload) != [] ==> |OrphansRead(was, p.Old(), p.oldPayload)| > 0;
  }

  /** A pack of nine blocks with one orphan block: a mount reads it before the resize, and none after. */
  method OrphanLost() returns (area: Area)
    ensures fresh(area) && area.trace != [] && OrphansRead(area.trace[0], 0, 0) == [Raw(1)]
    ensures Choose(area.trace[0], 0) == Pack(1, 5)
    ensures Choose(area.dev, 0) == Pack(2, 6) && OrphansRead(area.dev, PER_SEG, 0) == []
  {
    var dev := map[0 := Cp(5, 9, 2, true, 0), 1 := Raw(1), 8 := Cp(5, 9, 2, true, 0)];
    var p := Plan(0, 1, 5, 0, 0, 0, 1, seq(6, _ => Raw(0)), []);
    assert Validate(dev, 0) == Some(5) && Validate(dev, PER_SEG) == None;
    area := new Area(dev);
    assert OrphansRead(dev, 0, 0) == [Raw(1)];
    area.Rebuild(p);
  }

  /**
    A full pack of 512 blocks with 504 orphan blocks, and a new superblock with one block of payload: the new pack
    has 513 blocks, and after the last write no pack is left.
   */
  method TooLong() returns (area: Area)
    ensures fresh(area) && area.trace != [] && Choose(area.trace[0], 0) == Pack(1, 5) && Choose(area.dev, 0) == NoCp
  {
    var dev := map[0 := Cp(5, 512, 505, true, 0), 511 := Cp(5, 512, 505, true, 0)];
    var p := Plan(0, 1, 5, 0, 0, 1, 504, seq(6, _ => Raw(0)), []);
    assert Validate(dev, 0) == Some(5) && Validate(dev, PER_SEG) == None;
    area := new Area(dev);
    area.Rebuild(p);
  }
}
