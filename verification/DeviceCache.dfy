/**
  The same cache in front of several devices (lib/libf2fs_io.c): offsets are made relative to
  the device before the cache sees them, and the cache goes by block numbers alone.  Accesses
  are whole blocks, into which the cache takes every read and write apart.
 */
module DeviceCache {
  import opened BlockCache

  /** The contents of every block of every device. */
  type Devices = seq<seq<seq<int>>>

  datatype Access = Get(dev: nat, blk: nat) | Put(dev: nat, blk: nat, data: seq<int>)

  predicate On(devs: Devices, op: Access) { op.dev < |devs| && op.blk < |devs[op.dev]| }

  predicate AllOn(devs: Devices, ops: seq<Access>) { forall i :: 0 <= i < |ops| ==> On(devs, ops[i]) }

  predicate SameShape(devs: Devices, devs': Devices) {
    |devs| == |devs'| && forall i :: 0 <= i < |devs| ==> |devs[i]| == |devs'[i]|
  }

  function Stored(devs: Devices, i: nat, b: nat, data: seq<int>): (r: Devices)
    requires i < |devs| && b < |devs[i]|
    ensures SameShape(devs, r)
  {
    devs[i := devs[i][b := data]]
  }

  /** What the reads return and what the devices hold afterwards, without a cache. */
  function Bare(devs: Devices, ops: seq<Access>): (seq<seq<int>>, Devices)
    requires AllOn(devs, ops)
    decreases |ops|
  {
    if ops == [] then ([], devs)
    else
      assert On(devs, ops[0]);
      match ops[0]
      case Get(i, b) => var rest := Bare(devs, ops[1..]); ([devs[i][b]] + rest.0, rest.1)
      case Put(i, b, data) => Bare(Stored(devs, i, b, data), ops[1..])
  }

  datatype State = State(slots: seq<Slot>, tick: nat, devs: Devices)

  predicate Hit(c: Config, s: State, b: nat)
    requires c.Ok() && |s.slots| == c.entries
  {
    var e := Where(c, s, b);
    e < |s.slots| && s.slots[e].valid && s.slots[e].blk == b
  }

  function Where(c: Config, s: State, b: nat): nat
    requires c.Ok() && |s.slots| == c.entries
  {
    SlotFor(c, s.slots, b, 0, b % c.entries)
  }

  /** After a read of block b of device i: the block is in the slot that was found, from whatever device. */
  function Loaded(c: Config, s: State, i: nat, b: nat): State
    requires c.Ok() && |s.slots| == c.entries && i < |s.devs| && b < |s.devs[i]|
  {
    var e := Where(c, s, b);
    if Hit(c, s, b) || e >= |s.slots| then s
    else s.(slots := s.slots[e := Slot(true, b, s.tick + 1, s.devs[i][b])], tick := s.tick + 1)
  }

  /** After a write: a cached block is updated, and the device. */
  function Written(c: Config, s: State, i: nat, b: nat, data: seq<int>): State
    requires c.Ok() && |s.slots| == c.entries && i < |s.devs| && b < |s.devs[i]|
  {
    var e := Where(c, s, b);
    s.(slots := if Hit(c, s, b) then s.slots[e := s.slots[e].(buf := data)] else s.slots,
       devs := Stored(s.devs, i, b, data))
  }

  function After(c: Config, s: State, op: Access): (r: State)
    requires c.Ok() && |s.slots| == c.entries && On(s.devs, op)
    ensures |r.slots| == c.entries && SameShape(s.devs, r.devs)
  {
    match op
    case Get(i, b) => Loaded(c, s, i, b)
    case Put(i, b, data) => Written(c, s, i, b, data)
  }

  /** The same through the cache. */
  function Through(c: Config, s: State, ops: seq<Access>): (seq<seq<int>>, Devices)
    requires c.Ok() && |s.slots| == c.entries && AllOn(s.devs, ops)
    decreases |ops|
  {
    if ops == [] then ([], s.devs)
    else
      assert On(s.devs, ops[0]);
      var s' := After(c, s, ops[0]);
      StillOn(s.devs, s'.devs, ops);
      var rest := Through(c, s', ops[1..]);
      if ops[0].Put? || Where(c, s, ops[0].blk) >= |s'.slots| then rest
      else ([s'.slots[Where(c, s, ops[0].blk)].buf] + rest.0, rest.1)
  }

  lemma StillOn(devs: Devices, devs': Devices, ops: seq<Access>)
    requires SameShape(devs, devs') && AllOn(devs, ops) && ops != []
    ensures AllOn(devs', ops[1..])
  {
    forall i | 0 <= i < |ops| - 1 ensures On(devs', ops[1..][i]) { assert On(devs, ops[i + 1]); }
  }

  class Disks {
    const c: Config
    var slots: seq<Slot>
    var tick: nat
    var devs: Devices

    constructor (c: Config, devs: Devices)
      requires c.Ok()
      ensures this.c == c && View() == Fresh(c, devs) && Arranged(c, slots)
    {
      this.c, this.devs, tick := c, devs, 0;
      slots := seq(c.entries, _ => Slot(false, 0, 0, []));
    }

    ghost function View(): State
      reads this
    {
      State(slots, tick, devs)
    }

    /** dev_read of a block of device i */
    method ReadBlock(i: nat, b: nat) returns (r: seq<int>)
      requires Arranged(c, slots) && i < |devs| && b < |devs[i]|
      modifies this`slots, this`tick
      ensures Arranged(c, slots) && View() == Loaded(c, old(View()), i, b)
      ensures Where(c, old(View()), b) < |slots| && r == slots[Where(c, old(View()), b)].buf
    {
      hide Arranged, Victim, Cached, SlotFor;
      var e := FindIn(c, slots, b);
      if !(slots[e].valid && slots[e].blk == b) {
        NotCached(slots, e, b);
        tick := tick + 1;
        LoadArranged(c, slots, b, e, Slot(true, b, tick, devs[i][b]));
        slots := slots[e := Slot(true, b, tick, devs[i][b])];
      }
      r := slots[e].buf;
    }

    /** dev_write of a block of device i */
    method WriteBlock(i: nat, b: nat, data: seq<int>)
      requires Arranged(c, slots) && i < |devs| && b < |devs[i]|
      modifies this`slots, this`devs
      ensures Arranged(c, slots) && View() == Written(c, old(View()), i, b, data)
    {
      hide Arranged, Victim, Cached, SlotFor;
      var e := FindIn(c, slots, b);
      if slots[e].valid && slots[e].blk == b {
        UpdateArranged(c, slots, e, slots[e].(buf := data));
        slots := slots[e := slots[e].(buf := data)];
      }
      devs := Stored(devs, i, b, data);
    }
  }

  function Fresh(c: Config, devs: Devices): State {
    State(seq(c.entries, _ => Slot(false, 0, 0, [])), 0, devs)
  }

  // ---- one device for every block number

  /** The device that each block number is used on. */
  type Owner = map<nat, nat>

  /** Every access goes to the device that has its block number. */
  predicate Follows(own: Owner, ops: seq<Access>) {
    forall i :: 0 <= i < |ops| ==> ops[i].blk in own && own[ops[i].blk] == ops[i].dev
  }

  predicate Agrees(own: Owner, devs: Devices, s: Slot) {
    s.valid ==>
      && s.blk in own && own[s.blk] < |devs| && s.blk < |devs[own[s.blk]]| && s.buf == devs[own[s.blk]][s.blk]
  }

  ghost predicate Good(c: Config, own: Owner, s: State) {
    Arranged(c, s.slots) && forall e :: 0 <= e < |s.slots| ==> Agrees(own, s.devs, s.slots[e])
  }

  lemma FindMeans(c: Config, slots: seq<Slot>, b: nat)
    requires Arranged(c, slots)
    ensures c.Ok() && |slots| == c.entries
    ensures var e := SlotFor(c, slots, b, 0, b % c.entries);
            && e < |slots| && (Cached(slots, b) ==> CachedIn(slots, e, b))
            && (!Cached(slots, b) ==> Victim(c, slots, b, e))
  {
    SlotForMeans(c, slots, b, 0, 0);
  }

  lemma GetGood(c: Config, own: Owner, s: State, i: nat, b: nat)
    requires Good(c, own, s) && i < |s.devs| && b < |s.devs[i]| && b in own && own[b] == i
    ensures c.Ok() && |s.slots| == c.entries && Where(c, s, b) < |s.slots|
    ensures Good(c, own, Loaded(c, s, i, b)) && Loaded(c, s, i, b).slots[Where(c, s, b)].buf == s.devs[i][b]
    ensures Loaded(c, s, i, b).devs == s.devs
  {
    hide Arranged, Victim, Cached, SlotFor;
    FindMeans(c, s.slots, b);
    var e := Where(c, s, b);
    assert Agrees(own, s.devs, s.slots[e]);
    if !Hit(c, s, b) {
      NotCached(s.slots, e, b);
      LoadArranged(c, s.slots, b, e, Slot(true, b, s.tick + 1, s.devs[i][b]));
    }
  }

  lemma PutGood(c: Config, own: Owner, s: State, i: nat, b: nat, data: seq<int>)
    requires Good(c, own, s) && i < |s.devs| && b < |s.devs[i]| && b in own && own[b] == i
    ensures c.Ok() && |s.slots| == c.entries && Good(c, own, Written(c, s, i, b, data))
    ensures Written(c, s, i, b, data).devs == Stored(s.devs, i, b, data)
  {
    hide Arranged, Victim, Cached, SlotFor;
    FindMeans(c, s.slots, b);
    var e, s' := Where(c, s, b), Written(c, s, i, b, data);
    OnlySlot(c, s.slots, e, b);
    if Hit(c, s, b) { UpdateArranged(c, s.slots, e, s.slots[e].(buf := data)); }
    forall f | 0 <= f < |s'.slots| ensures Agrees(own, s'.devs, s'.slots[f]) { assert Agrees(own, s.devs, s.slots[f]); }
  }

  /** Where every block number belongs to one device, the cache is not to be seen. */
  lemma {:induction false} ThroughIsBare(c: Config, own: Owner, s: State, ops: seq<Access>)
    requires Good(c, own, s) && Follows(own, ops) && AllOn(s.devs, ops)
    ensures c.Ok() && |s.slots| == c.entries && Through(c, s, ops) == Bare(s.devs, ops)
    decreases |ops|
  {
    hide Good, Loaded, Written, Where;
    GoodOk(c, own, s);
    if ops != [] {
      assert On(s.devs, ops[0]);
      match ops[0] {
        case Get(i, b) => GetGood(c, own, s, i, b);
        case Put(i, b, data) => PutGood(c, own, s, i, b, data);
      }
      var s' := After(c, s, ops[0]);
      StillOn(s.devs, s'.devs, ops);
      ThroughIsBare(c, own, s', ops[1..]);
    }
  }

  lemma GoodOk(c: Config, own: Owner, s: State)
    requires Good(c, own, s)
    ensures c.Ok() && |s.slots| == c.entries
  {
  }

  // ---- exactly then

  /** No block number is used on two devices. */
  predicate Apart(uses: set<(nat, nat)>) { forall x, y :: x in uses && y in uses && x.1 == y.1 ==> x.0 == y.0 }

  /** The accesses are among those foreseen, given by device and block number. */
  predicate Among(uses: set<(nat, nat)>, ops: seq<Access>) {
    forall i :: 0 <= i < |ops| ==> (ops[i].dev, ops[i].blk) in uses
  }

  /** Every run of such accesses gives what the bare devices would give. */
  ghost predicate Transparent(c: Config, uses: set<(nat, nat)>)
    requires c.Ok()
  {
    forall devs: Devices, ops: seq<Access> :: AllOn(devs, ops) && Among(uses, ops) ==>
      Through(c, Fresh(c, devs), ops) == Bare(devs, ops)
  }

  ghost function OwnerOf(uses: set<(nat, nat)>): (own: Owner)
    requires Apart(uses)
    ensures forall x :: x in uses ==> x.1 in own && own[x.1] == x.0
  {
    map x | x in uses :: x.1 := x.0
  }

  /** Two reads of the same number on two devices: the second returns what the first one read. */
  lemma Confused(c: Config, devs: Devices, i: nat, j: nat, b: nat)
    requires c.Ok() && i < |devs| && j < |devs| && b < |devs[i]| && b < |devs[j]|
    ensures AllOn(devs, [Get(i, b), Get(j, b)])
    ensures Through(c, Fresh(c, devs), [Get(i, b), Get(j, b)]).0 == [devs[i][b], devs[i][b]]
    ensures Bare(devs, [Get(i, b), Get(j, b)]).0 == [devs[i][b], devs[j][b]]
  {
    hide SlotFor, Victim;
    var s, ops := Fresh(c, devs), [Get(i, b), Get(j, b)];
    assert Good(c, map[b := i], s);
    GetGood(c, map[b := i], s, i, b);
    var s', e := Loaded(c, s, i, b), Where(c, s, b);
    assert !Hit(c, s, b);
    assert CachedIn(s'.slots, e, b);
    FindMeans(c, s'.slots, b);
    OnlySlot(c, s'.slots, Where(c, s', b), b);
    assert Where(c, s', b) == e && Hit(c, s', b) && Loaded(c, s', j, b) == s';
    assert ops[1..] == [Get(j, b)] && ops[1..][1..] == [];
    assert Through(c, s', [Get(j, b)]).0 == [s'.slots[e].buf] + [];
    assert Bare(devs, [Get(j, b)]).0 == [devs[j][b]] + [];
  }

  /** The cache is not to be seen if and only if no block number is used on two devices. */
  lemma TransparentIff(c: Config, uses: set<(nat, nat)>)
    requires c.Ok()
    ensures Transparent(c, uses) <==> Apart(uses)
  {
    hide SlotFor, Through, Bare;
    if Apart(uses) {
      forall devs: Devices, ops: seq<Access> | AllOn(devs, ops) && Among(uses, ops)
        ensures Through(c, Fresh(c, devs), ops) == Bare(devs, ops)
      {
        ThroughIsBare(c, OwnerOf(uses), Fresh(c, devs), ops);
      }
    } else {
      var x, y :| x in uses && y in uses && x.1 == y.1 && x.0 != y.0;
      var n := x.0 + y.0 + 1;
      var devs := seq(n, k => seq(x.1 + 1, _ => [k as int]));
      var ops := [Get(x.0, x.1), Get(y.0, x.1)];
      Confused(c, devs, x.0, y.0, x.1);
      assert Among(uses, ops);
      assert Through(c, Fresh(c, devs), ops).0[1] == [x.0] && Bare(devs, ops).0[1] == [y.0];
    }
  }

  /** For example two devices of one block each: the second read returns the first device's block. */
  method TwoDevices() returns (first: seq<int>, second: seq<int>)
    ensures first == [1] && second == [1]
  {
    hide SlotFor, Arranged, Victim;
    var c, devs := Config(1024, 10), [[[1]], [[2]]];
    var disks := new Disks(c, devs);
    assert Good(c, map[0 := 0], Fresh(c, devs));
    GetGood(c, map[0 := 0], Fresh(c, devs), 0, 0);
    first := disks.ReadBlock(0, 0);
    assert CachedIn(disks.slots, Where(c, Fresh(c, devs), 0), 0);
    FindMeans(c, disks.slots, 0);
    OnlySlot(c, disks.slots, Where(c, disks.View(), 0), 0);
    second := disks.ReadBlock(1, 0);
  }
}
