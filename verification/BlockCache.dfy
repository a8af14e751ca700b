/** The write-through cache in front of one device (lib/libf2fs_io.c), starting with no valid slot. */
module BlockCache {
  const BLK: nat := 4096

  /** dcache_relocate_offset0 */
  const OFFSETS: seq<int> := [20, -20, 40, -40, 80, -80, 160, -160, 320, -320, 640, -640, 1280, -1280, 2560, -2560]

  type Device = d: seq<int> | |d| % BLK == 0 witness []

  function BlockOf(dev: Device, b: nat): seq<int>
    requires (b + 1) * BLK <= |dev|
  {
    dev[b * BLK..(b + 1) * BLK]
  }

  function Patch(dev: Device, offset: nat, data: seq<int>): (r: Device)
    requires offset + |data| <= |dev|
    ensures |r| == |dev|
  {
    dev[..offset] + data + dev[offset + |data|..]
  }

  datatype Config = Config(entries: nat, collisions: nat) {
    /** What dcache_relocate_init leaves: every offset in use is at most half the table. */
    predicate Ok() {
      entries > 0 && collisions <= 16 && forall k :: 0 <= k < collisions ==>
          -(entries as int) <= 2 * OFFSETS[k] <= entries
    }

    predicate Tried(k: nat) { k == 0 || k < collisions }
  }

  /** The k-th slot the search looks at for a block. */
  function Probe(c: Config, b: nat, k: nat): (e: nat)
    requires c.Ok() && (k == 0 || k < c.collisions)
    ensures e < c.entries
  {
    if k == 0 then b % c.entries else Relocate(c, b % c.entries, k - 1)
  }

  /** dcache_relocate */
  function Relocate(c: Config, entry: nat, n: nat): (e: nat)
    requires c.Ok() && entry < c.entries && n < c.collisions
    ensures e < c.entries
  {
    (entry + c.entries + OFFSETS[n]) % c.entries
  }

  lemma ProbeNext(c: Config, b: nat, k: nat)
    requires c.Ok()
    ensures k == 0 ==> Probe(c, b, k) == b % c.entries
    ensures 0 < k < c.collisions ==> Probe(c, b, k) == Relocate(c, b % c.entries, k - 1)
  {
  }

  /** The other places for a block lie around its first one, taken around the ends of the cache. */
  lemma ProbesAround(c: Config, b: nat, k: nat)
    requires c.Ok() && 0 < k < c.collisions
    ensures var x := b % c.entries + OFFSETS[k - 1];
            Probe(c, b, k) == if x < 0 then x + c.entries else if x >= c.entries then x - c.entries else x
  {
    var off := OFFSETS[k - 1];
    assert -(c.entries as int) <= 2 * off <= c.entries;
    WrapsAround(b % c.entries, off, c.entries);
  }

  lemma WrapsAround(e: nat, off: int, n: int)
    requires e < n && -n <= 2 * off <= n
    ensures (e + n + off) % n == if e + off < 0 then e + off + n else if e + off >= n then e + off - n else e + off
  {
    var x := e + off;
    if x < 0 {
      ModIs(x + n, 0, x + n, n);
    } else if x < n {
      ModIs(x + n, 1, x, n);
    } else {
      ModIs(x + n, 2, x - n, n);
    }
  }

  lemma ModIs(z: int, q: int, r: int, n: int)
    requires n > 0 && z == q * n + r && 0 <= r < n
    ensures z % n == r
  {
    var d := z / n;
    assert z == d * n + z % n;
    assert (d - q) * n == d * n - q * n;
    Apart(d - q, r - z % n, n);
  }

  /** A multiple of n that lies within n of 0 is 0. */
  lemma Apart(k: int, x: int, n: int)
    requires n > 0 && k * n == x && -n < x < n
    ensures x == 0
  {
    assert k >= 1 ==> k * n >= n;
    assert k <= -1 ==> k * n <= -n;
  }

  datatype Slot = Slot(valid: bool, blk: nat, used: nat, buf: seq<int>)

  /** Slot e is the k-th choice for block b, and the choices before it are taken. */
  predicate PlacedAt(c: Config, slots: seq<Slot>, b: nat, k: nat, e: nat)
    requires c.Ok() && |slots| == c.entries
  {
    c.Tried(k) && Probe(c, b, k) == e && forall j: nat :: j < k ==> slots[Probe(c, b, j)].valid
  }

  ghost predicate Placed(c: Config, slots: seq<Slot>, e: nat)
    requires c.Ok() && |slots| == c.entries && e < |slots|
  {
    slots[e].valid ==> exists k: nat :: PlacedAt(c, slots, slots[e].blk, k, e)
  }

  ghost predicate Arranged(c: Config, slots: seq<Slot>) {
    && c.Ok() && |slots| == c.entries && (forall e :: 0 <= e < |slots| ==> Placed(c, slots, e))
    && forall e, f :: 0 <= e < f < |slots| && slots[e].valid && slots[f].valid ==> slots[e].blk != slots[f].blk
  }

  predicate Holds(dev: Device, s: Slot) { s.valid ==> (s.blk + 1) * BLK <= |dev| && s.buf == BlockOf(dev, s.blk) }

  predicate Coherent(dev: Device, slots: seq<Slot>) { forall e :: 0 <= e < |slots| ==> Holds(dev, slots[e]) }

  /** A cached block is met before any free slot. */
  lemma FirstMet(c: Config, slots: seq<Slot>, e: nat, b: nat, k: nat)
    requires Arranged(c, slots) && e < |slots| && slots[e].valid && slots[e].blk == b && c.Tried(k)
    requires forall j: nat :: j < k ==> slots[Probe(c, b, j)].valid && slots[Probe(c, b, j)].blk != b
    requires !slots[Probe(c, b, k)].valid || slots[Probe(c, b, k)].blk == b
    ensures Probe(c, b, k) == e
  {
    assert Placed(c, slots, e);
    var i: nat :| PlacedAt(c, slots, b, i, e);
  }

  /** The block is cached in slot e. */
  predicate CachedIn(slots: seq<Slot>, e: nat, b: nat) { e < |slots| && slots[e].valid && slots[e].blk == b }

  ghost predicate Cached(slots: seq<Slot>, b: nat) { exists e: nat :: CachedIn(slots, e, b) }

  /** The slot the search settles on for a block that is not cached: a free one, or the least used of all it may use. */
  ghost predicate Victim(c: Config, slots: seq<Slot>, b: nat, e: nat)
    requires c.Ok() && |slots| == c.entries && e < |slots|
  {
    && (exists k: nat :: PlacedAt(c, slots, b, k, e))
    && (slots[e].valid ==> forall j: nat :: j < c.collisions ==>
         slots[Probe(c, b, j)].valid && slots[e].used <= slots[Probe(c, b, j)].used)
  }

  /** Putting a block that is not cached where the search points keeps every cached block findable. */
  lemma LoadArranged(c: Config, slots: seq<Slot>, b: nat, e: nat, s: Slot)
    requires Arranged(c, slots) && !Cached(slots, b) && e < |slots| && Victim(c, slots, b, e) && s.valid && s.blk == b
    ensures Arranged(c, slots[e := s])
  {
    var t := slots[e := s];
    forall f | 0 <= f < |t| ensures Placed(c, t, f) {
      if f == e {
        var k: nat :| PlacedAt(c, slots, b, k, e);
        assert PlacedAt(c, t, b, k, e);
      } else if t[f].valid {
        assert Placed(c, slots, f);
        var k: nat :| PlacedAt(c, slots, slots[f].blk, k, f);
        assert PlacedAt(c, t, t[f].blk, k, f);
      }
    }
    forall f | 0 <= f < |slots| && f != e && slots[f].valid ensures slots[f].blk != b {
      assert !CachedIn(slots, f, b);
    }
  }

  /** Changing the contents of a slot does not move it. */
  lemma UpdateArranged(c: Config, slots: seq<Slot>, e: nat, s: Slot)
    requires Arranged(c, slots) && e < |slots| && s.valid == slots[e].valid && s.blk == slots[e].blk
    ensures Arranged(c, slots[e := s])
  {
    var t := slots[e := s];
    forall f | 0 <= f < |t| ensures Placed(c, t, f) {
      if t[f].valid {
        assert Placed(c, slots, f);
        var k: nat :| PlacedAt(c, slots, slots[f].blk, k, f);
        assert PlacedAt(c, t, t[f].blk, k, f);
      }
    }
  }

  /** The slot the search ends at, from the try-th choice on and with `least` the least used so far. */
  function SlotFor(c: Config, slots: seq<Slot>, b: nat, try: nat, least: nat): nat
    requires c.Ok() && |slots| == c.entries && least < |slots|
    decreases c.collisions - try
  {
    if try >= c.collisions then least
    else
      var t := Probe(c, b, try);
      if !slots[t].valid || slots[t].blk == b then t
      else SlotFor(c, slots, b, try + 1, if slots[t].used < slots[least].used then t else least)
  }

  lemma {:induction false} SlotForMeans(c: Config, slots: seq<Slot>, b: nat, try: nat, at: nat)
    requires Arranged(c, slots) && try <= c.collisions && (at == 0 || at < try)
    requires forall j: nat :: j < try ==> slots[Probe(c, b, j)].valid && slots[Probe(c, b, j)].blk != b
    requires forall j: nat :: j < try ==> slots[Probe(c, b, at)].used <= slots[Probe(c, b, j)].used
    ensures var e := SlotFor(c, slots, b, try, Probe(c, b, at));
            && e < |slots| && (Cached(slots, b) ==> CachedIn(slots, e, b))
            && (!Cached(slots, b) ==> Victim(c, slots, b, e))
    decreases c.collisions - try
  {
    hide Arranged, Victim, PlacedAt, Cached, CachedIn, Probe, Relocate;
    ArrangedOk(c, slots);
    if try == c.collisions {
      NotMet(c, slots, b);
      LeastUsed(c, slots, b, at);
    } else {
      var t := Probe(c, b, try);
      if !slots[t].valid || slots[t].blk == b {
        FoundSlot(c, slots, b, try);
      } else {
        SlotForMeans(c, slots, b, try + 1, if slots[t].used < slots[Probe(c, b, at)].used then try else at);
      }
    }
  }

  /** dcache_find over a table of slots */
  method FindIn(c: Config, slots: seq<Slot>, b: nat) returns (e: nat)
    requires Arranged(c, slots)
    ensures c.Ok() && |slots| == c.entries && e == SlotFor(c, slots, b, 0, b % c.entries) < |slots|
    ensures (Cached(slots, b) ==> CachedIn(slots, e, b)) && (!Cached(slots, b) ==> Victim(c, slots, b, e))
  {
    hide Arranged, Victim, PlacedAt, Cached, CachedIn, Relocate;
    ArrangedOk(c, slots);
    SlotForMeans(c, slots, b, 0, 0);
    var entry: nat := b % c.entries;
    var least: nat, target: nat, try: nat := entry, entry, 0;
    while try < c.collisions
      invariant try <= c.collisions && least < |slots| && (try < c.collisions ==> target == Probe(c, b, try))
      invariant SlotFor(c, slots, b, try, least) == SlotFor(c, slots, b, 0, entry)
    {
      if !slots[target].valid || slots[target].blk == b {
        return target;
      }
      if slots[target].used < slots[least].used {
        least := target;
      }
      target := Relocate(c, entry, try);
      try := try + 1;
      ProbeNext(c, b, try);
    }
    return least;
  }

  class Cache {
    const c: Config
    var slots: seq<Slot>
    var tick: nat
    var dev: Device

    ghost predicate Valid()
      reads this
    {
      Arranged(c, slots) && Coherent(dev, slots)
    }

    constructor (c: Config, dev: Device)
      requires c.Ok()
      ensures Valid() && this.c == c && this.dev == dev
    {
      this.c, this.dev, tick := c, dev, 0;
      slots := seq(c.entries, _ => Slot(false, 0, 0, []));
    }

    /** dcache_find */
    method Find(b: nat) returns (e: nat)
      requires Arranged(c, slots)
      ensures e < |slots| && (Cached(slots, b) ==> CachedIn(slots, e, b))
      ensures (!Cached(slots, b) ==> Victim(c, slots, b, e))
    {
      e := FindIn(c, slots, b);
    }

    /** dcache_io_read: a physical read into a slot */
    method IoRead(e: nat, b: nat)
      requires Valid() && e < |slots| && !Cached(slots, b) && Victim(c, slots, b, e) && (b + 1) * BLK <= |dev|
      modifies this`slots, this`tick
      ensures Valid() && CachedIn(slots, e, b)
    {
      tick := tick + 1;
      LoadArranged(c, slots, b, e, Slot(true, b, tick, BlockOf(dev, b)));
      slots := slots[e := Slot(true, b, tick, BlockOf(dev, b))];
    }

    /** dev_read: what the device itself holds. */
    method Read(offset: nat, len: nat) returns (r: seq<int>)
      requires Valid() && offset + len <= |dev|
      modifies this`slots, this`tick
      ensures Valid() && r == dev[offset..offset + len]
    {
      hide Arranged, Victim, Cached;
      var b: nat, inBlk: nat, left: nat := offset / BLK, offset % BLK, len;
      r := [];
      while left != 0
        invariant Valid() && left <= len && inBlk < BLK && r == dev[offset..offset + len - left]
        invariant left != 0 ==> b * BLK + inBlk == offset + len - left
      {
        var size := if left < BLK - inBlk then left else BLK - inBlk;
        InRange(dev, b, inBlk);
        var e := Find(b);
        if !(slots[e].valid && slots[e].blk == b) {
          NotCached(slots, e, b);
          IoRead(e, b);
        }
        assert Holds(dev, slots[e]);
        SliceOf(dev, b, inBlk, size);
        r := r + slots[e].buf[inBlk..inBlk + size];
        left := left - size;
        b := b + 1;
        inBlk := 0;
      }
    }

    /** The part of dev_write that updates cached blocks; the others are left alone. */
    method UpdateCache(offset: nat, data: seq<int>)
      requires Valid() && offset + |data| <= |dev|
      modifies this`slots
      ensures Arranged(c, slots) && Coherent(Patch(dev, offset, data), slots)
    {
      hide Arranged, Victim, Cached, Patch;
      var b: nat, inBlk: nat, done: nat := offset / BLK, offset % BLK, 0;
      ghost var dev' := Patch(dev, offset, data);
      StartMixed(dev, offset, data, slots);
      while done != |data|
        invariant Arranged(c, slots) && done <= |data| && inBlk < BLK && Mixed(dev, dev', b, slots)
        invariant done != |data| ==> b * BLK + inBlk == offset + done && (inBlk == 0 || done == 0)
        invariant done == |data| ==> offset + |data| <= b * BLK || data == []
      {
        var size := if |data| - done < BLK - inBlk then |data| - done else BLK - inBlk;
        InRange(dev, b, inBlk);
        var e := Find(b);
        OnlySlot(c, slots, e, b);
        MixedStep(dev, offset, data, b, inBlk, done, size, slots, e);
        if slots[e].valid && slots[e].blk == b {
          var buf := slots[e].buf;
          UpdateArranged(c, slots, e, slots[e].(buf := buf[..inBlk] + data[done..done + size] + buf[inBlk + size..]));
          slots := slots[e := slots[e].(buf := buf[..inBlk] + data[done..done + size] + buf[inBlk + size..])];
        } else {
          NotCached(slots, e, b);
        }
        done := done + size;
        b := b + 1;
        inBlk := 0;
      }
      EndMixed(dev, offset, data, b, slots);
    }

    /** dev_write: cached blocks first, then the device. */
    method Write(offset: nat, data: seq<int>)
      requires Valid() && offset + |data| <= |dev|
      modifies this`slots, this`dev
      ensures Valid() && dev == Patch(old(dev), offset, data)
    {
      UpdateCache(offset, data);
      dev := Patch(dev, offset, data);
    }

    /** Any sequence of reads and writes gives what the bare device would give. */
    method Run(ops: seq<Op>) returns (out: seq<seq<int>>)
      requires Valid() && forall i :: 0 <= i < |ops| ==> InDevice(|dev|, ops[i])
      modifies this
      ensures Valid() && |dev| == old(|dev|) && (out, dev) == Uncached(old(dev), ops)
    {
      hide Arranged, Coherent;
      out := [];
      var i := 0;
      assert ops[0..] == ops && [] + Uncached(dev, ops).0 == Uncached(dev, ops).0;
      while i < |ops|
        invariant i <= |ops| && Valid() && |dev| == old(|dev|)
        invariant Uncached(old(dev), ops) == (out + Uncached(dev, ops[i..]).0, Uncached(dev, ops[i..]).1)
      {
        assert ops[i..][1..] == ops[i + 1..];
        assert InDevice(|dev|, ops[i]);
        match ops[i] {
          case ReadOp(offset, len) =>
            var r := Read(offset, len);
            assert out + ([r] + Uncached(dev, ops[i + 1..]).0) == out + [r] + Uncached(dev, ops[i + 1..]).0;
            out := out + [r];
          case WriteOp(offset, data) =>
            Write(offset, data);
        }
        i := i + 1;
      }
      assert out + [] == out;
    }
  }

  /** The slot met first: the block's own if it is cached, a free one otherwise. */
  lemma FoundSlot(c: Config, slots: seq<Slot>, b: nat, k: nat)
    requires Arranged(c, slots) && c.Tried(k)
    requires forall j: nat :: j < k ==> slots[Probe(c, b, j)].valid && slots[Probe(c, b, j)].blk != b
    requires !slots[Probe(c, b, k)].valid || slots[Probe(c, b, k)].blk == b
    ensures Cached(slots, b) ==> CachedIn(slots, Probe(c, b, k), b)
    ensures !Cached(slots, b) ==> Victim(c, slots, b, Probe(c, b, k))
  {
    if Cached(slots, b) {
      var e: nat :| CachedIn(slots, e, b);
      FirstMet(c, slots, e, b, k);
    } else {
      assert PlacedAt(c, slots, b, k, Probe(c, b, k));
      assert !CachedIn(slots, Probe(c, b, k), b);
    }
  }

  lemma ArrangedOk(c: Config, slots: seq<Slot>)
    requires Arranged(c, slots)
    ensures c.Ok() && |slots| == c.entries
  {
  }

  lemma LeastUsed(c: Config, slots: seq<Slot>, b: nat, k: nat)
    requires Arranged(c, slots) && c.Tried(k)
    requires forall j: nat :: j < c.collisions ==>
               slots[Probe(c, b, j)].valid && slots[Probe(c, b, k)].used <= slots[Probe(c, b, j)].used
    ensures Victim(c, slots, b, Probe(c, b, k))
  {
    assert PlacedAt(c, slots, b, k, Probe(c, b, k));
  }

  /** A block none of whose slots holds it is not cached. */
  lemma NotMet(c: Config, slots: seq<Slot>, b: nat)
    requires Arranged(c, slots) && forall j: nat :: j < c.collisions ==>
               slots[Probe(c, b, j)].valid && slots[Probe(c, b, j)].blk != b
    ensures c.collisions > 0 ==> !Cached(slots, b)
    ensures c.collisions == 0 && Cached(slots, b) ==> CachedIn(slots, Probe(c, b, 0), b)
  {
    if Cached(slots, b) {
      var e: nat :| CachedIn(slots, e, b);
      assert Placed(c, slots, e);
      var k: nat :| PlacedAt(c, slots, b, k, e);
    }
  }

  // ---- reads and writes

  datatype Op = ReadOp(offset: nat, len: nat) | WriteOp(offset: nat, data: seq<int>)

  predicate InDevice(size: nat, op: Op) { op.offset + (if op.ReadOp? then op.len else |op.data|) <= size }

  /** What the reads return and what the device holds afterwards, without a cache. */
  function Uncached(dev: Device, ops: seq<Op>): (seq<seq<int>>, Device)
    requires forall i :: 0 <= i < |ops| ==> InDevice(|dev|, ops[i])
    decreases |ops|
  {
    if ops == [] then ([], dev)
    else
      assert InDevice(|dev|, ops[0]);
      match ops[0]
      case ReadOp(offset, len) =>
        var rest := Uncached(dev, ops[1..]);
        ([dev[offset..offset + len]] + rest.0, rest.1)
      case WriteOp(offset, data) => Uncached(Patch(dev, offset, data), ops[1..])
  }

  lemma InRange(dev: Device, b: nat, inBlk: nat)
    requires b * BLK + inBlk < |dev|
    ensures (b + 1) * BLK <= |dev|
  {
  }

  lemma NotCached(slots: seq<Slot>, e: nat, b: nat)
    requires e < |slots| && (Cached(slots, b) ==> CachedIn(slots, e, b)) && !(slots[e].valid && slots[e].blk == b)
    ensures !Cached(slots, b)
  {
  }

  lemma OnlySlot(c: Config, slots: seq<Slot>, e: nat, b: nat)
    requires Arranged(c, slots) && e < |slots| && (Cached(slots, b) ==> CachedIn(slots, e, b))
    ensures forall f :: 0 <= f < |slots| && slots[f].valid && slots[f].blk == b ==> f == e
  {
    forall f | 0 <= f < |slots| && slots[f].valid && slots[f].blk == b ensures f == e {
      assert CachedIn(slots, f, b);
    }
  }

  lemma SliceSlice(s: seq<int>, lo: nat, hi: nat, x: nat, y: nat)
    requires lo <= hi <= |s| && x <= y <= hi - lo
    ensures s[lo..hi][x..y] == s[lo + x..lo + y]
  {
    var a, b := s[lo..hi][x..y], s[lo + x..lo + y];
    assert |a| == |b|;
    forall i | 0 <= i < |a| ensures a[i] == b[i] {
      assert a[i] == s[lo..hi][x + i] == s[lo + x + i];
    }
  }

  lemma SliceOf(dev: Device, b: nat, inBlk: nat, size: nat)
    requires (b + 1) * BLK <= |dev| && inBlk + size <= BLK
    ensures BlockOf(dev, b)[inBlk..inBlk + size] == dev[b * BLK + inBlk..b * BLK + inBlk + size]
  {
    SliceSlice(dev, b * BLK, (b + 1) * BLK, inBlk, inBlk + size);
  }

  /** Blocks before b are as in the new device, the others as in the old one. */
  predicate Mixed(dev: Device, dev': Device, b: nat, slots: seq<Slot>)
    requires |dev| == |dev'|
  {
    forall e :: 0 <= e < |slots| ==> Holds(if slots[e].blk < b then dev' else dev, slots[e])
  }

  /** A block outside the written range is the same on both. */
  lemma SameBlock(dev: Device, offset: nat, data: seq<int>, b: nat)
    requires offset + |data| <= |dev| && (b + 1) * BLK <= |dev|
    requires ((b + 1) * BLK <= offset || offset + |data| <= b * BLK || data == [])
    ensures BlockOf(Patch(dev, offset, data), b) == BlockOf(dev, b)
  {
  }

  lemma StartMixed(dev: Device, offset: nat, data: seq<int>, slots: seq<Slot>)
    requires offset + |data| <= |dev| && Coherent(dev, slots)
    ensures Mixed(dev, Patch(dev, offset, data), offset / BLK, slots)
  {
    forall e | 0 <= e < |slots| && slots[e].valid && slots[e].blk < offset / BLK
      ensures Holds(Patch(dev, offset, data), slots[e])
    {
      assert Holds(dev, slots[e]);
      SameBlock(dev, offset, data, slots[e].blk);
    }
  }

  lemma EndMixed(dev: Device, offset: nat, data: seq<int>, b: nat, slots: seq<Slot>)
    requires offset + |data| <= |dev| && Mixed(dev, Patch(dev, offset, data), b, slots)
    requires (offset + |data| <= b * BLK || data == [])
    ensures Coherent(Patch(dev, offset, data), slots)
  {
    forall e | 0 <= e < |slots| && slots[e].valid && slots[e].blk >= b
      ensures Holds(Patch(dev, offset, data), slots[e])
    {
      assert Holds(dev, slots[e]);
      SameBlock(dev, offset, data, slots[e].blk);
    }
  }

  /** The written piece of a block, put into its old contents, gives its new contents. */
  lemma PatchedBlock(dev: Device, offset: nat, data: seq<int>, b: nat, inBlk: nat, done: nat, size: nat)
    requires offset + |data| <= |dev| && (b + 1) * BLK <= |dev| && b * BLK + inBlk == offset + done
    requires (inBlk == 0 || done == 0)
    requires inBlk + size <= BLK && done + size <= |data| && (inBlk + size == BLK || done + size == |data|)
    ensures var whole := BlockOf(dev, b);
            whole[..inBlk] + data[done..done + size] + whole[inBlk + size..] == BlockOf(Patch(dev, offset, data), b)
  {
    var whole, now := BlockOf(dev, b), BlockOf(Patch(dev, offset, data), b);
    var mixed := whole[..inBlk] + data[done..done + size] + whole[inBlk + size..];
    assert |mixed| == |now| == BLK;
    forall k | 0 <= k < BLK ensures mixed[k] == now[k] {
      PatchAt(dev, offset, data, b * BLK + k);
      if inBlk <= k < inBlk + size { assert mixed[k] == data[done + k - inBlk]; } else { assert mixed[k] == whole[k]; }
    }
  }

  lemma PatchAt(dev: Device, offset: nat, data: seq<int>, i: nat)
    requires offset + |data| <= |dev| && i < |dev|
    ensures Patch(dev, offset, data)[i] == if offset <= i < offset + |data| then data[i - offset] else dev[i]
  {
  }

  lemma MixedStep(dev: Device, offset: nat, data: seq<int>, b: nat, inBlk: nat, done: nat, size: nat,
                  slots: seq<Slot>, e: nat)
    requires offset + |data| <= |dev| && (b + 1) * BLK <= |dev| && b * BLK + inBlk == offset + done
    requires (inBlk == 0 || done == 0)
    requires inBlk + size <= BLK && done + size <= |data| && (inBlk + size == BLK || done + size == |data|)
    requires Mixed(dev, Patch(dev, offset, data), b, slots) && e < |slots|
    requires forall f :: 0 <= f < |slots| && slots[f].valid && slots[f].blk == b ==> f == e
    ensures slots[e].valid && slots[e].blk == b ==>
              && |slots[e].buf| == BLK
              && Mixed(dev, Patch(dev, offset, data), b + 1,
                       slots[e := slots[e].(buf := slots[e].buf[..inBlk] + data[done..done + size] +
                           slots[e].buf[inBlk + size..])])
    ensures !(slots[e].valid && slots[e].blk == b) ==> Mixed(dev, Patch(dev, offset, data), b + 1, slots)
  {
    assert Holds(if slots[e].blk < b then Patch(dev, offset, data) else dev, slots[e]);
    PatchedBlock(dev, offset, data, b, inBlk, done, size);
  }
}
