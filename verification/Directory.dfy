/**
  A hashed directory: looking a name up and adding one (fsck/dir.c), on levels whose
  block numbers do not overflow.  The hash of a name is a parameter.
 */
module Directory {
  import opened DirTiles
  import opened Dentry

  datatype Found = Missing | Ino(ino: nat)

  type Blocks = map<nat, Block>

  ghost predicate Sound(blocks: Blocks) {
    forall b :: b in blocks ==> Shaped(blocks[b]) && WellFormed(blocks[b], 0)
  }

  /** What one block says about a name. */
  function Probe(blocks: Blocks, b: nat, name: seq<int>, hash: nat): Found
    requires b in blocks ==> Shaped(blocks[b]) && WellFormed(blocks[b], 0)
  {
    if b !in blocks then Missing
    else
      match FindFrom(blocks[b], name, hash, 0)
      case None => Missing
      case Some(p) => FoundInBlock(blocks[b], name, hash, 0); Ino(blocks[b].dents[p].ino)
  }

  lemma {:induction false} FoundInBlock(d: Block, name: seq<int>, hash: nat, p: nat)
    requires Shaped(d) && WellFormed(d, p)
    ensures FindFrom(d, name, hash, p).Some? ==>
              FindFrom(d, name, hash, p).at < NR && d.bits[FindFrom(d, name, hash, p).at]
    decreases NR - p
  {
    if p < NR { FoundInBlock(d, name, hash, if !d.bits[p] then p + 1 else p + Slots(d.dents[p].len)); }
  }

  /** The first of n blocks from b on that knows the name. */
  function InBlocks(blocks: Blocks, b: nat, n: nat, name: seq<int>, hash: nat): Found
    requires Sound(blocks)
    decreases n
  {
    if n == 0 then Missing
    else
      var r := Probe(blocks, b, name, hash);
      if r.Ino? then r else InBlocks(blocks, b + 1, n - 1, name, hash)
  }

  function InLevel(blocks: Blocks, dirLevel: nat, level: nat, name: seq<int>, hash: nat): Found
    requires Sound(blocks)
  {
    InBlocks(blocks, First(level, dirLevel, hash % Buckets(level, dirLevel)), BucketBlocks(level), name, hash)
  }

  /** As long as the buckets double, the two blocks that are searched, in numbers. */
  lemma LevelIs(blocks: Blocks, dirLevel: nat, level: nat, name: seq<int>, hash: nat)
    requires Sound(blocks)
    ensures level + dirLevel < 31 ==>
              InLevel(blocks, dirLevel, level, name, hash)
              == InBlocks(blocks, Home(level, dirLevel, hash), 2, name, hash)
  {
    hide InBlocks, Home, Buckets, First, BucketBlocks, Sound;
    if level + dirLevel < 31 { HomeIs(level, dirLevel, hash); }
  }

  /** f2fs_find_entry: the levels from `level` up to the depth */
  function Lookup(blocks: Blocks, dirLevel: nat, level: nat, depth: nat, name: seq<int>, hash: nat): Found
    requires Sound(blocks)
    decreases depth - level
  {
    if level >= depth then Missing
    else
      var r := InLevel(blocks, dirLevel, level, name, hash);
      if r.Ino? then r else Lookup(blocks, dirLevel, level + 1, depth, name, hash)
  }

  /** Every block says the same about a name. */
  ghost predicate SameProbes(blocks: Blocks, blocks': Blocks, name: seq<int>, hash: nat)
    requires Sound(blocks) && Sound(blocks')
  {
    forall b: nat :: Probe(blocks', b, name, hash) == Probe(blocks, b, name, hash)
  }

  lemma {:induction false} SameInBlocks(blocks: Blocks, blocks': Blocks, b: nat, n: nat, name: seq<int>, hash: nat)
    requires Sound(blocks) && Sound(blocks') && SameProbes(blocks, blocks', name, hash)
    ensures InBlocks(blocks', b, n, name, hash) == InBlocks(blocks, b, n, name, hash)
    decreases n
  {
    if n > 0 { SameInBlocks(blocks, blocks', b + 1, n - 1, name, hash); }
  }

  lemma {:induction false} SameLookup(blocks: Blocks, blocks': Blocks, dirLevel: nat, level: nat, depth: nat,
                                      name: seq<int>, hash: nat)
    requires Sound(blocks) && Sound(blocks') && SameProbes(blocks, blocks', name, hash)
    ensures Lookup(blocks', dirLevel, level, depth, name, hash) == Lookup(blocks, dirLevel, level, depth, name, hash)
    decreases depth - level
  {
    if level < depth {
      SameInBlocks(blocks, blocks', First(level, dirLevel, hash % Buckets(level, dirLevel)), BucketBlocks(level),
          name, hash);
      SameLookup(blocks, blocks', dirLevel, level + 1, depth, name, hash);
    }
  }

  /** No block lies beyond the levels in use. */
  ghost predicate Within(blocks: Blocks, dirLevel: nat, depth: nat) {
    forall b :: b in blocks ==> b < Before(depth, dirLevel)
  }

  lemma {:induction false} NoneInBlocks(blocks: Blocks, b: nat, n: nat, name: seq<int>, hash: nat)
    requires Sound(blocks) && forall k: nat :: b <= k < b + n ==> k !in blocks
    ensures InBlocks(blocks, b, n, name, hash) == Missing
    decreases n
  {
    if n > 0 { NoneInBlocks(blocks, b + 1, n - 1, name, hash); }
  }

  /** Levels without blocks have nothing to find. */
  lemma {:induction false} DeeperLookup(blocks: Blocks, dirLevel: nat, level: nat, depth: nat, deeper: nat,
                                        name: seq<int>, hash: nat)
    requires Sound(blocks) && Within(blocks, dirLevel, depth) && depth <= deeper
    ensures Lookup(blocks, dirLevel, level, deeper, name, hash) == Lookup(blocks, dirLevel, level, depth, name, hash)
    decreases deeper - level
  {
    if level < deeper {
      if depth <= level {
        BeforeGrows(depth, level, dirLevel);
        NoneInBlocks(blocks, First(level, dirLevel, hash % Buckets(level, dirLevel)), BucketBlocks(level), name, hash);
      }
      DeeperLookup(blocks, dirLevel, level + 1, depth, deeper, name, hash);
    }
  }

  /** A block that a failed search covers does not know the name. */
  lemma {:induction false} MissingInBlocks(blocks: Blocks, b: nat, n: nat, name: seq<int>, hash: nat, at: nat)
    requires Sound(blocks) && InBlocks(blocks, b, n, name, hash) == Missing && b <= at < b + n
    ensures Probe(blocks, at, name, hash) == Missing
    decreases n
  {
    hide Probe;
    if b < at { MissingInBlocks(blocks, b + 1, n - 1, name, hash, at); }
  }

  lemma {:induction false} MissingAt(blocks: Blocks, dirLevel: nat, level: nat, depth: nat, name: seq<int>,
                                     hash: nat, at: nat, l: nat)
    requires Sound(blocks) && Lookup(blocks, dirLevel, level, depth, name, hash) == Missing
    requires level <= l < depth && InBucket(l, dirLevel, hash % Buckets(l, dirLevel), at)
    ensures Probe(blocks, at, name, hash) == Missing
    decreases depth - level
  {
    hide Probe, First, Buckets, BucketBlocks, InBlocks;
    if level < l {
      MissingAt(blocks, dirLevel, level + 1, depth, name, hash, at, l);
    } else {
      MissingInBlocks(blocks, First(level, dirLevel, hash % Buckets(level, dirLevel)), BucketBlocks(level), name,
          hash, at);
    }
  }

  /** Block `at` alone has learnt the name. */
  ghost predicate Learnt(blocks: Blocks, blocks': Blocks, at: nat, name: seq<int>, hash: nat)
    requires Sound(blocks) && Sound(blocks')
  {
    Probe(blocks', at, name, hash).Ino? && forall k: nat :: k != at ==>
        Probe(blocks', k, name, hash) == Probe(blocks, k, name, hash)
  }

  lemma {:induction false} LearntInBlocks(blocks: Blocks, blocks': Blocks, b: nat, n: nat, name: seq<int>,
                                          hash: nat, at: nat)
    requires Sound(blocks) && Sound(blocks') && Learnt(blocks, blocks', at, name, hash)
    requires InBlocks(blocks, b, n, name, hash) == Missing
    ensures InBlocks(blocks', b, n, name, hash) == if b <= at < b + n then Probe(blocks', at, name, hash) else Missing
    decreases n
  {
    hide Probe;
    if n > 0 { LearntInBlocks(blocks, blocks', b + 1, n - 1, name, hash, at); }
  }

  /** A search that failed before now comes to that block. */
  lemma {:induction false} LearntLookup(blocks: Blocks, blocks': Blocks, dirLevel: nat, level: nat, depth: nat,
                                        name: seq<int>, hash: nat, at: nat, l: nat)
    requires Sound(blocks) && Sound(blocks') && Learnt(blocks, blocks', at, name, hash)
    requires Lookup(blocks, dirLevel, level, depth, name, hash) == Missing
    requires level <= l < depth && InBucket(l, dirLevel, hash % Buckets(l, dirLevel), at)
    ensures Lookup(blocks', dirLevel, level, depth, name, hash) == Probe(blocks', at, name, hash)
    decreases depth - level
  {
    hide Probe, First, Buckets, BucketBlocks, InBlocks;
    LearntInBlocks(blocks, blocks', First(level, dirLevel, hash % Buckets(level, dirLevel)), BucketBlocks(level),
        name, hash, at);
    if level < l { LearntLookup(blocks, blocks', dirLevel, level + 1, depth, name, hash, at, l); }
  }

  // ---- adding a name

  function Empty(): (d: Block)
    ensures Shaped(d)
  {
    Block(seq(NR, _ => false), seq(NR, _ => Entry(0, 0, 0, 0)), seq(NR * SLOT, _ => 0))
  }

  lemma EmptyHasNothing(name: seq<int>, hash: nat)
    ensures WellFormed(Empty(), 0) && FindFrom(Empty(), name, hash, 0) == None
  {
    EmptyFrom(0, name, hash);
  }

  lemma {:induction false} EmptyFrom(p: nat, name: seq<int>, hash: nat)
    requires p <= NR
    ensures WellFormed(Empty(), p) && FindFrom(Empty(), name, hash, p) == None
    decreases NR - p
  {
    if p < NR { EmptyFrom(p + 1, name, hash); }
  }

  function BlockAt(blocks: Blocks, b: nat): Block { if b in blocks then blocks[b] else Empty() }

  /** Where an entry goes: a level, a block and a slot. */
  datatype Place = Place(level: nat, block: nat, slot: nat)

  /** The slots are free and in a block of the name's bucket. */
  ghost predicate InPlace(blocks: Blocks, dirLevel: nat, depth: nat, name: seq<int>, hash: nat, at: Place) {
    && at.level < depth && InBucket(at.level, dirLevel, hash % Buckets(at.level, dirLevel), at.block)
    && Shaped(BlockAt(blocks, at.block)) && Room(BlockAt(blocks, at.block), at.slot, Slots(|name|))
  }

  ghost function Placed(blocks: Blocks, at: Place, name: seq<int>, e: Entry): Blocks
    requires Shaped(BlockAt(blocks, at.block)) && at.slot + Slots(|name|) <= NR && e.len == |name| > 0
  {
    blocks[at.block := Updated(BlockAt(blocks, at.block), at.slot, name, e)]
  }

  /** A lookup that an entry at this place may change: that of the name behind it, as it was or with a zero in front. */
  ghost predicate AffectedAt(blocks: Blocks, at: Place, name: seq<int>, other: seq<int>, hash: nat)
    requires Shaped(BlockAt(blocks, at.block)) && at.slot + Slots(|name|) <= NR
  {
    Affected(BlockAt(blocks, at.block), at.slot, name, other, hash)
  }

  /** The directory with the name behind this place spoiled and nothing else changed, if it is to be spoiled. */
  ghost function SpoiledAt(blocks: Blocks, at: Place, name: seq<int>): Blocks
    requires Shaped(BlockAt(blocks, at.block)) && at.slot + Slots(|name|) <= NR
  {
    if at.block in blocks then blocks[at.block := Spoiled(blocks[at.block], at.slot, name)] else blocks
  }

  /** The first of n blocks from b on that has room, or the one behind them. */
  ghost function BlockWithRoom(blocks: Blocks, b: nat, n: nat, slots: nat): (r: nat)
    requires Sound(blocks) && slots > 0
    ensures b <= r <= b + n
    decreases n
  {
    if n == 0 || FirstRoom(BlockAt(blocks, b), slots, 0) < NR then b else BlockWithRoom(blocks, b + 1, n - 1, slots)
  }

  /**
    Where a name goes: the first level, the first block of its bucket there and the first slots that have room; or
    a new level.
   */
  ghost function PlaceFor(blocks: Blocks, dirLevel: nat, level: nat, depth: nat, slots: nat, hash: nat): Place
    requires Sound(blocks) && slots > 0
    decreases depth - level
  {
    var first := First(level, dirLevel, hash % Buckets(level, dirLevel));
    var b := BlockWithRoom(blocks, first, BucketBlocks(level), slots);
    if level >= depth then Place(level, first, 0)
    else if b < first + BucketBlocks(level) then Place(level, b, FirstRoom(BlockAt(blocks, b), slots, 0))
    else PlaceFor(blocks, dirLevel, level + 1, depth, slots, hash)
  }

  lemma PlaceStep(blocks: Blocks, dirLevel: nat, level: nat, depth: nat, slots: nat, hash: nat)
    requires Sound(blocks) && slots > 0
    ensures var first := First(level, dirLevel, hash % Buckets(level, dirLevel));
            var b := BlockWithRoom(blocks, first, BucketBlocks(level), slots);
            PlaceFor(blocks, dirLevel, level, depth, slots, hash)
            == if level >= depth then Place(level, first, 0)
               else if b < first + BucketBlocks(level) then Place(level, b, FirstRoom(BlockAt(blocks, b), slots, 0))
               else PlaceFor(blocks, dirLevel, level + 1, depth, slots, hash)
  {
  }

  lemma RoomStep(blocks: Blocks, b: nat, n: nat, slots: nat)
    requires Sound(blocks) && slots > 0
    ensures BlockWithRoom(blocks, b, n, slots)
         == if n == 0 || FirstRoom(BlockAt(blocks, b), slots, 0) < NR then b
            else BlockWithRoom(blocks, b + 1, n - 1, slots)
  {
  }

  /** The first block of a bucket that no level has reached yet is empty, and has room. */
  lemma NewLevel(blocks: Blocks, dirLevel: nat, depth: nat, idx: nat, slots: nat)
    requires Within(blocks, dirLevel, depth) && 0 < slots <= NR
    ensures BlockAt(blocks, First(depth, dirLevel, idx)) == Empty() && FirstRoom(Empty(), slots, 0) == 0
  {
    assert Room(Empty(), 0, slots);
  }

  /** A block with the new entry in it knows the name, and says the same about every name that is not affected. */
  lemma AddedProbes(blocks: Blocks, b: nat, p: nat, name: seq<int>, e: Entry, other: seq<int>, hash: nat)
    requires Sound(blocks) && e.len == |name| > 0 && Shaped(BlockAt(blocks, b))
    requires Room(BlockAt(blocks, b), p, Slots(|name|))
    ensures var blocks' := blocks[b := Updated(BlockAt(blocks, b), p, name, e)];
            && Sound(blocks')
            && ((other != name || hash != e.hash) && !Affected(BlockAt(blocks, b), p, name, other, hash) ==>
                  SameProbes(blocks, blocks', other, hash))
            && (other == name && hash == e.hash && Probe(blocks, b, other, hash) == Missing ==>
                  && Probe(blocks', b, other, hash) == Ino(e.ino)
                  && forall k: nat :: k != b ==> Probe(blocks', k, other, hash) == Probe(blocks, k, other, hash))
  {
    hide WellFormed, FindFrom, Updated, Empty, Matches, NameAt, Taken, Free, Affected;
    var d := BlockAt(blocks, b);
    if b !in blocks { EmptyHasNothing(other, hash); }
    SlotsPositive(|name|);
    Added(d, p, name, e, 0, other, hash);
    NewEntry(d, p, name, e);
    UpdatedDents(d, p, name, e);
    FoundInBlock(d, other, hash, 0);
    assert !d.bits[p] by { FreeFirst(d, p, Slots(|name|)); }
  }

  lemma FreeFirst(d: Block, p: nat, n: nat)
    requires Shaped(d) && Room(d, p, n) && n > 0
    ensures p < NR && !d.bits[p]
  {
  }

  class Dir {
    const dirLevel: nat
    var blocks: Blocks
    var depth: nat

    constructor (dirLevel: nat, blocks: Blocks, depth: nat)
      ensures this.dirLevel == dirLevel && this.blocks == blocks && this.depth == depth
    {
      this.dirLevel, this.blocks, this.depth := dirLevel, blocks, depth;
    }

    ghost predicate Valid()
      reads this
    {
      Sound(blocks) && Within(blocks, dirLevel, depth) && depth <= MAX_DEPTH
    }

    ghost function Find(name: seq<int>, hash: nat): Found
      reads this
      requires Valid()
    {
      Lookup(blocks, dirLevel, 0, depth, name, hash)
    }

    /** f2fs_find_entry over find_in_level */
    method FindEntry(name: seq<int>, hash: nat) returns (r: Found)
      requires Valid()
      ensures r == Find(name, hash)
    {
      hide WellFormed, FindFrom, InLevel;
      var level := 0;
      while level < depth
        invariant level <= depth && Lookup(blocks, dirLevel, level, depth, name, hash) == Find(name, hash)
      {
        r := FindInLevel(level, name, hash);
        if r.Ino? {
          return;
        }
        level := level + 1;
      }
      return Missing;
    }

    /** find_in_level: the blocks of one bucket */
    method FindInLevel(level: nat, name: seq<int>, hash: nat) returns (r: Found)
      requires Valid()
      ensures r == InLevel(blocks, dirLevel, level, name, hash)
      ensures level + dirLevel < 31 ==> r == InBlocks(blocks, Home(level, dirLevel, hash), 2, name, hash)
    {
      hide WellFormed, FindFrom, Buckets, First, Home;
      r := Missing;
      var b: nat := First(level, dirLevel, hash % Buckets(level, dirLevel));
      var n: nat := BucketBlocks(level);
      while n > 0
        invariant n <= BucketBlocks(level) && r == Missing
        invariant InBlocks(blocks, b, n, name, hash) == InLevel(blocks, dirLevel, level, name, hash)
      {
        if b in blocks {
          var p := FindTarget(blocks[b], name, hash);
          FoundInBlock(blocks[b], name, hash, 0);
          if p.Some? {
            r := Ino(blocks[b].dents[p.at].ino);
            break;
          }
        }
        b, n := b + 1, n - 1;
      }
      LevelIs(blocks, dirLevel, level, name, hash);
    }

    /**
      f2fs_add_link: refused exactly at the greatest depth.  Otherwise one entry goes to the first place that has
      room.  A name that was absent can be looked up afterwards, and no other lookup changes but those of the name
      behind the new one, if the new name spoils it.
     */
    method AddLink(name: seq<int>, hash: nat, ino: nat, kind: int) returns (ok: bool, ghost at: Place)
      requires Valid() && |name| > 0 && Slots(|name|) <= NR
      modifies this
      ensures Valid() && (ok <==> old(depth) < MAX_DEPTH)
      ensures if ok then old(depth) <= depth <= old(depth) + 1 else depth == old(depth) && blocks == old(blocks)
      ensures ok ==> Slots(|name|) > 0 && at == PlaceFor(old(blocks), dirLevel, 0, old(depth), Slots(|name|), hash)
      ensures ok ==> InPlace(old(blocks), dirLevel, depth, name, hash, at)
      ensures ok && at.level + dirLevel < 31 ==>
                Home(at.level, dirLevel, hash) <= at.block < Home(at.level, dirLevel, hash) + 2
      ensures ok ==> blocks == Placed(old(blocks), at, name, Entry(hash, |name|, ino, kind))
      ensures ok && old(Find(name, hash)) == Missing ==> Find(name, hash) == Ino(ino)
      ensures ok ==> forall other, h :: (other != name || h != hash) && !AffectedAt(old(blocks), at, name, other, h) ==>
                Find(other, h) == old(Find(other, h))
      ensures ok ==> Sound(SpoiledAt(old(blocks), at, name)) && forall other, h :: other != name || h != hash ==>
                Find(other, h) == Lookup(SpoiledAt(old(blocks), at, name), dirLevel, 0, old(depth), other, h)
    {
      hide Lookup, WellFormed, FindFrom, Updated, Before, Free, Slots, First, Buckets, Empty, Within, Affected, Sound,
           SpoiledAt, PlaceFor, BlockWithRoom, FirstRoom, Home;
      SlotsPositive(|name|);
      at := Place(0, 0, 0);
      ghost var place := PlaceFor(blocks, dirLevel, 0, depth, Slots(|name|), hash);
      var level, cur := 0, depth;
      while true
        invariant level <= depth && blocks == old(blocks) && depth == old(depth) && Sound(blocks)
        invariant cur == depth && PlaceFor(blocks, dirLevel, level, depth, Slots(|name|), hash) == place
        decreases MAX_DEPTH - level
      {
        if cur == MAX_DEPTH {
          return false, at;
        }
        if level == cur {
          cur := cur + 1;
        }
        var first := First(level, dirLevel, hash % Buckets(level, dirLevel));
        PlaceStep(blocks, dirLevel, level, depth, Slots(|name|), hash);
        if level == depth { NewLevel(blocks, dirLevel, depth, hash % Buckets(level, dirLevel), Slots(|name|)); }
        for block := first to first + BucketBlocks(level)
          invariant blocks == old(blocks) && depth == old(depth) && (block > first ==> level < depth)
          invariant BlockWithRoom(blocks, first, BucketBlocks(level), Slots(|name|))
                 == BlockWithRoom(blocks, block, first + BucketBlocks(level) - block, Slots(|name|))
        {
          RoomStep(blocks, block, first + BucketBlocks(level) - block, Slots(|name|));
          BlockShaped(blocks, block);
          var d := BlockAt(blocks, block);
          var p := RoomFor(d, Slots(|name|));
          if p < NR {
            at := Place(level, block, p);
            AtHome(level, dirLevel, hash, block);
            AddedSound(blocks, dirLevel, depth, cur, level, block, p, name, Entry(hash, |name|, ino, kind));
            AddedLookup(blocks, dirLevel, depth, cur, level, block, p, name, Entry(hash, |name|, ino, kind));
            SpoiledLookup(blocks, dirLevel, depth, cur, at, name, Entry(hash, |name|, ino, kind));
            blocks := blocks[block := Updated(d, p, name, Entry(hash, |name|, ino, kind))];
            depth := cur;
            return true, at;
          }
        }
        RoomStep(blocks, first + BucketBlocks(level), 0, Slots(|name|));
        level := level + 1;
      }
    }
  }

  lemma BlockShaped(blocks: Blocks, b: nat)
    requires Sound(blocks)
    ensures Shaped(BlockAt(blocks, b))
  {
  }

  lemma AddedWithin(blocks: Blocks, dirLevel: nat, depth: nat, deeper: nat, level: nat, b: nat, idx: nat)
    requires Within(blocks, dirLevel, depth) && depth <= deeper && level < deeper && InBucket(level, dirLevel, idx, b)
    ensures forall k :: k in blocks || k == b ==> k < Before(deeper, dirLevel)
  {
    LevelOf(level, idx, dirLevel, b);
    BeforeGrows(level + 1, deeper, dirLevel);
    BeforeGrows(depth, deeper, dirLevel);
  }

  /** Spoiled or not, the directory stays well formed. */
  lemma AddedSound(blocks: Blocks, dirLevel: nat, depth: nat, deeper: nat, level: nat, b: nat, p: nat,
                   name: seq<int>, e: Entry)
    requires Sound(blocks) && Within(blocks, dirLevel, depth) && depth <= deeper && level < deeper
    requires e.len == |name| > 0 && Shaped(BlockAt(blocks, b)) && Room(BlockAt(blocks, b), p, Slots(|name|))
    requires InBucket(level, dirLevel, e.hash % Buckets(level, dirLevel), b)
    ensures var blocks' := blocks[b := Updated(BlockAt(blocks, b), p, name, e)];
            Sound(blocks') && Within(blocks', dirLevel, deeper)
  {
    hide WellFormed, FindFrom, Updated, Empty, Matches, NameAt, Taken, Free, InBucket;
    if b !in blocks { EmptyHasNothing(name, e.hash); }
    Added(BlockAt(blocks, b), p, name, e, 0, name, e.hash);
    AddedWithin(blocks, dirLevel, depth, deeper, level, b, e.hash % Buckets(level, dirLevel));
  }

  lemma AddedIsFound(blocks: Blocks, dirLevel: nat, depth: nat, deeper: nat, level: nat, b: nat, p: nat,
                     name: seq<int>, e: Entry)
    requires Sound(blocks) && Within(blocks, dirLevel, depth) && depth <= deeper && level < deeper
    requires e.len == |name| > 0 && Shaped(BlockAt(blocks, b)) && Room(BlockAt(blocks, b), p, Slots(|name|))
    requires InBucket(level, dirLevel, e.hash % Buckets(level, dirLevel), b)
    requires Lookup(blocks, dirLevel, 0, depth, name, e.hash) == Missing
    ensures var blocks' := blocks[b := Updated(BlockAt(blocks, b), p, name, e)];
            Sound(blocks') && Lookup(blocks', dirLevel, 0, deeper, name, e.hash) == Ino(e.ino)
  {
    hide Probe, Lookup, InBucket, Updated;
    var blocks' := blocks[b := Updated(BlockAt(blocks, b), p, name, e)];
    AddedProbes(blocks, b, p, name, e, name, e.hash);
    DeeperLookup(blocks, dirLevel, 0, depth, deeper, name, e.hash);
    MissingAt(blocks, dirLevel, 0, deeper, name, e.hash, b, level);
    LearntLookup(blocks, blocks', dirLevel, 0, deeper, name, e.hash, b, level);
  }

  /** What lookups find once the entry is in a block of its own bucket. */
  lemma AddedLookup(blocks: Blocks, dirLevel: nat, depth: nat, deeper: nat, level: nat, b: nat, p: nat,
                    name: seq<int>, e: Entry)
    requires Sound(blocks) && Within(blocks, dirLevel, depth) && depth <= deeper && level < deeper
    requires e.len == |name| > 0 && Shaped(BlockAt(blocks, b)) && Room(BlockAt(blocks, b), p, Slots(|name|))
    requires InBucket(level, dirLevel, e.hash % Buckets(level, dirLevel), b)
    ensures var blocks' := blocks[b := Updated(BlockAt(blocks, b), p, name, e)];
            && Sound(blocks') && Within(blocks', dirLevel, deeper)
            && (Lookup(blocks, dirLevel, 0, depth, name, e.hash) == Missing ==>
                 Lookup(blocks', dirLevel, 0, deeper, name, e.hash) == Ino(e.ino))
            && forall other, h :: (other != name || h != e.hash) && !Affected(BlockAt(blocks, b), p, name, other, h) ==>
                 Lookup(blocks', dirLevel, 0, deeper, other, h) == Lookup(blocks, dirLevel, 0, depth, other, h)
  {
    hide Lookup, InBucket, Updated, SameProbes;
    var blocks' := blocks[b := Updated(BlockAt(blocks, b), p, name, e)];
    AddedProbes(blocks, b, p, name, e, name, e.hash);
    AddedWithin(blocks, dirLevel, depth, deeper, level, b, e.hash % Buckets(level, dirLevel));
    forall other, h | (other != name || h != e.hash) && !Affected(BlockAt(blocks, b), p, name, other, h)
      ensures Lookup(blocks', dirLevel, 0, deeper, other, h) == Lookup(blocks, dirLevel, 0, depth, other, h)
    {
      AddedProbes(blocks, b, p, name, e, other, h);
      SameLookup(blocks, blocks', dirLevel, 0, deeper, other, h);
      DeeperLookup(blocks, dirLevel, 0, depth, deeper, other, h);
    }
    if Lookup(blocks, dirLevel, 0, depth, name, e.hash) == Missing {
      AddedIsFound(blocks, dirLevel, depth, deeper, level, b, p, name, e);
    }
  }

  lemma SpoiledSound(blocks: Blocks, dirLevel: nat, depth: nat, at: Place, name: seq<int>)
    requires Sound(blocks) && Within(blocks, dirLevel, depth) && at.slot + Slots(|name|) <= NR
    ensures Shaped(BlockAt(blocks, at.block))
    ensures Sound(SpoiledAt(blocks, at, name)) && Within(SpoiledAt(blocks, at, name), dirLevel, depth)
    ensures BlockAt(SpoiledAt(blocks, at, name), at.block) == Spoiled(BlockAt(blocks, at.block), at.slot, name)
  {
    hide WellFormed, Spoiled;
    if at.block in blocks {
      SpoiledFormed(blocks[at.block], at.slot, name, 0);
    } else {
      EmptyUnspoiled(at.slot, name);
    }
  }

  lemma EmptyUnspoiled(p: nat, name: seq<int>)
    requires p + Slots(|name|) <= NR
    ensures Spoiled(Empty(), p, name) == Empty()
  {
  }

  /** What every other lookup finds is what it would find if only the name behind had been spoiled. */
  lemma SpoiledLookup(blocks: Blocks, dirLevel: nat, depth: nat, deeper: nat, at: Place, name: seq<int>, e: Entry)
    requires Sound(blocks) && Within(blocks, dirLevel, depth) && depth <= deeper && at.level < deeper
    requires e.len == |name| > 0 && Shaped(BlockAt(blocks, at.block))
    requires Room(BlockAt(blocks, at.block), at.slot, Slots(|name|))
    requires InBucket(at.level, dirLevel, e.hash % Buckets(at.level, dirLevel), at.block)
    ensures var blocks' := blocks[at.block := Updated(BlockAt(blocks, at.block), at.slot, name, e)];
            && Sound(blocks') && Sound(SpoiledAt(blocks, at, name))
            && forall other, h :: other != name || h != e.hash ==>
                 Lookup(blocks', dirLevel, 0, deeper, other, h)
                 == Lookup(SpoiledAt(blocks, at, name), dirLevel, 0, depth, other, h)
  {
    hide Lookup, InBucket, Updated, WellFormed, FindFrom, Spoiled, Sound, Within, Empty;
    var d, b := BlockAt(blocks, at.block), at.block;
    var ws := SpoiledAt(blocks, at, name);
    SpoiledSound(blocks, dirLevel, depth, at, name);
    SpoiledFirst(d, at.slot, name, e);
    assert Room(BlockAt(ws, b), at.slot, Slots(|name|));
    AddedLookup(ws, dirLevel, depth, deeper, at.level, b, at.slot, name, e);
    assert ws[b := Updated(BlockAt(ws, b), at.slot, name, e)] == blocks[b := Updated(d, at.slot, name, e)];
  }

  lemma {:induction false} NowhereInBlocks(blocks: Blocks, b: nat, n: nat, name: seq<int>, hash: nat)
    requires Sound(blocks) && forall k: nat :: Probe(blocks, k, name, hash) == Missing
    ensures InBlocks(blocks, b, n, name, hash) == Missing
    decreases n
  {
    if n > 0 { NowhereInBlocks(blocks, b + 1, n - 1, name, hash); }
  }

  lemma {:induction false} Nowhere(blocks: Blocks, dirLevel: nat, level: nat, depth: nat, name: seq<int>, hash: nat)
    requires Sound(blocks) && forall k: nat :: Probe(blocks, k, name, hash) == Missing
    ensures Lookup(blocks, dirLevel, level, depth, name, hash) == Missing
    decreases depth - level
  {
    if level < depth {
      NowhereInBlocks(blocks, First(level, dirLevel, hash % Buckets(level, dirLevel)), BucketBlocks(level), name, hash);
      Nowhere(blocks, dirLevel, level + 1, depth, name, hash);
    }
  }

  /** A name that only the entry behind has is missing once it is spoiled. */
  lemma NameGone(blocks: Blocks, dirLevel: nat, depth: nat, at: Place, name: seq<int>, behind: seq<int>, hash: nat)
    requires Sound(blocks) && Within(blocks, dirLevel, depth) && at.block in blocks && |behind| > 0
    requires at.slot + Slots(|name|) <= NR && Spoils(blocks[at.block], at.slot, name)
    requires var d, q := blocks[at.block], at.slot + Slots(|name|);
             && FindFrom(d, behind, hash, 0) == Some(q) && WellFormed(d, q + Slots(|behind|))
             && FindFrom(d, behind, hash, q + Slots(|behind|)) == None
    requires forall k: nat :: k != at.block ==> Probe(blocks, k, behind, hash) == Missing
    ensures Sound(SpoiledAt(blocks, at, name))
    ensures Lookup(SpoiledAt(blocks, at, name), dirLevel, 0, depth, behind, hash) == Missing
  {
    hide WellFormed, FindFrom, Spoiled, Lookup, Within;
    SpoiledSound(blocks, dirLevel, depth, at, name);
    SpoiledGone(blocks[at.block], at.slot, name, behind, hash, 0);
    forall k: nat ensures Probe(SpoiledAt(blocks, at, name), k, behind, hash) == Missing {
      if k != at.block { assert Probe(blocks, k, behind, hash) == Missing; }
    }
    Nowhere(SpoiledAt(blocks, at, name), dirLevel, 0, depth, behind, hash);
  }
}
