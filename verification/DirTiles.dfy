/**
  How the hash levels of a directory tile its blocks (fsck/f2fs.h), and why fsck's check
  of an entry's position agrees with where a lookup searches for it (fsck/fsck.c).
 */
module DirTiles {
  const MAX_DEPTH: nat := 63
  const U32: nat := 0x1_0000_0000

  function Pow2(n: nat): (r: nat)
    ensures r > 0
  {
    if n == 0 then 1 else 2 * Pow2(n - 1)
  }

  /** dir_buckets and bucket_blocks */
  function Buckets(level: nat, dirLevel: nat): (n: nat)
    ensures n > 0
  {
    if level + dirLevel < MAX_DEPTH / 2 then Pow2(level + dirLevel) else Pow2(MAX_DEPTH / 2 - 1)
  }

  function BucketBlocks(level: nat): nat { if level < MAX_DEPTH / 2 then 2 else 4 }

  /** The blocks of a level, and of all levels before it. */
  function Size(level: nat, dirLevel: nat): (n: nat)
    ensures n > 0
  {
    if level < MAX_DEPTH / 2 then 2 * Buckets(level, dirLevel) else 4 * Buckets(level, dirLevel)
  }

  function Before(level: nat, dirLevel: nat): nat {
    if level == 0 then 0 else Before(level - 1, dirLevel) + Size(level - 1, dirLevel)
  }

  /** The first block of a bucket. */
  function First(level: nat, dirLevel: nat, idx: nat): nat {
    Before(level, dirLevel) + if level < MAX_DEPTH / 2 then 2 * idx else 4 * idx
  }

  predicate InBucket(level: nat, dirLevel: nat, idx: nat, b: nat) {
    idx < Buckets(level, dirLevel) &&
        First(level, dirLevel, idx) <= b < First(level, dirLevel, idx) + BucketBlocks(level)
  }

  lemma {:induction false} BeforeGrows(k: nat, level: nat, dirLevel: nat)
    requires k <= level
    ensures Before(k, dirLevel) <= Before(level, dirLevel)
  {
    if k < level { BeforeGrows(k, level - 1, dirLevel); }
  }

  lemma Pow2Values()
    ensures Pow2(30) == 0x4000_0000 && Pow2(31) == 0x8000_0000
  {
    assert Pow2(10) == 1024;
    assert Pow2(20) == 0x10_0000;
  }

  lemma {:induction false} Pow2Grows(m: nat, n: nat)
    requires m <= n
    ensures Pow2(m) <= Pow2(n)
  {
    if m < n { Pow2Grows(m, n - 1); }
  }

  /**
    Where the levels start, in numbers.  Levels double from 2^dirLevel buckets of two blocks on; from 2^30 buckets on
    they stay as they are, and from level 31 on the buckets have four blocks.
   */
  lemma {:induction false} BeforeIs(level: nat, dirLevel: nat)
    ensures level + dirLevel <= 31 ==>
              Before(level, dirLevel) == 2 * (Pow2(level + dirLevel) - Pow2(dirLevel))
    ensures dirLevel <= 31 <= level + dirLevel && level <= 31 ==>
              Before(level, dirLevel) == 2 * (0x8000_0000 - Pow2(dirLevel)) + (level + dirLevel - 31) * 0x8000_0000
    ensures dirLevel >= 31 && level <= 31 ==> Before(level, dirLevel) == level * 0x8000_0000
    ensures level >= 31 ==> Before(level, dirLevel) == Before(31, dirLevel) + (level - 31) * 0x1_0000_0000
  {
    Pow2Values();
    if level > 0 {
      BeforeIs(level - 1, dirLevel);
    }
  }

  /** The first of the two blocks for a hash at a level, as long as the buckets double. */
  function Home(level: nat, dirLevel: nat, hash: nat): nat
    requires level + dirLevel < 31
  {
    Pow2Grows(dirLevel, level + dirLevel);
    2 * (Pow2(level + dirLevel) - Pow2(dirLevel)) + 2 * (hash % Pow2(level + dirLevel))
  }

  /** The blocks of a hash's bucket, in numbers. */
  lemma BucketIs(level: nat, dirLevel: nat, hash: nat, b: nat)
    ensures level + dirLevel < 31 ==>
              var first := 2 * (Pow2(level + dirLevel) - Pow2(dirLevel)) + 2 * (hash % Pow2(level + dirLevel));
              && First(level, dirLevel, hash % Buckets(level, dirLevel)) == first
              && (InBucket(level, dirLevel, hash % Buckets(level, dirLevel), b) <==> first <= b < first + 2)
    ensures level < 31 <= level + dirLevel ==>
              var first := Before(level, dirLevel) + 2 * (hash % 0x4000_0000);
              && First(level, dirLevel, hash % Buckets(level, dirLevel)) == first
              && (InBucket(level, dirLevel, hash % Buckets(level, dirLevel), b) <==> first <= b < first + 2)
    ensures 31 <= level ==>
              var first := Before(level, dirLevel) + 4 * (hash % 0x4000_0000);
              && First(level, dirLevel, hash % Buckets(level, dirLevel)) == first
              && (InBucket(level, dirLevel, hash % Buckets(level, dirLevel), b) <==> first <= b < first + 4)
  {
    Pow2Values();
    BeforeIs(level, dirLevel);
    hide Before, Pow2;
  }

  lemma HomeIs(level: nat, dirLevel: nat, hash: nat)
    requires level + dirLevel < 31
    ensures First(level, dirLevel, hash % Buckets(level, dirLevel)) == Home(level, dirLevel, hash)
    ensures BucketBlocks(level) == 2
  {
    BucketIs(level, dirLevel, hash, 0);
  }

  lemma AtHome(level: nat, dirLevel: nat, hash: nat, b: nat)
    requires InBucket(level, dirLevel, hash % Buckets(level, dirLevel), b)
    ensures level + dirLevel < 31 ==> Home(level, dirLevel, hash) <= b < Home(level, dirLevel, hash) + 2
  {
    BucketIs(level, dirLevel, hash, b);
  }

  /** Every block of the first levels is in a bucket. */
  lemma {:induction false} Covered(levels: nat, dirLevel: nat, b: nat) returns (level: nat, idx: nat)
    requires b < Before(levels, dirLevel)
    ensures level < levels && InBucket(level, dirLevel, idx, b)
  {
    if b < Before(levels - 1, dirLevel) {
      level, idx := Covered(levels - 1, dirLevel, b);
    } else {
      level := levels - 1;
      idx := (b - Before(level, dirLevel)) / BucketBlocks(level);
    }
  }

  /** No block is in two. */
  lemma Disjoint(l1: nat, i1: nat, l2: nat, i2: nat, dirLevel: nat, b: nat)
    requires InBucket(l1, dirLevel, i1, b) && InBucket(l2, dirLevel, i2, b)
    ensures l1 == l2 && i1 == i2
  {
    LevelOf(l1, i1, dirLevel, b);
    LevelOf(l2, i2, dirLevel, b);
    if l1 < l2 { BeforeGrows(l1 + 1, l2, dirLevel); } else if l2 < l1 { BeforeGrows(l2 + 1, l1, dirLevel); }
  }

  lemma LevelOf(level: nat, idx: nat, dirLevel: nat, b: nat)
    requires InBucket(level, dirLevel, idx, b)
    ensures Before(level, dirLevel) <= b < Before(level + 1, dirLevel)
  {
  }

  lemma ProductIsSize(level: nat, dirLevel: nat)
    ensures Buckets(level, dirLevel) * BucketBlocks(level) == Size(level, dirLevel)
  {
  }

  lemma BucketStart(level: nat, dirLevel: nat, idx: nat)
    ensures First(level, dirLevel, idx) == Before(level, dirLevel) + idx * BucketBlocks(level)
    ensures idx < Buckets(level, dirLevel) ==> idx * BucketBlocks(level) < Size(level, dirLevel)
  {
  }

  /** As long as the buckets double, nothing wraps. */
  lemma NoWrap(level: nat, dirLevel: nat, idx: nat)
    requires level + dirLevel < 31
    ensures Before(level + 1, dirLevel) == 2 * (Pow2(level + 1 + dirLevel) - Pow2(dirLevel)) < U32
    ensures idx < Pow2(level + dirLevel) ==>
              && idx < Buckets(level, dirLevel)
              && First(level, dirLevel, idx) == 2 * (Pow2(level + dirLevel) - Pow2(dirLevel)) + 2 * idx
  {
    Pow2Values();
    Pow2Grows(level + 1 + dirLevel, 31);
    BeforeIs(level, dirLevel);
    BeforeIs(level + 1, dirLevel);
  }

  /** dir_block_index, with its 32-bit products */
  method DirBlockIndex(level: nat, dirLevel: nat, idx: nat) returns (bidx: nat)
    ensures Before(level + 1, dirLevel) <= U32 && idx < Buckets(level, dirLevel) ==> bidx == First(level, dirLevel, idx)
    ensures level + dirLevel < 31 && idx < Pow2(level + dirLevel) ==>
              bidx == 2 * (Pow2(level + dirLevel) - Pow2(dirLevel)) + 2 * idx
  {
    hide Buckets, BucketBlocks, Size, First, Pow2;
    bidx := 0;
    for i := 0 to level
      invariant Before(level + 1, dirLevel) <= U32 ==> bidx == Before(i, dirLevel)
    {
      BeforeGrows(i + 1, level, dirLevel);
      ProductIsSize(i, dirLevel);
      bidx := bidx + Buckets(i, dirLevel) * BucketBlocks(i) % U32;
    }
    BucketStart(level, dirLevel, idx);
    bidx := bidx + idx * BucketBlocks(level) % U32;
    if level + dirLevel < 31 && idx < Pow2(level + dirLevel) { NoWrap(level, dirLevel, idx); }
  }

  /** The level of a block, where the levels up to it take fewer than 2^32 blocks. */
  predicate AtLevel(l: nat, dirLevel: nat, pgofs: nat) {
    l < MAX_DEPTH && Before(l, dirLevel) <= pgofs < Before(l + 1, dirLevel) < U32
  }

  lemma AtLevelIs(l: nat, dirLevel: nat, pgofs: nat)
    ensures l + dirLevel < 31 &&
            2 * (Pow2(l + dirLevel) - Pow2(dirLevel)) <= pgofs < 2 * (Pow2(l + 1 + dirLevel) - Pow2(dirLevel)) ==>
              AtLevel(l, dirLevel, pgofs)
  {
    if l + dirLevel < 31 {
      NoWrap(l, dirLevel, 0);
      BeforeIs(l, dirLevel);
    }
  }

  lemma BeforeNone(l: nat, dirLevel: nat, pgofs: nat)
    ensures Before(0, dirLevel) == 0 && (AtLevel(l, dirLevel, pgofs) ==> l < MAX_DEPTH)
  {
  }

  /** The sum passes the block when it comes to the block's level, and not before. */
  lemma LevelStep(l: nat, dirLevel: nat, pgofs: nat, level: nat)
    requires AtLevel(l, dirLevel, pgofs) && level <= l
    ensures Before(level + 1, dirLevel) == Before(level, dirLevel) + Size(level, dirLevel) < U32 && l < MAX_DEPTH
    ensures Before(level + 1, dirLevel) > pgofs <==> level == l
  {
    BeforeGrows(level + 1, l + 1, dirLevel);
    if level < l { BeforeGrows(level + 1, l, dirLevel); }
  }

  /** __get_current_level, with its 32-bit sum */
  method GetCurrentLevel(dirLevel: nat, pgofs: nat, ghost l: nat) returns (level: nat)
    ensures AtLevel(l, dirLevel, pgofs) ==> level == l
    ensures l + dirLevel < 31 &&
            2 * (Pow2(l + dirLevel) - Pow2(dirLevel)) <= pgofs < 2 * (Pow2(l + 1 + dirLevel) - Pow2(dirLevel)) ==>
              level == l
  {
    hide Buckets, BucketBlocks, Size, Before, AtLevel, Pow2;
    BeforeNone(l, dirLevel, pgofs);
    var bidx := 0;
    level := 0;
    while level < MAX_DEPTH
      invariant level <= MAX_DEPTH && (AtLevel(l, dirLevel, pgofs) ==> level <= l && bidx == Before(level, dirLevel))
    {
      ProductIsSize(level, dirLevel);
      if AtLevel(l, dirLevel, pgofs) { LevelStep(l, dirLevel, pgofs, level); }
      bidx := (bidx + Buckets(level, dirLevel) * BucketBlocks(level) % U32) % U32;
      if bidx > pgofs {
        break;
      }
      level := level + 1;
    }
    AtLevelIs(l, dirLevel, pgofs);
  }

  /** The blocks a lookup searches for a hash, over the given number of levels (find_in_level). */
  ghost predicate Searched(levels: nat, dirLevel: nat, hash: nat, b: nat) {
    exists level: nat :: level < levels && InBucket(level, dirLevel, hash % Buckets(level, dirLevel), b)
  }

  /** A block of a level is searched exactly when it is one of the two of the hash's bucket there. */
  lemma SearchedAt(levels: nat, dirLevel: nat, hash: nat, b: nat, level: nat)
    requires level < levels && level + dirLevel < 31
    requires 2 * (Pow2(level + dirLevel) - Pow2(dirLevel)) <= b < 2 * (Pow2(level + 1 + dirLevel) - Pow2(dirLevel))
    ensures var first := 2 * (Pow2(level + dirLevel) - Pow2(dirLevel)) + 2 * (hash % Pow2(level + dirLevel));
            Searched(levels, dirLevel, hash, b) <==> first <= b < first + 2
  {
    BucketIs(level, dirLevel, hash, b);
    BeforeIs(level, dirLevel);
    NoWrap(level, dirLevel, 0);
    hide Before, Pow2, InBucket, Buckets;
    forall k: nat | k < levels && InBucket(k, dirLevel, hash % Buckets(k, dirLevel), b) ensures k == level {
      LevelOf(k, hash % Buckets(k, dirLevel), dirLevel, b);
      if k < level { BeforeGrows(k + 1, level, dirLevel); } else if level < k { BeforeGrows(level + 1, k, dirLevel); }
    }
  }

  lemma AtFirstLevel(levels: nat, dirLevel: nat, hash: nat, b: nat)
    requires levels > 0 && dirLevel < 31 && b < 2 * Pow2(dirLevel)
    ensures Searched(levels, dirLevel, hash, b) <==> 2 * (hash % Pow2(dirLevel)) <= b < 2 * (hash % Pow2(dirLevel)) + 2
  {
    hide Searched;
    SearchedAt(levels, dirLevel, hash, b, 0);
  }

  /** f2fs_check_dirent_position: an entry is where a lookup would find it */
  method CheckPosition(hash: nat, pgofs: nat, dirLevel: nat, ghost levels: nat) returns (ok: bool)
    requires levels <= MAX_DEPTH && pgofs < Before(levels, dirLevel) < U32
    ensures ok <==> Searched(levels, dirLevel, hash, pgofs)
    ensures dirLevel < 31 && pgofs < 2 * Pow2(dirLevel) ==>
              (ok <==> 2 * (hash % Pow2(dirLevel)) <= pgofs < 2 * (hash % Pow2(dirLevel)) + 2)
  {
    hide Buckets, BucketBlocks, Size, First, Before, Pow2;
    ghost var l, idx := Covered(levels, dirLevel, pgofs);
    LevelOf(l, idx, dirLevel, pgofs);
    BeforeGrows(l + 1, levels, dirLevel);
    var level := GetCurrentLevel(dirLevel, pgofs, l);
    var bidx := DirBlockIndex(level, dirLevel, hash % Buckets(level, dirLevel));
    ok := bidx <= pgofs < bidx + BucketBlocks(level);
    if Searched(levels, dirLevel, hash, pgofs) {
      var k: nat :| k < levels && InBucket(k, dirLevel, hash % Buckets(k, dirLevel), pgofs);
      Disjoint(k, hash % Buckets(k, dirLevel), l, idx, dirLevel, pgofs);
    }
    assert ok ==> InBucket(l, dirLevel, hash % Buckets(l, dirLevel), pgofs);
    if dirLevel < 31 && pgofs < 2 * Pow2(dirLevel) { AtFirstLevel(levels, dirLevel, hash, pgofs); }
  }
}
