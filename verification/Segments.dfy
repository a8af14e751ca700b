/**
  Segments of the main area: validity bitmaps with their counts, and which block the
  search for a free block may hand out.
 */
module Segments {
  /** Every f2fs image has 512 blocks to a segment. */
  const PER_SEG: nat := 512

  /** The six current segments come in two groups: data first, then node. */
  predicate IsData(kind: int) { 0 <= kind < 3 }
  predicate IsNode(kind: int) { 3 <= kind < 6 }

  /** seg_entry: the counts and bitmaps now and as of the last checkpoint. */
  datatype Seg = Seg(valid: int, cur: seq<bool>, kind: int, ckptValid: int, ckpt: seq<bool>, ckptKind: int, dirty: bool)

  /** The part of the super block and checkpoint that allocation looks at; `recording` is need_fsync_data_record. */
  datatype Layout = Layout(main: nat, segments: nat, perSec: nat, reserved: nat, readOnly: bool, recording: bool) {
    predicate Ok() { main > 0 && perSec > 0 && segments % perSec == 0 }
    function End(): nat { main + segments * PER_SEG }
    predicate InMain(a: int) { main <= a < End() }
    function SegOf(a: int): (s: nat)
      requires InMain(a)
      ensures s < segments && main + s * PER_SEG <= a < main + (s + 1) * PER_SEG
    {
      (a - main) / PER_SEG
    }
    function OffOf(a: int): (o: nat)
      requires InMain(a)
      ensures o < PER_SEG && a == main + SegOf(a) * PER_SEG + o
    {
      (a - main) % PER_SEG
    }
  }

  // ---- counts

  function Pop(bits: seq<bool>): (n: nat)
    ensures n <= |bits|
  {
    if bits == [] then 0 else Pop(bits[..|bits| - 1]) + if bits[|bits| - 1] then 1 else 0
  }

  lemma {:induction false} PopUpdate(bits: seq<bool>, i: nat, b: bool)
    requires i < |bits|
    ensures Pop(bits[i := b]) == Pop(bits) + (if b then 1 else 0) - (if bits[i] then 1 else 0)
  {
    var n := |bits| - 1;
    if i == n {
      assert bits[i := b][..n] == bits[..n];
    } else {
      assert bits[i := b][..n] == bits[..n][i := b];
      PopUpdate(bits[..n], i, b);
    }
  }

  lemma {:induction false} PopNone(bits: seq<bool>, i: nat)
    requires i < |bits| && Pop(bits) == 0
    ensures !bits[i]
  {
    if i < |bits| - 1 { PopNone(bits[..|bits| - 1], i); }
  }

  lemma {:induction false} PopAll(bits: seq<bool>, i: nat)
    requires i < |bits| && Pop(bits) == |bits|
    ensures bits[i]
  {
    if i < |bits| - 1 { PopAll(bits[..|bits| - 1], i); }
  }

  predicate Counted(s: Seg) {
    |s.cur| == PER_SEG && |s.ckpt| == PER_SEG && s.valid == Pop(s.cur) && s.ckptValid == Pop(s.ckpt)
  }

  /** Bitmaps have their size, counts are true, and recorded maps only ever add to the current ones. */
  predicate Sound(g: Layout, segs: seq<Seg>) {
    && g.Ok() && |segs| == g.segments
    && (forall i :: 0 <= i < |segs| ==> Counted(segs[i]))
    && (g.recording ==> forall i, o :: 0 <= i < |segs| && 0 <= o < PER_SEG && segs[i].cur[o] ==> segs[i].ckpt[o])
  }

  /** Empty segments are sound, whatever their kinds; so is one block taken since the last checkpoint and recorded. */
  lemma FreshSound(g: Layout, segs: seq<Seg>, i: nat, o: nat, kind: int)
    requires g.Ok() && |segs| == g.segments && i < |segs| && o < PER_SEG
    requires forall k :: 0 <= k < |segs| ==>
               && segs[k].valid == 0 && segs[k].ckptValid == 0
               && segs[k].cur == seq(PER_SEG, _ => false) && segs[k].ckpt == seq(PER_SEG, _ => false)
    ensures Sound(g, segs)
    ensures var e := segs[i]; var bits := e.cur[o := true];
            Sound(g, segs[i := e.(valid := 1, cur := bits, ckptValid := 1, ckpt := bits, kind := kind)])
  {
    var none := seq(PER_SEG, _ => false);
    PopZero(none);
    PopUpdate(none, o, true);
  }

  lemma {:induction false} PopZero(bits: seq<bool>)
    requires forall i :: 0 <= i < |bits| ==> !bits[i]
    ensures Pop(bits) == 0
  {
    if bits != [] { PopZero(bits[..|bits| - 1]); }
  }

  function Total(segs: seq<Seg>): int {
    if segs == [] then 0 else Total(segs[..|segs| - 1]) + segs[|segs| - 1].valid
  }

  /** The bits that are set, as pairs of segment and offset. */
  ghost function Ones(segs: seq<Seg>): set<(nat, nat)> {
    set i: nat, o: nat | i < |segs| && o < |segs[i].cur| && segs[i].cur[o] :: (i, o)
  }

  /** The total is the number of bits that are set, of all segments together. */
  lemma {:induction false} TotalCount(segs: seq<Seg>)
    requires forall i :: 0 <= i < |segs| ==> Counted(segs[i])
    ensures Total(segs) == |Ones(segs)|
  {
    if segs == [] {
      assert Ones(segs) == {};
    } else {
      var n := |segs| - 1;
      TotalCount(segs[..n]);
      assert Counted(segs[n]);
      PopCount(segs[n].cur, n);
      OnesStep(segs);
      hide Ones, Counted, Pop;
    }
  }

  lemma OnesStep(segs: seq<Seg>)
    requires |segs| > 0
    ensures var n := |segs| - 1; var bits := segs[n].cur; var last := set o: nat | o < |bits| && bits[o] :: (n, o);
            Ones(segs) == Ones(segs[..n]) + last && Ones(segs[..n]) !! last
  {
    var n := |segs| - 1;
    var bits := segs[n].cur;
    var last := set o: nat | o < |bits| && bits[o] :: (n, o);
    forall p ensures p in Ones(segs) <==> p in Ones(segs[..n]) + last {
      if p.0 < n { assert segs[..n][p.0] == segs[p.0]; }
    }
  }

  lemma {:induction false} PopCount(bits: seq<bool>, i: nat)
    ensures Pop(bits) == |set o: nat | o < |bits| && bits[o] :: (i, o)|
  {
    var all := set o: nat | o < |bits| && bits[o] :: (i, o);
    if bits == [] {
      assert all == {};
    } else {
      var n := |bits| - 1;
      var rest := bits[..n];
      PopCount(rest, i);
      var few := set o: nat | o < |rest| && rest[o] :: (i, o);
      assert (i, n) !in few;
      assert all == few + if bits[n] then {(i, n)} else {};
    }
  }

  lemma {:induction false} TotalUpdate(segs: seq<Seg>, i: nat, s: Seg)
    requires i < |segs|
    ensures Total(segs[i := s]) == Total(segs) - segs[i].valid + s.valid
  {
    var n := |segs| - 1;
    if i == n {
      assert segs[i := s][..n] == segs[..n];
    } else {
      assert segs[i := s][..n] == segs[..n][i := s];
      TotalUpdate(segs[..n], i, s);
    }
  }

  lemma {:induction false} TotalSame(a: seq<Seg>, b: seq<Seg>)
    requires |a| == |b| && forall i :: 0 <= i < |a| ==> a[i].valid == b[i].valid
    ensures Total(a) == Total(b)
  {
    if a != [] { TotalSame(a[..|a| - 1], b[..|b| - 1]); }
  }

  // ---- the maps the search consults

  function Count(g: Layout, s: Seg): int { if g.recording then s.ckptValid else s.valid }
  function Bits(g: Layout, s: Seg): seq<bool> { if g.recording then s.ckpt else s.cur }
  function Kind(g: Layout, s: Seg): int { if g.recording then s.ckptKind else s.kind }

  predicate Live(g: Layout, segs: seq<Seg>, a: int) {
    |segs| == g.segments && g.InMain(a) && |segs[g.SegOf(a)].cur| == PER_SEG && segs[g.SegOf(a)].cur[g.OffOf(a)]
  }

  /** Segments without valid blocks that are not current (get_free_segments). */
  function FreeSegs(segs: seq<Seg>, cursegs: seq<nat>): nat {
    if segs == [] then 0
    else FreeSegs(segs[..|segs| - 1], cursegs) + if segs[|segs| - 1].valid == 0 && |segs| - 1 !in cursegs then 1 else 0
  }

  /** They are counted one by one, and are as many as there are. */
  lemma {:induction false} FreeSegsCount(segs: seq<Seg>, cursegs: seq<nat>)
    ensures FreeSegs(segs, cursegs) == |set i: nat | i < |segs| && segs[i].valid == 0 && i !in cursegs|
  {
    if segs != [] {
      var n := |segs| - 1;
      var rest := segs[..n];
      FreeSegsCount(rest, cursegs);
      var all := set i: nat | i < |segs| && segs[i].valid == 0 && i !in cursegs;
      var few := set i: nat | i < |rest| && rest[i].valid == 0 && i !in cursegs;
      assert all == few + if segs[n].valid == 0 && n !in cursegs then {n} else {};
    }
  }

  predicate NotEnough(g: Layout, segs: seq<Seg>, cursegs: seq<nat>) { FreeSegs(segs, cursegs) <= g.reserved + 1 }

  /** The segment is not passed over as a whole. */
  predicate Usable(g: Layout, segs: seq<Seg>, cursegs: seq<nat>, s: nat)
    requires s < |segs|
  {
    && Count(g, segs[s]) != PER_SEG && (g.readOnly || s !in cursegs)
    && !(Count(g, segs[s]) == 0 && NotEnough(g, segs, cursegs))
  }

  /** The segment starts an empty section. */
  predicate EmptySection(g: Layout, segs: seq<Seg>, s: nat)
    requires s < |segs| && g.Ok()
  {
    s % g.perSec == 0 && s + g.perSec <= |segs| && forall i :: s <= i < s + g.perSec ==> Count(g, segs[i]) == 0
  }

  predicate Shaped(g: Layout, segs: seq<Seg>) {
    g.Ok() && |segs| == g.segments && forall i :: 0 <= i < |segs| ==>
        |segs[i].cur| == PER_SEG && |segs[i].ckpt| == PER_SEG
  }

  /** A block the search may stop at. */
  predicate Fits(g: Layout, segs: seq<Seg>, cursegs: seq<nat>, want: int, newSec: bool, a: int)
    requires Shaped(g, segs)
  {
    && g.InMain(a) && var s := g.SegOf(a);
    && Usable(g, segs, cursegs, s)
    && (EmptySection(g, segs, s) || (Kind(g, segs[s]) == want && !newSec && !Bits(g, segs[s])[g.OffOf(a)]))
  }

  predicate NoneFit(g: Layout, segs: seq<Seg>, cursegs: seq<nat>, want: int, newSec: bool, lo: int, hi: int)
    requires Shaped(g, segs)
  {
    forall a :: lo <= a < hi ==> !Fits(g, segs, cursegs, want, newSec, a)
  }

  lemma NoneInSegment(g: Layout, segs: seq<Seg>, cursegs: seq<nat>, want: int, newSec: bool, s: nat)
    requires Shaped(g, segs) && s < g.segments && !Usable(g, segs, cursegs, s)
    ensures NoneFit(g, segs, cursegs, want, newSec, g.main + s * PER_SEG, g.main + (s + 1) * PER_SEG)
  {
    forall a | g.main + s * PER_SEG <= a < g.main + (s + 1) * PER_SEG
      ensures !Fits(g, segs, cursegs, want, newSec, a)
    {
      if g.InMain(a) { assert g.SegOf(a) == s; }
    }
  }

  lemma NoneJoined(g: Layout, segs: seq<Seg>, cursegs: seq<nat>, want: int, newSec: bool, lo: int, mid: int,
                   mid': int, hi: int)
    requires Shaped(g, segs) && mid' <= mid
    requires NoneFit(g, segs, cursegs, want, newSec, lo, mid) && NoneFit(g, segs, cursegs, want, newSec, mid', hi)
    ensures NoneFit(g, segs, cursegs, want, newSec, lo, hi)
  {
  }

  /** set_section_type: nothing when a section is one segment. */
  function SectionTyped(g: Layout, segs: seq<Seg>, s: nat, kind: int): seq<Seg>
    requires s + g.perSec <= |segs|
  {
    if g.perSec == 1 then segs
    else seq(|segs|, i requires 0 <= i < |segs| => if s <= i < s + g.perSec then segs[i].(kind := kind) else segs[i])
  }

  /** A block that fits is free, in the consulted map and in the current one. */
  lemma FitsIsFree(g: Layout, segs: seq<Seg>, cursegs: seq<nat>, want: int, newSec: bool, a: int)
    requires Sound(g, segs) && Fits(g, segs, cursegs, want, newSec, a)
    ensures var s, o := g.SegOf(a), g.OffOf(a);
            && !segs[s].cur[o] && !Bits(g, segs[s])[o] && (g.readOnly || s !in cursegs)
            && (segs[s].valid == 0 || Kind(g, segs[s]) == want)
  {
    var s, o := g.SegOf(a), g.OffOf(a);
    assert Counted(segs[s]);
    if EmptySection(g, segs, s) {
      PopNone(Bits(g, segs[s]), o);
      if segs[s].valid != 0 && g.recording {
        SomeBit(segs[s].cur);
        var i :| 0 <= i < PER_SEG && segs[s].cur[i];
        PopNone(segs[s].ckpt, i);
        assert false;
      }
    }
  }

  lemma {:induction false} SomeBit(bits: seq<bool>)
    requires Pop(bits) != 0
    ensures exists i :: 0 <= i < |bits| && bits[i]
  {
    if !bits[|bits| - 1] {
      SomeBit(bits[..|bits| - 1]);
      var i :| 0 <= i < |bits| - 1 && bits[..|bits| - 1][i];
      assert bits[i];
    }
  }
}
