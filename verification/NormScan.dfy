/**
  The repeated scan by which the cursor sorts a run of combining marks: what it has
  found and what it still has to deliver, as a property of the characters from the
  start of the run.
 */
module NormScan {
  import opened NormText
  import opened NormOrder

  /** The lowest class above c among the marks, or 255. */
  function NextClass(us: seq<Unit>, c: int): int {
    if us == [] then MAXCCC + 1
    else
      var n := |us| - 1;
      var m := NextClass(us[..n], c);
      if Mark(us[n]) && c < us[n].ccc < m then us[n].ccc else m
  }

  lemma {:induction false} NextClassIs(us: seq<Unit>, c: int)
    requires STOPPER <= c
    ensures c < NextClass(us, c) || c > MAXCCC
    ensures NextClass(us, c) <= MAXCCC + 1
    ensures forall i :: 0 <= i < |us| && Mark(us[i]) ==> !(c < us[i].ccc < NextClass(us, c))
    ensures (exists i :: 0 <= i < |us| && Mark(us[i]) && us[i].ccc > c) ==> NextClass(us, c) <= MAXCCC
  {
    if us != [] {
      var n := |us| - 1;
      NextClassIs(us[..n], c);
      forall i | 0 <= i < |us| && Mark(us[i]) ensures !(c < us[i].ccc < NextClass(us, c)) {
        if i < n { assert us[..n][i] == us[i]; }
      }
      if exists i :: 0 <= i < |us| && Mark(us[i]) && us[i].ccc > c {
        var i :| 0 <= i < |us| && Mark(us[i]) && us[i].ccc > c;
        if i < n { assert us[..n][i] == us[i]; }
      }
    }
  }

  /**
    The state of a scan over rs, the characters from the start of the run: d of them
    have been passed, ccc is the class being delivered (-1 on the first pass), nccc the
    next class seen so far, begun the bytes left of a character whose delivery started.
   */
  ghost predicate Scanning(rs: seq<Unit>, d: int, ccc: int, nccc: int, begun: seq<byte>, todo: seq<byte>) {
    var n := RunLen(rs);
    && 0 <= d <= n && -1 <= ccc <= MAXCCC && ccc != STOPPER
    && nccc == NextClass(rs[..d], if ccc < STOPPER then STOPPER else ccc)
    && if ccc < STOPPER then d >= 1 && begun == [] && todo == Expected(rs).bytes
       else
         && (n < |rs| ==> rs[n].Char?)
         && todo == begun + Bytes(Class(rs[d..n], ccc)) + Bytes(Above(rs[..n], ccc)) + Expected(rs[n..]).bytes
  }

  lemma NextClassOne(us: seq<Unit>, u: Unit, c: int)
    ensures NextClass(us + [u], c) ==
            if Mark(u) && c < u.ccc < NextClass(us, c) then u.ccc else NextClass(us, c)
  {
    assert (us + [u])[..|us|] == us;
  }

  lemma StartScan(rs: seq<Unit>)
    requires rs != [] && Mark(rs[0])
    ensures Scanning(rs, 1, -1, rs[0].ccc, [], Expected(rs).bytes)
    ensures RunLen(rs) >= 1
  {
    assert rs[..1] == [] + [rs[0]];
    NextClassOne([], rs[0], STOPPER);
  }

  /** A mark that is not delivered now is passed over, and may be next. */
  lemma SkipMark(rs: seq<Unit>, d: nat, ccc: int, nccc: int, todo: seq<byte>)
    requires Scanning(rs, d, ccc, nccc, [], todo) && d < |rs| && Mark(rs[d]) && rs[d].ccc != ccc
    ensures Scanning(rs, d + 1, ccc, if ccc < rs[d].ccc < nccc then rs[d].ccc else nccc, [], todo)
  {
    hide Expected, Bytes, Class, Above, NextClass, RunLen;
    var n := RunLen(rs);
    assert d < n;
    assert rs[..d + 1] == rs[..d] + [rs[d]];
    NextClassOne(rs[..d], rs[d], if ccc < STOPPER then STOPPER else ccc);
    if ccc > STOPPER {
      assert rs[d..n] == [rs[d]] + rs[d + 1..n];
      ClassConcat([rs[d]], rs[d + 1..n], ccc);
      ClassMembers([rs[d]], ccc);
      assert Class([rs[d]], ccc) == [];
      assert [] + Class(rs[d + 1..n], ccc) == Class(rs[d + 1..n], ccc);
    }
  }

  /** A mark of the class being delivered. */
  lemma DeliverMark(rs: seq<Unit>, d: nat, ccc: int, nccc: int, todo: seq<byte>)
    requires Scanning(rs, d, ccc, nccc, [], todo) && d < |rs| && Mark(rs[d]) && rs[d].ccc == ccc && rs[d].bytes != []
    ensures todo != [] && todo[0] == rs[d].bytes[0]
    ensures Scanning(rs, d + 1, ccc, nccc, rs[d].bytes[1..], todo[1..])
  {
    hide Expected, Bytes, Class, Above, NextClass, RunLen;
    var n := RunLen(rs);
    assert d < n;
    assert rs[..d + 1] == rs[..d] + [rs[d]];
    NextClassOne(rs[..d], rs[d], ccc);
    var mine, later := [rs[d]], rs[d + 1..n];
    assert rs[d..n] == mine + later;
    ClassConcat(mine, later, ccc);
    ClassMembers(mine, ccc);
    BytesConcat(mine, Class(later, ccc));
    BytesOne(rs[d]);
    FirstOf(rs[d].bytes, Bytes(Class(later, ccc)), Bytes(Above(rs[..n], ccc)) + Expected(rs[n..]).bytes, todo);
  }

  lemma BytesOne(u: Unit)
    requires u.Char?
    ensures Bytes([u]) == u.bytes
  {
  }

  lemma ClassOfNone(c: int)
    ensures Class([], c) == [] && Bytes([]) == [] && NextClass([], c) == MAXCCC + 1
  {
  }

  lemma FirstOf(a: seq<byte>, b: seq<byte>, c: seq<byte>, todo: seq<byte>)
    requires a != [] && todo == [] + (a + b) + c
    ensures todo != [] && todo[0] == a[0] && todo[1..] == a[1..] + b + c
  {
  }

  lemma DeliverRest(rs: seq<Unit>, d: nat, ccc: int, nccc: int, begun: seq<byte>, todo: seq<byte>)
    requires Scanning(rs, d, ccc, nccc, begun, todo) && begun != []
    ensures todo != [] && todo[0] == begun[0] && ccc > STOPPER
    ensures Scanning(rs, d, ccc, nccc, begun[1..], todo[1..])
  {
    hide Expected, Bytes, Class, Above, NextClass, RunLen;
    var n := RunLen(rs);
    var more := Bytes(Class(rs[d..n], ccc)) + (Bytes(Above(rs[..n], ccc)) + Expected(rs[n..]).bytes);
    assert todo == begun + more;
    assert todo[1..] == begun[1..] + more;
  }

  function Base(ccc: int): int { if ccc < STOPPER then STOPPER else ccc }

  /** At the end of the run the classes above the current one are still to come. */
  lemma LeftToDeliver(rs: seq<Unit>, d: nat, ccc: int, nccc: int, todo: seq<byte>)
    requires Scanning(rs, d, ccc, nccc, [], todo) && d == RunLen(rs) && (d < |rs| ==> rs[d].Char?)
    ensures todo == Bytes(Above(rs[..d], Base(ccc))) + Expected(rs[d..]).bytes
    ensures nccc == NextClass(rs[..d], Base(ccc))
  {
    hide Expected, Bytes, Class, Above, NextClass, RunLen;
    if ccc > STOPPER {
      ClassOfNone(ccc);
      assert rs[d..d] == [];
      var above := Bytes(Above(rs[..d], ccc));
      assert [] + [] + above == above;
    } else {
      ExpectedRun(rs);
    }
  }

  /** At the end of the run: the next class found is the one to deliver. */
  lemma Restart(rs: seq<Unit>, d: nat, ccc: int, nccc: int, todo: seq<byte>)
    requires Scanning(rs, d, ccc, nccc, [], todo) && d == RunLen(rs) && (d < |rs| ==> rs[d].Char?)
    requires nccc <= MAXCCC
    ensures STOPPER < nccc && ccc < nccc && Scanning(rs, 0, nccc, MAXCCC + 1, [], todo)
  {
    hide Expected, Bytes, Class, Above, NextClass, RunLen;
    LeftToDeliver(rs, d, ccc, nccc, todo);
    var run := rs[..d];
    NextClassIs(run, Base(ccc));
    AboveSkip(run, Base(ccc), nccc);
    BytesConcat(Class(run, nccc), Above(run, nccc));
    ClassOfNone(nccc);
    assert rs[0..d] == run && rs[..0] == [];
    var mine := Bytes(Class(run, nccc));
    assert [] + mine == mine;
  }

  lemma ExpectedRun(rs: seq<Unit>)
    requires RunLen(rs) >= 1 && (RunLen(rs) < |rs| ==> rs[RunLen(rs)].Char?)
    ensures Expected(rs).bytes == Bytes(Above(rs[..RunLen(rs)], STOPPER)) + Expected(rs[RunLen(rs)..]).bytes
  {
  }

  /** At the end of the run with no class left: what follows is delivered next. */
  lemma AllDelivered(rs: seq<Unit>, d: nat, ccc: int, todo: seq<byte>)
    requires Scanning(rs, d, ccc, MAXCCC + 1, [], todo) && d == RunLen(rs)
    ensures ccc > STOPPER && todo == Expected(rs[d..]).bytes
  {
    hide Expected, Bytes, Class, Above, NextClass, RunLen;
    var run := rs[..d];
    if ccc < STOPPER {
      assert Mark(run[0]);
      NextClassIs(run, STOPPER);
    } else {
      NextClassIs(run, ccc);
      AboveSkip(run, ccc, MAXCCC + 1);
      ClassOfNone(ccc);
      assert rs[d..d] == [];
    }
  }

  /** A failure is met on the first pass only, before anything of the run is delivered. */
  lemma FailureAhead(rs: seq<Unit>, d: nat, ccc: int, nccc: int, begun: seq<byte>, todo: seq<byte>)
    requires Scanning(rs, d, ccc, nccc, begun, todo) && d < |rs| && rs[d].Bad?
    ensures todo == [] && ccc < STOPPER
  {
    assert d == RunLen(rs);
  }
}
