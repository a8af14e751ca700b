/**
  The state of a normalization cursor and its transitions: which position it is at,
  which pass over the current run of marks it is in, and what it still delivers.
 */
module NormState {
  import opened NormText
  import opened NormOrder
  import opened NormParse
  import opened NormScan

  /** The pointers (s, p), the saved pointers (ss, sp) and the two classes. */
  datatype Cur = Cur(here: Pos, saved: Pos, ccc: int, nccc: int)

  function ClassAt(t: Table, x: seq<byte>, q: Pos): int {
    if Look(t, Str(x, q), q.s).Some? then OwnClass(t, Look(t, Str(x, q), q.s).value) else STOPPER
  }

  /** A run of marks starts here. */
  ghost predicate StartsMark(t: Table, x: seq<byte>, q: Pos) {
    AtChar(t, x, q, ClassAt(t, x, q)) && ClassAt(t, x, q) > STOPPER
  }

  /** What holds of every text, well-formed or not. */
  ghost predicate Safe(t: Table, x: seq<byte>, c: Cur, good: bool) {
    && PosOk(t, x, c.here, good)
    && -1 <= c.ccc <= MAXCCC && 0 <= c.nccc <= MAXCCC + 1
    && (c.ccc == STOPPER <==> c.nccc == STOPPER)
    && (c.ccc != STOPPER ==>
          && c.ccc < c.nccc
          && PosOk(t, x, c.saved, good) && StartsMark(t, x, c.saved)
          && (c.here == c.saved || Size(t, x, c.here) < Size(t, x, c.saved)))
  }

  function Passed(t: Table, x: seq<byte>, c: Cur): int {
    |Rest(t, x, c.saved)| - |Rest(t, x, c.here)|
  }

  /** What is still to be delivered, for texts without stray continuation bytes. */
  ghost predicate Delivers(t: Table, x: seq<byte>, c: Cur, todo: seq<byte>) {
    && PosClean(t, x, c.here)
    && if c.ccc == STOPPER then todo == Begun(x, c.here) + Expected(Rest(t, x, c.here)).bytes
       else
         && PosClean(t, x, c.saved)
         && Passed(t, x, c) >= 0
         && Rest(t, x, c.here) == Rest(t, x, c.saved)[Passed(t, x, c)..]
         && Scanning(Rest(t, x, c.saved), Passed(t, x, c), c.ccc, c.nccc, Begun(x, c.here), todo)
  }

  // ---- a measure that goes down with every step

  function Far(t: Table, x: seq<byte>, c: Cur): nat {
    if c.ccc == STOPPER then Size(t, x, c.here) else Size(t, x, c.saved)
  }

  function Passes(c: Cur): nat {
    if c.ccc == STOPPER then 300 else if c.ccc < STOPPER then 256 else if c.ccc <= MAXCCC then 255 - c.ccc else 0
  }

  function Near(t: Table, x: seq<byte>, c: Cur): nat { Size(t, x, c.here) }

  ghost predicate Down(t: Table, x: seq<byte>, c: Cur, c': Cur) {
    || Far(t, x, c') < Far(t, x, c)
    || (Far(t, x, c') == Far(t, x, c) && Passes(c') < Passes(c))
    || (Far(t, x, c') == Far(t, x, c) && Passes(c') == Passes(c) && Near(t, x, c') < Near(t, x, c))
  }

  ghost predicate DownOrSame(t: Table, x: seq<byte>, c: Cur, c': Cur) {
    Down(t, x, c, c') || (Far(t, x, c') == Far(t, x, c) && Passes(c') == Passes(c) && Near(t, x, c') == Near(t, x, c))
  }

  // ---- steps

  lemma NotSaved(t: Table, x: seq<byte>, c: Cur, good: bool)
    requires Safe(t, x, c, good) && c.ccc != STOPPER
    requires !WholeChar(Str(x, c.here), c.here.s)
    ensures Size(t, x, c.here) < Size(t, x, c.saved)
  {
    hide PosOk, Size;
  }

  lemma PopCur(t: Table, x: seq<byte>, c: Cur, good: bool, todo: seq<byte>)
    requires Safe(t, x, c, good) && c.here.p >= 0 && c.here.s == |c.here.buf|
    ensures var c' := c.(here := Pos(-1, c.here.p, []));
            && Safe(t, x, c', good) && DownOrSame(t, x, c, c')
            && (Delivers(t, x, c, todo) ==> Delivers(t, x, c', todo))
  {
    PopStep(t, x, c.here, good);
    if c.ccc != STOPPER { NotSaved(t, x, c, good); }
    hide PosOk, Size, Rest, Begun, PosClean, StartsMark, Scanning;
  }

  /** A byte of a character whose delivery has begun. */
  lemma ContCur(t: Table, x: seq<byte>, c: Cur, good: bool, todo: seq<byte>)
    requires Safe(t, x, c, good) && ContAt(Str(x, c.here), c.here.s)
    ensures var c' := c.(here := MovedTo(c.here, c.here.s + 1));
            && Safe(t, x, c', good) && Down(t, x, c, c')
            && (Delivers(t, x, c, todo) ==>
                  todo != [] && todo[0] == Str(x, c.here)[c.here.s] && Delivers(t, x, c', todo[1..]))
  {
    hide PosOk, Size, Rest, Begun, PosClean, StartsMark, Scanning, Expected, Delivers;
    ContStep(t, x, c.here, good);
    if c.ccc != STOPPER { NotSaved(t, x, c, good); }
    Ranges(t, x, c.here, good);
    Ranges(t, x, MovedTo(c.here, c.here.s + 1), good);
    if Delivers(t, x, c, todo) { ContDelivers(t, x, c, MovedTo(c.here, c.here.s + 1), Str(x, c.here)[c.here.s], todo); }
  }

  lemma Ranges(t: Table, x: seq<byte>, q: Pos, good: bool)
    requires PosOk(t, x, q, good)
    ensures InRange(x, q)
  {
  }

  lemma ContDelivers(t: Table, x: seq<byte>, c: Cur, r: Pos, b: byte, todo: seq<byte>)
    requires Delivers(t, x, c, todo) && InRange(x, c.here) && InRange(x, r)
    requires (PosClean(t, x, c.here) ==> PosClean(t, x, r))
    requires Rest(t, x, r) == Rest(t, x, c.here) && Begun(x, c.here) == [b] + Begun(x, r)
    ensures todo != [] && todo[0] == b && Delivers(t, x, c.(here := r), todo[1..])
  {
    hide PosOk, Size, Rest, Begun, PosClean, StartsMark, Scanning, Expected;
    var begun := Begun(x, c.here);
    assert begun[1..] == Begun(x, r);
    if c.ccc == STOPPER {
      FirstOf(begun, [], Expected(Rest(t, x, c.here)).bytes, todo);
    } else {
      DeliverRest(Rest(t, x, c.saved), Passed(t, x, c), c.ccc, c.nccc, begun, todo);
    }
  }

  /** A stopper outside a scan is delivered as it comes. */
  lemma PlainCur(t: Table, x: seq<byte>, c: Cur, good: bool, todo: seq<byte>)
    requires TableOk(t) && Safe(t, x, c, good) && c.ccc == STOPPER && AtChar(t, x, c.here, STOPPER)
    ensures var c' := c.(here := MovedTo(c.here, c.here.s + 1));
            && Safe(t, x, c', good) && Down(t, x, c, c')
            && (Delivers(t, x, c, todo) ==>
                  todo != [] && todo[0] == Str(x, c.here)[c.here.s] && Delivers(t, x, c', todo[1..]))
  {
    hide TableOk, PosOk, Size, Rest, Begun, PosClean, StartsMark, Scanning, Expected, Delivers;
    FirstByte(t, x, c.here, STOPPER, good);
    if Delivers(t, x, c, todo) { CharDelivers(t, x, c, STOPPER, good, todo); }
  }

  /** The first byte of a character of the class being delivered. */
  lemma CharDelivers(t: Table, x: seq<byte>, c: Cur, cls: int, good: bool, todo: seq<byte>)
    requires TableOk(t) && PosOk(t, x, c.here, good) && AtChar(t, x, c.here, cls) && cls == c.ccc
    requires Delivers(t, x, c, todo)
    ensures todo != [] && todo[0] == Str(x, c.here)[c.here.s]
    ensures Delivers(t, x, c.(here := MovedTo(c.here, c.here.s + 1)), todo[1..])
  {
    hide TableOk, PosOk, Size, Rest, Begun, PosClean, StartsMark, Scanning, Expected;
    AtCharPos(t, x, c.here, cls, good);
    AtCharUnit(t, x, c.here, cls);
    FirstByte(t, x, c.here, cls, good);
    var b, rest := CharAt(x, c.here), Rest(t, x, After(x, c.here));
    assert b[1..] == Begun(x, MovedTo(c.here, c.here.s + 1));
    if cls == STOPPER {
      ExpectedStopper(Char(STOPPER, b), rest);
      FirstOf(b, [], Expected(rest).bytes, todo);
    } else {
      var rs, d := Rest(t, x, c.saved), Passed(t, x, c);
      HeadOfRest(rs, d, Char(cls, b), rest);
      DeliverMark(rs, d, c.ccc, c.nccc, todo);
    }
  }

  lemma ExpectedStopper(u: Unit, rest: seq<Unit>)
    requires u.Char? && !Mark(u)
    ensures Expected([u] + rest).bytes == u.bytes + Expected(rest).bytes
  {
    assert ([u] + rest)[1..] == rest;
  }

  /** A mark of the class being delivered. */
  lemma MarkCur(t: Table, x: seq<byte>, c: Cur, good: bool, todo: seq<byte>)
    requires TableOk(t) && Safe(t, x, c, good) && c.ccc > STOPPER && AtChar(t, x, c.here, c.ccc)
    ensures var c' := c.(here := MovedTo(c.here, c.here.s + 1));
            && Safe(t, x, c', good) && Down(t, x, c, c')
            && (Delivers(t, x, c, todo) ==>
                  todo != [] && todo[0] == Str(x, c.here)[c.here.s] && Delivers(t, x, c', todo[1..]))
  {
    hide TableOk, PosOk, Size, Rest, Begun, PosClean, StartsMark, Scanning, Expected, Delivers;
    FirstByte(t, x, c.here, c.ccc, good);
    if Delivers(t, x, c, todo) { CharDelivers(t, x, c, c.ccc, good, todo); }
  }

  lemma HeadOfRest(rs: seq<Unit>, d: nat, u: Unit, rest: seq<Unit>)
    requires d <= |rs| && rs[d..] == [u] + rest
    ensures d < |rs| && rs[d] == u && rest == rs[d + 1..] && |rs| - |rest| == d + 1
  {
    assert rs[d..][0] == u && rs[d..][1..] == rest;
  }

  /** The first mark of a run: remember the place and look for the lowest class. */
  lemma StartCur(t: Table, x: seq<byte>, c: Cur, cls: int, good: bool, todo: seq<byte>)
    requires TableOk(t) && Safe(t, x, c, good) && c.ccc == STOPPER && cls > STOPPER && AtChar(t, x, c.here, cls)
    ensures var c' := Cur(After(x, c.here), c.here, -1, cls);
            && Safe(t, x, c', good) && Down(t, x, c, c')
            && (Delivers(t, x, c, todo) ==> Delivers(t, x, c', todo))
  {
    hide TableOk;
    AtCharPos(t, x, c.here, cls, good);
    AtCharUnit(t, x, c.here, cls);
    assert StartsMark(t, x, c.here);
    hide PosOk, Size, Rest, Begun, PosClean, StartsMark, Scanning, Expected;
    if Delivers(t, x, c, todo) {
      var rs := Rest(t, x, c.here);
      StartScan(rs);
      assert rs[1..] == Rest(t, x, After(x, c.here));
      assert [] + Expected(rs).bytes == Expected(rs).bytes;
    }
  }

  /** A mark that is not the class being delivered. */
  lemma SkipCur(t: Table, x: seq<byte>, c: Cur, cls: int, good: bool, todo: seq<byte>)
    requires TableOk(t) && Safe(t, x, c, good) && c.ccc != STOPPER && cls > STOPPER && cls != c.ccc
    requires AtChar(t, x, c.here, cls)
    ensures var c' := Cur(After(x, c.here), c.saved, c.ccc, if c.ccc < cls < c.nccc then cls else c.nccc);
            && Safe(t, x, c', good) && Down(t, x, c, c')
            && (Delivers(t, x, c, todo) ==> Delivers(t, x, c', todo))
  {
    hide TableOk, PosOk, Size, Rest, Begun, PosClean, StartsMark, Scanning, Expected, Delivers;
    AtCharPos(t, x, c.here, cls, good);
    if Delivers(t, x, c, todo) { SkipDelivers(t, x, c, cls, good, todo); }
  }

  lemma SkipDelivers(t: Table, x: seq<byte>, c: Cur, cls: int, good: bool, todo: seq<byte>)
    requires TableOk(t) && PosOk(t, x, c.here, good) && AtChar(t, x, c.here, cls) && Delivers(t, x, c, todo)
    requires c.ccc != STOPPER && cls > STOPPER && cls != c.ccc
    ensures Delivers(t, x, Cur(After(x, c.here), c.saved, c.ccc, if c.ccc < cls < c.nccc then cls else c.nccc), todo)
  {
    hide TableOk, PosOk, Size, Rest, Begun, PosClean, StartsMark, Scanning, Expected;
    AtCharPos(t, x, c.here, cls, good);
    AtCharUnit(t, x, c.here, cls);
    var rs, d := Rest(t, x, c.saved), Passed(t, x, c);
    HeadOfRest(rs, d, Char(cls, CharAt(x, c.here)), Rest(t, x, After(x, c.here)));
    SkipMark(rs, d, c.ccc, c.nccc, todo);
  }

  /** Nothing to scan further: the end of the text, a stopper or an ignorable. */
  ghost predicate Stops(us: seq<Unit>) {
    us == [] || (us[0].Char? && !Mark(us[0]))
  }

  lemma SavedIsAMark(t: Table, x: seq<byte>, q: Pos)
    requires TableOk(t) && StartsMark(t, x, q)
    ensures !Stops(Rest(t, x, q))
  {
    AtCharUnit(t, x, q, ClassAt(t, x, q));
    LookupDecomposes(t, Str(x, q), q.s);
  }

  /**
    At the end of a pass: start over with the next class, or leave the scan.  `was` is
    the place the stop was seen at; an ignorable there has already been passed.
   */
  lemma RestartCur(t: Table, x: seq<byte>, c: Cur, was: Pos, good: bool, todo: seq<byte>)
    requires TableOk(t) && Safe(t, x, c, good) && c.ccc != STOPPER && c.nccc <= MAXCCC
    requires InRange(x, was) && Stops(Rest(t, x, was)) && Begun(x, was) == []
    ensures var c' := Cur(c.saved, c.saved, c.nccc, MAXCCC + 1);
            && Safe(t, x, c', good) && Down(t, x, c, c')
            && (Delivers(t, x, c.(here := was), todo) ==> Delivers(t, x, c', todo))
  {
    hide PosOk, Size, Rest, PosClean, Scanning, Expected, TableOk;
    if Delivers(t, x, c.(here := was), todo) {
      var rs, d := Rest(t, x, c.saved), Passed(t, x, c.(here := was));
      StopEndsRun(rs, d, c.ccc, c.nccc, todo);
      Restart(rs, d, c.ccc, c.nccc, todo);
      assert rs[0..] == rs;
      StartsNowhere(t, x, c.saved);
    }
  }

  lemma StartsNowhere(t: Table, x: seq<byte>, q: Pos)
    requires StartsMark(t, x, q)
    ensures Begun(x, q) == []
  {
    CharStep(t, Str(x, q), q.s, Look(t, Str(x, q), q.s).value);
  }

  lemma StopEndsRun(rs: seq<Unit>, d: nat, ccc: int, nccc: int, todo: seq<byte>)
    requires Scanning(rs, d, ccc, nccc, [], todo) && d <= |rs| && Stops(rs[d..])
    ensures d == RunLen(rs) && (d < |rs| ==> rs[d].Char?)
  {
    hide Expected, Bytes, Class, Above, NextClass, RunLen;
    if d < |rs| { assert rs[d..][0] == rs[d]; }
  }

  lemma LeaveCur(t: Table, x: seq<byte>, c: Cur, was: Pos, good: bool, todo: seq<byte>)
    requires TableOk(t) && Safe(t, x, c, good) && c.ccc != STOPPER && c.nccc == MAXCCC + 1
    requires PosOk(t, x, was, good) && Stops(Rest(t, x, was)) && Begun(x, was) == [] && Begun(x, c.here) == []
    requires was == c.here ||
               (Rest(t, x, was) == [Char(STOPPER, [])] + Rest(t, x, c.here) && Size(t, x, c.here) <= Size(t, x, was))
    requires was == c.saved || Size(t, x, was) < Size(t, x, c.saved)
    requires PosClean(t, x, was) ==> PosClean(t, x, c.here)
    ensures var c' := Cur(c.here, c.saved, STOPPER, STOPPER);
            && Safe(t, x, c', good) && Down(t, x, c, c')
            && (Delivers(t, x, c.(here := was), todo) ==> Delivers(t, x, c', todo))
  {
    SavedIsAMark(t, x, c.saved);
    hide PosOk, Size, Rest, PosClean, Scanning, Expected, TableOk, StartsMark, Begun;
    assert was != c.saved;
    if Delivers(t, x, c.(here := was), todo) {
      var rs, d := Rest(t, x, c.saved), Passed(t, x, c.(here := was));
      StopEndsRun(rs, d, c.ccc, c.nccc, todo);
      AllDelivered(rs, d, c.ccc, todo);
      if was != c.here { ExpectedStopper(Char(STOPPER, []), Rest(t, x, c.here)); }
      assert [] + Expected(Rest(t, x, c.here)).bytes == Expected(Rest(t, x, c.here)).bytes;
    }
  }

  /** An ignorable outside a scan is passed over. */
  lemma IgnoreCur(t: Table, x: seq<byte>, c: Cur, next: Pos, good: bool, todo: seq<byte>)
    requires Safe(t, x, c, good) && c.ccc == STOPPER && PosOk(t, x, next, good)
    requires Rest(t, x, c.here) == [Char(STOPPER, [])] + Rest(t, x, next) && Size(t, x, next) < Size(t, x, c.here)
    requires Begun(x, c.here) == [] && Begun(x, next) == [] && (PosClean(t, x, c.here) ==> PosClean(t, x, next))
    ensures var c' := c.(here := next);
            && Safe(t, x, c', good) && Down(t, x, c, c')
            && (Delivers(t, x, c, todo) ==> Delivers(t, x, c', todo))
  {
    hide PosOk, Size, Rest, PosClean, Scanning, Expected, StartsMark, Begun;
    ExpectedStopper(Char(STOPPER, []), Rest(t, x, next));
  }

  /** Entering a decomposition that is not empty changes nothing ahead. */
  lemma EnterCur(t: Table, x: seq<byte>, c: Cur, next: Pos, good: bool, todo: seq<byte>)
    requires Safe(t, x, c, good) && PosOk(t, x, next, good)
    requires Rest(t, x, next) == Rest(t, x, c.here) && Size(t, x, next) < Size(t, x, c.here)
    requires Begun(x, c.here) == [] && Begun(x, next) == [] && (PosClean(t, x, c.here) ==> PosClean(t, x, next))
    ensures var c' := c.(here := next);
            && Safe(t, x, c', good) && Down(t, x, c, c')
            && (Delivers(t, x, c, todo) ==> Delivers(t, x, c', todo))
  {
    hide PosOk, Size, Rest, PosClean, Scanning, Expected, StartsMark, Begun;
  }

  /** At a failed lookup nothing deliverable is left. */
  lemma FailCur(t: Table, x: seq<byte>, c: Cur, good: bool, todo: seq<byte>)
    requires Safe(t, x, c, good) && c.here.p < 0 && !EndAt(x, c.here.s) && !Cont(x[c.here.s])
    requires Look(t, x, c.here.s).None?
    ensures !good
    ensures Delivers(t, x, c, todo) ==> todo == []
  {
    assert Rest(t, x, c.here) == [Bad];
    hide PosOk, Size, Rest, PosClean, Scanning, StartsMark;
    if Delivers(t, x, c, todo) && c.ccc != STOPPER {
      var rs, d := Rest(t, x, c.saved), Passed(t, x, c);
      HeadOfRest(rs, d, Bad, []);
      FailureAhead(rs, d, c.ccc, c.nccc, Begun(x, c.here), todo);
    }
  }

  /** At the end of the text outside a scan everything has been delivered. */
  lemma EndCur(t: Table, x: seq<byte>, c: Cur, good: bool, todo: seq<byte>)
    requires Safe(t, x, c, good) && c.here.p < 0 && EndAt(x, c.here.s) && c.ccc == STOPPER
    ensures good
    ensures Delivers(t, x, c, todo) ==> todo == []
  {
    assert Rest(t, x, c.here) == [];
  }
}
