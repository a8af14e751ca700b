/**
  utf8byte and utf8_casefold of lib/nls_utf8.c.

  A cursor delivers the normalization of its text one byte per call.  For text without
  stray continuation bytes the bytes are those of the decomposed text in canonical
  order; for every text the calls come to an end, in a failure exactly when some lookup
  fails.
 */
module NormCursor {
  import opened NormText
  import opened NormOrder
  import opened NormParse
  import opened NormScan
  import opened NormState

  lemma DownThen(t: Table, x: seq<byte>, a: Cur, b: Cur, c: Cur)
    requires DownOrSame(t, x, a, b)
    ensures Down(t, x, b, c) ==> Down(t, x, a, c)
    ensures DownOrSame(t, x, b, c) ==> DownOrSame(t, x, a, c)
  {
    hide Far, Passes, Near;
  }

  /** In a decomposition every character stands for itself. */
  lemma InDecomposition(t: Table, x: seq<byte>, q: Pos, good: bool)
    requires PosOk(t, x, q, good) && q.p >= 0 && q.s < |q.buf| && !Cont(q.buf[q.s])
    ensures WholeChar(q.buf, q.s) && Look(t, q.buf, q.s).Some? && !Decomposes(t, Look(t, q.buf, q.s).value)
    ensures AtChar(t, x, q, OwnClass(t, Look(t, q.buf, q.s).value))
  {
    DecomposedStart(t, q.buf, q.s);
  }

  lemma LookIsLookup(t: Table, x: seq<byte>, i: nat)
    requires TableOk(t) && !EndAt(x, i)
    ensures Look(t, x, i) == Lookup(t, x, i)
  {
  }

  lemma RestAtEnd(t: Table, x: seq<byte>, q: Pos)
    requires q.p < 0 && q.s <= |x| && EndAt(x, q.s)
    ensures InRange(x, q) && Rest(t, x, q) == [] && Begun(x, q) == []
  {
  }

  lemma RestAtStopper(t: Table, x: seq<byte>, q: Pos, good: bool)
    requires TableOk(t) && PosOk(t, x, q, good) && AtChar(t, x, q, STOPPER)
    ensures InRange(x, q) && Stops(Rest(t, x, q)) && Begun(x, q) == []
  {
    hide TableOk, Rest, PosOk;
    AtCharUnit(t, x, q, STOPPER);
    AtCharPos(t, x, q, STOPPER, good);
  }

  lemma StopsAtIgnorable(us: seq<Unit>, rest: seq<Unit>)
    requires us == [Char(STOPPER, [])] + rest
    ensures Stops(us)
  {
  }

  class Cursor {
    const t: Table
    const input: seq<byte>
    var s: nat
    var p: int
    var buf: seq<byte>
    var ss: nat
    var sp: int
    var sbuf: seq<byte>
    var len: int
    var slen: int
    var ccc: int
    var nccc: int
    /** The bytes still to come, if the text is free of stray continuation bytes. */
    ghost var todo: seq<byte>

    ghost function C(): Cur
      reads this
    {
      Cur(Pos(p, s, buf), Pos(sp, ss, sbuf), ccc, nccc)
    }

    ghost predicate Valid()
      reads this
    {
      && TableOk(t)
      && Safe(t, input, C(), Good(t, input, 0))
      && (Clean(t, input, 0) ==> Delivers(t, input, C(), todo))
      && LenOk()
    }

    /** len counts what is left of the input; bytes of a decomposition do not count. */
    ghost predicate LenOk()
      reads this
    {
      && len == |input| - Raw(C().here)
      && (ccc != STOPPER ==> slen == |input| - Raw(C().saved))
    }

    /** utf8ncursor, when it succeeds */
    constructor (table: Table, text: seq<byte>)
      requires TableOk(table) && !ContAt(text, 0)
      ensures Valid() && t == table && input == text
      ensures Clean(t, input, 0) ==> todo == Expected(Flat(t, input, 0)).bytes
    {
      t, input := table, text;
      s, p, buf := 0, -1, [];
      ss, sp, sbuf := 0, -1, [];
      len, slen := |text|, 0;
      ccc, nccc := STOPPER, STOPPER;
      todo := Expected(Flat(table, text, 0)).bytes;
      new;
      assert Skip(input, 0) == 0;
      assert Rest(t, input, C().here) == Flat(t, input, 0);
      hide Flat, Good, Clean, Expected;
    }

    /** lib/nls_utf8.c:753-758 and 805-809: one byte is delivered. */
    method Deliver() returns (b: byte)
      requires Safe(t, input, C(), Good(t, input, 0)) && LenOk()
      requires s < |Str(input, C().here)|
      modifies this`s, this`len
      ensures s == old(s) + 1 && b == Str(input, old(C().here))[old(s)]
      ensures LenOk()
    {
      if p < 0 {
        len := len - 1;
        b := input[s];
      } else {
        b := buf[s];
      }
      s := s + 1;
    }

    /** The third and fourth branch of the mismatch code: a stop is seen during a scan. */
    method Stop(ghost was: Pos)
      requires TableOk(t) && Safe(t, input, C(), Good(t, input, 0)) && LenOk() && ccc != STOPPER
      requires PosOk(t, input, was, Good(t, input, 0)) && Stops(Rest(t, input, was))
      requires Begun(input, was) == [] && InRange(input, C().here) && Begun(input, C().here) == []
      requires was == C().here || (Rest(t, input, was) == [Char(STOPPER, [])] + Rest(t, input, C().here)
                                   && Size(t, input, C().here) <= Size(t, input, was))
      requires was == C().saved || Size(t, input, was) < Size(t, input, C().saved)
      requires PosClean(t, input, was) ==> PosClean(t, input, C().here)
      requires Clean(t, input, 0) ==> Delivers(t, input, C().(here := was), todo)
      modifies this
      ensures Valid() && todo == old(todo) && Down(t, input, old(C()), C())
    {
      hide TableOk, Safe, Delivers, Down, PosOk, Rest, Size, PosClean, Begun, Clean, Good;
      ghost var c := C();
      SafeRanges(t, input, c, Good(t, input, 0));
      Ranges(t, input, was, Good(t, input, 0));
      if nccc != MAXCCC + 1 {
        RestartCur(t, input, c, was, Good(t, input, 0), todo);
        ccc := nccc;
        nccc := MAXCCC + 1;
        s, p, buf := ss, sp, sbuf;
        len := slen;
      } else {
        LeaveCur(t, input, c, was, Good(t, input, 0), todo);
        ccc := STOPPER;
        nccc := STOPPER;
        slen := 0;
      }
    }

    /** lib/nls_utf8.c:794-846, for a character of class c at the current position. */
    method OnChar(c: int) returns (delivered: bool, b: byte)
      requires Valid() && AtChar(t, input, C().here, c)
      modifies this
      ensures Valid() && Down(t, input, old(C()), C())
      ensures delivered ==> b != 0
      ensures delivered && Clean(t, input, 0) ==> old(todo) != [] && b == old(todo)[0] && todo == old(todo)[1..]
      ensures !delivered ==> todo == old(todo)
    {
      hide TableOk, Safe, Delivers, Down, PosOk, Rest, Size, PosClean, Begun, Clean, Good, Look;
      ghost var good := Good(t, input, 0);
      ghost var cur := C();
      SafeRanges(t, input, cur, good);
      CharRange(t, input, cur.here, c, good);
      delivered, b := false, 0;
      if c == ccc {
        if c == STOPPER { PlainCur(t, input, cur, good, todo); } else { MarkCur(t, input, cur, good, todo); }
        b := Deliver();
        delivered := true;
        todo := if todo == [] then [] else todo[1..];
      } else if c == STOPPER {
        RestAtStopper(t, input, cur.here, good);
        Stop(cur.here);
      } else if ccc == STOPPER {
        StartCur(t, input, cur, c, good, todo);
        ccc := -1;
        nccc := c;
        sp, ss, sbuf := p, s, buf;
        slen := len;
        Advance();
      } else {
        SkipCur(t, input, cur, c, good, todo);
        if ccc < c < nccc {
          nccc := c;
        }
        Advance();
      }
    }

    /** Steps over the character at the current position. */
    method Advance()
      requires WholeChar(Str(input, C().here), s) && len == |input| - Raw(C().here)
      modifies this`s, this`len
      ensures s == Next(Str(input, old(C().here)), old(s)) && len == |input| - Raw(C().here)
    {
      var n := CharLen(if p < 0 then input[s] else buf[s]);
      if p < 0 {
        len := len - n;
      }
      s := s + n;
    }

    /** utf8byte */
    method Byte() returns (r: int)
      requires Valid()
      modifies this
      ensures -1 <= r < 256
      ensures r > 0 ==> Valid() && Down(t, input, old(C()), C())
      ensures r > 0 && Clean(t, input, 0) ==> old(todo) != [] && r == old(todo)[0] && todo == old(todo)[1..]
      ensures r == 0 ==> Valid() && Good(t, input, 0) && todo == old(todo)
      ensures r == -1 ==> !Good(t, input, 0)
      ensures r <= 0 && Clean(t, input, 0) ==> old(todo) == []
    {
      hide TableOk, Safe, Delivers, Down, DownOrSame, Clean, Good, Far, Passes, Near;
      ghost var c0 := C();
      SameIsDown(t, input, c0);
      while true
        invariant Valid() && todo == old(todo) && DownOrSame(t, input, c0, C())
        decreases Far(t, input, C()), Passes(C()), Near(t, input, C())
      {
        ghost var c1 := C();
        if p >= 0 && s == |buf| {
          PopCur(t, input, c1, Good(t, input, 0), todo);
          s := p;
          p := -1;
          buf := [];
        } else {
          SameIsDown(t, input, c1);
        }
        ghost var c2 := C();
        r := Step();
        DownThen(t, input, c0, c1, c2);
        DownThen(t, input, c0, c2, C());
        if r >= -1 {
          return;
        }
        DownDecreases(t, input, c1, c2, C());
        WeakDown(t, input, c0, C());
      }
    }

    /** One round of the loop after the end of a decomposition is dealt with; -2 goes round again. */
    method Step() returns (r: int)
      requires Valid() && !(p >= 0 && s == |buf|)
      modifies this
      ensures -2 <= r < 256
      ensures r == -2 || r > 0 ==> Valid() && Down(t, input, old(C()), C())
      ensures r == -2 ==> todo == old(todo)
      ensures r > 0 && Clean(t, input, 0) ==> old(todo) != [] && r == old(todo)[0] && todo == old(todo)[1..]
      ensures r == 0 ==> Valid() && Good(t, input, 0) && todo == old(todo)
      ensures r == -1 ==> !Good(t, input, 0)
      ensures -1 <= r <= 0 && Clean(t, input, 0) ==> old(todo) == []
    {
      hide TableOk, Safe, Delivers, Down, PosOk, Rest, Size, PosClean, Begun, Clean, Good, Look, AtChar;
      ghost var good := Good(t, input, 0);
      ghost var cur := C();
      SafeRanges(t, input, cur, good);
      var delivered, b := false, 0;
      if p < 0 && (len == 0 || input[s] == 0) {
        if ccc == STOPPER {
          EndCur(t, input, cur, good, todo);
          return 0;
        }
        RestAtEnd(t, input, cur.here);
        Stop(cur.here);
      } else if Cont(if p < 0 then input[s] else buf[s]) {
        ContCur(t, input, cur, good, todo);
        b := Deliver();
        delivered := true;
        todo := if todo == [] then [] else todo[1..];
      } else if p >= 0 {
        InDecomposition(t, input, cur.here, good);
        LookSame(t, buf, s);
        delivered, b := OnChar(OwnClass(t, Lookup(t, buf, s).value));
      } else {
        LookIsLookup(t, input, s);
        var found := Lookup(t, input, s);
        if found.None? {
          FailCur(t, input, cur, good, todo);
          return -1;
        }
        LookWhole(t, input, s);
        if !Decomposes(t, found.value) {
          OwnChar(t, input, cur.here, found.value);
          delivered, b := OnChar(OwnClass(t, found.value));
        } else {
          delivered, b := Enter(found.value);
        }
      }
      r := if delivered then b else -2;
    }

    /** lib/nls_utf8.c:776-792: the character is replaced by its decomposition. */
    method Enter(leaf: Leaf) returns (delivered: bool, b: byte)
      requires Valid() && p < 0 && WholeChar(input, s) && Look(t, input, s) == Some(leaf) && Decomposes(t, leaf)
      modifies this
      ensures Valid() && Down(t, input, old(C()), C())
      ensures delivered ==> b != 0
      ensures delivered && Clean(t, input, 0) ==> old(todo) != [] && b == old(todo)[0] && todo == old(todo)[1..]
      ensures !delivered ==> todo == old(todo)
    {
      hide TableOk, Safe, Delivers, Down, PosOk, Rest, Size, PosClean, Begun, Clean, Good, Look;
      ghost var good := Good(t, input, 0);
      ghost var cur := C();
      SafeRanges(t, input, cur, good);
      EnterStep(t, input, cur.here, leaf, good);
      ghost var next := Entered(input, cur.here, leaf);
      delivered, b := false, 0;
      var n := CharLen(input[s]);
      if leaf.str == [] {
        if ccc == STOPPER {
          IgnoreCur(t, input, cur, next, good, todo);
          len := len - n;
          p := s + n;
          s, buf := 0, leaf.str;
        } else {
          StopsAtIgnorable(Rest(t, input, cur.here), Rest(t, input, next));
          SafeMoves(t, input, cur, next, good);
          len := len - n;
          p := s + n;
          s, buf := 0, leaf.str;
          Stop(cur.here);
          DownFrom(t, input, cur, next, C());
        }
      } else {
        assert [] + Rest(t, input, next) == Rest(t, input, next);
        EnterCur(t, input, cur, next, good, todo);
        len := len - n;
        p := s + n;
        s, buf := 0, leaf.str;
        ghost var mid := C();
        LookSame(t, buf, 0);
        delivered, b := OnChar(Lookup(t, buf, 0).value.ccc);
        DownBoth(t, input, cur, mid, C());
      }
    }
  }

  // ---- small facts used above

  lemma SafeRanges(t: Table, x: seq<byte>, c: Cur, good: bool)
    requires Safe(t, x, c, good)
    ensures InRange(x, c.here) && PosOk(t, x, c.here, good)
    ensures -1 <= c.ccc <= MAXCCC && 0 <= c.nccc <= MAXCCC + 1 && (c.ccc == STOPPER <==> c.nccc == STOPPER)
    ensures c.ccc != STOPPER ==> c.here == c.saved || Size(t, x, c.here) < Size(t, x, c.saved)
  {
  }

  lemma CharRange(t: Table, x: seq<byte>, q: Pos, c: int, good: bool)
    requires TableOk(t) && PosOk(t, x, q, good) && AtChar(t, x, q, c)
    ensures WholeChar(Str(x, q), q.s) && STOPPER <= c <= MAXCCC
  {
    AtCharPos(t, x, q, c, good);
  }

  lemma LookSame(t: Table, y: seq<byte>, i: nat)
    requires Look(t, y, i).Some?
    ensures Look(t, y, i) == Lookup(t, y, i)
  {
  }

  lemma OwnChar(t: Table, x: seq<byte>, q: Pos, l: Leaf)
    requires InRange(x, q) && q.p < 0 && WholeChar(x, q.s) && Look(t, x, q.s) == Some(l) && !Decomposes(t, l)
    ensures AtChar(t, x, q, OwnClass(t, l))
  {
  }

  lemma LookWhole(t: Table, x: seq<byte>, i: nat)
    requires Look(t, x, i).Some?
    ensures WholeChar(x, i)
  {
  }

  lemma SameIsDown(t: Table, x: seq<byte>, c: Cur)
    ensures DownOrSame(t, x, c, c)
  {
  }

  lemma WeakDown(t: Table, x: seq<byte>, a: Cur, b: Cur)
    requires Down(t, x, a, b)
    ensures DownOrSame(t, x, a, b)
  {
  }

  lemma DownDecreases(t: Table, x: seq<byte>, a: Cur, b: Cur, c: Cur)
    requires DownOrSame(t, x, a, b) && Down(t, x, b, c)
    ensures Down(t, x, a, c)
    ensures || Far(t, x, c) < Far(t, x, a)
            || (Far(t, x, c) == Far(t, x, a) && Passes(c) < Passes(a))
            || (Far(t, x, c) == Far(t, x, a) && Passes(c) == Passes(a) && Near(t, x, c) < Near(t, x, a))
  {
  }

  lemma DownBoth(t: Table, x: seq<byte>, a: Cur, b: Cur, c: Cur)
    requires Down(t, x, a, b) && Down(t, x, b, c)
    ensures Down(t, x, a, c)
  {
  }

  /** A scan that has just passed an ignorable is still safe. */
  lemma SafeMoves(t: Table, x: seq<byte>, c: Cur, next: Pos, good: bool)
    requires TableOk(t) && Safe(t, x, c, good) && c.ccc != STOPPER && PosOk(t, x, next, good)
    requires Size(t, x, next) < Size(t, x, c.here)
    ensures Safe(t, x, c.(here := next), good)
  {
  }

  lemma DownFrom(t: Table, x: seq<byte>, c: Cur, next: Pos, c': Cur)
    requires Size(t, x, next) < Size(t, x, c.here) && c.ccc != STOPPER && Down(t, x, c.(here := next), c')
    ensures Down(t, x, c, c')
  {
  }

  // ---- whole texts

  /**
    utf8_casefold: the whole normalization into a buffer.  The result is its length; a
    failed lookup and a buffer too small are both reported as ENAMETOOLONG, and only a
    text that begins with a continuation byte as EINVAL.
   */
  datatype Folded = Done(nlen: nat) | NameTooLong | Invalid

  method Casefold(t: Table, text: seq<byte>, dest: array<byte>) returns (r: Folded)
    requires TableOk(t)
    modifies dest
    ensures r.Invalid? ==> ContAt(text, 0) && dest.Length >= |text|
    ensures ContAt(text, 0) ==> r == if dest.Length < |text| then NameTooLong else Invalid
    ensures r.Done? ==> Good(t, text, 0) && r.nlen < dest.Length
    ensures Clean(t, text, 0) ==>
              var e := Expected(Flat(t, text, 0));
              if Good(t, text, 0) && |e.bytes| < dest.Length
              then r == Done(|e.bytes|) && dest[..|e.bytes|] == e.bytes
              else r == NameTooLong
    ensures ValidText(t, text, 0) ==>
              var e := Bytes(Reorder(Flat(t, text, 0)));
              if |e| < dest.Length then r == Done(|e|) && dest[..|e|] == e else r == NameTooLong
  {
    hide TableOk, ValidText, Reorder, Bytes, Cont, Good, Clean, Expected, Flat, Down, Safe, Delivers;
    if ContAt(text, 0) {
      StrayIsNotClean(t, text);
      r := if dest.Length < |text| then NameTooLong else Invalid;
    } else {
      var cur := new Cursor(t, text);
      ghost var all := cur.todo;
      var n := 0;
      r := NameTooLong;
      while n < dest.Length
        invariant 0 <= n <= dest.Length && cur.Valid() && cur.t == t && cur.input == text && r == NameTooLong
        invariant fresh(cur)
        invariant Clean(t, text, 0) ==> n <= |all| && cur.todo == all[n..] && dest[..n] == all[..n]
      {
        var c := cur.Byte();
        if c >= 0 {
          dest[n] := c;
        }
        if c == 0 {
          r := Done(n);
          break;
        }
        if c == -1 {
          break;
        }
        n := n + 1;
      }
    }
    if ValidText(t, text, 0) {
      NormalForm(t, text);
    }
  }

  lemma StrayIsNotClean(t: Table, x: seq<byte>)
    requires ContAt(x, 0)
    ensures !Clean(t, x, 0)
  {
  }

  /** Calls Byte until the end: it always comes, and is a failure iff a lookup fails. */
  method Drain(cur: Cursor) returns (out: seq<byte>, ok: bool)
    requires cur.Valid()
    modifies cur
    ensures ok == Good(cur.t, cur.input, 0)
    ensures Clean(cur.t, cur.input, 0) ==> out == old(cur.todo)
    decreases Far(cur.t, cur.input, cur.C()), Passes(cur.C()), Near(cur.t, cur.input, cur.C())
  {
    hide TableOk, Good, Clean, Safe, Delivers;
    var c := cur.Byte();
    if c <= 0 {
      return [], c == 0;
    }
    out, ok := Drain(cur);
    out := [c] + out;
  }

  /**
    The bytes of a whole text, or its failure (utf8ncursor, and utf8byte until it does not deliver).  What the header
    promises, failure for every text that is not well-formed UTF-8, holds of a text exactly when it has no stray
    continuation byte, or some byte in it starts no known character, or it begins with a continuation byte.
   */
  method Normalized(t: Table, text: seq<byte>) returns (out: seq<byte>, ok: bool)
    requires TableOk(t)
    ensures ok <==> AllKnown(t, text) && !ContAt(text, 0)
    ensures (forall j: nat :: !Stray(text, j)) ==> (ok <==> ValidText(t, text, 0))
    ensures (exists j: nat :: Stray(text, j)) ==> !ValidText(t, text, 0)
    ensures (ok <==> ValidText(t, text, 0)) <==>
              (forall j: nat :: !Stray(text, j)) || !AllKnown(t, text) || ContAt(text, 0)
    ensures ValidText(t, text, 0) ==> out == Bytes(Reorder(Flat(t, text, 0)))
  {
    hide TableOk, Good, Clean, Flat, Expected, ValidText, Reorder, Delivers, Safe;
    FailureReported(t, text);
    if ContAt(text, 0) {
      assert Stray(text, 0);
      return [], false;
    }
    var cur := new Cursor(t, text);
    if ValidText(t, text, 0) { NormalForm(t, text); }
    out, ok := Drain(cur);
  }

  /** What the lookups on the way say about the bytes of a text, and what well-formed text is, position by position. */
  lemma FailureReported(t: Table, x: seq<byte>)
    requires TableOk(t)
    ensures Good(t, x, 0) <==> AllKnown(t, x)
    ensures ValidText(t, x, 0) <==> AllKnown(t, x) && forall j: nat :: !Stray(x, j)
    ensures (Good(t, x, 0) <==> ValidText(t, x, 0)) <==> (forall j: nat :: !Stray(x, j)) || !AllKnown(t, x)
  {
    hide TableOk;
    assert Boundary(x, 0);
    GoodMeans(t, x, 0);
    ValidMeans(t, x, 0);
  }

  /** ... for example after the letter a (0x61), whatever the table, if it knows the letter. */
  lemma StrayIsDelivered(t: Table)
    requires TableOk(t) && Lookup(t, [0x61, 0x80], 0).Some?
    ensures var x := [0x61, 0x80];
            Good(t, x, 0) && !Clean(t, x, 0) && !ValidText(t, x, 0) && !ContAt(x, 0) && Stray(x, 1)
  {
    var x := [0x61, 0x80];
    assert WholeChar(x, 0) && Next(x, 0) == 1;
    assert Cont(x[1]);
    assert Good(t, x, 2);
    assert Good(t, x, 1);
    assert !Clean(t, x, 1) && !ValidText(t, x, 1);
  }

  /** Of well-formed text the bytes delivered are the decomposed text in canonical order. */
  lemma NormalForm(t: Table, x: seq<byte>)
    requires TableOk(t) && ValidText(t, x, 0)
    ensures Expected(Flat(t, x, 0)) == Outcome(Bytes(Reorder(Flat(t, x, 0))), true)
    ensures Good(t, x, 0) && Clean(t, x, 0)
  {
    ValidIsGoodAndClean(t, x, 0);
    FlatGood(t, x, 0);
    ExpectedIsReorder(Flat(t, x, 0));
  }
}
