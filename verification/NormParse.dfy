/**
  Text as the cursor of lib/nls_utf8.c reads it: positions, the decomposed characters
  that lie ahead of a position, and how they change as the position moves.
 */
module NormParse {
  import opened NormText
  import opened NormOrder

  predicate EndAt(x: seq<byte>, i: nat) { i >= |x| || x[i] == 0 }

  predicate ContAt(x: seq<byte>, i: nat) { i < |x| && Cont(x[i]) }

  /** Lookup of a character that is present in full; for tables as they are, just Lookup. */
  function Look(t: Table, x: seq<byte>, i: nat): Option<Leaf> {
    if WholeChar(x, i) then Lookup(t, x, i) else None
  }

  /** Position after the character at i. */
  function Next(x: seq<byte>, i: nat): (j: nat)
    requires WholeChar(x, i)
    ensures i < j <= |x|
  {
    i + CharLen(x[i])
  }

  /** Does the character stand for its decomposition? */
  predicate Decomposes(t: Table, l: Leaf) { l.age <= t.maxage && l.ccc == DECOMPOSE }

  /** The class of a character that stands for itself; too new characters have class 0. */
  function OwnClass(t: Table, l: Leaf): int { if l.age > t.maxage then STOPPER else l.ccc }

  function DecompUnits(t: Table, y: seq<byte>, i: nat): seq<Unit>
    decreases |y| - i
  {
    if i >= |y| then []
    else if Cont(y[i]) then DecompUnits(t, y, i + 1)
    else match Look(t, y, i)
      case None => []
      case Some(l) => [Char(OwnClass(t, l), y[i..Next(y, i)])] + DecompUnits(t, y, Next(y, i))
  }

  function CharUnits(t: Table, x: seq<byte>, i: nat, l: Leaf): seq<Unit>
    requires WholeChar(x, i)
  {
    if !Decomposes(t, l) then [Char(OwnClass(t, l), x[i..Next(x, i)])]
    else if l.str == [] then [Char(STOPPER, [])]
    else DecompUnits(t, l.str, 0)
  }

  /** The decomposed characters of a text, up to its end or the first failed lookup. */
  function Flat(t: Table, x: seq<byte>, i: nat): seq<Unit>
    decreases |x| - i
  {
    if EndAt(x, i) then []
    else if Cont(x[i]) then Flat(t, x, i + 1)
    else match Look(t, x, i)
      case None => [Bad]
      case Some(l) => CharUnits(t, x, i, l) + Flat(t, x, Next(x, i))
  }

  /** No lookup fails as the text is walked character by character. */
  predicate Good(t: Table, x: seq<byte>, i: nat)
    decreases |x| - i
  {
    EndAt(x, i) || (if Cont(x[i]) then Good(t, x, i + 1) else Look(t, x, i).Some? && Good(t, x, Next(x, i)))
  }

  /** No continuation byte stands where a character should start. */
  predicate Clean(t: Table, x: seq<byte>, i: nat)
    decreases |x| - i
  {
    EndAt(x, i) || (!Cont(x[i]) && (Look(t, x, i).Some? ==> Clean(t, x, Next(x, i))))
  }

  /** Well-formed text of known characters. */
  predicate ValidText(t: Table, x: seq<byte>, i: nat)
    decreases |x| - i
  {
    EndAt(x, i) || (!Cont(x[i]) && Look(t, x, i).Some? && ValidText(t, x, Next(x, i)))
  }

  lemma {:induction false} ValidIsGoodAndClean(t: Table, x: seq<byte>, i: nat)
    ensures ValidText(t, x, i) <==> Good(t, x, i) && Clean(t, x, i)
    decreases |x| - i
  {
    if !EndAt(x, i) && !Cont(x[i]) && Look(t, x, i).Some? {
      ValidIsGoodAndClean(t, x, Next(x, i));
    }
  }

  /** Position j lies in the text, before any NUL. */
  ghost predicate Inside(x: seq<byte>, j: nat) { j < |x| && forall k :: 0 <= k <= j ==> x[k] != 0 }

  /** The byte at j that is no continuation byte starts a character that the table knows. */
  predicate Known(t: Table, x: seq<byte>, j: nat) { ContAt(x, j) || Lookup(t, x, j).Some? }

  /** Every byte that is no continuation byte starts a known character. */
  ghost predicate AllKnown(t: Table, x: seq<byte>) { forall j: nat :: Inside(x, j) ==> Known(t, x, j) }

  /** The bytes before i are free of NULs and of characters that reach behind i. */
  ghost predicate Boundary(x: seq<byte>, i: nat) {
    && i <= |x| && (forall k :: 0 <= k < i ==> x[k] != 0)
    && forall k: nat :: k < i && WholeChar(x, k) ==> Next(x, k) <= i
  }

  /** A continuation byte that belongs to no character. */
  ghost predicate Stray(x: seq<byte>, j: nat) {
    Inside(x, j) && Cont(x[j]) && forall k: nat :: k < j && WholeChar(x, k) ==> Next(x, k) <= j
  }

  lemma BoundaryNext(x: seq<byte>, i: nat)
    requires Boundary(x, i) && WholeChar(x, i)
    ensures Boundary(x, Next(x, i)) && forall j: nat :: i < j < Next(x, i) ==> Cont(x[j]) && !Stray(x, j)
    ensures Inside(x, i)
  {
  }

  /**
    No lookup fails on the way from a boundary on exactly when every byte from there on that is to start a
    character does.
   */
  lemma {:induction false} GoodMeans(t: Table, x: seq<byte>, i: nat)
    requires TableOk(t) && Boundary(x, i)
    ensures Good(t, x, i) <==> forall j: nat :: i <= j && Inside(x, j) ==> Known(t, x, j)
    decreases |x| - i
  {
    hide TableOk;
    if !EndAt(x, i) {
      assert Inside(x, i);
      if Cont(x[i]) {
        GoodMeans(t, x, i + 1);
      } else {
        KnownLook(t, x, i);
        if Look(t, x, i).Some? {
          BoundaryNext(x, i);
          GoodMeans(t, x, Next(x, i));
        }
      }
    }
  }

  lemma KnownLook(t: Table, x: seq<byte>, i: nat)
    requires TableOk(t) && i < |x| && x[i] != 0 && !Cont(x[i])
    ensures Known(t, x, i) <==> Look(t, x, i).Some?
  {
    if Lookup(t, x, i).Some? { LookupDecomposes(t, x, i); }
  }

  /** A text is well-formed from a boundary on exactly when no lookup fails and no byte is stray. */
  lemma {:induction false} ValidMeans(t: Table, x: seq<byte>, i: nat)
    requires Boundary(x, i)
    ensures ValidText(t, x, i) <==> Good(t, x, i) && forall j: nat :: i <= j ==> !Stray(x, j)
    decreases |x| - i
  {
    if !EndAt(x, i) {
      assert Inside(x, i);
      if Cont(x[i]) {
        assert Stray(x, i);
      } else if Look(t, x, i).Some? {
        BoundaryNext(x, i);
        ValidMeans(t, x, Next(x, i));
        assert !Stray(x, i);
      }
    }
  }

  /** Bytes still to be looked at, counting decompositions to come. */
  function Weight(t: Table, x: seq<byte>, i: nat): nat
    decreases |x| - i
  {
    if EndAt(x, i) then 0
    else if Cont(x[i]) then 1 + Weight(t, x, i + 1)
    else match Look(t, x, i)
      case None => 1
      case Some(l) => (if Decomposes(t, l) then 1 + |l.str| else CharLen(x[i])) + Weight(t, x, Next(x, i))
  }

  /** Position after the continuation bytes at i, and those bytes. */
  function Skip(x: seq<byte>, i: nat): (j: nat)
    requires i <= |x|
    ensures i <= j <= |x|
    decreases |x| - i
  {
    if ContAt(x, i) then Skip(x, i + 1) else i
  }

  function Conts(x: seq<byte>, i: nat): seq<byte>
    requires i <= |x|
  {
    x[i..Skip(x, i)]
  }

  /** Every function of the text walks over the continuation bytes of a character. */
  lemma WalkOne(t: Table, x: seq<byte>, i: nat)
    requires ContAt(x, i)
    ensures Flat(t, x, i) == Flat(t, x, i + 1)
    ensures Good(t, x, i) == Good(t, x, i + 1)
    ensures Weight(t, x, i) == 1 + Weight(t, x, i + 1)
    ensures DecompUnits(t, x, i) == DecompUnits(t, x, i + 1)
    ensures Skip(x, i) == Skip(x, i + 1)
    ensures Conts(x, i) == [x[i]] + Conts(x, i + 1)
  {
    assert x[i..Skip(x, i)] == [x[i]] + x[i + 1..Skip(x, i)];
  }

  lemma {:induction false} Walk(t: Table, x: seq<byte>, i: nat, j: nat)
    requires i <= j <= |x| && forall k :: i <= k < j ==> Cont(x[k])
    ensures Flat(t, x, i) == Flat(t, x, j)
    ensures Good(t, x, i) == Good(t, x, j)
    ensures Weight(t, x, i) == j - i + Weight(t, x, j)
    ensures DecompUnits(t, x, i) == DecompUnits(t, x, j)
    ensures Skip(x, i) == Skip(x, j)
    decreases j - i
  {
    hide Flat, Good, Weight, DecompUnits, Skip, Conts;
    if i < j {
      WalkOne(t, x, i);
      Walk(t, x, i + 1, j);
    }
  }

  /** ... so the byte after the first one is as good a place as the next character. */
  lemma WalkTail(t: Table, x: seq<byte>, i: nat)
    requires WholeChar(x, i)
    ensures Flat(t, x, i + 1) == Flat(t, x, Next(x, i))
    ensures Good(t, x, i + 1) == Good(t, x, Next(x, i))
    ensures Weight(t, x, i + 1) == CharLen(x[i]) - 1 + Weight(t, x, Next(x, i))
    ensures DecompUnits(t, x, i + 1) == DecompUnits(t, x, Next(x, i))
    ensures Skip(x, i + 1) == Skip(x, Next(x, i))
  {
    hide Flat, Good, Weight, DecompUnits, Skip;
    forall k | i + 1 <= k < Next(x, i) ensures Cont(x[k]) {
      assert k == i + 1 || k == i + 2 || k == i + 3;
    }
    Walk(t, x, i + 1, Next(x, i));
  }

  /** The recursive functions of the text at a whole character whose lookup succeeds. */
  lemma CharStep(t: Table, x: seq<byte>, i: nat, l: Leaf)
    requires WholeChar(x, i) && Look(t, x, i) == Some(l)
    ensures Flat(t, x, i) == CharUnits(t, x, i, l) + Flat(t, x, Next(x, i))
    ensures Good(t, x, i) == Good(t, x, Next(x, i))
    ensures Weight(t, x, i) == (if Decomposes(t, l) then 1 + |l.str| else CharLen(x[i])) + Weight(t, x, Next(x, i))
    ensures Clean(t, x, i) == Clean(t, x, Next(x, i))
    ensures DecompUnits(t, x, i) == [Char(OwnClass(t, l), x[i..Next(x, i)])] + DecompUnits(t, x, Next(x, i))
    ensures Skip(x, i) == i
  {
  }

  lemma CleanStart(t: Table, x: seq<byte>, i: nat)
    requires Clean(t, x, i) && i <= |x|
    ensures Skip(x, i) == i && !ContAt(x, i)
  {
  }

  lemma DecomposedStart(t: Table, y: seq<byte>, i: nat)
    requires FullyDecomposed(t, y, i) && i <= |y|
    ensures Skip(y, i) == i
    ensures i < |y| ==>
              && WholeChar(y, i) && Look(t, y, i).Some? && FullyDecomposed(t, y, Next(y, i))
              && !Decomposes(t, Look(t, y, i).value) && OwnClass(t, Look(t, y, i).value) == Look(t, y, i).value.ccc
              && STOPPER <= Look(t, y, i).value.ccc <= MAXCCC
  {
  }

  // ---- positions

  /**
    The pointers of the cursor: while p is negative (NULL), s points into the input;
    otherwise s points into a decomposition and p is where the input resumes.
   */
  datatype Pos = Pos(p: int, s: nat, buf: seq<byte>)

  predicate InRange(x: seq<byte>, q: Pos) {
    if q.p < 0 then q.s <= |x| else q.p <= |x| && q.s <= |q.buf|
  }

  /** The string s points into. */
  function Str(x: seq<byte>, q: Pos): seq<byte> { if q.p < 0 then x else q.buf }

  /** Where the input goes on. */
  function Raw(q: Pos): nat { if q.p < 0 then q.s else q.p }

  function Rest(t: Table, x: seq<byte>, q: Pos): seq<Unit> {
    (if q.p < 0 then [] else DecompUnits(t, q.buf, q.s)) + Flat(t, x, Raw(q))
  }

  function Size(t: Table, x: seq<byte>, q: Pos): nat {
    (if q.p < 0 || q.s > |q.buf| then 0 else |q.buf| - q.s) + Weight(t, x, Raw(q))
  }

  /** A reachable position: the rest of the input and of the decomposition are sound. */
  ghost predicate PosOk(t: Table, x: seq<byte>, q: Pos, good: bool) {
    && InRange(x, q)
    && Good(t, x, Raw(q)) == good
    && (q.p >= 0 ==> FullyDecomposed(t, q.buf, Skip(q.buf, q.s)))
  }

  ghost predicate PosClean(t: Table, x: seq<byte>, q: Pos) {
    InRange(x, q) && Clean(t, x, if q.p < 0 then Skip(x, q.s) else q.p)
  }

  /** Bytes of a character already begun. */
  function Begun(x: seq<byte>, q: Pos): seq<byte>
    requires InRange(x, q)
  {
    Conts(Str(x, q), q.s)
  }

  function MovedTo(q: Pos, s: nat): Pos { q.(s := s) }

  /** The end of a decomposition: back to the input. */
  lemma PopStep(t: Table, x: seq<byte>, q: Pos, good: bool)
    requires PosOk(t, x, q, good) && q.p >= 0 && q.s == |q.buf|
    ensures var r := Pos(-1, q.p, []);
            && PosOk(t, x, r, good)
            && Rest(t, x, r) == Rest(t, x, q) && Size(t, x, r) == Size(t, x, q)
            && Begun(x, q) == []
            && (PosClean(t, x, q) ==> PosClean(t, x, r) && Begun(x, r) == [])
  {
    assert DecompUnits(t, q.buf, q.s) == [];
    hide Flat, Good, Weight, Clean, FullyDecomposed, DecompUnits;
    if PosClean(t, x, q) { CleanStart(t, x, q.p); }
  }

  /** A continuation byte is passed over. */
  lemma ContStep(t: Table, x: seq<byte>, q: Pos, good: bool)
    requires PosOk(t, x, q, good) && ContAt(Str(x, q), q.s)
    ensures var r := MovedTo(q, q.s + 1);
            && PosOk(t, x, r, good)
            && Rest(t, x, r) == Rest(t, x, q) && Size(t, x, r) == Size(t, x, q) - 1
            && Begun(x, q) == [Str(x, q)[q.s]] + Begun(x, r)
            && (PosClean(t, x, q) ==> PosClean(t, x, r))
  {
    hide Flat, Good, Weight, Clean, FullyDecomposed, DecompUnits, Skip;
    WalkOne(t, Str(x, q), q.s);
  }

  /** A character that stands for itself, at a position. */
  ghost predicate AtChar(t: Table, x: seq<byte>, q: Pos, c: int) {
    && InRange(x, q)
    && WholeChar(Str(x, q), q.s)
    && Look(t, Str(x, q), q.s).Some?
    && !Decomposes(t, Look(t, Str(x, q), q.s).value)
    && c == OwnClass(t, Look(t, Str(x, q), q.s).value)
  }

  function CharAt(x: seq<byte>, q: Pos): seq<byte>
    requires WholeChar(Str(x, q), q.s)
  {
    Str(x, q)[q.s..Next(Str(x, q), q.s)]
  }

  function After(x: seq<byte>, q: Pos): Pos
    requires WholeChar(Str(x, q), q.s)
  {
    MovedTo(q, Next(Str(x, q), q.s))
  }

  lemma AtCharPos(t: Table, x: seq<byte>, q: Pos, c: int, good: bool)
    requires TableOk(t) && PosOk(t, x, q, good) && AtChar(t, x, q, c)
    ensures PosOk(t, x, After(x, q), good)
    ensures Size(t, x, After(x, q)) == Size(t, x, q) - CharLen(Str(x, q)[q.s])
    ensures Begun(x, q) == [] && STOPPER <= c <= MAXCCC
    ensures PosClean(t, x, q) ==> PosClean(t, x, After(x, q)) && Begun(x, After(x, q)) == []
  {
    var y, l := Str(x, q), Look(t, Str(x, q), q.s).value;
    LookupDecomposes(t, y, q.s);
    hide TableOk, Flat, Good, Weight, Clean, DecompUnits, FullyDecomposed, Skip;
    CharStep(t, y, q.s, l);
    if q.p >= 0 {
      DecomposedStart(t, y, q.s);
      DecomposedStart(t, y, Next(y, q.s));
    } else if PosClean(t, x, q) {
      CleanStart(t, y, Next(y, q.s));
    }
  }

  lemma AtCharUnit(t: Table, x: seq<byte>, q: Pos, c: int)
    requires AtChar(t, x, q, c)
    ensures Rest(t, x, q) == [Char(c, CharAt(x, q))] + Rest(t, x, After(x, q))
  {
    var y, l := Str(x, q), Look(t, Str(x, q), q.s).value;
    hide Flat, Good, Weight, Clean, DecompUnits, FullyDecomposed, Skip;
    CharStep(t, y, q.s, l);
    var u := [Char(c, CharAt(x, q))];
    if q.p >= 0 {
      Regroup(u, DecompUnits(t, y, Next(y, q.s)), Flat(t, x, q.p));
    } else {
      Regroup([], u, Flat(t, x, Next(y, q.s)));
    }
  }

  lemma Regroup(a: seq<Unit>, b: seq<Unit>, c: seq<Unit>)
    ensures (a + b) + c == a + (b + c)
    ensures [] + c == c
  {
  }

  /** Delivering the first byte of a character leaves its other bytes to come. */
  lemma FirstByte(t: Table, x: seq<byte>, q: Pos, c: int, good: bool)
    requires TableOk(t) && PosOk(t, x, q, good) && AtChar(t, x, q, c)
    ensures var r := MovedTo(q, q.s + 1);
            && PosOk(t, x, r, good)
            && Size(t, x, r) == Size(t, x, q) - 1
            && Rest(t, x, r) == Rest(t, x, After(x, q))
    ensures PosClean(t, x, q) ==>
              PosClean(t, x, MovedTo(q, q.s + 1)) && CharAt(x, q) == [Str(x, q)[q.s]] + Begun(x, MovedTo(q, q.s + 1))
  {
    AtCharPos(t, x, q, c, good);
    hide TableOk, Flat, Good, Weight, Clean, DecompUnits, FullyDecomposed, Skip;
    var y := Str(x, q);
    WalkTail(t, y, q.s);
    if PosClean(t, x, q) {
      BegunNowhere(x, After(x, q));
      SplitFirst(y, q.s, Next(y, q.s));
    }
  }

  lemma BegunNowhere(x: seq<byte>, q: Pos)
    requires InRange(x, q) && Begun(x, q) == []
    ensures Skip(Str(x, q), q.s) == q.s
  {
  }

  lemma SplitFirst(y: seq<byte>, i: nat, j: nat)
    requires i < j <= |y|
    ensures y[i..j] == [y[i]] + y[i + 1..j]
  {
  }

  /** Entering the decomposition of a character. */
  function Entered(x: seq<byte>, q: Pos, l: Leaf): Pos
    requires WholeChar(x, q.s)
  {
    Pos(Next(x, q.s), 0, l.str)
  }

  lemma EnterStep(t: Table, x: seq<byte>, q: Pos, l: Leaf, good: bool)
    requires TableOk(t) && PosOk(t, x, q, good) && q.p < 0 && WholeChar(x, q.s)
    requires Look(t, x, q.s) == Some(l) && Decomposes(t, l)
    ensures var r := Entered(x, q, l);
            && PosOk(t, x, r, good)
            && Size(t, x, r) == Size(t, x, q) - 1
            && Rest(t, x, q) == (if l.str == [] then [Char(STOPPER, [])] else []) + Rest(t, x, r)
            && Begun(x, q) == [] && Begun(x, r) == []
            && (PosClean(t, x, q) ==> PosClean(t, x, r))
            && (l.str != [] ==> Look(t, l.str, 0).Some? && AtChar(t, x, r, Look(t, l.str, 0).value.ccc))
  {
    LookupDecomposes(t, x, q.s);
    assert l.str == [] ==> DecompUnits(t, l.str, 0) == [];
    hide TableOk, Flat, Good, Weight, Clean, DecompUnits, FullyDecomposed, Skip;
    CharStep(t, x, q.s, l);
    DecomposedStart(t, l.str, 0);
    Regroup([], DecompUnits(t, l.str, 0), Flat(t, x, Next(x, q.s)));
    Regroup([], [], CharUnits(t, x, q.s, l) + Flat(t, x, Next(x, q.s)));
  }

  // ---- failures

  predicate AllChars(us: seq<Unit>) { forall i :: 0 <= i < |us| ==> us[i].Char? }

  lemma AllCharsConcat(a: seq<Unit>, b: seq<Unit>)
    ensures AllChars(a + b) <==> AllChars(a) && AllChars(b)
  {
    if AllChars(a + b) {
      forall i | 0 <= i < |a| ensures a[i].Char? { assert (a + b)[i].Char?; }
      forall i | 0 <= i < |b| ensures b[i].Char? { assert (a + b)[|a| + i].Char?; }
    }
  }

  lemma {:induction false} DecompChars(t: Table, y: seq<byte>, i: nat)
    requires FullyDecomposed(t, y, i) && i <= |y|
    ensures AllChars(DecompUnits(t, y, i))
    decreases |y| - i
  {
    if i < |y| {
      DecomposedStart(t, y, i);
      CharStep(t, y, i, Look(t, y, i).value);
      hide DecompUnits, FullyDecomposed;
      DecompChars(t, y, Next(y, i));
    }
  }

  /** Failures among the units are failed lookups. */
  lemma {:induction false} FlatGood(t: Table, x: seq<byte>, i: nat)
    requires TableOk(t)
    ensures Good(t, x, i) <==> AllChars(Flat(t, x, i))
    decreases |x| - i
  {
    if EndAt(x, i) {
    } else if Cont(x[i]) {
      FlatGood(t, x, i + 1);
    } else if Look(t, x, i).Some? {
      var l := Look(t, x, i).value;
      LookupDecomposes(t, x, i);
      CharStep(t, x, i, l);
      hide TableOk, Flat, Good, DecompUnits, FullyDecomposed;
      if Decomposes(t, l) { DecompChars(t, l.str, 0); }
      FlatGood(t, x, Next(x, i));
      AllCharsConcat(CharUnits(t, x, i, l), Flat(t, x, Next(x, i)));
    } else {
      assert Flat(t, x, i)[0].Bad?;
    }
  }
}
