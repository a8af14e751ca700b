/**
  Canonical ordering (section 3.11 of The Unicode Standard) on decomposed text.

  `Reorder` puts each maximal run of combining marks into order class by class.  The
  standard instead exchanges adjacent marks that are out of order until no such pair
  is left; the theorems here say that every such sequence of exchanges ends in
  `Reorder`.
 */
module NormOrder {
  import opened NormText

  /** A decomposed character with its class, or a place where lookup fails. */
  datatype Unit = Char(ccc: int, bytes: seq<byte>) | Bad

  /** A combining mark: neither a stopper nor a failure. */
  predicate Mark(u: Unit) { u.Char? && STOPPER < u.ccc <= MAXCCC }

  function CccOf(u: Unit): int { if u.Char? then u.ccc else -1 }

  predicate AllMarks(us: seq<Unit>) { forall i :: 0 <= i < |us| ==> Mark(us[i]) }

  predicate Ascending(us: seq<Unit>) {
    forall i, j :: 0 <= i < j < |us| ==> CccOf(us[i]) <= CccOf(us[j])
  }

  predicate UnitOk(u: Unit) { u.Char? ==> STOPPER <= u.ccc <= MAXCCC }

  /** Length of the run of marks that us starts with. */
  function RunLen(us: seq<Unit>): (n: nat)
    ensures n <= |us|
    ensures forall i :: 0 <= i < n ==> Mark(us[i])
    ensures n < |us| ==> !Mark(us[n])
  {
    if us == [] || !Mark(us[0]) then 0 else 1 + RunLen(us[1..])
  }

  /** The marks of class c, in order of appearance. */
  function Class(us: seq<Unit>, c: int): seq<Unit> {
    if us == [] then []
    else
      var n := |us| - 1;
      Class(us[..n], c) + (if Mark(us[n]) && us[n].ccc == c then [us[n]] else [])
  }

  /** The marks of class above c, by class and then in order of appearance. */
  function Above(us: seq<Unit>, c: int): seq<Unit>
    decreases MAXCCC - c
  {
    if c >= MAXCCC then [] else Class(us, c + 1) + Above(us, c + 1)
  }

  function Reorder(us: seq<Unit>): seq<Unit>
    decreases |us|
  {
    if us == [] then []
    else if !Mark(us[0]) then [us[0]] + Reorder(us[1..])
    else
      var n := RunLen(us);
      Above(us[..n], STOPPER) + Reorder(us[n..])
  }

  function Bytes(us: seq<Unit>): seq<byte> {
    if us == [] then [] else (if us[0].Char? then us[0].bytes else []) + Bytes(us[1..])
  }

  /** What repeated calls deliver: bytes, and then the end (ok) or a failure. */
  datatype Outcome = Outcome(bytes: seq<byte>, ok: bool)

  /** A failure is noticed before any mark of the run it ends is delivered. */
  function Expected(us: seq<Unit>): Outcome
    decreases |us|
  {
    if us == [] then Outcome([], true)
    else if us[0].Bad? then Outcome([], false)
    else if !Mark(us[0]) then
      var rest := Expected(us[1..]);
      Outcome(us[0].bytes + rest.bytes, rest.ok)
    else
      var n := RunLen(us);
      if n < |us| && us[n].Bad? then Outcome([], false)
      else
        var rest := Expected(us[n..]);
        Outcome(Bytes(Above(us[..n], STOPPER)) + rest.bytes, rest.ok)
  }

  // ---- sequences of units

  lemma {:induction false} BytesConcat(a: seq<Unit>, b: seq<Unit>)
    ensures Bytes(a + b) == Bytes(a) + Bytes(b)
  {
    if a == [] {
      assert a + b == b;
    } else {
      BytesConcat(a[1..], b);
      assert (a + b)[1..] == a[1..] + b;
    }
  }

  lemma {:induction false} ClassConcat(a: seq<Unit>, b: seq<Unit>, c: int)
    ensures Class(a + b, c) == Class(a, c) + Class(b, c)
  {
    if b == [] {
      assert a + b == a;
    } else {
      var n := |b| - 1;
      assert (a + b)[..|a + b| - 1] == a + b[..n];
      ClassConcat(a, b[..n], c);
    }
  }

  lemma {:induction false} ClassMembers(us: seq<Unit>, c: int)
    ensures forall i :: 0 <= i < |Class(us, c)| ==> Mark(Class(us, c)[i]) && Class(us, c)[i].ccc == c
    ensures (forall i :: 0 <= i < |us| ==> !(Mark(us[i]) && us[i].ccc == c)) ==> Class(us, c) == []
    ensures (forall i :: 0 <= i < |us| ==> Mark(us[i]) && us[i].ccc == c) ==> Class(us, c) == us
  {
    hide Class;
    ClassMarks(us, c);
    if forall i :: 0 <= i < |us| ==> !(Mark(us[i]) && us[i].ccc == c) { ClassNone(us, c); }
    if forall i :: 0 <= i < |us| ==> Mark(us[i]) && us[i].ccc == c { ClassAll(us, c); }
  }

  lemma {:induction false} ClassMarks(us: seq<Unit>, c: int)
    ensures forall i :: 0 <= i < |Class(us, c)| ==> Mark(Class(us, c)[i]) && Class(us, c)[i].ccc == c
  {
    if us != [] { ClassMarks(us[..|us| - 1], c); }
  }

  lemma {:induction false} ClassNone(us: seq<Unit>, c: int)
    requires forall i :: 0 <= i < |us| ==> !(Mark(us[i]) && us[i].ccc == c)
    ensures Class(us, c) == []
  {
    if us != [] { ClassNone(us[..|us| - 1], c); }
  }

  lemma {:induction false} ClassAll(us: seq<Unit>, c: int)
    requires forall i :: 0 <= i < |us| ==> Mark(us[i]) && us[i].ccc == c
    ensures Class(us, c) == us
  {
    if us != [] {
      ClassAll(us[..|us| - 1], c);
      assert us == us[..|us| - 1] + [us[|us| - 1]];
    }
  }

  /** Class by class, the order above c depends on the classes only. */
  lemma {:induction false} AboveByClass(a: seq<Unit>, b: seq<Unit>, c: int)
    requires forall d :: c < d <= MAXCCC ==> Class(a, d) == Class(b, d)
    ensures Above(a, c) == Above(b, c)
    decreases MAXCCC - c
  {
    if c < MAXCCC { AboveByClass(a, b, c + 1); }
  }

  /** Classes nobody has can be skipped. */
  lemma {:induction false} AboveSkip(us: seq<Unit>, c: int, d: int)
    requires c < d <= MAXCCC + 1
    requires forall i :: 0 <= i < |us| && Mark(us[i]) ==> !(c < us[i].ccc < d)
    ensures Above(us, c) == if d <= MAXCCC then Class(us, d) + Above(us, d) else []
    decreases d - c
  {
    if c + 1 < d {
      ClassMembers(us, c + 1);
      AboveSkip(us, c + 1, d);
    }
  }

  lemma AboveStep(us: seq<Unit>, c: int)
    ensures Above(us, c) == if c >= MAXCCC then [] else Class(us, c + 1) + Above(us, c + 1)
  {
  }

  predicate AllAbove(us: seq<Unit>, c: int) { forall i :: 0 <= i < |us| ==> CccOf(us[i]) > c }

  lemma {:induction false} AboveOrdered(us: seq<Unit>, c: int)
    requires STOPPER <= c
    ensures AllMarks(Above(us, c)) && Ascending(Above(us, c)) && AllAbove(Above(us, c), c)
    decreases MAXCCC - c
  {
    AboveStep(us, c);
    hide Above, Class;
    if c < MAXCCC {
      ClassMembers(us, c + 1);
      AboveOrdered(us, c + 1);
      JoinAscending(Class(us, c + 1), Above(us, c + 1), c + 1);
    }
  }

  lemma JoinAscending(a: seq<Unit>, b: seq<Unit>, c: int)
    requires AllMarks(a) && AllMarks(b) && Ascending(b) && AllAbove(b, c)
    requires forall i :: 0 <= i < |a| ==> CccOf(a[i]) == c
    ensures AllMarks(a + b) && Ascending(a + b) && AllAbove(a + b, c - 1)
  {
  }

  // ---- the exchange rule

  /** Adjacent marks in the wrong order: a reorderable pair. */
  predicate Exchangeable(us: seq<Unit>, i: int) {
    0 <= i < |us| - 1 && Mark(us[i]) && Mark(us[i + 1]) && us[i].ccc > us[i + 1].ccc
  }

  function Exchange(us: seq<Unit>, i: nat): seq<Unit>
    requires Exchangeable(us, i)
  {
    us[i := us[i + 1]][i + 1 := us[i]]
  }

  predicate Settled(us: seq<Unit>) {
    forall i :: 0 <= i < |us| ==> !Exchangeable(us, i)
  }

  lemma ClassSplice(a: seq<Unit>, x: Unit, y: Unit, b: seq<Unit>, c: int)
    ensures Class(a + [x] + [y] + b, c) == Class(a, c) + Class([x], c) + Class([y], c) + Class(b, c)
  {
    hide Class;
    ClassConcat(a + [x] + [y], b, c);
    ClassConcat(a + [x], [y], c);
    ClassConcat(a, [x], c);
  }

  lemma ExchangeClass(us: seq<Unit>, i: nat, c: int)
    requires Exchangeable(us, i)
    ensures Class(Exchange(us, i), c) == Class(us, c)
  {
    var a, b := us[..i], us[i + 2..];
    var x, y := us[i], us[i + 1];
    assert us == a + [x] + [y] + b;
    assert Exchange(us, i) == a + [y] + [x] + b;
    ClassSplice(a, x, y, b, c);
    ClassSplice(a, y, x, b, c);
    assert Class([x], c) + Class([y], c) == Class([y], c) + Class([x], c) by {
      ClassMembers([x], c);
      ClassMembers([y], c);
    }
    SwapMiddle(Class(a, c), Class([x], c), Class([y], c), Class(b, c));
  }

  lemma SwapMiddle(a: seq<Unit>, x: seq<Unit>, y: seq<Unit>, b: seq<Unit>)
    requires x + y == y + x
    ensures a + x + y + b == a + y + x + b
  {
    assert a + x + y == a + (x + y) && a + y + x == a + (y + x);
  }

  lemma {:induction false} RunLenIs(us: seq<Unit>, n: nat)
    requires n <= |us| && (forall i :: 0 <= i < n ==> Mark(us[i])) && (n < |us| ==> !Mark(us[n]))
    ensures RunLen(us) == n
  {
    if n > 0 { RunLenIs(us[1..], n - 1); }
  }

  /** Exchanging a reorderable pair does not change the final order. */
  lemma {:induction false} ExchangeKeepsOrder(us: seq<Unit>, i: nat)
    requires Exchangeable(us, i)
    ensures Reorder(Exchange(us, i)) == Reorder(us)
    decreases |us|
  {
    var vs := Exchange(us, i);
    if !Mark(us[0]) {
      assert vs[1..] == Exchange(us[1..], i - 1);
      ExchangeKeepsOrder(us[1..], i - 1);
    } else {
      var n := RunLen(us);
      RunLenIs(vs, n);
      if i < n - 1 {
        assert vs[..n] == Exchange(us[..n], i) && vs[n..] == us[n..];
        forall c | STOPPER < c <= MAXCCC ensures Class(vs[..n], c) == Class(us[..n], c) {
          ExchangeClass(us[..n], i, c);
        }
        AboveByClass(vs[..n], us[..n], STOPPER);
      } else {
        assert vs[..n] == us[..n] && vs[n..] == Exchange(us[n..], i - n);
        ExchangeKeepsOrder(us[n..], i - n);
      }
    }
  }

  lemma {:induction false} SettledSorted(us: seq<Unit>, i: nat, j: nat)
    requires Settled(us) && i <= j < |us| && AllMarks(us)
    ensures CccOf(us[i]) <= CccOf(us[j])
    decreases j - i
  {
    if i < j {
      SettledSorted(us, i, j - 1);
      assert !Exchangeable(us, j - 1);
    }
  }

  /** In a sorted run, class c + 1 is a slice. */
  lemma ClassSlice(us: seq<Unit>, c: int, k: nat, m: nat)
    requires k <= m <= |us| && AllMarks(us)
    requires forall i :: 0 <= i < k ==> CccOf(us[i]) != c
    requires forall i :: k <= i < m ==> CccOf(us[i]) == c
    requires forall i :: m <= i < |us| ==> CccOf(us[i]) != c
    ensures Class(us, c) == us[k..m]
  {
    hide Class;
    ClassNone(us[..k], c);
    ClassAll(us[k..m], c);
    ClassNone(us[m..], c);
    ThreeParts(us, k, m);
    ClassConcat(us[..k], us[k..m], c);
    ClassConcat(us[..k] + us[k..m], us[m..], c);
  }

  lemma ThreeParts(us: seq<Unit>, k: nat, m: nat)
    requires k <= m <= |us|
    ensures us == us[..k] + us[k..m] + us[m..]
  {
  }

  /** In a sorted run the marks above c are its tail. */
  lemma {:induction false} AboveSorted(us: seq<Unit>, c: int, k: nat)
    requires k <= |us| && AllMarks(us) && Ascending(us)
    requires forall i :: 0 <= i < k ==> CccOf(us[i]) <= c
    requires forall i :: k <= i < |us| ==> CccOf(us[i]) > c
    ensures Above(us, c) == us[k..]
    decreases MAXCCC - c
  {
    AboveStep(us, c);
    hide Above, Class;
    if c >= MAXCCC {
      assert k < |us| ==> Mark(us[k]);
    } else {
      var m := k;
      while m < |us| && CccOf(us[m]) == c + 1
        invariant k <= m <= |us|
        invariant forall i :: k <= i < m ==> CccOf(us[i]) == c + 1
      {
        m := m + 1;
      }
      AboveSorted(us, c + 1, m);
      ClassSlice(us, c + 1, k, m);
      assert us[k..] == us[k..m] + us[m..];
    }
  }

  lemma {:induction false} SettledIsOrdered(us: seq<Unit>)
    requires Settled(us)
    ensures Reorder(us) == us
    decreases |us|
  {
    if us == [] {
    } else if !Mark(us[0]) {
      TailSettled(us, 1);
      SettledIsOrdered(us[1..]);
    } else {
      var n := RunLen(us);
      TailSettled(us, n);
      SettledIsOrdered(us[n..]);
      SettledRun(us, n);
      assert us == us[..n] + us[n..];
    }
  }

  lemma SettledRun(us: seq<Unit>, n: nat)
    requires Settled(us) && n <= |us| && AllMarks(us[..n])
    ensures Above(us[..n], STOPPER) == us[..n]
  {
    hide Above;
    var run := us[..n];
    assert Settled(run) by {
      forall i | 0 <= i < |run| ensures !Exchangeable(run, i) { assert !Exchangeable(us, i); }
    }
    forall i, j | 0 <= i < j < |run| ensures CccOf(run[i]) <= CccOf(run[j]) { SettledSorted(run, i, j); }
    AboveSorted(run, STOPPER, 0);
    assert run[0..] == run;
  }

  lemma TailSettled(us: seq<Unit>, n: nat)
    requires Settled(us) && n <= |us|
    ensures Settled(us[n..])
  {
    forall i | 0 <= i < |us[n..]| ensures !Exchangeable(us[n..], i) { assert !Exchangeable(us, n + i); }
  }

  /** One exchange after another. */
  ghost predicate ExchangeStep(a: seq<Unit>, b: seq<Unit>) {
    exists i: nat :: Exchangeable(a, i) && b == Exchange(a, i)
  }

  ghost predicate ExchangeRun(steps: seq<seq<Unit>>) {
    && steps != []
    && forall k :: 0 <= k < |steps| - 1 ==> ExchangeStep(steps[k], steps[k + 1])
  }

  /**
    The Canonical Ordering Algorithm: however reorderable pairs are exchanged, once none
    is left the text is Reorder of what it was.
   */
  lemma {:induction false} CanonicalOrdering(steps: seq<seq<Unit>>)
    requires ExchangeRun(steps) && Settled(steps[|steps| - 1])
    ensures steps[|steps| - 1] == Reorder(steps[0])
  {
    if |steps| == 1 {
      SettledIsOrdered(steps[0]);
    } else {
      hide Exchangeable, Reorder, Settled, Exchange;
      var tail := steps[1..];
      assert forall k :: 0 <= k < |tail| ==> tail[k] == steps[k + 1];
      assert ExchangeRun(tail) by {
        forall k | 0 <= k < |tail| - 1 ensures ExchangeStep(tail[k], tail[k + 1]) {
          assert ExchangeStep(steps[k + 1], steps[k + 2]);
        }
      }
      CanonicalOrdering(tail);
      assert ExchangeStep(steps[0], steps[1]);
      var i: nat :| Exchangeable(steps[0], i) && steps[1] == Exchange(steps[0], i);
      ExchangeKeepsOrder(steps[0], i);
    }
  }

  // ---- Reorder is itself settled and a permutation

  lemma ClassInsert(us: seq<Unit>, u: Unit, c: int)
    ensures Class(us + [u], c) == Class(us, c) + (if Mark(u) && u.ccc == c then [u] else [])
  {
    assert (us + [u])[..|us|] == us;
  }

  lemma {:induction false} AboveInsert(us: seq<Unit>, u: Unit, c: int)
    requires STOPPER <= c && UnitOk(u)
    ensures multiset(Above(us + [u], c)) ==
            multiset(Above(us, c)) + (if Mark(u) && u.ccc > c then multiset{u} else multiset{})
    decreases MAXCCC - c
  {
    AboveStep(us, c);
    AboveStep(us + [u], c);
    hide Above, Class;
    if c < MAXCCC {
      AboveInsert(us, u, c + 1);
      ClassInsert(us, u, c + 1);
    }
  }

  lemma {:induction false} AbovePermutes(us: seq<Unit>)
    requires AllMarks(us)
    ensures multiset(Above(us, STOPPER)) == multiset(us)
  {
    if us == [] {
      AboveNothing(STOPPER);
    } else {
      var n := |us| - 1;
      assert us == us[..n] + [us[n]];
      AbovePermutes(us[..n]);
      AboveInsert(us[..n], us[n], STOPPER);
    }
  }

  lemma {:induction false} AboveNothing(c: int)
    ensures Above([], c) == []
    decreases MAXCCC - c
  {
    if c < MAXCCC { AboveNothing(c + 1); }
  }

  /** Reorder permutes the characters, keeps the first one if it is no mark, and is settled. */
  lemma {:induction false} ReorderIsCanonical(us: seq<Unit>)
    ensures multiset(Reorder(us)) == multiset(us)
    ensures |Reorder(us)| == |us|
    ensures us != [] && !Mark(us[0]) ==> Reorder(us)[0] == us[0]
    ensures Settled(Reorder(us))
    decreases |us|
  {
    ReorderStep(us);
    hide Above, Settled, Reorder;
    if us == [] {
      EmptySettled();
    } else if !Mark(us[0]) {
      SingleSettled(us[0]);
      ReorderIsCanonical(us[1..]);
      assert us == [us[0]] + us[1..];
      JoinSettled([us[0]], Reorder(us[1..]));
    } else {
      var n := RunLen(us);
      assert us == us[..n] + us[n..];
      ReorderIsCanonical(us[n..]);
      OrderedRun(us[..n]);
      JoinSettled(Above(us[..n], STOPPER), Reorder(us[n..]));
    }
  }

  lemma ReorderStep(us: seq<Unit>)
    ensures us == [] ==> Reorder(us) == []
    ensures us != [] && !Mark(us[0]) ==> Reorder(us) == [us[0]] + Reorder(us[1..])
    ensures us != [] && Mark(us[0]) ==> Reorder(us) == Above(us[..RunLen(us)], STOPPER) + Reorder(us[RunLen(us)..])
  {
  }

  lemma EmptySettled()
    ensures Settled([])
  {
  }

  lemma SingleSettled(u: Unit)
    ensures Settled([u])
  {
  }

  lemma OrderedRun(run: seq<Unit>)
    requires AllMarks(run)
    ensures multiset(Above(run, STOPPER)) == multiset(run) && |Above(run, STOPPER)| == |run|
    ensures Settled(Above(run, STOPPER))
  {
    AbovePermutes(run);
    AboveOrdered(run, STOPPER);
    assert |Above(run, STOPPER)| == |multiset(Above(run, STOPPER))|;
  }

  lemma JoinSettled(a: seq<Unit>, b: seq<Unit>)
    requires Settled(a) && Settled(b) && (a != [] && b != [] ==> !Mark(b[0]) || !Mark(a[|a| - 1]))
    ensures Settled(a + b)
  {
    forall i | 0 <= i < |a + b| ensures !Exchangeable(a + b, i) {
      if i < |a| - 1 {
        assert !Exchangeable(a, i);
      } else if i >= |a| {
        assert !Exchangeable(b, i - |a|);
      }
    }
  }

  /** Without failures, what is delivered is the text in canonical order. */
  lemma {:induction false} ExpectedIsReorder(us: seq<Unit>)
    requires forall i :: 0 <= i < |us| ==> us[i].Char?
    ensures Expected(us) == Outcome(Bytes(Reorder(us)), true)
    decreases |us|
  {
    if us == [] {
    } else if !Mark(us[0]) {
      ExpectedIsReorder(us[1..]);
      assert Reorder(us)[1..] == Reorder(us[1..]);
    } else {
      var n := RunLen(us);
      ExpectedIsReorder(us[n..]);
      BytesConcat(Above(us[..n], STOPPER), Reorder(us[n..]));
    }
  }

  /** A failure anywhere is delivered as one. */
  lemma {:induction false} ExpectedFails(us: seq<Unit>)
    requires exists i :: 0 <= i < |us| && us[i].Bad?
    ensures !Expected(us).ok
    decreases |us|
  {
    var i :| 0 <= i < |us| && us[i].Bad?;
    if us[0].Bad? {
    } else if !Mark(us[0]) {
      assert us[1..][i - 1].Bad?;
      ExpectedFails(us[1..]);
    } else {
      var n := RunLen(us);
      if !us[n].Bad? {
        assert us[n..][i - n].Bad?;
        ExpectedFails(us[n..]);
      }
    }
  }
}
