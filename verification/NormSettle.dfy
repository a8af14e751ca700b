/**
  The exchanges of the Canonical Ordering Algorithm come to an end, whatever pairs are chosen
  (section 3.11 of The Unicode Standard).
 */
module NormSettle {
  import opened NormOrder

  /** The class of a mark, 0 for anything else. */
  function Height(u: Unit): nat { if Mark(u) then u.ccc else 0 }

  /** High classes far in front weigh most. */
  function Disorder(us: seq<Unit>): nat { if us == [] then 0 else |us| * Height(us[0]) + Disorder(us[1..]) }

  lemma {:induction false} ExchangeSettles(us: seq<Unit>, i: nat)
    requires Exchangeable(us, i)
    ensures Disorder(Exchange(us, i)) < Disorder(us)
  {
    var vs := Exchange(us, i);
    if i > 0 {
      assert vs[1..] == Exchange(us[1..], i - 1);
      ExchangeSettles(us[1..], i - 1);
    } else {
      assert us[1..][1..] == us[2..] == vs[2..] == vs[1..][1..];
      Weighs(|us|, us[0].ccc, us[1].ccc);
    }
  }

  lemma Weighs(n: nat, x: nat, y: nat)
    requires n >= 1 && x > y
    ensures n * y + (n - 1) * x < n * x + (n - 1) * y
  {
    assert n * x == (n - 1) * x + x && n * y == (n - 1) * y + y;
  }

  /** No run of exchanges is longer than the disorder it starts from. */
  lemma {:induction false} RunEnds(steps: seq<seq<Unit>>)
    requires ExchangeRun(steps)
    ensures |steps| + Disorder(steps[|steps| - 1]) <= 1 + Disorder(steps[0])
  {
    hide Disorder, Exchangeable, Exchange;
    if |steps| > 1 {
      var front := steps[..|steps| - 1];
      RunEnds(front);
      var k := |steps| - 2;
      assert ExchangeStep(steps[k], steps[k + 1]);
      var i: nat :| Exchangeable(steps[k], i) && steps[k + 1] == Exchange(steps[k], i);
      ExchangeSettles(steps[k], i);
    }
  }

  /** From every text some run of exchanges leads to its canonical order. */
  lemma {:induction false} Settles(us: seq<Unit>) returns (steps: seq<seq<Unit>>)
    ensures ExchangeRun(steps) && steps[0] == us && steps[|steps| - 1] == Reorder(us)
    decreases Disorder(us)
  {
    if Settled(us) {
      steps := [us];
      SettledIsOrdered(us);
    } else {
      hide Disorder, Reorder, Settled, Exchange;
      var i: nat :| i < |us| && Exchangeable(us, i);
      ExchangeSettles(us, i);
      ExchangeKeepsOrder(us, i);
      assert ExchangeStep(us, Exchange(us, i));
      steps := Settles(Exchange(us, i));
      steps := Prepended(us, steps);
    }
  }

  lemma Prepended(us: seq<Unit>, rest: seq<seq<Unit>>) returns (steps: seq<seq<Unit>>)
    requires ExchangeRun(rest) && ExchangeStep(us, rest[0])
    ensures ExchangeRun(steps) && steps == [us] + rest
  {
    hide ExchangeStep;
    steps := [us] + rest;
    forall k | 0 <= k < |steps| - 1 ensures ExchangeStep(steps[k], steps[k + 1]) {
      if k > 0 { assert ExchangeStep(rest[k - 1], rest[k - 1 + 1]); }
    }
  }
}
