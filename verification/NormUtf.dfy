/**
  Text as code points: what the UTF-8 form of Unicode text (section 3.9 of The Unicode Standard)
  means to the lookups and positions of lib/nls_utf8.c.
 */
module NormUtf {
  import opened NormText
  import opened NormOrder
  import opened NormParse
  import Utf

  /** A code point other than NUL. */
  predicate Point(c: int) { 0 < c <= 0x10FFFF }

  predicate Points(cs: seq<int>) { forall i :: 0 <= i < |cs| ==> Point(cs[i]) }

  /** The UTF-8 form of a code point. */
  function Form(c: int): (x: seq<byte>)
    requires Point(c)
    ensures x != []
  {
    if c < 0x80 then [c]
    else if c < 0x800 then [0xC0 + c / 64, 0x80 + c % 64]
    else if c < 0x10000 then [0xE0 + c / 4096, 0x80 + c / 64 % 64, 0x80 + c % 64]
    else [0xF0 + c / 262144, 0x80 + c / 4096 % 64, 0x80 + c / 64 % 64, 0x80 + c % 64]
  }

  function Text(cs: seq<int>): seq<byte>
    requires Points(cs)
  {
    if cs == [] then [] else assert Point(cs[0]); Form(cs[0]) + Text(cs[1..])
  }

  /** The same form that conversion from UTF-16 gives; and what the three-byte helpers make of it. */
  lemma FormIsUtf8(c: int)
    requires Point(c)
    ensures Form(c) == Utf.ToUtf8(c)
    ensures 0x800 <= c < 0x10000 ==> Encode3(c) == Form(c) && |Form(c)| == 3 && Decode3(Form(c), 0) == c
  {
    if 0x800 <= c < 0x10000 { EncodeDecode3(c); }
  }

  /** Every code point is a whole character of as many bytes as its form has. */
  lemma FormIsWhole(c: int)
    requires 0 < c <= 0x10FFFF
    ensures WholeChar(Form(c), 0) && Next(Form(c), 0) == |Form(c)|
    ensures forall j :: 0 < j < |Form(c)| ==> Cont(Form(c)[j])
  {
  }

  /** Continuation bytes are those that begin with the bits 10. */
  lemma ContIs(b: byte)
    ensures Cont(b) <==> b / 64 == 2
  {
  }

  /**
    A syllable whose leaf says so stands for its leading consonant, its vowel and, if it has one, its trailing
    consonant (section 3.12 of The Unicode Standard); every other leaf is as the trie has it.
   */
  lemma SyllableIs(t: Table, x: seq<byte>, i: nat, s: nat)
    requires Point(s) && FormAt(x, i, s) && t.trie(x, i).Some? && |Form(s)| == 3
    ensures var l, n := t.trie(x, i).value, s - 0xAC00;
            Lookup(t, x, i) == Some(
              if l.ccc == 255 && l.str != [] && l.str[0] == 255 && 0 <= n <= 11171 then
                Leaf(t.hangulAge, 255, Form(0x1100 + n / 588) + Form(0x1161 + n % 588 / 28)
                                       + if n % 28 == 0 then [] else Form(0x11A7 + n % 28))
              else l)
  {
    hide Decode3, Encode3, Form;
    DecodedAt(x, i, s);
    if 0xAC00 <= s <= 0xD7A3 { JamoAre(x, i, s - 0xAC00); }
  }

  lemma DecodedAt(x: seq<byte>, i: nat, s: nat)
    requires Point(s) && FormAt(x, i, s) && |Form(s)| == 3
    ensures i + 3 <= |x| && Decode3(x, i) == s
  {
    var e := Form(s);
    assert x[i] == x[i + 0] == e[0] && x[i + 1] == e[1] && x[i + 2] == e[2];
    FormIsUtf8(s);
  }

  lemma JamoAre(x: seq<byte>, i: nat, n: nat)
    requires n <= 11171 && i + 3 <= |x| && Decode3(x, i) == 0xAC00 + n
    ensures Point(0x1100 + n / 588) && Point(0x1161 + n % 588 / 28) && Point(0x11A7 + n % 28)
    ensures IsSyllable(x, i)
    ensures HangulString(x, i) == Form(0x1100 + n / 588) + Form(0x1161 + n % 588 / 28)
                                  + if n % 28 == 0 then [] else Form(0x11A7 + n % 28)
  {
    HangulArithmetic(n);
    FormIsUtf8(0x1100 + n / 588);
    FormIsUtf8(0x1161 + n % 588 / 28);
    FormIsUtf8(0x11A7 + n % 28);
    hide Decode3, Encode3, Form;
  }

  /** From position i on, x is the form of a code point and then something else. */
  predicate FormAt(x: seq<byte>, i: nat, c: int)
    requires Point(c)
  {
    i + |Form(c)| <= |x| && forall k :: 0 <= k < |Form(c)| ==> x[i + k] == Form(c)[k]
  }

  lemma WholeAt(x: seq<byte>, i: nat, c: int)
    requires Point(c) && FormAt(x, i, c)
    ensures WholeChar(x, i) && Next(x, i) == i + |Form(c)|
  {
    FormIsWhole(c);
    var e := Form(c);
    assert x[i] == x[i + 0] == e[0];
    assert forall k :: 0 <= k < |e| ==> x[i + k] == e[k];
  }

  predicate TextAt(x: seq<byte>, i: nat, cs: seq<int>)
    requires Points(cs)
  {
    i + |Text(cs)| == |x| && forall k :: 0 <= k < |Text(cs)| ==> x[i + k] == Text(cs)[k]
  }

  lemma TextSplits(x: seq<byte>, i: nat, cs: seq<int>)
    requires Points(cs) && cs != [] && TextAt(x, i, cs)
    ensures Point(cs[0]) && Points(cs[1..]) && FormAt(x, i, cs[0]) && TextAt(x, i + |Form(cs[0])|, cs[1..])
  {
    var a, b := Form(cs[0]), Text(cs[1..]);
    assert Point(cs[0]);
    assert Text(cs) == a + b;
    forall k | 0 <= k < |a| ensures x[i + k] == a[k] { assert (a + b)[k] == a[k]; }
    forall k | 0 <= k < |b| ensures x[i + |a| + k] == b[k] {
      assert (a + b)[|a| + k] == b[k] && x[i + (|a| + k)] == (a + b)[|a| + k];
    }
  }

  /** What a code point stands for: itself, with its class, or its decomposition. */
  ghost function PointUnits(t: Table, c: int, l: Leaf): seq<Unit>
    requires Point(c)
  {
    if !Decomposes(t, l) then [Char(OwnClass(t, l), Form(c))]
    else if l.str == [] then [Char(STOPPER, [])]
    else DecompUnits(t, l.str, 0)
  }

  /** The characters of the text, code point by code point. */
  ghost function UnitsOf(t: Table, x: seq<byte>, i: nat, cs: seq<int>): seq<Unit>
    requires Points(cs)
    decreases |cs|
  {
    if cs == [] then []
    else
      var c := cs[0];
      (match Lookup(t, x, i) case None => [] case Some(l) => PointUnits(t, c, l))
      + UnitsOf(t, x, i + |Form(c)|, cs[1..])
  }

  lemma {:induction false} ValidFrom(t: Table, x: seq<byte>, i: nat, cs: seq<int>)
    requires Points(cs) && TextAt(x, i, cs)
    requires forall j: nat :: i <= j && Inside(x, j) ==> Known(t, x, j)
    requires forall k :: 0 <= k < i ==> x[k] != 0
    ensures ValidText(t, x, i) && Flat(t, x, i) == UnitsOf(t, x, i, cs)
    decreases |cs|
  {
    if cs != [] {
      TextSplits(x, i, cs);
      WholeAt(x, i, cs[0]);
      FormIsWhole(cs[0]);
      assert Inside(x, i);
      assert Known(t, x, i) && Look(t, x, i) == Lookup(t, x, i);
      var n := Next(x, i);
      assert x[i..n] == Form(cs[0]);
      forall k | 0 <= k < n ensures x[k] != 0 {
        if k >= i { assert x[i + (k - i)] == Form(cs[0])[k - i]; }
      }
      ValidFrom(t, x, n, cs[1..]);
    }
  }

  /**
    Text of code points that the table knows is well-formed and has no stray byte, so that all its bytes are
    delivered, decomposed and in canonical order; and its characters are those of its code points.
   */
  lemma TextIsValid(t: Table, cs: seq<int>)
    requires TableOk(t) && Points(cs) && AllKnown(t, Text(cs))
    ensures ValidText(t, Text(cs), 0) && Clean(t, Text(cs), 0) && !ContAt(Text(cs), 0)
    ensures forall j: nat :: !Stray(Text(cs), j)
    ensures Flat(t, Text(cs), 0) == UnitsOf(t, Text(cs), 0, cs)
  {
    var x := Text(cs);
    ValidFrom(t, x, 0, cs);
    ValidIsGoodAndClean(t, x, 0);
    assert Boundary(x, 0);
    ValidMeans(t, x, 0);
    if cs != [] {
      TextSplits(x, 0, cs);
      WholeAt(x, 0, cs[0]);
    }
  }
}
