/**
  Bytes, UTF-8 characters and the character table of lib/nls_utf8.c.

  The trie itself is data (utf8data.h is not part of this model): a table is a lookup
  function together with the facts the comment at lib/nls_utf8.c:245-274 states.
 */
module NormText {
  type byte = x: int | 0 <= x < 256

  datatype Option<T> = None | Some(value: T)

  const STOPPER: int := 0
  const MAXCCC: int := 254
  const DECOMPOSE: int := 255
  const HANGUL: byte := 255

  /** Is this byte a continuation (10xxxxxx)? */
  predicate Cont(b: byte) { 0x80 <= b < 0xC0 }

  /** utf8clen */
  function CharLen(b: byte): nat {
    1 + (if b >= 0xC0 then 1 else 0) + (if b >= 0xE0 then 1 else 0) + (if b >= 0xF0 then 1 else 0)
  }

  // ---- Hangul syllables, section 3.12 of The Unicode Standard

  const SB: nat := 0xAC00
  const LB: nat := 0x1100
  const VB: nat := 0x1161
  const TB: nat := 0x11A7
  const LC: nat := 19
  const VC: nat := 21
  const TC: nat := 28
  const NC: nat := 588
  const SC: nat := 11172

  /** utf8decode3 of the three bytes at position i */
  function Decode3(x: seq<byte>, i: nat): nat
    requires i + 3 <= |x|
  {
    (x[i] as int) % 16 * 4096 + (x[i + 1] as int) % 64 * 64 + (x[i + 2] as int) % 64
  }

  /** utf8encode3, for the 16-bit values it is used on */
  function Encode3(val: nat): (x: seq<byte>)
    requires val < 0x1_0000
    ensures |x| == 3
  {
    [0xE0 + val / 4096, 0x80 + val / 64 % 64, 0x80 + val % 64]
  }

  lemma EncodeDecode3(val: nat)
    requires val < 0x1_0000
    ensures Decode3(Encode3(val), 0) == val
    ensures !Cont(Encode3(val)[0]) && Cont(Encode3(val)[1]) && Cont(Encode3(val)[2])
    ensures CharLen(Encode3(val)[0]) == 3 && Encode3(val)[0] != 0
  {
    assert (0xE0 + val / 4096) % 16 == val / 4096;
    assert (0x80 + val / 64 % 64) % 64 == val / 64 % 64;
    assert (0x80 + val % 64) % 64 == val % 64;
    assert val / 4096 * 64 + val / 64 % 64 == val / 64;
  }

  /** The decomposition utf8hangul synthesises for the syllable at position i. */
  function HangulString(x: seq<byte>, i: nat): seq<byte>
    requires IsSyllable(x, i)
  {
    var si := Decode3(x, i) - SB;
    Encode3(si / NC + LB) + Encode3(si % NC / TC + VB) + (if si % TC != 0 then Encode3(si % TC + TB) else [])
  }

  predicate IsSyllable(x: seq<byte>, i: nat) {
    i + 3 <= |x| && SB <= Decode3(x, i) < SB + SC
  }

  /**
    The synthesised string spells the leading consonant, the vowel and, if the syllable
    has one, the trailing consonant; and the three parts determine the syllable.
   */
  lemma HangulParts(x: seq<byte>, i: nat)
    requires IsSyllable(x, i)
    ensures var h := HangulString(x, i);
            && (|h| == 6 || |h| == 9)
            && LB <= Decode3(h, 0) < LB + LC
            && VB <= Decode3(h, 3) < VB + VC
            && (|h| == 9 ==> TB < Decode3(h, 6) < TB + TC)
            && Decode3(x, i) == SB + ((Decode3(h, 0) - LB) * VC + (Decode3(h, 3) - VB)) * TC
                                + (if |h| == 9 then Decode3(h, 6) - TB else 0)
  {
    hide Decode3, Encode3;
    var si := Decode3(x, i) - SB;
    HangulArithmetic(si);
    var h := HangulString(x, i);
    Decode3At(si / NC + LB, h, 0);
    Decode3At(si % NC / TC + VB, h, 3);
    if si % TC != 0 {
      Decode3At(si % TC + TB, h, 6);
    }
  }

  lemma HangulArithmetic(si: nat)
    requires si < SC
    ensures si == (si / NC * VC + si % NC / TC) * TC + si % TC
    ensures si / NC < LC && si % NC / TC < VC && si % TC < TC
  {
    var li, vi := si / NC, si % NC / TC;
    assert si == li * NC + si % NC && si % NC == vi * TC + si % NC % TC;
    assert si == (li * VC + vi) * TC + si % NC % TC;
    assert si % TC == si % NC % TC;
  }

  lemma Decode3At(val: nat, h: seq<byte>, i: nat)
    requires val < 0x1_0000 && i + 3 <= |h| && h[i..i + 3] == Encode3(val)
    ensures Decode3(h, i) == val
  {
    EncodeDecode3(val);
    assert h[i] == h[i..i + 3][0] && h[i + 1] == h[i..i + 3][1] && h[i + 2] == h[i..i + 3][2];
  }

  // ---- the table

  /** A leaf: the age of the character, its class or 255, and then its decomposition. */
  datatype Leaf = Leaf(age: nat, ccc: int, str: seq<byte>)

  /** `trie` maps a text and a position in it to the leaf of the character there. */
  datatype Table = Table(trie: (seq<byte>, nat) -> Option<Leaf>, maxage: nat, hangulAge: nat)

  predicate IsHangulLeaf(l: Leaf) {
    l.ccc == DECOMPOSE && l.str != [] && l.str[0] == HANGUL
  }

  /** utf8nlookup: the trie's leaf, with Hangul decompositions synthesised. */
  function Lookup(t: Table, x: seq<byte>, i: nat): Option<Leaf> {
    match t.trie(x, i)
    case None => None
    case Some(l) =>
      if IsHangulLeaf(l) && IsSyllable(x, i) then Some(Leaf(t.hangulAge, DECOMPOSE, HangulString(x, i))) else Some(l)
  }

  /** The character at position i is present in full. */
  predicate WholeChar(x: seq<byte>, i: nat) {
    && i < |x| && x[i] != 0 && !Cont(x[i]) && i + CharLen(x[i]) <= |x|
    && (CharLen(x[i]) >= 2 ==> Cont(x[i + 1]))
    && (CharLen(x[i]) >= 3 ==> Cont(x[i + 2]))
    && (CharLen(x[i]) >= 4 ==> Cont(x[i + 3]))
  }

  /** Text of characters that stand for themselves: a full decomposition. */
  ghost predicate FullyDecomposed(t: Table, y: seq<byte>, i: nat)
    decreases |y| - i
  {
    i >= |y| || (
      && WholeChar(y, i)
      && Lookup(t, y, i).Some? && 0 <= Lookup(t, y, i).value.ccc <= MAXCCC && Lookup(t, y, i).value.age <= t.maxage
      && FullyDecomposed(t, y, i + CharLen(y[i])))
  }

  /** The modern conjoining jamo: leading consonants, vowels and trailing consonants. */
  predicate IsJamo(val: nat) {
    LB <= val < LB + LC || VB <= val < VB + VC || TB < val < TB + TC
  }

  ghost predicate StandsForItself(t: Table, y: seq<byte>, i: nat) {
    t.trie(y, i).Some? && t.trie(y, i).value.ccc == STOPPER && t.trie(y, i).value.age <= t.maxage
  }

  /** The facts about the trie: leaves exist for whole characters only, and so on. */
  ghost predicate TableOk(t: Table) {
    && (forall x, i: nat {:trigger t.trie(x, i)} :: t.trie(x, i).Some? && i < |x| && x[i] != 0 ==> WholeChar(x, i))
    && (forall x, i: nat {:trigger t.trie(x, i)} :: t.trie(x, i).Some? ==> 0 <= t.trie(x, i).value.ccc <= DECOMPOSE)
    && (forall x, i: nat {:trigger t.trie(x, i)} :: t.trie(x, i).Some? && t.trie(x, i).value.ccc == DECOMPOSE ==>
          if IsHangulLeaf(t.trie(x, i).value) then IsSyllable(x, i) else FullyDecomposed(t, t.trie(x, i).value.str, 0))
    && (forall y, i: nat {:trigger t.trie(y, i)} ::
          i + 3 <= |y| && WholeChar(y, i) && CharLen(y[i]) == 3 && IsJamo(Decode3(y, i)) ==> StandsForItself(t, y, i))
  }

  /** A jamo in front of a fully decomposed rest. */
  lemma JamoStep(t: Table, y: seq<byte>, i: nat, val: nat)
    requires TableOk(t) && i + 3 <= |y| && val < 0x1_0000 && y[i..i + 3] == Encode3(val) && IsJamo(val)
    requires FullyDecomposed(t, y, i + 3)
    ensures FullyDecomposed(t, y, i)
  {
    Decode3At(val, y, i);
    EncodeDecode3(val);
    assert y[i] == y[i..i + 3][0] && y[i + 1] == y[i..i + 3][1] && y[i + 2] == y[i..i + 3][2];
    assert WholeChar(y, i);
    assert StandsForItself(t, y, i) by { var leaf := t.trie(y, i); }
    assert Lookup(t, y, i) == t.trie(y, i);
  }

  lemma HangulDecomposes(t: Table, x: seq<byte>, i: nat)
    requires TableOk(t) && IsSyllable(x, i)
    ensures FullyDecomposed(t, HangulString(x, i), 0)
  {
    hide TableOk, Decode3, Encode3;
    var si := Decode3(x, i) - SB;
    HangulArithmetic(si);
    var h := HangulString(x, i);
    if si % TC != 0 {
      JamoStep(t, h, 6, si % TC + TB);
    }
    JamoStep(t, h, 3, si % NC / TC + VB);
    JamoStep(t, h, 0, si / NC + LB);
  }

  /** Whatever the lookup decomposes a character into needs no further decomposition. */
  lemma LookupDecomposes(t: Table, x: seq<byte>, i: nat)
    requires TableOk(t) && Lookup(t, x, i).Some? && i < |x| && x[i] != 0
    ensures WholeChar(x, i) && 0 <= Lookup(t, x, i).value.ccc <= DECOMPOSE
    ensures Lookup(t, x, i).value.ccc == DECOMPOSE ==> FullyDecomposed(t, Lookup(t, x, i).value.str, 0)
  {
    var l := t.trie(x, i).value;
    if IsHangulLeaf(l) {
      HangulDecomposes(t, x, i);
    }
  }
}
