/**
  UTF-8 to UTF-16 and back (lib/libf2fs.c), by way of 32-bit wide characters.  Masks and
  shifts are written as quotients and remainders.
 */
module Utf {
  datatype Result = Ok(out: seq<int>) | BadSequence | TooLong

  /** A decoded character and the number of units it took. */
  datatype Char = Bad | Char(c: int, n: nat)

  predicate Bytes(s: seq<int>) { forall i :: 0 <= i < |s| ==> 0 <= s[i] < 0x100 }
  predicate Units(s: seq<int>) { forall i :: 0 <= i < |s| ==> 0 <= s[i] < 0x10000 }

  /** A code point other than NUL and the high surrogates: the scalar values of Unicode, and the low surrogates. */
  predicate Storable(c: int) { 0 < c < 0xD800 || 0xDC00 <= c <= 0x10FFFF }

  /** The low six bits of unit i, worth 64^k. */
  function Six(s: seq<int>, i: nat): int
    requires i < |s|
  {
    s[i] % 64
  }

  /** utf8_to_wchar at position i; also the forms of five and six bytes that UTF-8 no longer has */
  function FromUtf8(s: seq<int>, i: nat): (r: Char)
    requires i < |s| && Bytes(s)
    ensures r.Char? ==> r.n > 0 && i + r.n <= |s|
  {
    var b, left := s[i], |s| - i;
    if b < 0x80 then Char(b, 1)
    else if 0xC0 <= b < 0xE0 && left >= 2 then Char((b % 32) * 0x40 + Six(s, i + 1), 2)
    else if 0xE0 <= b < 0xF0 && left >= 3 then Char((b % 16) * 0x1000 + Six(s, i + 1) * 0x40 + Six(s, i + 2), 3)
    else if 0xF0 <= b < 0xF8 && left >= 4 then
      Char((b % 8) * 0x40000 + Six(s, i + 1) * 0x1000 + Six(s, i + 2) * 0x40 + Six(s, i + 3), 4)
    else if 0xF8 <= b < 0xFC && left >= 5 then
      Char((b % 4) * 0x1000000 + Six(s, i + 1) * 0x40000 + Six(s, i + 2) * 0x1000 + Six(s, i + 3) * 0x40 +
          Six(s, i + 4), 5)
    else if 0xFC <= b < 0xFE && left >= 6 then
      Char((b % 2) * 0x40000000 + Six(s, i + 1) * 0x1000000 + Six(s, i + 2) * 0x40000 + Six(s, i + 3) * 0x1000 +
          Six(s, i + 4) * 0x40 + Six(s, i + 5), 6)
    else Bad
  }

  /** wchar_to_utf8; empty for what does not fit 31 bits */
  function ToUtf8(c: int): (r: seq<int>)
    requires c >= 0
  {
    if c <= 0x7F then [c]
    else if c <= 0x7FF then [0xC0 + c / 0x40, 0x80 + c % 64]
    else if c <= 0xFFFF then [0xE0 + c / 0x1000, 0x80 + c / 0x40 % 64, 0x80 + c % 64]
    else if c <= 0x1FFFFF then [0xF0 + c / 0x40000, 0x80 + c / 0x1000 % 64, 0x80 + c / 0x40 % 64, 0x80 + c % 64]
    else if c <= 0x3FFFFFF then
      [0xF8 + c / 0x1000000, 0x80 + c / 0x40000 % 64, 0x80 + c / 0x1000 % 64, 0x80 + c / 0x40 % 64, 0x80 + c % 64]
    else if c <= 0x7FFFFFFF then
      [0xFC + c / 0x40000000, 0x80 + c / 0x1000000 % 64, 0x80 + c / 0x40000 % 64, 0x80 + c / 0x1000 % 64, 0x80 +
          c / 0x40 % 64, 0x80 + c % 64]
    else []
  }

  /** utf16_to_wchar */
  function FromUtf16(s: seq<int>, i: nat): (r: Char)
    requires i < |s| && Units(s)
    ensures r.Char? ==> r.n > 0 && i + r.n <= |s| && r.c >= 0
  {
    if s[i] / 0x400 == 0x36 then
      if |s| - i < 2 || s[i + 1] / 0x400 != 0x37 then Bad
      else Char((s[i] % 0x400) * 0x400 + s[i + 1] % 0x400 + 0x10000, 2)
    else Char(s[i], 1)
  }

  /** wchar_to_utf16 */
  function ToUtf16(c: int): (r: seq<int>)
    requires c >= 0
    ensures |r| > 0
  {
    if c <= 0xFFFF then [c]
    else [0xD800 + (c - 0x10000) / 0x400 % 0x400, 0xDC00 + (c - 0x10000) % 0x400]
  }

  /** utf8_to_utf16: stops at a NUL; what is written before the terminator */
  method Utf8ToUtf16(s: seq<int>, room: nat) returns (r: Result)
    requires Bytes(s)
    ensures r == All16(s, 0, [], room)
  {
    var i, out := 0, [];
    while i < |s| && s[i] != 0
      invariant i <= |s| && All16(s, i, out, room) == All16(s, 0, [], room)
    {
      var w := FromUtf8(s, i);
      if w == Bad {
        return BadSequence;
      }
      i := i + w.n;
      WideIsWhole(s, i - w.n);
      var units := ToUtf16(w.c);
      if |out| + |units| > room {
        return TooLong;
      }
      out := out + units;
    }
    return Ok(out);
  }

  lemma WideIsWhole(s: seq<int>, i: nat)
    requires i < |s| && Bytes(s)
    ensures FromUtf8(s, i).Char? ==> FromUtf8(s, i).c >= 0
  {
  }

  function All16(s: seq<int>, i: nat, out: seq<int>, room: nat): Result
    requires Bytes(s) && i <= |s|
    decreases |s| - i
  {
    if i == |s| || s[i] == 0 then Ok(out)
    else
      var w := FromUtf8(s, i);
      if w == Bad then BadSequence
      else
        WideIsWhole(s, i);
        if |out| + |ToUtf16(w.c)| > room then TooLong else All16(s, i + w.n, out + ToUtf16(w.c), room)
  }

  /** utf16_to_utf8 */
  method Utf16ToUtf8(s: seq<int>, room: nat) returns (r: Result)
    requires Units(s)
    ensures r == All8(s, 0, [], room)
  {
    var i, out := 0, [];
    while i < |s| && s[i] != 0
      invariant i <= |s| && All8(s, i, out, room) == All8(s, 0, [], room)
    {
      var w := FromUtf16(s, i);
      if w == Bad {
        return BadSequence;
      }
      i := i + w.n;
      var bytes := ToUtf8(w.c);
      if bytes == [] || |out| + |bytes| > room {
        return TooLong;
      }
      out := out + bytes;
    }
    return Ok(out);
  }

  function All8(s: seq<int>, i: nat, out: seq<int>, room: nat): Result
    requires Units(s) && i <= |s|
    decreases |s| - i
  {
    if i == |s| || s[i] == 0 then Ok(out)
    else
      var w := FromUtf16(s, i);
      if w == Bad then BadSequence
      else if ToUtf8(w.c) == [] || |out| + |ToUtf8(w.c)| > room then TooLong
      else All8(s, i + w.n, out + ToUtf8(w.c), room)
  }

  // ---- a text in both encodings

  predicate AllStorable(cs: seq<int>) { forall i :: 0 <= i < |cs| ==> Storable(cs[i]) }

  function Text8(cs: seq<int>): seq<int>
    requires AllStorable(cs)
  {
    if cs == [] then [] else assert Storable(cs[0]); ToUtf8(cs[0]) + Text8(cs[1..])
  }

  function Text16(cs: seq<int>): seq<int>
    requires AllStorable(cs)
  {
    if cs == [] then [] else assert Storable(cs[0]); ToUtf16(cs[0]) + Text16(cs[1..])
  }

  lemma Encoded(c: int)
    requires Storable(c)
    ensures Bytes(ToUtf8(c)) && ToUtf8(c) != [] && ToUtf8(c)[0] != 0
    ensures Units(ToUtf16(c)) && ToUtf16(c)[0] != 0
  {
  }

  /** Six bits at a time. */
  lemma Sixes(c: int)
    requires c >= 0
    ensures c / 0x1000 == c / 0x40 / 64 && c / 0x40000 == c / 0x1000 / 64
    ensures c == c / 0x40 * 64 + c % 64 && c / 0x40 == c / 0x1000 * 64 + c / 0x40 % 64
    ensures c / 0x1000 == c / 0x40000 * 64 + c / 0x1000 % 64
    ensures c / 0x40000 == c / 0x1000000 * 64 + c / 0x40000 % 64
    ensures c / 0x1000000 == c / 0x40000000 * 64 + c / 0x1000000 % 64
  {
  }

  lemma Two(c: int)
    requires 0x80 <= c <= 0x7FF
    ensures c / 0x40 < 32 && (0xC0 + c / 0x40) % 32 == c / 0x40 && (0x80 + c % 64) % 64 == c % 64
    ensures c == c / 0x40 * 0x40 + c % 64
  {
  }

  lemma Three(c: int)
    requires 0x800 <= c <= 0xFFFF
    ensures c / 0x1000 < 16 && (0xE0 + c / 0x1000) % 16 == c / 0x1000
    ensures (0x80 + c / 0x40 % 64) % 64 == c / 0x40 % 64 && (0x80 + c % 64) % 64 == c % 64
    ensures c == c / 0x1000 * 0x1000 + c / 0x40 % 64 * 0x40 + c % 64
  {
    Sixes(c);
  }

  lemma Four(c: int)
    requires 0x10000 <= c <= 0x1FFFFF
    ensures c / 0x40000 < 8 && (0xF0 + c / 0x40000) % 8 == c / 0x40000
    ensures (0x80 + c / 0x1000 % 64) % 64 == c / 0x1000 % 64
    ensures (0x80 + c / 0x40 % 64) % 64 == c / 0x40 % 64 && (0x80 + c % 64) % 64 == c % 64
    ensures c == c / 0x40000 * 0x40000 + c / 0x1000 % 64 * 0x1000 + c / 0x40 % 64 * 0x40 + c % 64
  {
    Sixes(c);
    Low(c % 64);
    Low(c / 0x40 % 64);
    Low(c / 0x1000 % 64);
  }

  lemma Five(c: int)
    requires 0x200000 <= c <= 0x3FFFFFF
    ensures c / 0x1000000 < 4 && (0xF8 + c / 0x1000000) % 4 == c / 0x1000000
    ensures c == c / 0x1000000 * 0x1000000 + c / 0x40000 % 64 * 0x40000 + c / 0x1000 % 64 * 0x1000
                 + c / 0x40 % 64 * 0x40 + c % 64
  {
    Sixes(c);
  }

  lemma SixForm(c: int)
    requires 0x4000000 <= c <= 0x7FFFFFFF
    ensures c / 0x40000000 < 2 && (0xFC + c / 0x40000000) % 2 == c / 0x40000000
    ensures c == c / 0x40000000 * 0x40000000 + c / 0x1000000 % 64 * 0x1000000 + c / 0x40000 % 64 * 0x40000
                 + c / 0x1000 % 64 * 0x1000 + c / 0x40 % 64 * 0x40 + c % 64
  {
    Sixes(c);
  }

  /** Where no character can be read: at a continuation byte, at 0xFE and 0xFF, and where too few bytes are left. */
  lemma Undecodable(s: seq<int>, i: nat)
    requires i < |s| && Bytes(s)
    ensures FromUtf8(s, i) == Bad <==>
              || 0x80 <= s[i] < 0xC0 || s[i] >= 0xFE
              || |s| - i < (if s[i] < 0x80 then 1 else if s[i] < 0xE0 then 2 else if s[i] < 0xF0 then 3
                            else if s[i] < 0xF8 then 4 else if s[i] < 0xFC then 5 else 6)
  {
  }

  /** In UTF-16 it is a high surrogate without a low one behind it; a pair is one character, any other unit another. */
  lemma Undecodable16(s: seq<int>, i: nat)
    requires i < |s| && Units(s)
    ensures FromUtf16(s, i) == Bad <==>
              0xD800 <= s[i] < 0xDC00 && (i + 1 == |s| || !(0xDC00 <= s[i + 1] < 0xE000))
    ensures FromUtf16(s, i) != Bad ==>
              FromUtf16(s, i) == if 0xD800 <= s[i] < 0xDC00
                                 then Char(0x10000 + (s[i] - 0xD800) * 0x400 + (s[i + 1] - 0xDC00), 2)
                                 else Char(s[i], 1)
  {
  }

  /** Code points above 0xFFFF are written as a high and a low surrogate that give them back. */
  lemma Surrogates(c: int)
    requires 0x10000 <= c <= 0x10FFFF
    ensures var u := ToUtf16(c);
            && |u| == 2 && 0xD800 <= u[0] < 0xDC00 && 0xDC00 <= u[1] < 0xE000
            && c == 0x10000 + (u[0] - 0xD800) * 0x400 + (u[1] - 0xDC00)
  {
  }

  lemma Low(x: int)
    requires 0 <= x < 64
    ensures (0x80 + x) % 64 == x
  {
  }

  /** Unit by unit, s has e at position i. */
  predicate StandsAt(s: seq<int>, i: nat, e: seq<int>) {
    i + |e| <= |s| && forall k :: i <= k < i + |e| ==> s[k] == e[k - i]
  }

  lemma Longer8(s: seq<int>, i: nat, c: int)
    requires 0x200000 <= c <= 0x7FFFFFFF && Bytes(s) && StandsAt(s, i, ToUtf8(c))
    ensures i < |s| && FromUtf8(s, i) == Char(c, |ToUtf8(c)|)
  {
    var e := ToUtf8(c);
    assert forall k :: 0 <= k < |e| ==> s[i + k] == e[k];
    Low(c % 64);
    Low(c / 0x40 % 64);
    Low(c / 0x1000 % 64);
    Low(c / 0x40000 % 64);
    if c <= 0x3FFFFFF {
      Five(c);
    } else {
      Low(c / 0x1000000 % 64);
      SixForm(c);
    }
  }

  /** Decoding what was encoded, wherever it stands. */
  lemma Decoded8(s: seq<int>, i: nat, c: int)
    requires 0 <= c <= 0x7FFFFFFF && Bytes(s) && StandsAt(s, i, ToUtf8(c))
    ensures i < |s| && FromUtf8(s, i) == Char(c, |ToUtf8(c)|)
  {
    if c <= 0x7F {
    } else if c <= 0x7FF {
      Two(c);
    } else if c <= 0xFFFF {
      Three(c);
    } else if c <= 0x1FFFFF {
      Four(c);
    } else {
      Longer8(s, i, c);
    }
  }

  lemma Decoded16(s: seq<int>, i: nat, c: int)
    requires Storable(c) && Units(s) && StandsAt(s, i, ToUtf16(c))
    ensures i < |s| && FromUtf16(s, i) == Char(c, |ToUtf16(c)|)
  {
  }

  /** From the characters on: the rest of the text comes out in the other encoding if there is room for it. */
  lemma Splits(s: seq<int>, i: nat, a: seq<int>, b: seq<int>)
    requires StandsAt(s, i, a + b)
    ensures StandsAt(s, i, a) && StandsAt(s, i + |a|, b)
  {
    forall k | i <= k < i + |a| ensures s[k] == a[k - i] { assert (a + b)[k - i] == a[k - i]; }
    forall k | i + |a| <= k < i + |a| + |b| ensures s[k] == b[k - i - |a|] { assert (a + b)[k - i] == b[k - i - |a|]; }
  }

  lemma StandsFirst(s: seq<int>, i: nat, a: seq<int>)
    requires StandsAt(s, i, a) && a != []
    ensures i < |s| && s[i] == a[0]
  {
  }

  lemma {:induction false} Converts16(s: seq<int>, i: nat, cs: seq<int>, out: seq<int>, room: nat)
    requires AllStorable(cs) && Bytes(s) && i + |Text8(cs)| == |s| && StandsAt(s, i, Text8(cs)) && |out| <= room
    ensures All16(s, i, out, room) == if |out| + |Text16(cs)| <= room then Ok(out + Text16(cs)) else TooLong
    decreases |cs|
  {
    hide ToUtf8, ToUtf16, FromUtf8, FromUtf16, StandsAt;
    if cs == [] {
      assert out + [] == out;
    } else {
      var c := cs[0];
      assert Storable(c);
      Encoded(c);
      Splits(s, i, ToUtf8(c), Text8(cs[1..]));
      StandsFirst(s, i, ToUtf8(c));
      Decoded8(s, i, c);
      if |out| + |ToUtf16(c)| <= room {
        Converts16(s, i + |ToUtf8(c)|, cs[1..], out + ToUtf16(c), room);
        assert out + ToUtf16(c) + Text16(cs[1..]) == out + Text16(cs);
      }
    }
  }

  lemma {:induction false} Converts8(s: seq<int>, i: nat, cs: seq<int>, out: seq<int>, room: nat)
    requires AllStorable(cs) && Units(s) && i + |Text16(cs)| == |s| && StandsAt(s, i, Text16(cs)) && |out| <= room
    ensures All8(s, i, out, room) == if |out| + |Text8(cs)| <= room then Ok(out + Text8(cs)) else TooLong
    decreases |cs|
  {
    hide ToUtf8, ToUtf16, FromUtf8, FromUtf16, StandsAt;
    if cs == [] {
      assert out + [] == out;
    } else {
      var c := cs[0];
      assert Storable(c);
      Encoded(c);
      Splits(s, i, ToUtf16(c), Text16(cs[1..]));
      StandsFirst(s, i, ToUtf16(c));
      Decoded16(s, i, c);
      if |out| + |ToUtf8(c)| <= room {
        Converts8(s, i + |ToUtf16(c)|, cs[1..], out + ToUtf8(c), room);
        assert out + ToUtf8(c) + Text8(cs[1..]) == out + Text8(cs);
      }
    }
  }

  lemma {:induction false} TextRanges(cs: seq<int>)
    requires AllStorable(cs)
    ensures Bytes(Text8(cs)) && Units(Text16(cs))
  {
    if cs != [] {
      assert Storable(cs[0]);
      Encoded(cs[0]);
      TextRanges(cs[1..]);
    }
  }

  /**
    There and back again, for any text and any buffers: the text itself, or the complaint that a buffer is too
    small.
   */
  lemma RoundTrip(cs: seq<int>, room16: nat, room8: nat)
    requires AllStorable(cs)
    ensures Bytes(Text8(cs)) && Units(Text16(cs))
    ensures All16(Text8(cs), 0, [], room16) == if |Text16(cs)| <= room16 then Ok(Text16(cs)) else TooLong
    ensures All8(Text16(cs), 0, [], room8) == if |Text8(cs)| <= room8 then Ok(Text8(cs)) else TooLong
  {
    TextRanges(cs);
    Converts16(Text8(cs), 0, cs, [], room16);
    Converts8(Text16(cs), 0, cs, [], room8);
    assert [] + Text16(cs) == Text16(cs) && [] + Text8(cs) == Text8(cs);
  }

  // ---- and nothing else comes back

  lemma {:induction false} OutUnits(s: seq<int>, i: nat, out: seq<int>, room: nat)
    requires Bytes(s) && i <= |s| && Units(out)
    ensures All16(s, i, out, room).Ok? ==> Units(All16(s, i, out, room).out)
    decreases |s| - i
  {
    hide FromUtf8;
    if i < |s| && s[i] != 0 && FromUtf8(s, i).Char? {
      WideIsWhole(s, i);
      OutUnits(s, i + FromUtf8(s, i).n, out + ToUtf16(FromUtf8(s, i).c), room);
    }
  }

  lemma {:induction false} TextAppend(cs: seq<int>, c: int)
    requires AllStorable(cs) && Storable(c)
    ensures Text8(cs + [c]) == Text8(cs) + ToUtf8(c)
  {
    hide ToUtf8;
    if cs == [] {
      assert [c][1..] == [] && ToUtf8(c) + [] == ToUtf8(c);
    } else {
      assert (cs + [c])[1..] == cs[1..] + [c];
      TextAppend(cs[1..], c);
      assert ToUtf8(cs[0]) + (Text8(cs[1..]) + ToUtf8(c)) == ToUtf8(cs[0]) + Text8(cs[1..]) + ToUtf8(c);
    }
  }

  /** Whatever units come in, what goes out is the text of storable characters. */
  lemma {:induction false} BackIsText(s: seq<int>, i: nat, cs: seq<int>, room: nat) returns (ds: seq<int>)
    requires Units(s) && i <= |s| && AllStorable(cs) && All8(s, i, Text8(cs), room).Ok?
    ensures AllStorable(ds) && All8(s, i, Text8(cs), room).out == Text8(ds)
    decreases |s| - i
  {
    hide ToUtf8;
    if i == |s| || s[i] == 0 {
      ds := cs;
    } else {
      var w := FromUtf16(s, i);
      TextAppend(cs, w.c);
      ds := BackIsText(s, i + w.n, cs + [w.c], room);
    }
  }

  /** Converted there and back, with buffers of these sizes, the bytes are the same. */
  predicate ComesBack(s: seq<int>, room16: nat, room8: nat)
    requires Bytes(s)
  {
    && var u := All16(s, 0, [], room16);
    && u.Ok? && (OutUnits(s, 0, [], room16); All8(u.out, 0, [], room8) == Ok(s))
  }

  /**
    Exactly the texts of storable characters that fit come back: no overlong forms, nothing above 0x10FFFF, no high
    surrogates.
   */
  lemma ComesBackExactly(s: seq<int>, room16: nat, room8: nat)
    requires Bytes(s)
    ensures ComesBack(s, room16, room8) <==>
              exists cs :: AllStorable(cs) && s == Text8(cs) && |Text16(cs)| <= room16 && |s| <= room8
  {
    if ComesBack(s, room16, room8) {
      OutUnits(s, 0, [], room16);
      var u := All16(s, 0, [], room16).out;
      var cs := BackIsText(u, 0, [], room8);
      RoundTrip(cs, room16, room8);
    }
    if cs :| AllStorable(cs) && s == Text8(cs) && |Text16(cs)| <= room16 && |s| <= room8 {
      RoundTrip(cs, room16, room8);
    }
  }
}
