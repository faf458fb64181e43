/** Kotlin text: UTF-16 code units, of which two surrogates make one code point. */
module Utf16 {
  type CodeUnit = c: int | 0 <= c < 0x1_0000
  type CodePoint = c: int | 0 <= c <= 0x10_FFFF
  type Text = seq<CodeUnit>

  predicate IsHighSurrogate(c: int) { 0xD800 <= c <= 0xDBFF }

  predicate IsLowSurrogate(c: int) { 0xDC00 <= c <= 0xDFFF }

  /** A code point that is not half of a pair. */
  predicate IsScalar(c: CodePoint) { !IsHighSurrogate(c) && !IsLowSurrogate(c) }

  /** The code units of one code point. */
  function Units(c: CodePoint): (u: Text)
    ensures u != []
  {
    if c < 0x1_0000 then [c]
    else [0xD800 + (c - 0x1_0000) / 0x400, 0xDC00 + (c - 0x1_0000) % 0x400]
  }

  /** The code point at the start of a text; a surrogate without its partner stands for itself. */
  function FirstPoint(text: Text): (c: CodePoint)
    requires text != []
    ensures Units(c) <= text
  {
    if |text| > 1 && IsHighSurrogate(text[0]) && IsLowSurrogate(text[1]) then
      var high: int, low: int := text[0], text[1];
      0x1_0000 + (high - 0xD800) * 0x400 + (low - 0xDC00)
    else text[0]
  }

  function CodePoints(text: Text): seq<CodePoint> {
    if text == [] then []
    else var c := FirstPoint(text); [c] + CodePoints(text[|Units(c)|..])
  }

  function Encode(points: seq<CodePoint>): Text {
    if points == [] then [] else Units(points[0]) + Encode(points[1..])
  }

  /** Every surrogate has its partner. */
  predicate WellFormed(text: Text) {
    forall i :: 0 <= i < |CodePoints(text)| ==> IsScalar(CodePoints(text)[i])
  }

  /** Decoding undoes encoding, except of halves of pairs. */
  lemma {:induction false} EncodeReadsBack(points: seq<CodePoint>)
    requires forall i :: 0 <= i < |points| ==> IsScalar(points[i])
    ensures CodePoints(Encode(points)) == points
    decreases |points|
  {
    if points != [] {
      var c, rest := points[0], Encode(points[1..]);
      EncodeReadsBack(points[1..]);
      assert IsScalar(c);
      FirstPointOf(c, rest);
      assert (Units(c) + rest)[|Units(c)|..] == rest;
    }
  }

  lemma FirstPointOf(c: CodePoint, rest: Text)
    requires IsScalar(c)
    ensures FirstPoint(Units(c) + rest) == c
  {
  }

  lemma {:induction false} EncodeAppend(a: seq<CodePoint>, b: seq<CodePoint>)
    ensures Encode(a + b) == Encode(a) + Encode(b)
    decreases |a|
  {
    hide Units;
    if a == [] {
      assert a + b == b;
    } else {
      EncodeAppend(a[1..], b);
      assert (a + b)[1..] == a[1..] + b && (a + b)[0] == a[0];
      assert Units(a[0]) + (Encode(a[1..]) + Encode(b)) == (Units(a[0]) + Encode(a[1..])) + Encode(b);
    }
  }
}
