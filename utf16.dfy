/**
 * Kotlin strings as the JVM holds them: sequences of UTF-16 code units, in
 * which a character above U+FFFF takes a high and a low surrogate.
 * `toByteArray()` encodes a surrogate pair as the 4-byte UTF-8 sequence of
 * its character, and a surrogate without its partner as `?`.
 */
module Utf16 {
  import opened Mesh
  import Utf8

  type Unit = x: int | 0 <= x < 0x1_0000

  predicate IsHigh(u: Unit) { 0xD800 <= u < 0xDC00 }

  predicate IsLow(u: Unit) { 0xDC00 <= u < 0xE000 }

  /** The byte `toByteArray()` writes for a surrogate it cannot pair. */
  const Replacement: Byte := 0x3F

  /** The code units of one character: itself below U+10000, otherwise a surrogate pair. */
  function CharUnits(c: char): (r: seq<Unit>)
    ensures |r| == 1 <==> (c as int) < 0x1_0000
    ensures |r| == 1 ==> r[0] == c as int && !IsHigh(r[0]) && !IsLow(r[0])
    ensures |r| != 1 ==> |r| == 2 && IsHigh(r[0]) && IsLow(r[1]) && PairValue(r[0], r[1]) == c as int
  {
    var v := c as int;
    if v < 0x1_0000 then [v]
    else [0xD800 + (v - 0x1_0000) / 0x400, 0xDC00 + (v - 0x1_0000) % 0x400]
  }

  /** The character a surrogate pair stands for. */
  function PairValue(hi: Unit, lo: Unit): (v: int)
    requires IsHigh(hi) && IsLow(lo)
    ensures 0x1_0000 <= v < 0x11_0000
  {
    0x1_0000 + (hi - 0xD800) * 0x400 + (lo - 0xDC00)
  }

  /** A Kotlin string's code units. */
  function ToUnits(s: string): seq<Unit> {
    if |s| == 0 then [] else CharUnits(s[0]) + ToUnits(s[1..])
  }

  /** `toByteArray()`: pairs and other characters as UTF-8, an unpaired surrogate as `?`. */
  function Encode(u: seq<Unit>): (r: Bytes)
    ensures |r| == Size(u)
    decreases |u|
  {
    if |u| == 0 then []
    else if |u| >= 2 && IsHigh(u[0]) && IsLow(u[1]) then
      Utf8.EncodeChar(PairValue(u[0], u[1]) as char) + Encode(u[2..])
    else if IsHigh(u[0]) || IsLow(u[0]) then [Replacement] + Encode(u[1..])
    else Utf8.EncodeChar(u[0] as char) + Encode(u[1..])
  }

  /** The size of `toByteArray()`: 4 bytes for a pair, 1 for an unpaired surrogate. */
  function Size(u: seq<Unit>): nat
    decreases |u|
  {
    if |u| == 0 then 0
    else if |u| >= 2 && IsHigh(u[0]) && IsLow(u[1]) then 4 + Size(u[2..])
    else if IsHigh(u[0]) || IsLow(u[0]) then 1 + Size(u[1..])
    else Utf8.CharSize(u[0] as char) + Size(u[1..])
  }

  lemma {:induction false} ToUnitsAppend(a: string, b: string)
    ensures ToUnits(a + b) == ToUnits(a) + ToUnits(b)
  {
    if |a| > 0 {
      assert (a + b)[1..] == a[1..] + b;
      ToUnitsAppend(a[1..], b);
    } else {
      assert a + b == b;
    }
  }

  /** One character's units in front of well-formed units encode as that character in front of them. */
  lemma EncodeCharUnits(c: char, rest: seq<Unit>)
    ensures Encode(CharUnits(c) + rest) == Utf8.EncodeChar(c) + Encode(rest)
    ensures Size(CharUnits(c) + rest) == Utf8.CharSize(c) + Size(rest)
  {
    var u := CharUnits(c) + rest;
    if |CharUnits(c)| == 1 {
      assert u[1..] == rest;
      assert u[0] as char == c;
    } else {
      assert u[2..] == rest;
      assert PairValue(u[0], u[1]) as char == c;
    }
  }

  /**
   * A string with no lone surrogates, which is every Dafny string, encodes
   * through its code units exactly as RFC 3629 encodes its characters.
   */
  lemma {:induction false} ToUnitsEncode(s: string)
    ensures Encode(ToUnits(s)) == Utf8.Encode(s)
    ensures Size(ToUnits(s)) == Utf8.Size(s)
  {
    if |s| > 0 {
      ToUnitsEncode(s[1..]);
      EncodeCharUnits(s[0], ToUnits(s[1..]));
    }
  }

  /** Text below U+10000 has one code unit per character. */
  lemma {:induction false} ToUnitsBmp(s: string)
    requires forall i :: 0 <= i < |s| ==> (s[i] as int) < 0x1_0000
    ensures |ToUnits(s)| == |s|
    ensures forall i :: 0 <= i < |s| ==> ToUnits(s)[i] == s[i] as int
  {
    if |s| > 0 {
      ToUnitsBmp(s[1..]);
    }
  }
}
