/**
 * UTF-8 as in RFC 3629, the encoding of Kotlin's `toByteArray()` and
 * `ByteString.copyFromUtf8`. A Dafny `char` is a Unicode scalar value, so every
 * string here is well formed and encodes without replacement.
 */
module Utf8 {
  import opened Mesh

  /** Bytes used by one scalar value: 1 up to U+007F, 2 up to U+07FF, 3 up to U+FFFF, else 4. */
  function CharSize(c: char): (n: nat)
    ensures 1 <= n <= 4
  {
    var v := c as int;
    if v < 0x80 then 1 else if v < 0x800 then 2 else if v < 0x1_0000 then 3 else 4
  }

  /** The RFC 3629 byte sequence of one scalar value. */
  function EncodeChar(c: char): (r: Bytes)
    ensures |r| == CharSize(c)
    ensures CharSize(c) == 1 <==> r[0] < 0x80
    ensures LeadSize(r[0]) == |r|
    ensures forall i :: 1 <= i < |r| ==> 0x80 <= r[i] < 0xC0
  {
    var v := c as int;
    if v < 0x80 then [v]
    else if v < 0x800 then [0xC0 + v / 0x40, 0x80 + v % 0x40]
    else if v < 0x1_0000 then [0xE0 + v / 0x1000, 0x80 + (v / 0x40) % 0x40, 0x80 + v % 0x40]
    else [0xF0 + v / 0x4_0000, 0x80 + (v / 0x1000) % 0x40, 0x80 + (v / 0x40) % 0x40, 0x80 + v % 0x40]
  }

  /** The length of the sequence a lead byte starts: `0xxxxxxx`, `110xxxxx`, `1110xxxx` or `11110xxx`. */
  function LeadSize(b: Byte): nat {
    if b < 0x80 then 1 else if b < 0xE0 then 2 else if b < 0xF0 then 3 else 4
  }

  /** The value carried by the payload bits of one byte sequence. */
  function CodePoint(r: Bytes): int
    requires 1 <= |r| <= 4
  {
    var b := seq(|r|, i requires 0 <= i < |r| => r[i] as int);
    if |r| == 1 then b[0]
    else if |r| == 2 then (b[0] - 0xC0) * 0x40 + (b[1] - 0x80)
    else if |r| == 3 then (b[0] - 0xE0) * 0x1000 + (b[1] - 0x80) * 0x40 + (b[2] - 0x80)
    else (b[0] - 0xF0) * 0x4_0000 + (b[1] - 0x80) * 0x1000 + (b[2] - 0x80) * 0x40 + (b[3] - 0x80)
  }

  /** The payload bits of a character's encoding are the character. */
  lemma EncodeCharValue(c: char)
    ensures CodePoint(EncodeChar(c)) == c as int
  {
    var v := c as int;
    var r := EncodeChar(c);
    if v < 0x80 {
    } else if v < 0x800 {
      assert CodePoint(r) == (v / 0x40) * 0x40 + v % 0x40;
    } else if v < 0x1_0000 {
      assert (v / 0x40) / 0x40 == v / 0x1000;
      assert CodePoint(r) == (v / 0x1000) * 0x1000 + ((v / 0x40) % 0x40) * 0x40 + v % 0x40;
    } else {
      assert (v / 0x40) / 0x40 == v / 0x1000;
      assert (v / 0x1000) / 0x40 == v / 0x4_0000;
      assert CodePoint(r) ==
        (v / 0x4_0000) * 0x4_0000 + ((v / 0x1000) % 0x40) * 0x1000 + ((v / 0x40) % 0x40) * 0x40 + v % 0x40;
    }
  }

  /** The scalar values of a string. */
  function Values(s: string): (r: seq<int>)
    ensures |r| == |s|
  {
    if |s| == 0 then [] else [s[0] as int] + Values(s[1..])
  }

  /** Decoding: each lead byte says how many bytes its value takes; a sequence cut short ends the text. */
  function Decode(bytes: Bytes): seq<int>
    decreases |bytes|
  {
    if |bytes| == 0 then []
    else
      var n := LeadSize(bytes[0]);
      if n > |bytes| then [] else [CodePoint(bytes[..n])] + Decode(bytes[n..])
  }

  /** Decoding an encoding gives back the characters encoded. */
  lemma {:induction false} DecodeEncode(s: string)
    ensures Decode(Encode(s)) == Values(s)
  {
    if |s| > 0 {
      var e := EncodeChar(s[0]);
      var b := Encode(s);
      assert b == e + Encode(s[1..]);
      assert b[..|e|] == e && b[|e|..] == Encode(s[1..]);
      EncodeCharValue(s[0]);
      DecodeEncode(s[1..]);
    }
  }

  /** The encoding of a string: its characters' encodings, in order. */
  function Encode(s: string): (r: Bytes)
    ensures |r| == Size(s)
  {
    if |s| == 0 then [] else EncodeChar(s[0]) + Encode(s[1..])
  }

  /** The encoded size, character by character: at least one and at most four bytes a character. */
  function Size(s: string): (n: nat)
    ensures |s| <= n <= 4 * |s|
  {
    if |s| == 0 then 0 else CharSize(s[0]) + Size(s[1..])
  }

  lemma {:induction false} EncodeAppend(a: string, b: string)
    ensures Encode(a + b) == Encode(a) + Encode(b)
  {
    if |a| > 0 {
      assert (a + b)[1..] == a[1..] + b;
      EncodeAppend(a[1..], b);
    } else {
      assert a + b == b;
    }
  }

  /** ASCII text encodes to its own code points, one byte each. */
  lemma {:induction false} EncodeAscii(s: string)
    requires forall i :: 0 <= i < |s| ==> s[i] as int < 0x80
    ensures |Encode(s)| == |s|
    ensures forall i :: 0 <= i < |s| ==> Encode(s)[i] == s[i] as int
  {
    if |s| > 0 {
      EncodeAscii(s[1..]);
    }
  }
}
