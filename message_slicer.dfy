/**
 * `sliceMessage` of the client: a text too long for one mesh packet is cut
 * greedily into pieces whose UTF-8 encodings fit in 200 bytes, each piece as
 * long as will fit.
 *
 * The program counts lengths in UTF-16 code units, so a cut can fall between
 * the two halves of a surrogate pair. The first part of this module models
 * that, and shows the input on which it happens; the rest cuts between
 * characters, which is what the pieces need to join back into the text.
 */
module MessageSlicer {
  import Utf8
  import Utf16
  import opened Mesh

  /** The largest UTF-8 size of one piece. */
  const MaxSliceBytes: nat := 200

  // ---------------------------------------------------------------- as written: code units

  /** Whether the first `k` code units of `u` fit in one piece. */
  predicate UnitsFit(u: seq<Utf16.Unit>, k: nat)
    requires k <= |u|
  {
    Utf16.Size(u[..k]) <= MaxSliceBytes
  }

  /** `(1..n).findLast { take(it).toByteArray().size <= 200 } ?: 1`, counting code units. */
  function UnitsFindLast(u: seq<Utf16.Unit>, n: nat): (k: nat)
    requires 1 <= n <= |u|
    ensures 1 <= k <= n
    ensures UnitsFit(u, k) || k == 1
    ensures forall j :: k < j <= n ==> !UnitsFit(u, j)
    decreases n
  {
    if n == 1 || UnitsFit(u, n) then n else UnitsFindLast(u, n - 1)
  }

  function UnitsConcat(pieces: seq<seq<Utf16.Unit>>): seq<Utf16.Unit> {
    if |pieces| == 0 then [] else pieces[0] + UnitsConcat(pieces[1..])
  }

  /** The bytes the pieces go out as, one `toByteArray()` each, joined. */
  function UnitsSent(pieces: seq<seq<Utf16.Unit>>): Bytes {
    if |pieces| == 0 then [] else Utf16.Encode(pieces[0]) + UnitsSent(pieces[1..])
  }

  /**
   * The pieces `sliceMessage` yields as written: they join back to the code
   * units, none is empty, and each encodes to at most 200 bytes.
   */
  function AsWrittenSlices(u: seq<Utf16.Unit>): (r: seq<seq<Utf16.Unit>>)
    ensures UnitsConcat(r) == u
    ensures forall i :: 0 <= i < |r| ==> r[i] != [] && Utf16.Size(r[i]) <= MaxSliceBytes
    ensures |r| <= |u|
    ensures u == [] <==> r == []
    decreases |u|
  {
    if u == [] then []
    else
      assert u[..1][1..] == [];
      var k := UnitsFindLast(u, |u|);
      var rest := AsWrittenSlices(u[k..]);
      assert u == u[..k] + u[k..];
      assert ([u[..k]] + rest)[1..] == rest;
      [u[..k]] + rest
  }

  function Run(n: nat): seq<Utf16.Unit> {
    seq(n, _ => 0x61)
  }

  lemma {:induction false} RunSize(n: nat, t: seq<Utf16.Unit>)
    ensures Utf16.Size(Run(n) + t) == n + Utf16.Size(t)
  {
    if n > 0 {
      var u := Run(n) + t;
      assert u[0] == 0x61 && !Utf16.IsHigh(u[0]) && !Utf16.IsLow(u[0]);
      assert u[1..] == Run(n - 1) + t;
      RunSize(n - 1, t);
    } else {
      assert Run(n) + t == t;
    }
  }

  lemma {:induction false} RunEncode(n: nat, t: seq<Utf16.Unit>)
    ensures Utf16.Encode(Run(n) + t) == seq(n, _ => 0x61) + Utf16.Encode(t)
  {
    if n > 0 {
      var u := Run(n) + t;
      assert u[0] == 0x61 && !Utf16.IsHigh(u[0]) && !Utf16.IsLow(u[0]);
      assert u[1..] == Run(n - 1) + t;
      RunEncode(n - 1, t);
      assert Utf8.EncodeChar(0x61 as char) == [0x61];
      assert Utf16.Encode(u) == [0x61] + Utf16.Encode(u[1..]);
    } else {
      assert Run(n) + t == t;
    }
  }

  /** The emoji U+1F600, whose code units are the pair D83D DE00. */
  const Smile: char := '\U{1F600}'

  /** 199 letters `a` and U+1F600: two hundred characters in 203 bytes. */
  function PairText(): string {
    seq(199, _ => 'a') + [Smile]
  }

  lemma PairTextUnits()
    ensures Utf16.ToUnits(PairText()) == Run(199) + [0xD83D, 0xDE00]
  {
    var a: string := seq(199, _ => 'a');
    assert PairText() == a + [Smile];
    Utf16.ToUnitsAppend(a, [Smile]);
    LettersUnits(a);
    SmileUnits();
  }

  lemma SmileUnits()
    ensures Utf16.ToUnits([Smile]) == [0xD83D, 0xDE00]
  {
    assert Utf16.ToUnits([Smile]) == Utf16.CharUnits(Smile) + Utf16.ToUnits([]);
  }

  lemma {:induction false} LettersUnits(a: string)
    requires forall i :: 0 <= i < |a| ==> a[i] == 'a'
    ensures Utf16.ToUnits(a) == Run(|a|)
  {
    if |a| > 0 {
      LettersUnits(a[1..]);
      assert Run(|a|) == [0x61] + Run(|a| - 1);
    }
  }

  /** The program's first cut falls after the high surrogate: 200 units make 200 bytes, 201 make 203. */
  lemma PairUnitsCut(u: seq<Utf16.Unit>)
    requires u == Run(199) + [0xD83D, 0xDE00]
    ensures AsWrittenSlices(u) == [Run(199) + [0xD83D], [0xDE00]]
  {
    assert [0xD83D, 0xDE00][2..] == [];
    RunSize(199, [0xD83D, 0xDE00]);
    assert u[..201] == u;
    assert !UnitsFit(u, 201);
    assert u[..200] == Run(199) + [0xD83D];
    RunSize(199, [0xD83D]);
    assert UnitsFit(u, 200);
    assert UnitsFindLast(u, 201) == 200;
    var tail: seq<Utf16.Unit> := [0xDE00];
    assert u[200..] == tail;
    assert tail[..1] == tail && UnitsFit(tail, 1);
    assert tail[1..] == [];
  }

  /**
   * On 199 letters `a` and U+1F600, which fit in 203 bytes, the program cuts
   * between the emoji's two surrogates: the first piece ends with an unpaired
   * high surrogate and the second is the unpaired low one. Each goes out as
   * `?`, so the bytes sent are not the text's.
   */
  lemma AsWrittenSplitsPair()
    ensures var r := AsWrittenSlices(Utf16.ToUnits(PairText()));
      r == [Run(199) + [0xD83D], [0xDE00]] &&
      Utf16.Encode(r[0]) == seq(199, _ => 0x61) + [Utf16.Replacement] &&
      Utf16.Encode(r[1]) == [Utf16.Replacement] &&
      UnitsSent(r) != Utf8.Encode(PairText())
  {
    PairTextUnits();
    PairUnitsCut(Utf16.ToUnits(PairText()));
    PairPiecesSent(AsWrittenSlices(Utf16.ToUnits(PairText())));
    PairTextSize();
  }

  /** Each half of the pair goes out as `?`: 201 bytes in all. */
  lemma PairPiecesSent(r: seq<seq<Utf16.Unit>>)
    requires r == [Run(199) + [0xD83D], [0xDE00]]
    ensures Utf16.Encode(r[0]) == seq(199, _ => 0x61) + [Utf16.Replacement]
    ensures Utf16.Encode(r[1]) == [Utf16.Replacement]
    ensures |UnitsSent(r)| == 201
  {
    RunEncode(199, [0xD83D]);
    var r1 := r[1..];
    assert r1[0] == r[1] && r1[1..] == [];
    assert UnitsSent(r1) == Utf16.Encode(r[1]) + UnitsSent([]);
  }

  /** The text itself encodes to 203 bytes. */
  lemma PairTextSize()
    ensures |Utf8.Encode(PairText())| == 203
  {
    var t := PairText();
    PairTextUnits();
    PairUnitsSize(Utf16.ToUnits(t));
    Utf16.ToUnitsEncode(t);
  }

  lemma PairUnitsSize(u: seq<Utf16.Unit>)
    requires u == Run(199) + [0xD83D, 0xDE00]
    ensures Utf16.Size(u) == 203
  {
    RunSize(199, [0xD83D, 0xDE00]);
    assert [0xD83D, 0xDE00][2..] == [];
  }

  // ---------------------------------------------------------------- cut between characters

  /** Whether the first `k` characters of `s` fit in one piece. */
  predicate Fits(s: string, k: nat)
    requires k <= |s|
  {
    Utf8.Size(s[..k]) <= MaxSliceBytes
  }

  lemma SizeAppend(a: string, b: string)
    ensures Utf8.Size(a + b) == Utf8.Size(a) + Utf8.Size(b)
  {
    Utf8.EncodeAppend(a, b);
  }

  /** A longer prefix never encodes to fewer bytes. */
  lemma PrefixSizeMonotone(s: string, j: nat, k: nat)
    requires j <= k <= |s|
    ensures Utf8.Size(s[..j]) <= Utf8.Size(s[..k])
  {
    assert s[..k] == s[..j] + s[j..k];
    SizeAppend(s[..j], s[j..k]);
  }

  /** One character always fits: it encodes to at most 4 bytes. */
  lemma OneCharFits(s: string)
    requires |s| > 0
    ensures Fits(s, 1)
  {
    assert Utf8.Size(s[..1]) == Utf8.CharSize(s[0]) + Utf8.Size(s[..1][1..]);
  }

  /**
   * `(1..n).findLast { take(it) fits } ?: 1`: the largest length in `1..n`
   * whose prefix fits, or 1 when none does.
   */
  function FindLast(s: string, n: nat): (k: nat)
    requires 1 <= n <= |s|
    ensures 1 <= k <= n
    ensures Fits(s, k) || k == 1
    ensures forall j :: k < j <= n ==> !Fits(s, j)
    decreases n
  {
    if n == 1 || Fits(s, n) then n else FindLast(s, n - 1)
  }

  /** The pieces joined back together. */
  function Concat(pieces: seq<string>): string {
    if |pieces| == 0 then [] else pieces[0] + Concat(pieces[1..])
  }

  /**
   * The pieces `sliceMessage` yields, in order: they join back to `s`, none
   * is empty, each encodes to at most 200 bytes, and there are no more of
   * them than characters.
   */
  function Slices(s: string): (r: seq<string>)
    ensures Concat(r) == s
    ensures forall i :: 0 <= i < |r| ==> r[i] != [] && Utf8.Size(r[i]) <= MaxSliceBytes
    ensures |r| <= |s|
    ensures s == [] <==> r == []
    decreases |s|
  {
    if s == [] then []
    else
      OneCharFits(s);
      var k := FindLast(s, |s|);
      var rest := Slices(s[k..]);
      assert s == s[..k] + s[k..];
      assert ([s[..k]] + rest)[1..] == rest;
      [s[..k]] + rest
  }

  /** Each piece but the last would overflow if the next piece's first character were added to it. */
  predicate Maximal(r: seq<string>)
    requires forall i :: 0 <= i < |r| ==> r[i] != []
  {
    forall i :: 0 <= i < |r| - 1 ==> Utf8.Size(r[i] + [r[i + 1][0]]) > MaxSliceBytes
  }

  /**
   * Each piece is as long as will fit: adding the next piece's first
   * character would take it over 200 bytes.
   */
  lemma {:induction false} SlicesMaximal(s: string)
    ensures Maximal(Slices(s))
  {
    if s != [] {
      OneCharFits(s);
      var k := FindLast(s, |s|);
      var rest := Slices(s[k..]);
      SlicesMaximal(s[k..]);
      var r := Slices(s);
      assert r == [s[..k]] + rest;
      if |rest| > 0 {
        assert k < |s|;
        assert !Fits(s, k + 1);
        assert rest[0][0] == s[k] by {
          assert Concat(rest) == s[k..];
          assert Concat(rest) == rest[0] + Concat(rest[1..]);
        }
        assert s[..k + 1] == s[..k] + [s[k]];
      }
      forall i | 1 <= i < |r| - 1
        ensures Utf8.Size(r[i] + [r[i + 1][0]]) > MaxSliceBytes
      {
        assert r[i] == rest[i - 1] && r[i + 1] == rest[i];
      }
    }
  }

  /** A text that fits is sent as it is, in one piece. */
  lemma ShortTextIsOnePiece(s: string)
    requires s != [] && Utf8.Size(s) <= MaxSliceBytes
    ensures Slices(s) == [s]
  {
    assert s[..|s|] == s;
    var k := FindLast(s, |s|);
    assert k == |s|;
    assert s[k..] == [];
  }

  /** The bytes the pieces go out as, one `toByteArray()` of each piece's code units, joined. */
  function Sent(pieces: seq<string>): Bytes {
    if |pieces| == 0 then [] else Utf16.Encode(Utf16.ToUnits(pieces[0])) + Sent(pieces[1..])
  }

  lemma {:induction false} SentConcat(pieces: seq<string>)
    ensures Sent(pieces) == Utf8.Encode(Concat(pieces))
  {
    if |pieces| > 0 {
      SentConcat(pieces[1..]);
      Utf16.ToUnitsEncode(pieces[0]);
      Utf8.EncodeAppend(pieces[0], Concat(pieces[1..]));
    }
  }

  /**
   * Cut between characters, the pieces never split a surrogate pair: sent
   * one after another they carry exactly the bytes of the whole text.
   */
  lemma SlicesSendWhole(s: string)
    ensures Sent(Slices(s)) == Utf8.Encode(s)
  {
    SentConcat(Slices(s));
  }

  /** Each piece's code units, in order. */
  function PiecesUnits(pieces: seq<string>): (r: seq<seq<Utf16.Unit>>)
    ensures |r| == |pieces|
  {
    if |pieces| == 0 then [] else [Utf16.ToUnits(pieces[0])] + PiecesUnits(pieces[1..])
  }

  /** Text with no character above U+FFFF. */
  predicate IsBmp(s: string) {
    forall i :: 0 <= i < |s| ==> (s[i] as int) < 0x1_0000
  }

  lemma BmpCut(s: string, k: nat)
    requires IsBmp(s) && k <= |s|
    ensures |Utf16.ToUnits(s)| == |s|
    ensures Utf16.ToUnits(s)[..k] == Utf16.ToUnits(s[..k])
    ensures Utf16.ToUnits(s)[k..] == Utf16.ToUnits(s[k..])
    ensures UnitsFit(Utf16.ToUnits(s), k) <==> Fits(s, k)
  {
    assert s == s[..k] + s[k..];
    Utf16.ToUnitsAppend(s[..k], s[k..]);
    Utf16.ToUnitsBmp(s);
    Utf16.ToUnitsBmp(s[..k]);
    Utf16.ToUnitsEncode(s[..k]);
  }

  lemma {:induction false} FindLastAgree(s: string, n: nat)
    requires IsBmp(s) && 1 <= n <= |s|
    ensures |Utf16.ToUnits(s)| == |s|
    ensures UnitsFindLast(Utf16.ToUnits(s), n) == FindLast(s, n)
    decreases n
  {
    BmpCut(s, n);
    if n > 1 {
      FindLastAgree(s, n - 1);
    }
  }

  /**
   * On text with no character above U+FFFF, where every character is one
   * code unit, the program's cuts and the cuts between characters are the same.
   */
  lemma {:induction false} SlicesAgreeOnBmp(s: string)
    requires IsBmp(s)
    ensures AsWrittenSlices(Utf16.ToUnits(s)) == PiecesUnits(Slices(s))
    decreases |s|
  {
    if s != [] {
      var u := Utf16.ToUnits(s);
      FindLastAgree(s, |s|);
      var k := FindLast(s, |s|);
      BmpCut(s, k);
      assert IsBmp(s[k..]);
      SlicesAgreeOnBmp(s[k..]);
      OneCharFits(s);
      assert Slices(s) == [s[..k]] + Slices(s[k..]);
      assert (([s[..k]] + Slices(s[k..]))[1..]) == Slices(s[k..]);
    }
  }

  /** The `sliceMessage` loop: cut the longest fitting prefix off the rest until nothing is left. */
  method SliceMessage(text: string) returns (slices: seq<string>)
    ensures slices == Slices(text)
  {
    var str := text;
    slices := [];
    while str != []
      invariant slices + Slices(str) == Slices(text)
      decreases |str|
    {
      OneCharFits(str);
      var subLength := FindLast(str, |str|);
      var piece := str[..subLength];
      assert Slices(str) == [piece] + Slices(str[subLength..]);
      str := str[subLength..];
      slices := slices + [piece];
    }
  }
}
