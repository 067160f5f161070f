/**
 * The text the serial reader shows for one chunk of bytes: the `hex` crate's
 * lower-case encoding, rewritten character by character into upper-case pairs
 * separated by single spaces.
 */
module Hex {
  import opened Wrappers
  import opened Bytes

  /** The table the `hex` crate encodes with: lower-case digits. */
  const LowerDigits: string := "0123456789abcdef"

  /** The Base16 alphabet of section 8 of RFC 4648 (upper-case). */
  const Base16Alphabet: string := "0123456789ABCDEF"

  /** An upper-case Base16 digit: `0`-`9` or `A`-`F` (never a space). */
  predicate IsBase16Digit(c: char)
  {
    '0' <= c <= '9' || 'A' <= c <= 'F'
  }

  /** `hex::encode`: each byte becomes two lower-case digits, high nibble first. */
  function HexEncode(bs: seq<byte>): (s: string)
    ensures |s| == 2 * |bs|
  {
    if bs == [] then []
    else [LowerDigits[bs[0] / 16], LowerDigits[bs[0] % 16]] + HexEncode(bs[1..])
  }

  /** `char::to_ascii_uppercase`: only `a`..`z` change. */
  function ToAsciiUpper(c: char): char
  {
    if 'a' <= c <= 'z' then (c as int - 32) as char else c
  }

  /**
   * The `enumerate().flat_map(..)` chain of `Serial::read` applied to the
   * characters `cs`, the first of which has index `i`: before every character
   * whose index is even and non-zero a space is emitted, and every character
   * is upper-cased. Each character comes out alone or after one space.
   */
  function SpaceAndUpper(cs: string, i: nat): (r: string)
    ensures |cs| <= |r| <= 2 * |cs|
  {
    if cs == [] then []
    else (if i > 0 && i % 2 == 0 then " " else "") + [ToAsciiUpper(cs[0])] + SpaceAndUpper(cs[1..], i + 1)
  }

  /** The display text of one chunk, exactly as the reader computes it. */
  function FormatChunk(bs: seq<byte>): (s: string)
    ensures |s| == if bs == [] then 0 else 3 * |bs| - 1
    ensures s == Display(bs)
  {
    FormatIsDisplay(bs, 0);
    DisplayLength(bs);
    SpaceAndUpper(HexEncode(bs), 0)
  }

  // ----- the intended layout, stated independently of the iterator chain -----

  /** Two upper-case Base16 digits for one byte, high nibble first. */
  function UpperPair(b: byte): string
  {
    [Base16Alphabet[b / 16], Base16Alphabet[b % 16]]
  }

  /** Upper-case pairs joined by single spaces. */
  function Display(bs: seq<byte>): string
  {
    if bs == [] then "" else UpperPair(bs[0]) + SpacedPairs(bs[1..])
  }

  /** Upper-case pairs, each preceded by a space. */
  function SpacedPairs(bs: seq<byte>): string
  {
    if bs == [] then "" else " " + UpperPair(bs[0]) + SpacedPairs(bs[1..])
  }

  /** After the first pair comes a space and the display of the rest. */
  lemma DisplayUnfold(bs: seq<byte>)
    requires |bs| > 1
    ensures Display(bs) == UpperPair(bs[0]) + " " + Display(bs[1..])
  {
    assert SpacedPairs(bs[1..]) == " " + Display(bs[1..]);
  }

  lemma UpperOfLowerDigit(d: nat)
    requires d < 16
    ensures ToAsciiUpper(LowerDigits[d]) == Base16Alphabet[d]
  {
  }

  /** The chain on the two digits of one byte, at an even index. */
  lemma SpaceAndUpperPair(b: byte, rest: string, i: nat)
    requires i % 2 == 0
    ensures SpaceAndUpper([LowerDigits[b / 16], LowerDigits[b % 16]] + rest, i)
      == (if i > 0 then " " else "") + UpperPair(b) + SpaceAndUpper(rest, i + 2)
  {
    var hi, lo := LowerDigits[b / 16], LowerDigits[b % 16];
    var cs := [hi, lo] + rest;
    assert cs[0] == hi && cs[1..] == [lo] + rest;
    assert ([lo] + rest)[0] == lo && ([lo] + rest)[1..] == rest;
    UpperOfLowerDigit(b / 16);
    UpperOfLowerDigit(b % 16);
  }

  lemma FormatIsDisplayStep(bs: seq<byte>, i: nat)
    requires bs != [] && i % 2 == 0
    requires SpaceAndUpper(HexEncode(bs[1..]), i + 2) == SpacedPairs(bs[1..])
    ensures SpaceAndUpper(HexEncode(bs), i) == if i == 0 then Display(bs) else SpacedPairs(bs)
  {
    var rest := HexEncode(bs[1..]);
    assert HexEncode(bs) == [LowerDigits[bs[0] / 16], LowerDigits[bs[0] % 16]] + rest;
    SpaceAndUpperPair(bs[0], rest, i);
  }

  /** The iterator chain produces the layout `Display` from index 0, and `SpacedPairs` from any later even index. */
  lemma {:induction false} FormatIsDisplay(bs: seq<byte>, i: nat)
    requires i % 2 == 0
    ensures SpaceAndUpper(HexEncode(bs), i) == if i == 0 then Display(bs) else SpacedPairs(bs)
    decreases |bs|
  {
    if bs != [] {
      FormatIsDisplay(bs[1..], i + 2);
      FormatIsDisplayStep(bs, i);
    }
  }

  lemma {:induction false} DisplayLength(bs: seq<byte>)
    ensures |Display(bs)| == if bs == [] then 0 else 3 * |bs| - 1
    decreases |bs|
  {
    if |bs| > 1 {
      DisplayLength(bs[1..]);
      DisplayUnfold(bs);
    }
  }

  /** Character positions of `Display`: pair `k` sits at `3k` and `3k+1`, a space follows every pair but the last. */
  lemma {:induction false} DisplayAt(bs: seq<byte>, k: nat)
    requires k < |bs|
    ensures |Display(bs)| == 3 * |bs| - 1
    ensures Display(bs)[3 * k] == Base16Alphabet[bs[k] / 16]
    ensures Display(bs)[3 * k + 1] == Base16Alphabet[bs[k] % 16]
    ensures k + 1 < |bs| ==> Display(bs)[3 * k + 2] == ' '
    decreases |bs|
  {
    DisplayLength(bs);
    var d := Display(bs);
    if |bs| == 1 {
      assert d == UpperPair(bs[0]);
    } else {
      DisplayUnfold(bs);
      var t := Display(bs[1..]);
      assert d == UpperPair(bs[0]) + " " + t;
      if k > 0 {
        DisplayAt(bs[1..], k - 1);
        assert d[3 * k] == t[3 * (k - 1)];
        assert d[3 * k + 1] == t[3 * (k - 1) + 1];
        if k + 1 < |bs| {
          assert d[3 * k + 2] == t[3 * (k - 1) + 2];
        }
      }
    }
  }

  /**
   * Every byte of the chunk is rendered as two upper-case Base16 digits, high
   * nibble first and in input order; a character is a space exactly when its
   * position is 2 modulo 3, so pairs are separated by exactly one space and
   * there is no leading or trailing space.
   */
  lemma FormatChunkLayout(bs: seq<byte>)
    ensures |FormatChunk(bs)| == if bs == [] then 0 else 3 * |bs| - 1
    ensures forall k :: 0 <= k < |bs| ==>
      FormatChunk(bs)[3 * k] == Base16Alphabet[bs[k] / 16] && FormatChunk(bs)[3 * k + 1] == Base16Alphabet[bs[k] % 16]
    ensures forall i :: 0 <= i < |FormatChunk(bs)| ==>
      (FormatChunk(bs)[i] == ' ' <==> i % 3 == 2)
    ensures forall i :: 0 <= i < |FormatChunk(bs)| ==>
      FormatChunk(bs)[i] == ' ' || IsBase16Digit(FormatChunk(bs)[i])
  {
    var s := FormatChunk(bs);
    forall k | 0 <= k < |bs|
      ensures s[3 * k] == Base16Alphabet[bs[k] / 16] && s[3 * k + 1] == Base16Alphabet[bs[k] % 16]
    {
      DisplayAt(bs, k);
    }
    forall i | 0 <= i < |s|
      ensures (s[i] == ' ' <==> i % 3 == 2) && (s[i] == ' ' || IsBase16Digit(s[i]))
    {
      DisplayChar(bs, i);
    }
  }

  /** One character of `Display`: a space exactly at positions 2 modulo 3, a Base16 digit elsewhere. */
  lemma DisplayChar(bs: seq<byte>, i: nat)
    requires i < |Display(bs)|
    ensures Display(bs)[i] == ' ' <==> i % 3 == 2
    ensures Display(bs)[i] == ' ' || IsBase16Digit(Display(bs)[i])
  {
    var k, r := i / 3, i % 3;
    assert i == 3 * k + r;
    DisplayLength(bs);
    if r == 0 {
      DisplayHighAt(bs, k);
    } else if r == 1 {
      DisplayLowAt(bs, k);
    } else {
      DisplaySpaceAt(bs, k);
    }
  }

  lemma DisplayHighAt(bs: seq<byte>, k: nat)
    requires k < |bs|
    ensures 3 * k < |Display(bs)| && IsBase16Digit(Display(bs)[3 * k])
  {
    DisplayAt(bs, k);
    AlphabetDigit(bs[k] / 16);
  }

  lemma DisplayLowAt(bs: seq<byte>, k: nat)
    requires k < |bs|
    ensures 3 * k + 1 < |Display(bs)| && IsBase16Digit(Display(bs)[3 * k + 1])
  {
    DisplayAt(bs, k);
    AlphabetDigit(bs[k] % 16);
  }

  lemma DisplaySpaceAt(bs: seq<byte>, k: nat)
    requires 3 * k + 2 < |Display(bs)|
    ensures Display(bs)[3 * k + 2] == ' '
  {
    DisplayLength(bs);
    DisplayAt(bs, k);
  }

  lemma AlphabetDigit(d: nat)
    requires d < 16
    ensures IsBase16Digit(Base16Alphabet[d])
  {
  }

  // ----- reading the display text back -----

  /** The value of one upper-case Base16 digit, if `c` is one. */
  function DigitValue(c: char): (r: Option<nat>)
    ensures r.Some? ==> r.value < 16 && Base16Alphabet[r.value] == c
  {
    if '0' <= c <= '9' then Some(c as int - '0' as int)
    else if 'A' <= c <= 'F' then Some(c as int - 'A' as int + 10)
    else None
  }

  lemma DigitValueOfAlphabet(d: nat)
    requires d < 16
    ensures DigitValue(Base16Alphabet[d]) == Some(d)
  {
  }

  /** The byte spelled by two upper-case Base16 digits, if both are digits. */
  function ParsePair(hi: char, lo: char): (r: Option<byte>)
    ensures r.Some? ==> UpperPair(r.value) == [hi, lo]
  {
    var h, l := DigitValue(hi), DigitValue(lo);
    if h.None? || l.None? then None
    else
      UpperPairOfNibbles(h.value, l.value);
      Some(16 * h.value + l.value)
  }

  lemma UpperPairOfNibbles(h: nat, l: nat)
    requires h < 16 && l < 16
    ensures UpperPair(16 * h + l) == [Base16Alphabet[h], Base16Alphabet[l]]
  {
    assert (16 * h + l) / 16 == h && (16 * h + l) % 16 == l;
  }

  lemma ParsePairOfUpperPair(b: byte)
    ensures ParsePair(UpperPair(b)[0], UpperPair(b)[1]) == Some(b)
  {
    DigitValueOfAlphabet(b / 16);
    DigitValueOfAlphabet(b % 16);
    assert 16 * (b / 16) + b % 16 == b;
  }

  /** Reads the text back: pairs of upper-case digits separated by single spaces. */
  function ParseDisplay(s: string): (r: Option<seq<byte>>)
    decreases |s|
  {
    if s == [] then Some([])
    else if |s| < 2 then None
    else
      var p := ParsePair(s[0], s[1]);
      if p.None? then None
      else if |s| == 2 then Some([p.value])
      else if |s| == 3 || s[2] != ' ' then None
      else
        var rest := ParseDisplay(s[3..]);
        if rest.None? || rest.value == [] then None
        else Some([p.value] + rest.value)
  }

  lemma ParseDisplayOne(b: byte)
    ensures ParseDisplay(UpperPair(b)) == Some([b])
  {
    ParsePairOfUpperPair(b);
  }

  /** A pair, a space and a non-empty display text parse to one byte more. */
  lemma ParseDisplayCons(b: byte, t: string, rest: seq<byte>)
    requires ParseDisplay(t) == Some(rest) && rest != []
    ensures ParseDisplay(UpperPair(b) + " " + t) == Some([b] + rest)
  {
    var s := UpperPair(b) + " " + t;
    ParsePairOfUpperPair(b);
    assert s[0] == UpperPair(b)[0] && s[1] == UpperPair(b)[1] && s[2] == ' ';
    assert s[3..] == t;
  }

  lemma {:induction false} ParseDisplayOfDisplay(bs: seq<byte>)
    ensures ParseDisplay(Display(bs)) == Some(bs)
    decreases |bs|
  {
    if |bs| == 1 {
      assert Display(bs) == UpperPair(bs[0]);
      ParseDisplayOne(bs[0]);
      assert [bs[0]] == bs;
    } else if |bs| > 1 {
      ParseDisplayOfDisplay(bs[1..]);
      DisplayUnfold(bs);
      ParseDisplayCons(bs[0], Display(bs[1..]), bs[1..]);
      assert [bs[0]] + bs[1..] == bs;
    }
  }

  /** Round trip: parsing the display text of a chunk gives back the chunk. */
  lemma ParseFormatChunk(bs: seq<byte>)
    ensures ParseDisplay(FormatChunk(bs)) == Some(bs)
  {
    ParseDisplayOfDisplay(bs);
  }

  lemma {:induction false} ParseDisplayIsDisplay(s: string, bs: seq<byte>)
    requires ParseDisplay(s) == Some(bs)
    ensures s == Display(bs)
    decreases |s|
  {
    if s != [] {
      var b := ParsePair(s[0], s[1]).value;
      if |s| > 2 {
        ParseDisplaySplit(s);
        PairThenSpace(s);
        var rest := ParseDisplay(s[3..]).value;
        ParseDisplayIsDisplay(s[3..], rest);
        DisplayCons(b, rest);
      } else {
        assert s == [s[0], s[1]];
      }
    }
  }

  /** A parse of more than one pair: a pair, a space, and a non-empty parse of the rest. */
  lemma ParseDisplaySplit(s: string)
    requires ParseDisplay(s).Some? && |s| > 2
    ensures ParsePair(s[0], s[1]).Some? && s[2] == ' ' && ParseDisplay(s[3..]).Some?
    ensures ParseDisplay(s[3..]).value != []
    ensures ParseDisplay(s).value == [ParsePair(s[0], s[1]).value] + ParseDisplay(s[3..]).value
  {
    var p := ParsePair(s[0], s[1]);
    var rest := ParseDisplay(s[3..]);
    assert ParseDisplay(s) == if p.None? || |s| == 3 || s[2] != ' ' || rest.None? || rest.value == [] then None
      else Some([p.value] + rest.value);
  }

  /** A parsed pair followed by a space is that pair's rendering and a space. */
  lemma PairThenSpace(s: string)
    requires |s| > 2 && ParsePair(s[0], s[1]).Some? && s[2] == ' '
    ensures s == UpperPair(ParsePair(s[0], s[1]).value) + " " + s[3..]
  {
    var u := UpperPair(ParsePair(s[0], s[1]).value);
    assert u + " " == s[..3] by {
      assert u == [s[0], s[1]];
    }
    assert s == s[..3] + s[3..];
  }

  lemma DisplayCons(b: byte, rest: seq<byte>)
    requires rest != []
    ensures Display([b] + rest) == UpperPair(b) + " " + Display(rest)
  {
    DisplayUnfold([b] + rest);
    assert ([b] + rest)[0] == b && ([b] + rest)[1..] == rest;
  }

  lemma ParseDisplayExact(s: string, bs: seq<byte>)
    requires ParseDisplay(s) == Some(bs)
    ensures s == FormatChunk(bs)
  {
    ParseDisplayIsDisplay(s, bs);
  }
}
