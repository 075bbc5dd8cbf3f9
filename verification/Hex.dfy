/** hex::encode and hex::decode. */
module Hex {
  import opened Wrappers
  import opened Text
  import opened Quantity

  function Encode(b: string): (r: string)
    requires IsBytes(b)
    ensures |r| == 2 * |b|
  {
    if b == "" then "" else [DigitChar(b[0] as int / 16), DigitChar(b[0] as int % 16)] + Encode(b[1..])
  }

  function Pair(high: char, low: char): char
    requires DigitValue(high) < 16 && DigitValue(low) < 16
  {
    (DigitValue(high) * 16 + DigitValue(low)) as char
  }

  function Decode(s: string): (r: Option<string>)
    ensures r.Some? ==> IsBytes(r.value) && |s| == 2 * |r.value|
  {
    if s == "" then Some("")
    else if |s| == 1 || DigitValue(s[0]) >= 16 || DigitValue(s[1]) >= 16 then None
    else
      match Decode(s[2..])
      case None => None
      case Some(rest) => Some([Pair(s[0], s[1])] + rest)
  }

  lemma NibbleRoundTrip(c: char)
    requires c < 256 as char
    ensures Pair(DigitChar(c as int / 16), DigitChar(c as int % 16)) == c
  {
    DigitCharValue(c as int / 16);
    DigitCharValue(c as int % 16);
  }

  lemma {:induction false} DecodeEncode(b: string)
    requires IsBytes(b)
    ensures Decode(Encode(b)) == Some(b)
    ensures forall i :: 0 <= i < |Encode(b)| ==> IsHexDigit(Encode(b)[i]) && !IsUpperLetter(Encode(b)[i])
  {
    if b != "" {
      DecodeEncode(b[1..]);
      NibbleRoundTrip(b[0]);
      assert Encode(b)[2..] == Encode(b[1..]);
      assert b == [b[0]] + b[1..];
    }
  }

  lemma {:induction false} DigitsDecode(s: string)
    requires forall i :: 0 <= i < |s| ==> IsHexDigit(s[i])
    ensures Decode(s).Some? <==> |s| % 2 == 0
    ensures Decode(s).Some? ==> 2 * |Decode(s).value| == |s|
  {
    if |s| >= 2 { DigitsDecode(s[2..]); }
  }

  lemma {:induction false} DecodedDigits(s: string)
    requires Decode(s).Some?
    ensures forall i :: 0 <= i < |s| ==> IsHexDigit(s[i])
  {
    if s != "" {
      DecodedDigits(s[2..]);
      forall i | 0 <= i < |s| ensures IsHexDigit(s[i]) {
        if i >= 2 { assert s[i] == s[2..][i - 2]; }
      }
    }
  }

  /** What decodes to b is the encoding of b in any mix of letter cases, and nothing else. */
  lemma {:induction false} DecodeIffLower(s: string, b: string)
    requires IsBytes(b)
    ensures Decode(s) == Some(b) <==> Lower(s) == Encode(b)
  {
    hide DigitValue, DigitChar, LowerChar, Pair;
    if |s| >= 2 && b != "" {
      DecodeIffLower(s[2..], b[1..]);
      assert Lower(s)[2..] == Lower(s[2..]);
      assert Encode(b)[2..] == Encode(b[1..]);
      PairIffLower(s[0], s[1], b[0]);
      assert b == [b[0]] + b[1..];
      assert Lower(s) == [LowerChar(s[0]), LowerChar(s[1])] + Lower(s[2..]);
    } else {
      assert |Lower(s)| == |s|;
    }
  }

  lemma PairIffLower(high: char, low: char, c: char)
    requires c < 256 as char
    ensures DigitValue(high) < 16 && DigitValue(low) < 16 && Pair(high, low) == c
            <==> LowerChar(high) == DigitChar(c as int / 16) && LowerChar(low) == DigitChar(c as int % 16)
  {
    DigitIffLower(high, c as int / 16);
    DigitIffLower(low, c as int % 16);
  }

  lemma DigitIffLower(c: char, d: nat)
    requires d < 16
    ensures DigitValue(c) == d <==> LowerChar(c) == DigitChar(d)
  {}
}
