/** Unpadded base64url: the bits of the bytes, read off in groups of six (section 5 of RFC 4648). */
module Base64 {
  import opened Wrappers
  import opened Text

  type Sextet = v: nat | v < 64

  function Symbol(v: Sextet): char {
    if v < 26 then ('A' as int + v) as char
    else if v < 52 then ('a' as int + v - 26) as char
    else if v < 62 then ('0' as int + v - 52) as char
    else if v == 62 then '-' else '_'
  }

  function SextetOf(c: char): Option<Sextet> {
    if IsUpperLetter(c) then Some(c as int - 'A' as int)
    else if IsLowerLetter(c) then Some(c as int - 'a' as int + 26)
    else if IsDigit(c) then Some(c as int - '0' as int + 52)
    else if c == '-' then Some(62)
    else if c == '_' then Some(63)
    else None
  }

  // ---------------------------------------------------------------- numbers and bits

  type Bits = seq<bool>

  /** 2 to the power of k. */
  function Weight(k: nat): nat { if k == 0 then 1 else 2 * Weight(k - 1) }

  /** The number that the bits denote, most significant first. */
  function Value(bits: Bits): (v: nat)
    ensures v < Weight(|bits|)
  {
    if bits == [] then 0 else (if bits[0] then Weight(|bits| - 1) else 0) + Value(bits[1..])
  }

  /** The last k bits of n. */
  function BitsOf(n: nat, k: nat): (bits: Bits)
    ensures |bits| == k
  {
    if k == 0 then []
    else if n >= Weight(k - 1) then [true] + BitsOf(n - Weight(k - 1), k - 1)
    else [false] + BitsOf(n, k - 1)
  }

  lemma {:induction false} ValueOfBits(n: nat, k: nat)
    requires n < Weight(k)
    ensures Value(BitsOf(n, k)) == n
  {
    if k > 0 {
      var rest := if n >= Weight(k - 1) then n - Weight(k - 1) else n;
      ValueOfBits(rest, k - 1);
      assert BitsOf(n, k)[1..] == BitsOf(rest, k - 1);
    }
  }

  lemma {:induction false} BitsOfValue(bits: Bits)
    ensures BitsOf(Value(bits), |bits|) == bits
  {
    if bits != [] {
      BitsOfValue(bits[1..]);
      assert bits == [bits[0]] + bits[1..];
    }
  }

  function Zeros(k: nat): Bits { seq(k, _ => false) }

  // ---------------------------------------------------------------- encoding and decoding

  function BytesToBits(b: string): (bits: Bits)
    requires IsBytes(b)
    ensures |bits| == 8 * |b|
  {
    if b == "" then [] else BitsOf(b[0] as int, 8) + BytesToBits(b[1..])
  }

  /** How many bits are left beyond whole bytes. */
  function Spare(n: nat): (m: nat)
    ensures m < 8 && m <= n
  {
    if n < 8 then n else Spare(n - 8)
  }

  function BitsToBytes(bits: Bits): (b: string)
    ensures IsBytes(b) && 8 * |b| + Spare(|bits|) == |bits|
  {
    if |bits| < 8 then ""
    else
      assert Weight(8) == 256;
      [Value(bits[..8]) as char] + BitsToBytes(bits[8..])
  }

  /** How many bits are missing to whole groups of six. */
  function Missing(n: nat): (m: nat)
    ensures m < 6
  {
    if n == 0 then 0 else if n < 6 then 6 - n else Missing(n - 6)
  }

  /** Six bits a symbol, the last group filled up with zeros. */
  function BitsToSymbols(bits: Bits): (s: string)
    ensures 6 * |s| == |bits| + Missing(|bits|)
  {
    assert Weight(6) == 64;
    if bits == [] then ""
    else if |bits| < 6 then [Symbol(Value(bits + Zeros(6 - |bits|)))]
    else [Symbol(Value(bits[..6]))] + BitsToSymbols(bits[6..])
  }

  function SymbolsToBits(s: string): (r: Option<Bits>)
    ensures r.Some? ==> |r.value| == 6 * |s|
  {
    if s == "" then Some([])
    else
      match (SextetOf(s[0]), SymbolsToBits(s[1..]))
      case (Some(v), Some(rest)) => Some(BitsOf(v, 6) + rest)
      case _ => None
  }

  function Encode(b: string): string
    requires IsBytes(b)
  {
    BitsToSymbols(BytesToBits(b))
  }

  /** A decoder for unpadded text. With strict set, the bits that the last symbol carries beyond
      the last byte must be zero, as the Rust engine demands; without it they are ignored, as
      Node's Buffer does. */
  function Decode(s: string, strict: bool): (r: Option<string>)
    ensures r.Some? ==> IsBytes(r.value)
  {
    if |s| % 4 == 1 || SymbolsToBits(s).None? then None
    else
      var bits := SymbolsToBits(s).value;
      var spare := Spare(|bits|);
      if strict && bits[|bits| - spare..] != Zeros(spare) then None else Some(BitsToBytes(bits))
  }

  /** Decode, then encode again and compare with the input. */
  function DecodeChecked(s: string, strict: bool): Option<string> {
    match Decode(s, strict)
    case None => None
    case Some(b) => if Encode(b) == s then Some(b) else None
  }

  predicate IsAlphabet(s: string) {
    forall i :: 0 <= i < |s| ==> SextetOf(s[i]).Some?
  }

  lemma SymbolRoundTrip()
    ensures forall v: Sextet {:trigger Symbol(v)} :: SextetOf(Symbol(v)) == Some(v)
    ensures forall c {:trigger SextetOf(c)} :: SextetOf(c).Some? ==> Symbol(SextetOf(c).value) == c
  {}

  lemma {:induction false} EncodeUsesAlphabet(b: string)
    requires IsBytes(b)
    ensures IsAlphabet(Encode(b))
    ensures 8 * |b| <= 6 * |Encode(b)| < 8 * |b| + 6
  {
    SymbolsAreAlphabet(BytesToBits(b));
  }

  lemma {:induction false} SymbolsAreAlphabet(bits: Bits)
    ensures IsAlphabet(BitsToSymbols(bits))
  {
    hide Symbol, SextetOf, Value;
    SymbolRoundTrip();
    if |bits| >= 6 { SymbolsAreAlphabet(bits[6..]); }
  }

  lemma FirstByte(group: Bits, rest: Bits)
    requires |group| == 8
    ensures Value(group) < 256 && BitsToBytes(group + rest) == [Value(group) as char] + BitsToBytes(rest)
    ensures Spare(|group + rest|) == Spare(|rest|)
  {
    hide Value;
    assert Weight(8) == 256;
    assert (group + rest)[..8] == group && (group + rest)[8..] == rest;
  }

  lemma FirstBits(c: char, rest: string)
    requires c < 256 as char && IsBytes(rest)
    ensures IsBytes([c] + rest) && BytesToBits([c] + rest) == BitsOf(c as int, 8) + BytesToBits(rest)
  {
    hide BitsOf;
    assert ([c] + rest)[1..] == rest;
  }

  lemma {:induction false} BytesRoundTrip(b: string, rest: Bits)
    requires IsBytes(b) && |rest| < 8
    ensures BitsToBytes(BytesToBits(b) + rest) == b && Spare(|BytesToBits(b) + rest|) == |rest|
  {
    if b == "" {
      assert BytesToBits(b) + rest == rest;
    } else {
      hide BitsOf, Value, BitsToBytes, BytesToBits, Spare;
      var group, tail := BitsOf(b[0] as int, 8), BytesToBits(b[1..]);
      assert b == [b[0]] + b[1..];
      FirstBits(b[0], b[1..]);
      assert group + tail + rest == group + (tail + rest);
      FirstByte(group, tail + rest);
      assert Weight(8) == 256;
      ValueOfBits(b[0] as int, 8);
      BytesRoundTrip(b[1..], rest);
    }
  }

  lemma {:induction false} BitsRoundTrip(bits: Bits)
    ensures BytesToBits(BitsToBytes(bits)) == bits[..|bits| - Spare(|bits|)]
  {
    if |bits| >= 8 {
      hide BitsOf, Value, Spare, BytesToBits, BitsToBytes;
      var group, rest := bits[..8], bits[8..];
      assert bits == group + rest;
      FirstByte(group, rest);
      FirstBits(Value(group) as char, BitsToBytes(rest));
      BitsOfValue(group);
      BitsRoundTrip(rest);
      TakeSplits(group, rest, |rest| - Spare(|rest|));
    }
  }

  lemma TakeSplits(a: Bits, b: Bits, n: nat)
    requires n <= |b|
    ensures (a + b)[..|a| + n] == a + b[..n]
  {}

  /** Symbols carry their bits, and zeros up to the next group of six. */
  lemma {:induction false} SymbolsCarryBits(bits: Bits)
    ensures SymbolsToBits(BitsToSymbols(bits)) == Some(bits + Zeros(Missing(|bits|)))
  {
    hide Symbol, SextetOf, BitsOf, Value;
    SymbolRoundTrip();
    var fill := Zeros(Missing(|bits|));
    if bits == [] {
      assert bits + fill == [];
    } else if |bits| < 6 {
      NextSymbol(bits + fill, "");
      assert bits + fill + [] == bits + fill;
    } else {
      SymbolsCarryBits(bits[6..]);
      NextSymbol(bits[..6], BitsToSymbols(bits[6..]));
      assert bits + fill == bits[..6] + (bits[6..] + fill);
    }
  }

  lemma NextSymbol(group: Bits, rest: string)
    requires |group| == 6 && SymbolsToBits(rest).Some?
    ensures Value(group) < 64 && SymbolsToBits([Symbol(Value(group))] + rest) == Some(group + SymbolsToBits(rest).value)
  {
    hide Symbol, SextetOf, BitsOf, Value;
    SymbolRoundTrip();
    assert Weight(6) == 64;
    BitsOfValue(group);
    assert ([Symbol(Value(group))] + rest)[1..] == rest;
  }

  /** A text is the symbols of its bits, and still is when fewer than six zeros at the end are left out. */
  lemma {:induction false} BitsSpellSymbols(s: string, bits: Bits, spare: nat)
    requires SymbolsToBits(s) == Some(bits + Zeros(spare)) && spare < 6
    ensures BitsToSymbols(bits) == s
    decreases |s|
  {
    hide Symbol, SextetOf, BitsOf, Value;
    SymbolRoundTrip();
    if s != "" {
      var v := SextetOf(s[0]).value;
      var all := bits + Zeros(spare);
      ValueOfBits(v, 6) by { assert Weight(6) == 64; }
      assert all[..6] == BitsOf(v, 6) && all[6..] == SymbolsToBits(s[1..]).value;
      assert s == [s[0]] + s[1..];
      if |bits| < 6 {
        assert all == bits + Zeros(6 - |bits|) && s[1..] == "";
        assert all == all[..6];
      } else {
        assert bits[..6] == all[..6] && all[6..] == bits[6..] + Zeros(spare);
        BitsSpellSymbols(s[1..], bits[6..], spare);
      }
    }
  }

  lemma DecodeEncode(b: string, strict: bool)
    requires IsBytes(b)
    ensures Decode(Encode(b), strict) == Some(b)
  {
    hide BytesToBits, BitsToBytes, BitsToSymbols, SymbolsToBits, Missing, Spare;
    var bits := BytesToBits(b);
    var fill := Zeros(Missing(|bits|));
    SymbolsCarryBits(bits);
    BytesRoundTrip(b, fill);
    assert (bits + fill)[|bits|..] == fill;
    assert |Encode(b)| == 4 * (|Encode(b)| / 4) + |Encode(b)| % 4;
  }

  lemma {:induction false} SpareOfSymbols(k: nat)
    requires k % 4 != 1
    ensures Spare(6 * k) < 6
  {
    if k >= 4 {
      SpareOfSymbols(k - 4);
      assert Spare(6 * k) == Spare(6 * k - 8) == Spare(6 * k - 16) == Spare(6 * (k - 4));
    }
  }

  lemma EncodeDecode(s: string)
    requires Decode(s, true).Some?
    ensures Encode(Decode(s, true).value) == s
  {
    hide BytesToBits, BitsToBytes, BitsToSymbols, SymbolsToBits, Spare;
    var bits := SymbolsToBits(s).value;
    var spare := Spare(|bits|);
    var whole := bits[..|bits| - spare];
    SpareOfSymbols(|s|);
    assert bits == whole + bits[|bits| - spare..];
    BitsRoundTrip(bits);
    BitsSpellSymbols(s, whole, spare);
  }

  /** Every byte string has one accepted text and every accepted text one byte string, whether or
      not the decoder underneath ignores the spare bits. */
  lemma CheckedDecodeIsInverse(s: string, b: string, strict: bool)
    requires IsBytes(b)
    ensures DecodeChecked(s, strict) == Some(b) <==> s == Encode(b)
  {
    DecodeEncode(b, strict);
  }

  lemma StrictDecodeIsInverse(s: string, b: string)
    requires IsBytes(b)
    ensures Decode(s, true) == Some(b) <==> s == Encode(b)
  {
    DecodeEncode(b, true);
    if Decode(s, true).Some? { EncodeDecode(s); }
  }

  lemma EncodeInjective(a: string, b: string)
    requires IsBytes(a) && IsBytes(b)
    requires Encode(a) == Encode(b)
    ensures a == b
  {
    DecodeEncode(a, true);
    DecodeEncode(b, true);
  }

  /** base64urlDecode of the TypeScript core: non-empty text over the alphabet, decoded leniently
      and compared with its re-encoding. */
  function TsDecode(s: string): Option<string> {
    if s == "" || !IsAlphabet(s) then None else DecodeChecked(s, false)
  }

  /** The two languages' decoders differ on the empty text only. */
  lemma TsDecodeAgrees(s: string)
    ensures TsDecode(s) == if s == "" then None else Decode(s, true)
  {
    if Decode(s, true).Some? {
      EncodeDecode(s);
      DecodeEncode(Decode(s, true).value, false);
      EncodeUsesAlphabet(Decode(s, true).value);
    }
    if TsDecode(s).Some? {
      DecodeEncode(TsDecode(s).value, true);
    }
  }
}
