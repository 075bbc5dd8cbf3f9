/** Base64url as section 4 of RFC 4648 draws it: groups of three bytes as four symbols of one alphabet. */
module Base64Groups {
  import opened Wrappers
  import opened Text
  import opened Base64

  /** Table 2 of RFC 4648. */
  const ALPHABET := UPPER + LOWER + "0123456789-_"

  const UPPER := "ABCDEFGHIJKLMNOPQRSTUVWXYZ"

  const LOWER := "abcdefghijklmnopqrstuvwxyz"

  lemma SymbolIs(v: Sextet)
    ensures |ALPHABET| == 64 && Symbol(v) == ALPHABET[v]
  {
    if v < 26 {
      assert UPPER[v] == Symbol(v);
    } else if v < 52 {
      assert LOWER[v - 26] == Symbol(v);
    }
  }

  // ---------------------------------------------------------------- values of longer bit strings

  lemma {:induction false} WeightOfSum(m: nat, n: nat)
    ensures Weight(m + n) == Weight(m) * Weight(n)
  {
    if m > 0 {
      WeightOfSum(m - 1, n);
      assert 2 * (Weight(m - 1) * Weight(n)) == 2 * Weight(m - 1) * Weight(n);
    }
  }

  lemma Distribute(a: nat, b: nat, c: nat)
    ensures (a + b) * c == a * c + b * c
  {}

  lemma ValueCons(b: bool, rest: Bits)
    ensures Value([b] + rest) == (if b then Weight(|rest|) else 0) + Value(rest)
  {
    assert ([b] + rest)[1..] == rest;
  }

  lemma {:induction false} ValueOfConcat(x: Bits, y: Bits)
    ensures Value(x + y) == Value(x) * Weight(|y|) + Value(y)
  {
    if x == [] {
      assert x + y == y;
    } else {
      hide Value, Weight;
      var rest := x[1..];
      ValueOfConcat(rest, y);
      assert x == [x[0]] + rest && x + y == [x[0]] + (rest + y);
      ValueCons(x[0], rest);
      ValueCons(x[0], rest + y);
      WeightOfSum(|rest|, |y|);
      Distribute(Weight(|rest|), Value(rest), Weight(|y|));
    }
  }

  lemma Weights()
    ensures Weight(2) == 4 && Weight(4) == 16 && Weight(6) == 64 && Weight(8) == 256
  {}

  lemma SameBits(x: Bits, y: Bits)
    requires |x| == |y| && Value(x) == Value(y)
    ensures x == y
  {
    BitsOfValue(x);
    BitsOfValue(y);
  }

  lemma AppendByte(x: Bits, b: nat)
    requires b < 256
    ensures Value(x + BitsOf(b, 8)) == Value(x) * 256 + b
  {
    Weights();
    ValueOfBits(b, 8);
    ValueOfConcat(x, BitsOf(b, 8));
  }

  lemma AppendSextet(x: Bits, s: Sextet)
    ensures Value(x + BitsOf(s, 6)) == Value(x) * 64 + s
  {
    Weights();
    ValueOfBits(s, 6);
    ValueOfConcat(x, BitsOf(s, 6));
  }

  lemma {:induction false} AppendZeros(x: Bits, k: nat)
    requires k == 2 || k == 4
    ensures Value(x + Zeros(k)) == Value(x) * (if k == 2 then 4 else 16)
  {
    Weights();
    ValueOfConcat(x, Zeros(k));
    NoValue(k);
  }

  lemma {:induction false} NoValue(k: nat)
    ensures Value(Zeros(k)) == 0
  {
    if k > 0 {
      NoValue(k - 1);
      assert Zeros(k)[1..] == Zeros(k - 1);
    }
  }

  // ---------------------------------------------------------------- symbols

  function Symbols(values: seq<Sextet>): string {
    seq(|values|, i requires 0 <= i < |values| => Symbol(values[i]))
  }

  function SextetBits(values: seq<Sextet>): Bits {
    if values == [] then [] else BitsOf(values[0], 6) + SextetBits(values[1..])
  }

  lemma OneSymbol(v: Sextet, rest: string)
    requires SymbolsToBits(rest).Some?
    ensures SymbolsToBits([Symbol(v)] + rest) == Some(BitsOf(v, 6) + SymbolsToBits(rest).value)
  {
    hide Symbol, SextetOf, BitsOf;
    SymbolRoundTrip();
    assert ([Symbol(v)] + rest)[1..] == rest;
  }

  lemma {:induction false} SymbolsHoldBits(values: seq<Sextet>, rest: string)
    requires SymbolsToBits(rest).Some?
    ensures SymbolsToBits(Symbols(values) + rest) == Some(SextetBits(values) + SymbolsToBits(rest).value)
  {
    hide Symbol, BitsOf, SymbolsToBits;
    if values == [] {
      assert Symbols(values) + rest == rest;
      assert [] + SymbolsToBits(rest).value == SymbolsToBits(rest).value;
    } else {
      SymbolsHoldBits(values[1..], rest);
      OneSymbol(values[0], Symbols(values[1..]) + rest);
      assert Symbols(values) + rest == [Symbol(values[0])] + (Symbols(values[1..]) + rest);
      assert BitsOf(values[0], 6) + (SextetBits(values[1..]) + SymbolsToBits(rest).value)
          == SextetBits(values) + SymbolsToBits(rest).value;
    }
  }

  /** Text of these symbols, then of the rest, encodes bytes whose bits, filled up, are the symbols' bits. */
  lemma SpelledOut(b: string, values: seq<Sextet>, rest: string, spare: nat)
    requires IsBytes(b) && IsBytes(rest) && spare < 6 && (rest != "" ==> spare == 0)
    requires SextetBits(values) == BytesToBits(b) + Zeros(spare)
    ensures IsBytes(b + rest) && Encode(b + rest) == Symbols(values) + Encode(rest)
  {
    hide Symbol, SextetOf, BitsOf, Symbols, SextetBits, BitsToSymbols, SymbolsToBits, Missing;
    var fill := Zeros(Missing(|BytesToBits(rest)|));
    SymbolsCarryBits(BytesToBits(rest));
    SymbolsHoldBits(values, Encode(rest));
    BytesConcat(b, rest);
    var spelled := SextetBits(values) + (BytesToBits(rest) + fill);
    if rest == "" {
      assert fill == [] by { NoneMissing(); }
      assert spelled == BytesToBits(b + rest) + Zeros(spare);
      BitsSpellSymbols(Symbols(values) + Encode(rest), BytesToBits(b + rest), spare);
    } else {
      assert spelled == BytesToBits(b + rest) + fill;
      BitsSpellSymbols(Symbols(values) + Encode(rest), BytesToBits(b + rest), |fill|);
    }
  }

  lemma NoneMissing()
    ensures Missing(0) == 0 && BytesToBits("") == []
  {}

  lemma {:induction false} BytesConcat(b: string, rest: string)
    requires IsBytes(b) && IsBytes(rest)
    ensures IsBytes(b + rest) && BytesToBits(b + rest) == BytesToBits(b) + BytesToBits(rest)
  {
    hide BitsOf;
    if b == "" {
      assert b + rest == rest;
    } else {
      BytesConcat(b[1..], rest);
      assert (b + rest)[1..] == b[1..] + rest;
    }
  }

  // ---------------------------------------------------------------- groups

  /** The number that the bits of some sextets denote. */
  lemma {:induction false} SextetsAppend(values: seq<Sextet>, s: Sextet)
    ensures SextetBits(values + [s]) == SextetBits(values) + BitsOf(s, 6)
    ensures Value(SextetBits(values + [s])) == Value(SextetBits(values)) * 64 + s
  {
    hide BitsOf, Value;
    if values == [] {
      assert values + [s] == [s] && [s][1..] == [];
    } else {
      SextetsAppend(values[1..], s);
      assert (values + [s])[1..] == values[1..] + [s];
    }
    AppendSextet(SextetBits(values), s);
  }

  lemma {:induction false} BytesAppend(b: string, c: char)
    requires IsBytes(b + [c])
    ensures IsBytes(b) && BytesToBits(b + [c]) == BytesToBits(b) + BitsOf(c as int, 8)
    ensures Value(BytesToBits(b + [c])) == Value(BytesToBits(b)) * 256 + c as int
  {
    hide BitsOf, Value;
    assert (b + [c])[|b|] == c;
    forall i | 0 <= i < |b| ensures b[i] < 256 as char { assert (b + [c])[i] == b[i]; }
    BytesConcat(b, [c]);
    assert [c][1..] == [];
    AppendByte(BytesToBits(b), c as int);
  }

  lemma Nothing()
    ensures BytesToBits("") == [] && SextetBits([]) == [] && Value([]) == 0
  {}

  lemma ValueOfSextets(s: Sextet, t: Sextet, u: Sextet, v: Sextet)
    ensures Value(SextetBits([s, t])) == s * 64 + t
    ensures Value(SextetBits([s, t, u])) == (s * 64 + t) * 64 + u
    ensures Value(SextetBits([s, t, u, v])) == ((s * 64 + t) * 64 + u) * 64 + v
    ensures |SextetBits([s, t])| == 12 && |SextetBits([s, t, u])| == 18 && |SextetBits([s, t, u, v])| == 24
  {
    hide BitsOf, Value, SextetBits;
    Nothing();
    SextetsAppend([], s);
    SextetsAppend([s], t);
    SextetsAppend([s, t], u);
    SextetsAppend([s, t, u], v);
    assert [] + [s] == [s] && [s] + [t] == [s, t] && [s, t] + [u] == [s, t, u] && [s, t, u] + [v] == [s, t, u, v];
  }

  lemma ValueOfBytes(a: char, b: char, c: char)
    requires IsBytes([a, b, c])
    ensures IsBytes([a]) && IsBytes([a, b]) && Value(BytesToBits([a])) == a as int
    ensures Value(BytesToBits([a, b])) == a as int * 256 + b as int
    ensures Value(BytesToBits([a, b, c])) == (a as int * 256 + b as int) * 256 + c as int
  {
    hide BitsOf, Value, BytesToBits;
    assert "" + [a] == [a] && [a] + [b] == [a, b] && [a, b] + [c] == [a, b, c];
    BytesAppend([a, b], c);
    BytesAppend([a], b);
    BytesAppend("", a);
    Nothing();
  }

  /** Three bytes and four sextets that are the same number of 24 bits: the bytes are encoded as the
      symbols of the sextets, and the rest as if nothing were before it. */
  lemma ThreeBytes(a: char, b: char, c: char, s: Sextet, t: Sextet, u: Sextet, v: Sextet, rest: string)
    requires IsBytes([a, b, c]) && IsBytes(rest)
    requires (a as int * 256 + b as int) * 256 + c as int == ((s * 64 + t) * 64 + u) * 64 + v
    ensures |ALPHABET| == 64 && IsBytes([a, b, c] + rest)
    ensures Encode([a, b, c] + rest) == [ALPHABET[s], ALPHABET[t], ALPHABET[u], ALPHABET[v]] + Encode(rest)
  {
    hide Value, BitsOf, Symbol, Encode, BytesToBits, SextetBits;
    ValueOfBytes(a, b, c);
    ValueOfSextets(s, t, u, v);
    SameBits(BytesToBits([a, b, c]), SextetBits([s, t, u, v]));
    assert BytesToBits([a, b, c]) + Zeros(0) == BytesToBits([a, b, c]);
    SpelledOut([a, b, c], [s, t, u, v], rest, 0);
    SymbolIs(s);
    SymbolIs(t);
    SymbolIs(u);
    SymbolIs(v);
    hide ALPHABET;
    assert Symbols([s, t, u, v]) == [ALPHABET[s], ALPHABET[t], ALPHABET[u], ALPHABET[v]];
  }

  /** Two bytes at the end take three symbols, filled up with two zero bits. */
  lemma TwoBytes(a: char, b: char, s: Sextet, t: Sextet, u: Sextet)
    requires IsBytes([a, b]) && (a as int * 256 + b as int) * 4 == (s * 64 + t) * 64 + u
    ensures |ALPHABET| == 64 && Encode([a, b]) == [ALPHABET[s], ALPHABET[t], ALPHABET[u]]
  {
    hide Value, BitsOf, Symbol, Encode, BytesToBits, SextetBits;
    ValueOfBytes(a, b, 0 as char);
    ValueOfSextets(s, t, u, 0);
    AppendZeros(BytesToBits([a, b]), 2);
    SameBits(BytesToBits([a, b]) + Zeros(2), SextetBits([s, t, u]));
    SpelledOut([a, b], [s, t, u], "", 2);
    NoRest([a, b]);
    SymbolIs(s);
    SymbolIs(t);
    SymbolIs(u);
    hide ALPHABET;
    assert Symbols([s, t, u]) == [ALPHABET[s], ALPHABET[t], ALPHABET[u]];
  }

  /** One byte at the end takes two symbols, filled up with four zero bits. */
  lemma OneByte(a: char, s: Sextet, t: Sextet)
    requires IsBytes([a]) && a as int * 16 == s * 64 + t
    ensures |ALPHABET| == 64 && Encode([a]) == [ALPHABET[s], ALPHABET[t]]
  {
    hide Value, BitsOf, Symbol, Encode, BytesToBits, SextetBits;
    ValueOfBytes(a, 0 as char, 0 as char);
    ValueOfSextets(s, t, 0, 0);
    AppendZeros(BytesToBits([a]), 4);
    SameBits(BytesToBits([a]) + Zeros(4), SextetBits([s, t]));
    SpelledOut([a], [s, t], "", 4);
    NoRest([a]);
    SymbolIs(s);
    SymbolIs(t);
    hide ALPHABET;
    assert Symbols([s, t]) == [ALPHABET[s], ALPHABET[t]];
  }

  lemma NoRest(b: string)
    ensures Encode("") == "" && b + "" == b
  {}
}
