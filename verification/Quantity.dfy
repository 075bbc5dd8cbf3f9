/** Decimal and hexadecimal quantities at the Fiber JSON-RPC boundary, with Rust's u128 bound. */
module Quantity {
  import opened Wrappers
  import opened Text

  const U128_LIMIT: nat := 0x1_0000_0000_0000_0000_0000_0000_0000_0000

  type Radix = r: nat | r == 10 || r == 16 witness 10

  function DigitValue(c: char): nat {
    if IsDigit(c) then c as int - '0' as int
    else if 'a' <= c <= 'f' then c as int - 'a' as int + 10
    else if 'A' <= c <= 'F' then c as int - 'A' as int + 10
    else 99
  }

  predicate DigitsOf(s: string, radix: Radix) {
    forall i :: 0 <= i < |s| ==> DigitValue(s[i]) < radix
  }

  /** v * radix and n / radix, written per radix so that both stay linear. */
  function Scale(v: nat, radix: Radix): nat { if radix == 10 then v * 10 else v * 16 }

  function Quotient(n: nat, radix: Radix): (q: nat)
    ensures n >= radix ==> 0 < q < n
  {
    if radix == 10 then n / 10 else n / 16
  }

  function Remainder(n: nat, radix: Radix): (r: nat)
    ensures r < radix && n == Scale(Quotient(n, radix), radix) + r
  {
    if radix == 10 then n % 10 else n % 16
  }

  function Value(s: string, radix: Radix): nat
    requires DigitsOf(s, radix)
  {
    if s == "" then 0 else Scale(Value(s[..|s| - 1], radix), radix) + DigitValue(s[|s| - 1])
  }

  /** u128::from_str_radix: one leading '+' is allowed, digits of either case, None on overflow. */
  function ParseU128(s: string, radix: Radix): (r: Option<nat>)
    ensures r.Some? ==> r.value < U128_LIMIT
  {
    var digits := if StartsWith(s, "+") then s[1..] else s;
    if digits == "" || !DigitsOf(digits, radix) then None
    else if Value(digits, radix) < U128_LIMIT then Some(Value(digits, radix))
    else None
  }

  function DigitChar(d: nat): char
    requires d < 16
  {
    if d < 10 then ('0' as int + d) as char else ('a' as int + d - 10) as char
  }

  /** n printed without leading zeros; hexadecimal digits in lower case. */
  function Print(n: nat, radix: Radix): string {
    if n < radix then [DigitChar(n)] else Print(Quotient(n, radix), radix) + [DigitChar(Remainder(n, radix))]
  }

  /** A printed numeral: no leading zero unless it is "0", no upper case, no sign. */
  predicate Canonical(s: string, radix: Radix) {
    && s != "" && DigitsOf(s, radix)
    && (s[0] == '0' ==> s == "0")
    && forall i :: 0 <= i < |s| ==> !IsUpperLetter(s[i])
  }

  /** to_fiber_hex_quantity */
  function ToHexQuantity(value: string): Option<string> {
    match ParseU128(value, 10)
    case None => None
    case Some(n) => Some("0x" + Print(n, 16))
  }

  /** The string branch of parse_rpc_quantity. */
  function ParseRpcText(text: string): Option<nat> {
    if StartsWith(text, "0x") then ParseU128(text[2..], 16) else ParseU128(text, 10)
  }

  lemma DigitCharValue(d: nat)
    requires d < 16
    ensures DigitValue(DigitChar(d)) == d && !IsUpperLetter(DigitChar(d))
  {}

  lemma CharOfDigit(c: char)
    requires DigitValue(c) < 16 && !IsUpperLetter(c)
    ensures DigitChar(DigitValue(c)) == c
  {}

  lemma ValueSnoc(head: string, c: char, radix: Radix)
    requires DigitsOf(head, radix) && DigitValue(c) < radix
    ensures DigitsOf(head + [c], radix)
    ensures Value(head + [c], radix) == Scale(Value(head, radix), radix) + DigitValue(c)
  {
    assert (head + [c])[..|head|] == head;
  }

  lemma {:induction false} PrintIsCanonical(n: nat, radix: Radix)
    ensures Canonical(Print(n, radix), radix)
    ensures Print(n, radix)[0] == '0' ==> n == 0
    ensures Value(Print(n, radix), radix) == n
  {
    hide Quotient, Remainder, DigitChar;
    DigitCharValue(Remainder(n, radix));
    if n < radix {
      assert Print(n, radix) == "" + [DigitChar(n)];
      DigitCharValue(n);
      ValueSnoc("", DigitChar(n), radix);
    } else {
      PrintIsCanonical(Quotient(n, radix), radix);
      ValueSnoc(Print(Quotient(n, radix), radix), DigitChar(Remainder(n, radix)), radix);
    }
  }

  lemma {:induction false} PrintValue(s: string, radix: Radix)
    requires Canonical(s, radix)
    ensures Print(Value(s, radix), radix) == s
    ensures s != "0" ==> Value(s, radix) > 0
  {
    var head, last := s[..|s| - 1], s[|s| - 1];
    assert s == head + [last];
    CharOfDigit(last);
    if head == "" {
      assert s == [last];
      SingleDigit(last, radix);
    } else {
      assert Canonical(head, radix) by { assert head[0] == s[0]; }
      PrintValue(head, radix);
      PrintValueSnoc(head, last, radix);
    }
  }

  lemma PrintValueSnoc(head: string, last: char, radix: Radix)
    requires Canonical(head, radix) && DigitValue(last) < radix && !IsUpperLetter(last)
    requires Print(Value(head, radix), radix) == head && Value(head, radix) > 0
    ensures DigitsOf(head + [last], radix)
    ensures Print(Value(head + [last], radix), radix) == head + [last]
    ensures Value(head + [last], radix) > 0
  {
    CharOfDigit(last);
    ValueSnoc(head, last, radix);
    PrintSnoc(Value(head, radix), DigitValue(last), radix);
  }

  lemma SingleDigit(c: char, radix: Radix)
    requires DigitValue(c) < radix
    ensures Value([c], radix) == DigitValue(c)
  {
    ValueSnoc("", c, radix);
    assert "" + [c] == [c];
  }

  lemma PrintSnoc(v: nat, d: nat, radix: Radix)
    requires v > 0 && d < radix
    ensures Scale(v, radix) + d > 0
    ensures Print(Scale(v, radix) + d, radix) == Print(v, radix) + [DigitChar(d)]
  {
    assert Quotient(Scale(v, radix) + d, radix) == v;
  }

  lemma CanonicalHasNoSign(s: string, radix: Radix)
    requires Canonical(s, radix)
    ensures !StartsWith(s, "+") && !StartsWith(s, "0x")
  {
    assert DigitValue(s[0]) < radix;
    assert |s| > 1 ==> DigitValue(s[1]) < radix;
  }

  /** An amount goes out in hexadecimal exactly when it is below 2^128, and the node's echo of that
      quantity reads back as the same decimal text. */
  lemma AmountRoundTrip(amount: string)
    requires Canonical(amount, 10)
    ensures ToHexQuantity(amount).Some? <==> Value(amount, 10) < U128_LIMIT
    ensures ToHexQuantity(amount).Some? ==>
              var echoed := ParseRpcText(ToHexQuantity(amount).value);
              echoed.Some? && Print(echoed.value, 10) == amount
  {
    CanonicalHasNoSign(amount, 10);
    var n := Value(amount, 10);
    if n < U128_LIMIT {
      PrintIsCanonical(n, 16);
      CanonicalHasNoSign(Print(n, 16), 16);
      var text := ToHexQuantity(amount).value;
      assert text[..2] == "0x" && text[2..] == Print(n, 16);
      PrintValue(amount, 10);
    }
  }
}
