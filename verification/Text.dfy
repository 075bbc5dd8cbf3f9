/** A Rust String is modelled as the sequence of its UTF-8 bytes, one char per byte, so that
    lengths and byte indices are the source's own. */
module Text {
  import opened Wrappers

  predicate IsBytes(s: string) {
    forall i :: 0 <= i < |s| ==> s[i] < 256 as char
  }

  predicate IsAscii(s: string) {
    forall i :: 0 <= i < |s| ==> s[i] < 128 as char
  }

  predicate IsDigit(c: char) { '0' <= c <= '9' }

  predicate IsLowerLetter(c: char) { 'a' <= c <= 'z' }

  predicate IsUpperLetter(c: char) { 'A' <= c <= 'Z' }

  predicate IsAlphanumeric(c: char) { IsDigit(c) || IsLowerLetter(c) || IsUpperLetter(c) }

  predicate IsHexDigit(c: char) { IsDigit(c) || 'a' <= c <= 'f' || 'A' <= c <= 'F' }

  /** u8::is_ascii_whitespace: space, tab, line feed, form feed, carriage return; not vertical tab. */
  predicate IsAsciiSpace(c: char) {
    c == ' ' || c == '\t' || c == '\n' || c == '\r' || c == 12 as char
  }

  /** A match of /^0x[a-f0-9]*$/i, whose prefix, too, may be in either case. */
  predicate IsPrefixedHex(s: string) {
    |s| >= 2 && s[0] == '0' && (s[1] == 'x' || s[1] == 'X') && forall i :: 2 <= i < |s| ==> IsHexDigit(s[i])
  }

  function LowerChar(c: char): char {
    if IsUpperLetter(c) then (c as int + 32) as char else c
  }

  /** to_ascii_lowercase */
  function Lower(s: string): (r: string)
    ensures |r| == |s|
    ensures forall i :: 0 <= i < |s| ==> r[i] == LowerChar(s[i])
  {
    seq(|s|, i requires 0 <= i < |s| => LowerChar(s[i]))
  }

  predicate EqIgnoreAsciiCase(a: string, b: string) {
    Lower(a) == Lower(b)
  }

  predicate All(s: string, p: char -> bool) {
    forall i :: 0 <= i < |s| ==> p(s[i])
  }

  predicate StartsWith(s: string, prefix: string) {
    prefix <= s
  }

  function StripPrefix(s: string, prefix: string): Option<string> {
    if StartsWith(s, prefix) then Some(s[|prefix|..]) else None
  }

  /** str::trim_start_matches("0x"): drops the prefix as often as it repeats. */
  function TrimHexPrefix(s: string): (r: string)
    ensures |r| <= |s|
    ensures !StartsWith(s, "0x") ==> r == s
  {
    if StartsWith(s, "0x") then TrimHexPrefix(s[2..]) else s
  }

  /** str::split on one character. */
  function Split(s: string, c: char): (parts: seq<string>)
    ensures |parts| >= 1
  {
    if s == "" then [""]
    else
      var rest := Split(s[1..], c);
      if s[0] == c then [""] + rest else [[s[0]] + rest[0]] + rest[1..]
  }

  function Join(parts: seq<string>, separator: string): string {
    if |parts| == 0 then ""
    else if |parts| == 1 then parts[0]
    else parts[0] + separator + Join(parts[1..], separator)
  }

  lemma LowerIdempotent(s: string)
    ensures Lower(Lower(s)) == Lower(s)
  {}

  lemma LowerConcat(a: string, b: string)
    ensures Lower(a + b) == Lower(a) + Lower(b)
  {}

  lemma LowerFixed(s: string)
    requires All(s, (c: char) => !IsUpperLetter(c))
    ensures Lower(s) == s
  {}

  lemma {:induction false} SplitPlain(s: string, c: char)
    requires c !in s
    ensures Split(s, c) == [s]
  {
    if s != "" { SplitPlain(s[1..], c); assert s == [s[0]] + s[1..]; }
  }

  lemma {:induction false} SplitFirst(s: string, rest: string, c: char)
    requires c !in s
    ensures Split(s + [c] + rest, c) == [s] + Split(rest, c)
  {
    if s == "" {
      assert ([c] + rest)[1..] == rest;
      assert s + [c] + rest == [c] + rest;
    } else {
      SplitFirst(s[1..], rest, c);
      assert (s + [c] + rest)[1..] == s[1..] + [c] + rest;
      assert s == [s[0]] + s[1..];
    }
  }

  lemma JoinPrepend(first: char, rest: seq<string>, separator: string)
    requires rest != []
    ensures Join([[first] + rest[0]] + rest[1..], separator) == [first] + Join(rest, separator)
  {
    var parts := [[first] + rest[0]] + rest[1..];
    if |rest| > 1 {
      assert parts[1..] == rest[1..];
      assert ([first] + rest[0]) + separator + Join(rest[1..], separator)
          == [first] + (rest[0] + separator + Join(rest[1..], separator));
    }
  }

  lemma {:induction false} SplitJoins(s: string, c: char)
    ensures forall part :: part in Split(s, c) ==> c !in part
    ensures Join(Split(s, c), [c]) == s
  {
    if s != "" {
      SplitJoins(s[1..], c);
      var rest := Split(s[1..], c);
      assert s == [s[0]] + s[1..];
      if s[0] == c {
        assert ([""] + rest)[1..] == rest;
        assert s == "" + [c] + Join(rest, [c]);
      } else {
        JoinPrepend(s[0], rest, [c]);
      }
    }
  }

  /** The parts are the texts without the separator that joined by it make s. */
  lemma {:induction false} SplitIff(s: string, c: char, parts: seq<string>)
    ensures parts == Split(s, c) <==>
            parts != [] && (forall part :: part in parts ==> c !in part) && Join(parts, [c]) == s
    decreases |parts|
  {
    SplitJoins(s, c);
    if parts != [] && (forall part :: part in parts ==> c !in part) && Join(parts, [c]) == s {
      if |parts| == 1 {
        SplitPlain(s, c);
      } else {
        var rest := parts[1..];
        forall part | part in rest ensures c !in part { assert part in parts; }
        SplitIff(Join(rest, [c]), c, rest);
        SplitFirst(parts[0], Join(rest, [c]), c);
        assert parts == [parts[0]] + rest;
      }
    }
  }
}
