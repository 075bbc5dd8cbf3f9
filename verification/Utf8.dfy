/** UTF-8 well-formedness and Unicode white space, on strings of bytes. */
module Utf8 {
  import opened Wrappers
  import opened Text

  predicate Between(c: char, low: int, high: int) { low <= c as int <= high }

  predicate Continuation(c: char) { Between(c, 0x80, 0xBF) }

  /** The length of the well-formed sequence at the start of s, 0 when there is none. */
  function SequenceLength(s: string): (n: nat)
    ensures n <= |s| && n <= 4
  {
    if s == "" then 0
    else if s[0] < 128 as char then 1
    else if |s| < 2 then 0
    else if Between(s[0], 0xC2, 0xDF) && Continuation(s[1]) then 2
    else if |s| < 3 || !Continuation(s[2]) then 0
    else if s[0] == 0xE0 as char && Between(s[1], 0xA0, 0xBF) then 3
    else if s[0] == 0xED as char && Between(s[1], 0x80, 0x9F) then 3
    else if (Between(s[0], 0xE1, 0xEC) || Between(s[0], 0xEE, 0xEF)) && Continuation(s[1]) then 3
    else if |s| < 4 || !Continuation(s[3]) then 0
    else if s[0] == 0xF0 as char && Between(s[1], 0x90, 0xBF) then 4
    else if s[0] == 0xF4 as char && Between(s[1], 0x80, 0x8F) then 4
    else if Between(s[0], 0xF1, 0xF3) && Continuation(s[1]) then 4
    else 0
  }

  predicate Valid(s: string) {
    s == "" || (SequenceLength(s) > 0 && Valid(s[SequenceLength(s)..]))
  }

  lemma {:induction false} AsciiIsValid(s: string)
    requires IsAscii(s)
    ensures Valid(s)
  {
    if s != "" { AsciiIsValid(s[1..]); }
  }

  predicate OneByteSpace(c: char) { Between(c, 9, 13) || c == ' ' }

  predicate TwoByteSpace(a: char, b: char) {
    a == 0xC2 as char && (b == 0x85 as char || b == 0xA0 as char)
  }

  predicate ThreeByteSpace(a: char, b: char, c: char) {
    || (a == 0xE1 as char && b == 0x9A as char && c == 0x80 as char)
    || (a == 0xE2 as char && b == 0x80 as char
        && (Between(c, 0x80, 0x8A) || c == 0xA8 as char || c == 0xA9 as char || c == 0xAF as char))
    || (a == 0xE2 as char && b == 0x81 as char && c == 0x9F as char)
    || (a == 0xE3 as char && b == 0x80 as char && c == 0x80 as char)
  }

  /** The length of the white-space character that s starts with, 0 when it starts with none. */
  function SpaceAtStart(s: string): (n: nat)
    ensures n <= |s|
  {
    if |s| >= 1 && OneByteSpace(s[0]) then 1
    else if |s| >= 2 && TwoByteSpace(s[0], s[1]) then 2
    else if |s| >= 3 && ThreeByteSpace(s[0], s[1], s[2]) then 3
    else 0
  }

  function SpaceAtEnd(s: string): (n: nat)
    ensures n <= |s|
  {
    var k := |s|;
    if k >= 1 && OneByteSpace(s[k - 1]) then 1
    else if k >= 2 && TwoByteSpace(s[k - 2], s[k - 1]) then 2
    else if k >= 3 && ThreeByteSpace(s[k - 3], s[k - 2], s[k - 1]) then 3
    else 0
  }

  function TrimStart(s: string): string {
    if SpaceAtStart(s) == 0 then s else TrimStart(s[SpaceAtStart(s)..])
  }

  function TrimEnd(s: string): string {
    if SpaceAtEnd(s) == 0 then s else TrimEnd(s[..|s| - SpaceAtEnd(s)])
  }

  /** str::trim */
  function Trim(s: string): string { TrimEnd(TrimStart(s)) }

  /** split_once(char::is_whitespace) */
  function SplitOnce(s: string): Option<(string, string)> {
    if s == "" then None
    else if SpaceAtStart(s) > 0 then Some(("", s[SpaceAtStart(s)..]))
    else
      match SplitOnce(s[1..])
      case None => None
      case Some(parts) => Some(([s[0]] + parts.0, parts.1))
  }

  lemma {:induction false} SplitAfterWord(word: string, rest: string)
    requires forall i :: 0 <= i < |word| ==> '!' <= word[i] <= '~'
    ensures SplitOnce(word + " " + rest) == Some((word, rest))
  {
    if word != "" {
      SplitAfterWord(word[1..], rest);
      assert (word + " " + rest)[1..] == word[1..] + " " + rest;
      assert word == [word[0]] + word[1..];
    } else {
      assert (" " + rest)[1..] == rest;
    }
  }
}
