/** UTF-8 by code points, as section 3 of RFC 3629 draws it, and the White_Space property of Unicode. */
module Utf8Points {
  import opened Wrappers
  import opened Text
  import opened Utf8

  /** The bytes are the encoding of the code point, which is no surrogate: six bits in each byte but the
      first, behind the mark 10. */
  predicate Encodes(s: string, p: int) {
    || (|s| == 1 && 0 <= p < 0x80 && s[0] as int == p)
    || (|s| == 2 && 0x80 <= p < 0x800 && Continuation(s[1])
        && p == (s[0] as int - 0xC0) * 64 + (s[1] as int - 0x80))
    || (|s| == 3 && 0x800 <= p < 0x10000 && !(0xD800 <= p < 0xE000) && Continuation(s[1]) && Continuation(s[2])
        && p == ((s[0] as int - 0xE0) * 64 + (s[1] as int - 0x80)) * 64 + (s[2] as int - 0x80))
    || (|s| == 4 && 0x10000 <= p < 0x110000 && Continuation(s[1]) && Continuation(s[2]) && Continuation(s[3])
        && p == (((s[0] as int - 0xF0) * 64 + (s[1] as int - 0x80)) * 64 + (s[2] as int - 0x80)) * 64
                + (s[3] as int - 0x80))
  }

  /** The code point that the first n bytes may stand for. */
  function PointOf(s: string, n: nat): int
    requires n <= |s|
  {
    if n == 1 then s[0] as int
    else if n == 2 then (s[0] as int - 0xC0) * 64 + (s[1] as int - 0x80)
    else if n == 3 then ((s[0] as int - 0xE0) * 64 + (s[1] as int - 0x80)) * 64 + (s[2] as int - 0x80)
    else if n == 4 then
      (((s[0] as int - 0xF0) * 64 + (s[1] as int - 0x80)) * 64 + (s[2] as int - 0x80)) * 64 + (s[3] as int - 0x80)
    else 0
  }

  /** A sequence is found at the start exactly where one code point is encoded. */
  lemma SequenceIff(s: string, n: nat)
    requires 0 < n <= |s|
    ensures SequenceLength(s) == n <==> exists p :: Encodes(s[..n], p)
  {
    var head := s[..n];
    if SequenceLength(s) == n { assert Encodes(head, PointOf(s, n)); }
  }

  /** Code points one after the other. */
  ghost predicate WellFormed(s: string) {
    s == "" || exists n: nat, p :: 0 < n <= |s| && Encodes(s[..n], p) && WellFormed(s[n..])
  }

  /** A string is valid exactly when it is the encoding of code points. */
  lemma {:induction false} ValidIff(s: string)
    ensures Valid(s) <==> WellFormed(s)
  {
    hide Encodes;
    if s != "" {
      if Valid(s) {
        var n := SequenceLength(s);
        SequenceIff(s, n);
        ValidIff(s[n..]);
      }
      if WellFormed(s) {
        var n: nat, p :| 0 < n <= |s| && Encodes(s[..n], p) && WellFormed(s[n..]);
        SequenceIff(s, n);
        ValidIff(s[n..]);
      }
    }
  }

  // ---------------------------------------------------------------- white space

  /** PropList.txt of the Unicode character database, White_Space. */
  predicate IsWhiteSpace(p: int) {
    || 0x9 <= p <= 0xD || p == 0x20 || p == 0x85 || p == 0xA0 || p == 0x1680 || 0x2000 <= p <= 0x200A
    || p == 0x2028 || p == 0x2029 || p == 0x202F || p == 0x205F || p == 0x3000
  }

  /** The bytes are one white-space character. */
  ghost predicate IsSpace(s: string) { exists p :: IsWhiteSpace(p) && Encodes(s, p) }

  lemma SpaceIff(s: string)
    ensures IsSpace(s) <==>
      || (|s| == 1 && OneByteSpace(s[0])) || (|s| == 2 && TwoByteSpace(s[0], s[1]))
      || (|s| == 3 && ThreeByteSpace(s[0], s[1], s[2]))
  {
    var p := PointOf(s, |s|);
    if IsWhiteSpace(p) { assert Encodes(s, p) || !Encodes(s, p); }
  }

  /** White space is found at the start and at the end exactly where one such character is encoded. */
  lemma SpacesFound(s: string, n: nat)
    requires 0 < n <= |s|
    ensures SpaceAtStart(s) == n <==> IsSpace(s[..n])
    ensures SpaceAtEnd(s) == n ==> IsSpace(s[|s| - n..])
  {
    SpaceIff(s[..n]);
    SpaceIff(s[|s| - n..]);
  }

  ghost predicate EndsInSpace(s: string) { exists k :: 0 <= k < |s| && IsSpace(s[k..]) }

  lemma EndsInSpaceIff(s: string)
    ensures SpaceAtEnd(s) == 0 <==> !EndsInSpace(s)
  {
    hide IsSpace;
    forall k | 0 <= k < |s|
      ensures IsSpace(s[k..]) ==> SpaceAtEnd(s) > 0
      ensures SpaceAtEnd(s) == |s| - k ==> IsSpace(s[k..])
    {
      SpaceIff(s[k..]);
    }
    if SpaceAtEnd(s) > 0 { assert IsSpace(s[|s| - SpaceAtEnd(s)..]); }
  }

  /** White space and nothing else. */
  ghost predicate Blank(s: string) {
    s == "" || exists n :: 0 < n <= |s| && IsSpace(s[..n]) && Blank(s[n..])
  }

  lemma {:induction false} BlankThenSpace(s: string, n: nat)
    requires n <= |s| && Blank(s[..n]) && IsSpace(s[n..])
    ensures Blank(s)
  {
    hide IsSpace;
    if n == 0 {
      assert s[0..] == s && s[|s|..] == "" && s[..|s|] == s;
      NotEmpty(s);
    } else {
      var head := s[..n];
      var m :| 0 < m <= |head| && IsSpace(head[..m]) && Blank(head[m..]);
      assert head[..m] == s[..m] && head[m..] == s[m..][..n - m] && s[m..][n - m..] == s[n..];
      BlankThenSpace(s[m..], n - m);
    }
  }

  lemma NotEmpty(s: string)
    requires IsSpace(s)
    ensures s != ""
  {}

  lemma {:induction false} StartIsTrimmed(s: string) returns (n: nat)
    ensures n <= |s| && TrimStart(s) == s[n..] && Blank(s[..n]) && SpaceAtStart(s[n..]) == 0
  {
    hide IsSpace;
    if SpaceAtStart(s) == 0 {
      n := 0;
    } else {
      var k := SpaceAtStart(s);
      SpacesFound(s, k);
      var m := StartIsTrimmed(s[k..]);
      n := k + m;
      assert s[..n][..k] == s[..k] && s[..n][k..] == s[k..][..m] && s[n..] == s[k..][m..];
    }
  }

  lemma {:induction false} EndIsTrimmed(s: string) returns (n: nat)
    ensures n <= |s| && TrimEnd(s) == s[..n] && Blank(s[n..]) && SpaceAtEnd(s[..n]) == 0
  {
    hide IsSpace;
    if SpaceAtEnd(s) == 0 {
      n := |s|;
      assert s[..n] == s;
    } else {
      var k := |s| - SpaceAtEnd(s);
      SpacesFound(s, SpaceAtEnd(s));
      n := EndIsTrimmed(s[..k]);
      assert s[..k][..n] == s[..n];
      assert s[n..][..k - n] == s[..k][n..] && s[n..][k - n..] == s[k..];
      BlankThenSpace(s[n..], k - n);
    }
  }

  /** Trimming takes white space off both ends, and all of it. */
  lemma TrimIs(s: string) returns (i: nat, j: nat)
    ensures i <= j <= |s| && Trim(s) == s[i..j] && Blank(s[..i]) && Blank(s[j..]) && !EndsInSpace(Trim(s))
    ensures SpaceAtStart(s[i..]) == 0
  {
    i := StartIsTrimmed(s);
    hide Blank, IsSpace, EndsInSpace, SpaceAtEnd, SpaceAtStart;
    var n := EndIsTrimmed(s[i..]);
    j := i + n;
    assert s[i..][..n] == s[i..j] && s[i..][n..] == s[j..];
    EndsInSpaceIff(s[i..j]);
  }

  /** The first white-space character of s stands between word and rest. */
  ghost predicate SplitsAt(s: string, word: string, rest: string) {
    && |word| + |rest| < |s| && word == s[..|word|] && rest == s[|s| - |rest|..]
    && IsSpace(s[|word|..|s| - |rest|])
    && forall i :: 0 <= i < |word| ==> SpaceAtStart(s[i..]) == 0
  }

  lemma SplitsBehind(s: string, word: string, rest: string)
    requires s != "" && SpaceAtStart(s) == 0
    ensures SplitsAt(s, word, rest) <==> word != "" && word[0] == s[0] && SplitsAt(s[1..], word[1..], rest)
  {
    hide SpaceAtStart, IsSpace;
    if word == "" {
      if |rest| < |s| { NoSpaceThere(s, |s| - |rest|); }
    } else if |word| + |rest| < |s| {
      SameEnds(s, word, rest);
      LaterSpaces(s, word);
    }
  }

  lemma SameEnds(s: string, word: string, rest: string)
    requires s != "" && word != "" && |word| + |rest| < |s|
    ensures var tail, head := s[1..], word[1..];
      && tail[|head|..|tail| - |rest|] == s[|word|..|s| - |rest|] && tail[|tail| - |rest|..] == s[|s| - |rest|..]
      && (word == s[..|word|] <==> word[0] == s[0] && head == tail[..|head|])
  {
    assert s[..|word|] == [s[0]] + s[1..][..|word| - 1];
    assert word == [word[0]] + word[1..];
  }

  lemma LaterSpaces(s: string, word: string)
    requires s != "" && SpaceAtStart(s) == 0 && word != "" && |word| <= |s|
    ensures (forall i :: 0 <= i < |word| ==> SpaceAtStart(s[i..]) == 0)
            <==> forall i :: 0 <= i < |word| - 1 ==> SpaceAtStart(s[1..][i..]) == 0
  {
    hide SpaceAtStart;
    assert s[0..] == s;
    forall i | 0 < i < |word| ensures s[i..] == s[1..][i - 1..] {}
    forall i | 0 <= i < |word| - 1 ensures s[1..][i..] == s[i + 1..] {}
  }

  lemma NoSpaceThere(s: string, n: nat)
    requires 0 < n <= |s| && SpaceAtStart(s) == 0
    ensures !IsSpace(s[0..n])
  {
    SpacesFound(s, n);
    assert s[0..n] == s[..n];
  }

  /** A string is split at its first white-space character. */
  lemma {:induction false} SplitIff(s: string, word: string, rest: string)
    ensures SplitOnce(s) == Some((word, rest)) <==> SplitsAt(s, word, rest)
  {
    hide SplitsAt;
    if s == "" {
      NothingSplits(word, rest);
    } else if SpaceAtStart(s) == 0 {
      SplitsBehind(s, word, rest);
      if word != "" {
        SplitIff(s[1..], word[1..], rest);
        assert word == [word[0]] + word[1..];
      }
    } else {
      SplitsHere(s, word, rest);
    }
  }

  lemma NothingSplits(word: string, rest: string)
    ensures !SplitsAt("", word, rest)
  {}

  lemma SplitsHere(s: string, word: string, rest: string)
    requires SpaceAtStart(s) > 0
    ensures SplitsAt(s, word, rest) <==> word == "" && rest == s[SpaceAtStart(s)..]
  {
    hide IsSpace;
    assert s[0..] == s;
    if word == "" && |rest| < |s| {
      SpacesFound(s, |s| - |rest|);
      assert s[0..|s| - |rest|] == s[..|s| - |rest|];
    }
  }
}
