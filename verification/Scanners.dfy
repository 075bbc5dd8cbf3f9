/** The index-driven loops of the two auth-param scanners, and how the two languages compare. */
module Scanners {
  import opened Wrappers
  import opened Text
  import opened AuthParams
  import Utf8

  // ---------------------------------------------------------------- the Rust loops

  method SkipWhile(input: string, start: nat, p: char -> bool) returns (index: nat)
    requires start <= |input|
    ensures start <= index <= |input|
    ensures input[index..] == DropWhile(input[start..], p)
    ensures input[start..index] == TakeWhile(input[start..], p)
  {
    index := start;
    while index < |input| && p(input[index])
      invariant start <= index <= |input|
      invariant DropWhile(input[index..], p) == DropWhile(input[start..], p)
    {
      assert input[index..][1..] == input[index + 1..];
      index := index + 1;
    }
    assert input[index..] == DropWhile(input[start..], p);
    assert |input[start..]| - |input[index..]| == index - start;
  }

  /** looks_like_auth_param */
  method LooksLike(input: string) returns (found: bool)
    ensures found == LooksLikeAuthParam(input)
  {
    var start := SkipWhile(input, 0, IsAsciiSpace);
    assert input[0..] == input;
    var index := SkipWhile(input, start, IsNameChar);
    if start == index {
      return false;
    }
    var atEquals := SkipWhile(input, index, IsAsciiSpace);
    found := atEquals < |input| && input[atEquals] == '=';
  }

  lemma PrependTwice(a: string, b: string, r: Option<(string, string)>)
    ensures Prepend(a, Prepend(b, r)) == Prepend(a + b, r)
  {
    if r.Some? { assert a + (b + r.value.0) == (a + b) + r.value.0; }
  }

  lemma PrependNothing(r: Option<(string, string)>)
    ensures Prepend("", r) == r
  {
    if r.Some? { assert "" + r.value.0 == r.value.0; }
  }

  /** The quoted branch: from the byte after the opening quote to the one after the closing quote. */
  method ScanQuoted(input: string, start: nat) returns (closed: bool, value: string, index: nat)
    requires start <= |input|
    ensures start <= index <= |input|
    ensures closed == Quoted(input[start..]).Some?
    ensures closed ==> Quoted(input[start..]).value == (value, input[index..]) && start < index
  {
    index, value, closed := start, "", false;
    PrependNothing(Quoted(input[start..]));
    while index < |input| && !closed
      invariant start <= index <= |input|
      invariant !closed ==> Quoted(input[start..]) == Prepend(value, Quoted(input[index..]))
      invariant closed ==> Quoted(input[start..]) == Some((value, input[index..])) && start < index
      decreases |input| - index, !closed
    {
      ghost var here := input[index..];
      if input[index] == '"' {
        assert here[1..] == input[index + 1..];
        index := index + 1;
        closed := true;
        assert value + "" == value;
      } else if input[index] == '\\' && index + 1 < |input| {
        assert here[2..] == input[index + 2..] && here[1] == input[index + 1];
        PrependTwice(value, [input[index + 1]], Quoted(input[index + 2..]));
        index := index + 1;
        value := value + [input[index]];
        index := index + 1;
      } else {
        assert here[1..] == input[index + 1..];
        PrependTwice(value, [input[index]], Quoted(input[index + 1..]));
        value := value + [input[index]];
        index := index + 1;
      }
    }
  }

  method ScanValue(input: string, start: nat, bare: char -> bool) returns (closed: bool, value: string, index: nat)
    requires start <= |input|
    ensures start <= index <= |input|
    ensures closed == ReadValue(input[start..], bare).Some?
    ensures closed ==> ReadValue(input[start..], bare).value == (value, input[index..])
  {
    if start < |input| && input[start] == '"' {
      assert input[start..][1..] == input[start + 1..];
      closed, value, index := ScanQuoted(input, start + 1);
    } else {
      index := SkipWhile(input, start, bare);
      closed, value := true, input[start..index];
    }
  }

  /** One turn of the loop of parse_auth_params, from a byte index to the next. */
  method ScanTurn(input: string, index: nat) returns (turn: Turn, next: nat)
    requires index < |input|
    ensures turn == Next(input[index..])
    ensures turn.Found? ==> next <= |input| && turn.rest == input[next..]
  {
    hide Quoted, ReadValue, DropWhile, IsAsciiSpace, Utf8.Valid;
    var keyStart := SkipWhile(input, index, IsSeparator);
    var keyEnd := SkipWhile(input, keyStart, IsNameChar);
    if keyStart == keyEnd {
      return Finished, index;
    }
    var key := Lower(input[keyStart..keyEnd]);
    assert Next(input[index..]) == AfterName(key, input[keyEnd..]);
    hide Next;
    var atEquals := SkipWhile(input, keyEnd, IsAsciiSpace);
    if !(atEquals < |input| && input[atEquals] == '=') {
      var other := LooksLike(input[atEquals..]);
      return if atEquals > keyEnd && other then Finished else Broken, index;
    }
    assert input[atEquals..][1..] == input[atEquals + 1..];
    var valueStart := SkipWhile(input, atEquals + 1, IsAsciiSpace);
    var closed, value, end := ScanValue(input, valueStart, IsBareChar);
    if !closed || !Utf8.Valid(value) {
      return Broken, index;
    }
    turn, next := Found(key, value, input[end..]), end;
  }

  /** parse_auth_params */
  method ParseAuthParams(input: string) returns (r: Result<Params, ParamError>)
    ensures r == Parse(input, map[])
  {
    hide Next;
    var result: Params := map[];
    var index := 0;
    assert input[0..] == input;
    while index < |input|
      invariant index <= |input|
      invariant Parse(input, map[]) == Parse(input[index..], result)
      decreases |input| - index
    {
      var turn, next := ScanTurn(input, index);
      match turn
      case Finished => break;
      case Broken => return Err(Malformed);
      case Found(key, value, _) =>
        if key in result {
          return Err(Duplicate);
        }
        result := result[key := value];
        index := next;
    }
    if index == |input| {
      assert input[index..] == "";
      NextOfEmpty();
    }
    r := Ok(result);
  }

  // ---------------------------------------------------------------- the TypeScript loop

  /** The class \s of a JavaScript regular expression. */
  predicate IsJsSpace(c: char) {
    || 9 as char <= c <= 13 as char || c == ' ' || c == 0xA0 as char || c == 0x1680 as char
    || 0x2000 as char <= c <= 0x200A as char || c == 0x2028 as char || c == 0x2029 as char
    || c == 0x202F as char || c == 0x205F as char || c == 0x3000 as char || c == 0xFEFF as char
  }

  predicate IsJsSeparator(c: char) { IsJsSpace(c) || c == ',' }

  predicate IsJsBareChar(c: char) { !IsJsSeparator(c) }

  /** /^[A-Za-z][A-Za-z0-9_-]*\s*=/ on text without leading white space. */
  predicate TsLooksLikeAuthParam(rest: string) {
    && rest != "" && (IsLowerLetter(rest[0]) || IsUpperLetter(rest[0]))
    && HeadIs(DropWhile(DropWhile(rest, IsNameChar), IsJsSpace), '=')
  }

  /** One turn of the loop of parseAuthParams. */
  function TsNext(s: string): (t: Turn)
    requires s != ""
    ensures t.Found? ==> |t.rest| < |s|
  {
    var atName := DropWhile(s, IsJsSeparator);
    var afterName := DropWhile(atName, IsNameChar);
    var atEquals := DropWhile(afterName, IsJsSpace);
    if afterName == atName || !HeadIs(atEquals, '=') then
      if afterName != atName && |atEquals| < |afterName|
         && TsLooksLikeAuthParam(DropWhile(atEquals, IsJsSpace)) then Finished else Broken
    else
      match ReadValue(DropWhile(atEquals[1..], IsJsSpace), IsJsBareChar)
      case None => Broken
      case Some((value, rest)) => Found(Lower(TakeWhile(atName, IsNameChar)), value, rest)
  }

  const PROTO := "__proto__"

  /** Assigning a string to the __proto__ property of a plain object changes nothing. */
  function Assign(result: Params, key: string, value: string): Params {
    if key == PROTO then result else result[key := value]
  }

  function TsParse(s: string, read: Params): Result<Params, ParamError>
    decreases |s|
  {
    if s == "" then Ok(read)
    else
      match TsNext(s)
      case Finished => Ok(read)
      case Broken => Err(Malformed)
      case Found(name, value, rest) =>
        if name in read then Err(Duplicate) else TsParse(rest, Assign(read, name, value))
  }

  /** One turn of the loop of parseAuthParams. */
  method TsScanTurn(input: string, index: nat) returns (turn: Turn, next: nat)
    requires index < |input|
    ensures turn == TsNext(input[index..])
    ensures turn.Found? ==> next <= |input| && turn.rest == input[next..]
  {
    hide Quoted, ReadValue, DropWhile, IsJsSpace, TsLooksLikeAuthParam;
    var keyStart := SkipWhile(input, index, IsJsSeparator);
    var keyEnd := SkipWhile(input, keyStart, IsNameChar);
    var rawKey := input[keyStart..keyEnd];
    var atEquals := SkipWhile(input, keyEnd, IsJsSpace);
    if rawKey == "" || !(atEquals < |input| && input[atEquals] == '=') {
      var restStart := SkipWhile(input, atEquals, IsJsSpace);
      return if rawKey != "" && atEquals > keyEnd && TsLooksLikeAuthParam(input[restStart..]) then Finished
          else Broken, index;
    }
    var key := Lower(rawKey);
    assert input[atEquals..][1..] == input[atEquals + 1..];
    var valueStart := SkipWhile(input, atEquals + 1, IsJsSpace);
    var closed, value, end := ScanValue(input, valueStart, IsJsBareChar);
    if !closed {
      return Broken, index;
    }
    turn, next := Found(key, value, input[end..]), end;
  }

  /** parseAuthParams */
  method TsParseAuthParams(input: string) returns (r: Result<Params, ParamError>)
    ensures r == TsParse(input, map[])
  {
    hide TsNext;
    var result: Params := map[];
    var index := 0;
    assert input[0..] == input;
    while index < |input|
      invariant index <= |input|
      invariant TsParse(input, map[]) == TsParse(input[index..], result)
      decreases |input| - index
    {
      var turn, next := TsScanTurn(input, index);
      match turn
      case Finished => break;
      case Broken => return Err(Malformed);
      case Found(key, value, _) =>
        if key in result {
          return Err(Duplicate);
        }
        result := Assign(result, key, value);
        index := next;
    }
    r := Ok(result);
  }

  // ---------------------------------------------------------------- how the two scanners compare

  const TAB := 11 as char

  lemma {:induction false} TakesOnly(s: string, p: char -> bool)
    ensures All(TakeWhile(s, p), p)
  {
    if s != "" && p(s[0]) { TakesOnly(s[1..], p); }
  }

  /** Of two classes that differ in the vertical tab only, the wider one skips further exactly when it
      skips a tab, and the narrower one then stops there. */
  lemma {:induction false} DropCompare(s: string, narrow: char -> bool, wide: char -> bool)
    requires IsAscii(s) && !narrow(TAB)
    requires forall c {:trigger narrow(c)} {:trigger wide(c)} :: c < 128 as char ==> wide(c) == (narrow(c) || c == TAB)
    ensures if TAB in TakeWhile(s, wide) then HeadIs(DropWhile(s, narrow), TAB)
            else DropWhile(s, narrow) == DropWhile(s, wide)
    ensures IsAscii(DropWhile(s, wide)) && IsAscii(DropWhile(s, narrow))
    ensures IsAscii(TakeWhile(s, wide)) && IsAscii(TakeWhile(s, narrow))
  {
    if s != "" && wide(s[0]) {
      DropCompare(s[1..], narrow, wide);
      assert TakeWhile(s, wide) == [s[0]] + TakeWhile(s[1..], wide);
    }
  }

  /** What the scanners skip: white space, separators and bare values. */
  lemma DropsCompare(s: string)
    requires IsAscii(s)
    ensures if TAB in TakeWhile(s, IsJsSpace) then HeadIs(DropWhile(s, IsAsciiSpace), TAB)
            else DropWhile(s, IsAsciiSpace) == DropWhile(s, IsJsSpace)
    ensures if TAB in TakeWhile(s, IsJsSeparator) then HeadIs(DropWhile(s, IsSeparator), TAB)
            else DropWhile(s, IsSeparator) == DropWhile(s, IsJsSeparator)
    ensures if TAB in TakeWhile(s, IsBareChar) then HeadIs(DropWhile(s, IsJsBareChar), TAB)
            else DropWhile(s, IsJsBareChar) == DropWhile(s, IsBareChar)
    ensures IsAscii(DropWhile(s, IsJsSpace)) && IsAscii(DropWhile(s, IsAsciiSpace))
    ensures IsAscii(DropWhile(s, IsJsSeparator)) && IsAscii(DropWhile(s, IsJsBareChar))
    ensures IsAscii(TakeWhile(s, IsBareChar))
  {
    hide IsAscii, DropWhile, TakeWhile;
    DropCompare(s, IsAsciiSpace, IsJsSpace);
    DropCompare(s, IsSeparator, IsJsSeparator);
    DropCompare(s, IsJsBareChar, IsBareChar);
  }

  lemma DropStarts(s: string, p: char -> bool)
    ensures s == "" || !p(s[0]) ==> DropWhile(s, p) == s
    ensures s != "" && p(s[0]) ==> DropWhile(s, p) == DropWhile(s[1..], p) && |DropWhile(s, p)| < |s|
  {}

  lemma NextStops(s: string)
    requires HeadIs(DropWhile(s, IsSeparator), TAB) || HeadIs(DropWhile(s, IsSeparator), '"')
    ensures Next(s) == Finished
  {
    hide DropWhile;
    DropStarts(DropWhile(s, IsSeparator), IsNameChar);
  }

  lemma TabLooksLikeNothing(s: string)
    requires HeadIs(s, TAB)
    ensures !LooksLikeAuthParam(s)
  {
    hide DropWhile;
    DropStarts(s, IsAsciiSpace);
    DropStarts(s, IsNameChar);
  }

  lemma {:induction false} NameIsAscii(s: string)
    requires IsAscii(s)
    ensures IsAscii(DropWhile(s, IsNameChar))
  {
    if s != "" && IsNameChar(s[0]) { NameIsAscii(s[1..]); }
  }

  lemma AsciiTail(s: string)
    requires IsAscii(s) && s != ""
    ensures IsAscii(s[1..])
  {}

  lemma {:induction false} QuotedIsAscii(s: string)
    requires IsAscii(s) && Quoted(s).Some?
    ensures IsAscii(Quoted(s).value.0) && IsAscii(Quoted(s).value.1)
  {
    if s[0] != '"' {
      QuotedIsAscii(if s[0] == '\\' && |s| > 1 then s[2..] else s[1..]);
    }
  }

  /** A bare run over a quoted string is longer than the unescaped text, unless it stops in it. */
  lemma {:induction false} QuotedIsNotBare(s: string)
    requires Quoted(s).Some?
    ensures var value := Quoted(s).value.0; |value| < |TakeWhile(s, IsBareChar)| || !All(value, IsBareChar)
  {
    if s[0] != '"' {
      var escaped := s[0] == '\\' && |s| > 1;
      var c, rest := if escaped then s[1] else s[0], if escaped then s[2..] else s[1..];
      var value := Quoted(rest).value.0;
      QuotedIsNotBare(rest);
      assert Quoted(s).value.0 == [c] + value;
      if All([c] + value, IsBareChar) {
        assert IsBareChar(([c] + value)[0]);
        assert forall i :: 0 <= i < |value| ==> value[i] == ([c] + value)[i + 1];
        assert All(value, IsBareChar);
        assert DropWhile(s, IsBareChar) == DropWhile(s[1..], IsBareChar) by { assert IsBareChar(s[0]); }
        if escaped { assert s[1..][1..] == rest && s[1..][0] == c; }
        assert DropWhile(s, IsBareChar) == DropWhile(rest, IsBareChar);
      }
    }
  }

  /** Blanks before a quoted string: a bare run from them stops before the quote, where the Rust
      scanner then ends, or takes the quote along. */
  lemma {:induction false} RunFromBlanks(s: string)
    requires IsAscii(s) && HeadIs(DropWhile(s, IsJsSpace), '"')
    ensures HeadIs(DropWhile(s, IsSeparator), TAB) || HeadIs(DropWhile(s, IsSeparator), '"')
    ensures var rest := DropWhile(s, IsBareChar);
      || HeadIs(DropWhile(rest, IsSeparator), TAB) || HeadIs(DropWhile(rest, IsSeparator), '"')
      || |TakeWhile(s, IsBareChar)| >= |TakeWhile(DropWhile(s, IsJsSpace), IsBareChar)|
  {
    if IsJsSpace(s[0]) { RunFromBlanks(s[1..]); }
  }

  /** Whether text, which follows '=', is read alike, where value and rest are what TypeScript reads of
      it. With a tab among the blanks before the value Rust reads, as a bare value, what the right-hand
      side says: from the first tab on up to the next separator of its own. Otherwise both start at one
      place, and only a tab that ends a bare value of TypeScript's matters. */
  predicate ValueAlike(text: string, value: string, rest: string) {
    if TAB in TakeWhile(text, IsJsSpace) then value == TakeWhile(DropWhile(text, IsAsciiSpace), IsBareChar)
    else HeadIs(DropWhile(text, IsJsSpace), '"') || !HeadIs(rest, TAB)
  }

  lemma ValuesCompare(text: string)
    requires IsAscii(text) && ReadValue(DropWhile(text, IsJsSpace), IsJsBareChar).Some?
    ensures var (value, rest) := ReadValue(DropWhile(text, IsJsSpace), IsJsBareChar).value;
      var rust := ReadValue(DropWhile(text, IsAsciiSpace), IsBareChar);
      && IsAscii(rest) && rust.Some? && Utf8.Valid(rust.value.0)
      && (rust.value.0 == value <==> ValueAlike(text, value, rest))
      && (ValueAlike(text, value, rest) ==>
            if TAB in TakeWhile(text, IsJsSpace) then Next(rust.value.1) == Finished else rust.value.1 == rest)
  {
    hide IsAscii, DropWhile;
    DropsCompare(text);
    var start, raw := DropWhile(text, IsJsSpace), DropWhile(text, IsAsciiSpace);
    DropsCompare(start);
    DropsCompare(raw);
    QuotedValueIsAscii(start);
    var (value, rest) := ReadValue(start, IsJsBareChar).value;
    var run := TakeWhile(raw, IsBareChar);
    Utf8.AsciiIsValid(if HeadIs(raw, '"') then value else run);
    if TAB in TakeWhile(text, IsJsSpace) {
      TabValue(text);
    } else if !HeadIs(start, '"') {
      BareCompare(start);
    }
  }

  lemma QuotedValueIsAscii(start: string)
    requires IsAscii(start) && ReadValue(start, IsJsBareChar).Some?
    ensures IsAscii(ReadValue(start, IsJsBareChar).value.1)
    ensures HeadIs(start, '"') ==> IsAscii(ReadValue(start, IsJsBareChar).value.0)
  {
    hide DropWhile, IsAscii;
    DropsCompare(start);
    if HeadIs(start, '"') {
      AsciiTail(start);
      QuotedIsAscii(start[1..]);
    }
  }

  lemma BareCompare(start: string)
    requires IsAscii(start)
    ensures TakeWhile(start, IsJsBareChar) == TakeWhile(start, IsBareChar)
        <==> !HeadIs(DropWhile(start, IsJsBareChar), TAB)
    ensures !HeadIs(DropWhile(start, IsJsBareChar), TAB)
        ==> DropWhile(start, IsJsBareChar) == DropWhile(start, IsBareChar)
  {
    DropsCompare(start);
    TakesOnly(start, IsJsBareChar);
    hide DropWhile;
    if HeadIs(DropWhile(start, IsJsBareChar), TAB) {
      var value := TakeWhile(start, IsJsBareChar);
      assert IsJsSpace(TAB);
      assert TAB !in value;
    }
  }

  lemma TabValue(text: string)
    requires IsAscii(text) && TAB in TakeWhile(text, IsJsSpace)
    requires ReadValue(DropWhile(text, IsJsSpace), IsJsBareChar).Some?
    ensures var value := ReadValue(DropWhile(text, IsJsSpace), IsJsBareChar).value.0;
      var raw := DropWhile(text, IsAsciiSpace);
      && HeadIs(raw, TAB)
      && (value == TakeWhile(raw, IsBareChar) ==> Next(DropWhile(raw, IsBareChar)) == Finished)
  {
    hide IsAscii, DropWhile, Quoted, Next, All;
    DropsCompare(text);
    var start, raw := DropWhile(text, IsJsSpace), DropWhile(text, IsAsciiSpace);
    if HeadIs(start, '"') {
      DropTabs(text);
      RunIsNotQuoted(raw);
    } else {
      TakesOnly(start, IsJsBareChar);
      DropStarts(raw, IsBareChar);
      TabIsNotBare(TakeWhile(start, IsJsBareChar), TakeWhile(raw, IsBareChar));
    }
  }

  lemma TabIsNotBare(value: string, run: string)
    requires All(value, IsJsBareChar) && HeadIs(run, TAB)
    ensures value != run
  {}

  lemma RunIsNotQuoted(raw: string)
    requires IsAscii(raw) && HeadIs(DropWhile(raw, IsJsSpace), '"')
    requires Quoted(DropWhile(raw, IsJsSpace)[1..]).Some?
    ensures Quoted(DropWhile(raw, IsJsSpace)[1..]).value.0 == TakeWhile(raw, IsBareChar) ==>
              Next(DropWhile(raw, IsBareChar)) == Finished
  {
    hide IsAscii, DropWhile, Quoted, Next, All;
    var start, rest := DropWhile(raw, IsJsSpace), DropWhile(raw, IsBareChar);
    RunFromBlanks(raw);
    QuotedIsNotBare(start[1..]);
    DropStarts(start, IsBareChar);
    TakesOnly(raw, IsBareChar);
    if HeadIs(DropWhile(rest, IsSeparator), TAB) || HeadIs(DropWhile(rest, IsSeparator), '"') { NextStops(rest); }
  }

  lemma {:induction false} DropTabs(s: string)
    requires IsAscii(s)
    ensures DropWhile(DropWhile(s, IsAsciiSpace), IsJsSpace) == DropWhile(s, IsJsSpace)
  {
    if s != "" && IsAsciiSpace(s[0]) { DropTabs(s[1..]); }
  }

  /** What follows the next name, as TypeScript reads it. */
  function BehindName(s: string): string { DropWhile(DropWhile(s, IsJsSeparator), IsNameChar) }

  function AtEquals(s: string): string { DropWhile(BehindName(s), IsJsSpace) }

  /** What follows its equals sign. */
  function ValueText(s: string): string { if AtEquals(s) == "" then "" else AtEquals(s)[1..] }

  /** TypeScript reads no further name, or only the one it loses. */
  predicate ReadsNothing(s: string)
    decreases |s|
  {
    s == "" || match TsNext(s) case Found(name, _, rest) => name == PROTO && ReadsNothing(rest) case _ => true
  }

  /** No vertical tab matters to what the scanners read: none before '=', none behind it or at the end
      of a bare value but as ValueAlike says, and behind one among the separators, where Rust stops,
      TypeScript reads nothing either. Inside quotes a tab is free. */
  predicate TabsHarmless(s: string)
    decreases |s|
  {
    if s == "" then true
    else if TAB in TakeWhile(s, IsJsSeparator) then ReadsNothing(s)
    else
      && TAB !in TakeWhile(BehindName(s), IsJsSpace)
      && match TsNext(s)
         case Found(_, value, rest) =>
           && ValueAlike(ValueText(s), value, rest)
           && if TAB in TakeWhile(ValueText(s), IsJsSpace) then ReadsNothing(rest) else TabsHarmless(rest)
         case _ => TAB !in TakeWhile(DropWhile(AtEquals(s), IsNameChar), IsJsSpace)
  }

  /** One turn of both loops. */
  lemma TurnsCompare(s: string)
    requires IsAscii(s) && s != "" && !TsNext(s).Broken?
    ensures TsNext(s).Found? ==> IsAscii(TsNext(s).rest)
    ensures if TAB in TakeWhile(s, IsJsSeparator) then Next(s) == Finished
            else if TAB in TakeWhile(BehindName(s), IsJsSpace) then Next(s) == Broken
            else
              match TsNext(s)
              case Found(name, value, rest) =>
                var text := ValueText(s);
                && Next(s).Found? && Next(s).name == name
                && (Next(s).value == value <==> ValueAlike(text, value, rest))
                && (ValueAlike(text, value, rest) ==>
                      if TAB in TakeWhile(text, IsJsSpace) then Next(Next(s).rest) == Finished
                          else Next(s).rest == rest)
              case _ =>
                Next(s) == if TAB in TakeWhile(DropWhile(AtEquals(s), IsNameChar), IsJsSpace) then Broken else Finished
  {
    hide IsAscii, DropWhile, ReadValue, ValueAlike, LooksLikeAuthParam;
    DropsCompare(s);
    var atName := DropWhile(s, IsJsSeparator);
    NameIsAscii(atName);
    var afterName, atEquals := BehindName(s), AtEquals(s);
    DropsCompare(afterName);
    if TAB in TakeWhile(s, IsJsSeparator) {
      NextStops(s);
    } else if TAB in TakeWhile(afterName, IsJsSpace) {
      TabLooksLikeNothing(DropWhile(afterName, IsAsciiSpace));
    } else if !HeadIs(atEquals, '=') {
      OthersCompare(afterName);
    }
    if HeadIs(atEquals, '=') {
      AsciiTail(atEquals);
      ValuesCompare(atEquals[1..]);
    }
  }

  /** Both scanners end where another challenge begins. */
  lemma OthersCompare(afterName: string)
    requires IsAscii(afterName) && TAB !in TakeWhile(afterName, IsJsSpace)
    requires TsLooksLikeAuthParam(DropWhile(DropWhile(afterName, IsJsSpace), IsJsSpace))
    ensures var atEquals := DropWhile(afterName, IsJsSpace);
      LooksLikeAuthParam(atEquals) <==> TAB !in TakeWhile(DropWhile(atEquals, IsNameChar), IsJsSpace)
  {
    hide IsAscii, DropWhile;
    DropsCompare(afterName);
    var atEquals := DropWhile(afterName, IsJsSpace);
    DropTwice(afterName, IsJsSpace);
    DropTwice(afterName, IsAsciiSpace);
    NameIsAscii(atEquals);
    DropStarts(atEquals, IsNameChar);
    DropsCompare(DropWhile(atEquals, IsNameChar));
  }

  lemma {:induction false} TsParseKeeps(s: string, read: Params)
    requires TsParse(s, read).Ok?
    decreases |s|
    ensures var r := TsParse(s, read).value;
      && (forall k :: k in read ==> k in r && r[k] == read[k])
      && (PROTO in r <==> PROTO in read)
      && (r == read <==> ReadsNothing(s))
  {
    hide TsNext;
    if s != "" {
      match TsNext(s)
      case Found(name, value, rest) => TsParseKeeps(rest, Assign(read, name, value));
      case _ =>
    }
  }

  lemma {:induction false} ParseKeeps(s: string, read: Params)
    requires Parse(s, read).Ok?
    decreases |s|
    ensures var r := Parse(s, read).value; forall k :: k in read ==> k in r && r[k] == read[k]
    ensures PROTO in Parse(s, read).value <==> PROTO in read || !NeverNamesProto(s)
  {
    hide Next;
    match Next(s)
    case Found(name, value, rest) => ParseKeeps(rest, read[name := value]);
    case _ =>
  }

  lemma NextOfEmpty()
    ensures Next("") == Finished
  {}

  /** No turn of the Rust scanner reads the name __proto__ in any case of its letters. */
  predicate NeverNamesProto(s: string)
    decreases |s|
  {
    match Next(s)
    case Found(name, value, rest) => name != PROTO && NeverNamesProto(rest)
    case _ => true
  }

  /** Where no tab matters, ASCII that the TypeScript scanner accepts with result m is accepted by the
      Rust scanner with a result that differs from m in the name __proto__ at most, or is refused
      there as a duplicate, and neither happens unless Rust reads that name. Where one matters and
      Rust reads that name nowhere, the results differ. */
  lemma {:induction false} ScannersSimulate(s: string, rust: Params, ts: Params)
    requires IsAscii(s) && ts == rust - {PROTO} && TsParse(s, ts).Ok?
    decreases |s|
    ensures TabsHarmless(s) ==>
              || (Parse(s, rust).Ok? && Parse(s, rust).value - {PROTO} == TsParse(s, ts).value)
              || Parse(s, rust) == Err(Duplicate)
    ensures TabsHarmless(s) && NeverNamesProto(s) ==> Parse(s, rust).Ok?
    ensures !TabsHarmless(s) && NeverNamesProto(s) && Parse(s, rust).Ok? ==>
              Parse(s, rust).value - {PROTO} != TsParse(s, ts).value
  {
    hide Next, TsNext, IsAscii, ValueAlike, TakeWhile, ValueText, BehindName;
    if s == "" {
      NextOfEmpty();
    } else {
      TurnsCompare(s);
      TsParseKeeps(s, ts);
      match (Next(s), TsNext(s))
      case (Found(name, value, rest), Found(_, tsValue, tsRest)) =>
        if name !in rust {
          var read := rust[name := value];
          TsParseKeeps(tsRest, Assign(ts, name, tsValue));
          if Parse(rest, read).Ok? { ParseKeeps(rest, read); }
          if value != tsValue {
            var r, t := Parse(s, rust), TsParse(s, ts).value;
            assert name != PROTO && r.Ok? ==> r.value[name] == value && t[name] == tsValue && name in r.value - {PROTO};
          } else if TAB in TakeWhile(ValueText(s), IsJsSpace) {
            assert read - {PROTO} == Assign(ts, name, value);
          } else {
            ScannersSimulate(rest, read, Assign(ts, name, value));
          }
        }
      case _ =>
    }
  }

  /** Of the ASCII that the TypeScript scanner accepts, the Rust scanner reads exactly that alike in
      which no vertical tab matters and the name __proto__ is not read. */
  lemma ScannersAgreeIff(s: string)
    requires IsAscii(s) && TsParse(s, map[]).Ok?
    ensures Parse(s, map[]) == TsParse(s, map[]) <==> TabsHarmless(s) && NeverNamesProto(s)
  {
    hide Parse, TsParse, NeverNamesProto, TabsHarmless;
    ScannersSimulate(s, map[], map[]);
    TsParseKeeps(s, map[]);
    var r := Parse(s, map[]);
    if r.Ok? {
      ParseKeeps(s, map[]);
      if PROTO !in r.value { assert r.value - {PROTO} == r.value; }
    }
  }

  // ---------------------------------------------------------------- what TypeScript reads back

  lemma TsNextField(lead: string, f: Field, rest: string)
    requires All(lead, IsJsSeparator) && IsName(f.0)
    ensures TsNext(lead + (PrintField(f) + rest)) == Found(f.0, f.1, rest)
  {
    var quoted := TsEscape(f.1) + "\"" + rest;
    QuotedEscaped(f.1, rest);
    var text := "\"" + quoted;
    FieldText(f, rest);
    hide DropWhile, Quoted, TsEscape, Escape, PrintField;
    DropWord(lead, f.0 + ("=" + text), IsJsSeparator);
    DropWord(f.0, "=" + text, IsNameChar);
    DropStarts("=" + text, IsJsSpace);
    assert ("=" + text)[1..] == text && text[1..] == quoted;
    DropStarts(text, IsJsSpace);
    LowerFixed(f.0);
  }

  lemma CommaSeparates()
    ensures All(", ", IsJsSeparator)
  {}

  lemma FieldText(f: Field, rest: string)
    ensures PrintField(f) + rest == f.0 + ("=" + ("\"" + (TsEscape(f.1) + "\"" + rest)))
  {
    hide TsEscape, Escape;
    EscapesAgree(f.1);
  }

  /** The TypeScript scanner, too, reads a printed list as its fields, whatever their values hold, and goes
      on behind it. */
  lemma {:induction false} TsParsePrinted(lead: string, fields: seq<Field>, tail: string, read: Params)
    requires All(lead, IsJsSeparator) && fields != [] && DistinctNames(fields)
    requires forall i :: 0 <= i < |fields| ==> IsName(fields[i].0) && fields[i].0 != PROTO && fields[i].0 !in read
    ensures TsParse(lead + (Print(fields) + tail), read) == TsParse(tail, Extend(read, fields))
    decreases |fields|
  {
    var f, rest := fields[0], fields[1..];
    hide TsNext, PrintField, IsName, All, IsJsSeparator;
    assert All(", ", IsJsSeparator) by { CommaSeparates(); }
    if rest == [] {
      assert Print(fields) == PrintField(f);
      TsNextField(lead, f, tail);
    } else {
      PrintCons(fields);
      var after := ", " + (Print(rest) + tail);
      assert Print(fields) + tail == PrintField(f) + after;
      TsNextField(lead, f, after);
      TsParsePrinted(", ", rest, tail, read[f.0 := f.1]);
    }
  }

  lemma PrintStarts(fields: seq<Field>) returns (afterName: string)
    requires fields != []
    ensures Print(fields) == fields[0].0 + afterName && HeadIs(afterName, '=')
  {
    hide Escape;
    afterName := Print(fields)[|fields[0].0|..];
    if |fields| == 1 { assert Print(fields) == PrintField(fields[0]); } else { PrintCons(fields); }
  }

  /** And it ends where the printed challenge of another scheme begins. */
  lemma TsNextScheme(scheme: string, fields: seq<Field>)
    requires scheme != "" && All(scheme, IsNameChar) && fields != []
    requires IsName(fields[0].0) && IsLowerLetter(fields[0].0[0])
    ensures TsNext(", " + (scheme + (" " + Print(fields)))) == Finished
  {
    var params, name := Print(fields), fields[0].0;
    var afterName := PrintStarts(fields);
    hide DropWhile, Print;
    DropWord(", ", scheme + (" " + params), IsJsSeparator);
    DropWord(scheme, " " + params, IsNameChar);
    DropWord(" ", params, IsJsSpace);
    DropWord(name, afterName, IsNameChar);
    DropStarts(afterName, IsJsSpace);
    DropStarts(params, IsJsSpace);
  }

  // ---------------------------------------------------------------- inputs on which they differ

  /** A name and a bare value, as the Rust scanner reads them. */
  lemma NextBare(name: string, value: string, rest: string)
    requires name != "" && All(name, IsNameChar) && IsAscii(value)
    requires value != "" && value[0] != '"' && All(value, IsBareChar) && (rest != "" ==> IsSeparator(rest[0]))
    ensures Next(name + ("=" + (value + rest))) == Found(Lower(name), value, rest)
  {
    var text := value + rest;
    hide DropWhile, Utf8.Valid;
    DropStarts(name + ("=" + text), IsSeparator);
    DropWord(name, "=" + text, IsNameChar);
    DropStarts("=" + text, IsAsciiSpace);
    assert ("=" + text)[1..] == text;
    DropStarts(text, IsAsciiSpace);
    DropWord(value, rest, IsBareChar);
    Utf8.AsciiIsValid(value);
  }

  /** The same for TypeScript, separators before the name included. */
  lemma TsNextBare(lead: string, name: string, value: string, rest: string)
    requires All(lead, IsJsSeparator) && name != "" && All(name, IsNameChar)
    requires value != "" && value[0] != '"' && All(value, IsJsBareChar) && (rest != "" ==> IsJsSeparator(rest[0]))
    ensures TsNext(lead + (name + ("=" + (value + rest)))) == Found(Lower(name), value, rest)
  {
    var text := value + rest;
    hide DropWhile;
    DropWord(lead, name + ("=" + text), IsJsSeparator);
    DropWord(name, "=" + text, IsNameChar);
    DropStarts("=" + text, IsJsSpace);
    assert ("=" + text)[1..] == text;
    DropStarts(text, IsJsSpace);
    DropWord(value, rest, IsJsBareChar);
  }

  /** The white space of ASCII. */
  predicate IsWhite(c: char) { c as int in {0x9, 0xA, 0xC, 0xD, 0x20} }

  /** The letters of a parameter's name. */
  predicate IsLetter(c: char) {
    'a' <= c <= 'z' || 'A' <= c <= 'Z' || '0' <= c <= '9' || c == '_' || c == '-'
  }

  lemma SameClasses(c: char)
    ensures IsWhite(c) <==> IsAsciiSpace(c)
    ensures IsWhite(c) || c == ',' <==> IsSeparator(c)
    ensures IsLetter(c) <==> IsNameChar(c)
  {}

  lemma AllClasses(lead: string, name: string, before: string)
    requires (forall c :: c in lead ==> IsWhite(c) || c == ',') && (forall c :: c in name ==> IsLetter(c))
    requires forall c :: c in before ==> IsWhite(c)
    ensures All(lead, IsSeparator) && All(name, IsNameChar) && All(before, IsAsciiSpace)
  {
    forall c ensures (IsWhite(c) <==> IsAsciiSpace(c)) && (IsWhite(c) || c == ',' <==> IsSeparator(c))
                     && (IsLetter(c) <==> IsNameChar(c))
    {
      SameClasses(c);
    }
    hide IsWhite, IsAsciiSpace, IsSeparator, IsLetter, IsNameChar;
  }

  /** The Rust scanner reads a parameter after any white space and commas, with any white space around its
      equals sign: a quoted text, or a bare one up to white space or a comma. */
  lemma NextReads(lead: string, name: string, before: string, after: string, text: string)
    requires (forall c :: c in lead ==> IsWhite(c) || c == ',') && name != "" && (forall c :: c in name ==> IsLetter(c))
    requires (forall c :: c in before + after ==> IsWhite(c)) && (text != "" ==> !IsWhite(text[0]))
    ensures Next(lead + (name + (before + ("=" + (after + text))))) ==
            match ReadValue(text, IsBareChar)
            case None => Broken
            case Some((value, rest)) => if Utf8.Valid(value) then Found(Lower(name), value, rest) else Broken
  {
    AllClasses(lead, name, before);
    AllClasses("", "", after);
    if text != "" { SameClasses(text[0]); }
    FirstLetters(name, before, "=" + (after + text));
    hide DropWhile, Utf8.Valid, ReadValue;
    var tail := "=" + (after + text);
    DropWord(lead, name + (before + tail), IsSeparator);
    DropWord(name, before + tail, IsNameChar);
    DropWord(before, tail, IsAsciiSpace);
    assert tail[1..] == after + text;
    DropWord(after, text, IsAsciiSpace);
  }

  lemma FirstLetters(name: string, before: string, tail: string)
    requires name != "" && All(name, IsNameChar) && All(before, IsAsciiSpace)
    requires tail != "" && !IsNameChar(tail[0])
    ensures !IsSeparator((name + (before + tail))[0]) && !IsNameChar((before + tail)[0])
  {}

  lemma BareReads(value: string, rest: string)
    requires value == "" || value[0] != '"'
    requires forall c :: c in value ==> !IsWhite(c) && c != ','
    requires rest != "" ==> IsWhite(rest[0]) || rest[0] == ','
    ensures ReadValue(value + rest, IsBareChar) == Some((value, rest))
  {
    if rest != "" { SameClasses(rest[0]); }
    forall i | 0 <= i < |value| ensures IsBareChar(value[i]) { SameClasses(value[i]); }
    DropWord(value, rest, IsBareChar);
  }

  /** Without an equals sign it ends if white space and another parameter follow, and refuses otherwise; and
      it ends where no name follows. */
  lemma NextEnds(lead: string, name: string, before: string, other: string)
    requires (forall c :: c in lead ==> IsWhite(c) || c == ',') && (forall c :: c in name ==> IsLetter(c))
    requires (forall c :: c in before ==> IsWhite(c)) && (other != "" ==> !IsWhite(other[0]) && other[0] != '=')
    requires name == "" ==> before == "" && (other != "" ==> other[0] != ',')
    requires before == "" && other != "" ==> !IsLetter(other[0])
    ensures Next(lead + (name + (before + other))) ==
            if name == "" then Finished
            else if before != "" && LooksLikeAuthParam(other) then Finished else Broken
  {
    AllClasses(lead, name, before);
    if other != "" { SameClasses(other[0]); }
    if before != "" { SameClasses(before[0]); }
    hide DropWhile;
    DropWord(name, before + other, IsNameChar);
    if name != "" { SameClasses(name[0]); }
    DropWord(lead, name + (before + other), IsSeparator);
    DropWord(before, other, IsAsciiSpace);
  }

  /** a=b, a vertical tab, c=d: TypeScript reads two parameters where Rust reads one. */
  lemma TabDiffers()
    ensures var rest := [TAB] + ("c" + ("=" + ("d" + "")));
      var s := "a" + ("=" + ("b" + rest));
      && TsParse(s, map[]) == Ok(map["a" := "b", "c" := "d"])
      && Parse(s, map[]) == Ok(map["a" := "b" + rest])
      && !TabsHarmless(s) && NeverNamesProto(s)
  {
    var rest := [TAB] + ("c" + ("=" + ("d" + "")));
    var s := "a" + ("=" + ("b" + rest));
    hide Next, TsNext, TsParse, Parse, TabsHarmless, NeverNamesProto;
    TsTabReads(s, rest);
    RustTabReads(s, rest);
    assert "c" in map["a" := "b", "c" := "d"] && "c" !in map["a" := "b" + rest];
    ScannersAgreeIff(s);
  }

  lemma TsTabReads(s: string, rest: string)
    requires rest == [TAB] + ("c" + ("=" + ("d" + ""))) && s == "a" + ("=" + ("b" + rest))
    ensures TsParse(s, map[]) == Ok(map["a" := "b", "c" := "d"])
  {
    hide TsNext;
    assert s == "" + s && Lower("a") == "a" && Lower("c") == "c";
    TsNextBare("", "a", "b", rest);
    TsNextBare([TAB], "c", "d", "");
    assert TsParse(rest, map["a" := "b"]) == TsParse("", map["a" := "b", "c" := "d"]);
  }

  lemma RustTabReads(s: string, rest: string)
    requires rest == [TAB] + ("c" + ("=" + ("d" + ""))) && s == "a" + ("=" + ("b" + rest))
    ensures Parse(s, map[]) == Ok(map["a" := "b" + rest]) && NeverNamesProto(s)
  {
    hide Next;
    assert s == "a" + ("=" + (("b" + rest) + "")) && Lower("a") == "a";
    NextBare("a", "b" + rest, "");
    NextOfEmpty();
  }

  /** __proto__=x: TypeScript accepts the parameter and loses it. */
  lemma ProtoDiffers()
    ensures var s := PROTO + "=x";
      TsParse(s, map[]) == Ok(map[]) && Parse(s, map[]) == Ok(map[PROTO := "x"]) && !NeverNamesProto(s)
  {
    var s := PROTO + "=x";
    assert s == PROTO + ("=" + ("x" + "")) && s == "" + s;
    assert Lower(PROTO) == PROTO;
    hide Next, TsNext;
    TsNextBare("", PROTO, "x", "");
    NextBare(PROTO, "x", "");
    NextOfEmpty();
  }

  // ---------------------------------------------------------------- without tabs

  lemma {:induction false} DropMembers(s: string, p: char -> bool)
    ensures forall c :: c in DropWhile(s, p) ==> c in s
    ensures forall c :: c in TakeWhile(s, p) ==> c in s
  {
    if s != "" && p(s[0]) { DropMembers(s[1..], p); }
  }

  lemma {:induction false} QuotedMembers(s: string)
    requires Quoted(s).Some?
    ensures forall c :: c in Quoted(s).value.1 ==> c in s
  {
    if s[0] != '"' { QuotedMembers(if s[0] == '\\' && |s| > 1 then s[2..] else s[1..]); }
  }

  lemma TurnMembers(s: string)
    requires s != "" && TAB !in s
    ensures TAB !in TakeWhile(s, IsJsSeparator) && TAB !in TakeWhile(BehindName(s), IsJsSpace)
    ensures TAB !in TakeWhile(DropWhile(AtEquals(s), IsNameChar), IsJsSpace)
    ensures TAB !in TakeWhile(ValueText(s), IsJsSpace)
    ensures TsNext(s).Found? ==> TAB !in TsNext(s).rest
  {
    hide DropWhile, TakeWhile, Quoted;
    DropMembers(s, IsJsSeparator);
    DropMembers(DropWhile(s, IsJsSeparator), IsNameChar);
    DropMembers(BehindName(s), IsJsSpace);
    DropMembers(AtEquals(s), IsNameChar);
    DropMembers(DropWhile(AtEquals(s), IsNameChar), IsJsSpace);
    DropMembers(ValueText(s), IsJsSpace);
    var start := DropWhile(ValueText(s), IsJsSpace);
    DropMembers(start, IsJsBareChar);
    if HeadIs(start, '"') && Quoted(start[1..]).Some? {
      assert TAB !in start;
      assert TAB !in start[1..];
      QuotedMembers(start[1..]);
    }
  }

  /** Without a vertical tab none matters, so that only the name __proto__ is left to tell them apart. */
  lemma {:induction false} WithoutTabs(s: string)
    requires TAB !in s
    ensures TabsHarmless(s)
    decreases |s|
  {
    if s != "" {
      TurnMembers(s);
      hide TakeWhile, DropWhile, BehindName, AtEquals, ValueText, TsNext;
      if TsNext(s).Found? { WithoutTabs(TsNext(s).rest); }
    }
  }
}
