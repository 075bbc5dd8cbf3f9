/** The auth-param list of section 11.2 of RFC 9110: one printer and the two hand-written scanners. */
module AuthParams {
  import opened Wrappers
  import opened Text
  import Utf8

  datatype ParamError = Malformed | Duplicate

  type Params = map<string, string>

  predicate IsNameChar(c: char) { IsAlphanumeric(c) || c == '_' || c == '-' }

  predicate IsSeparator(c: char) { IsAsciiSpace(c) || c == ',' }

  predicate IsBareChar(c: char) { !IsSeparator(c) }

  function DropWhile(s: string, p: char -> bool): (r: string)
    ensures |r| <= |s|
    ensures r != "" ==> !p(r[0])
  {
    if s != "" && p(s[0]) then DropWhile(s[1..], p) else s
  }

  predicate HeadIs(s: string, c: char) { s != "" && s[0] == c }

  function TakeWhile(s: string, p: char -> bool): string {
    s[..|s| - |DropWhile(s, p)|]
  }

  /** The body of a quoted-string after its opening quote: the unescaped text and what follows the
      closing quote, None when it is not closed. A backslash before the end escapes one byte. */
  function Quoted(s: string): (r: Option<(string, string)>)
    ensures r.Some? ==> |r.value.1| < |s|
  {
    if s == "" then None
    else if s[0] == '"' then Some(("", s[1..]))
    else
      var escaped := s[0] == '\\' && |s| > 1;
      var rest := if escaped then s[2..] else s[1..];
      Prepend([if escaped then s[1] else s[0]], Quoted(rest))
  }

  function Prepend(text: string, r: Option<(string, string)>): Option<(string, string)> {
    match r
    case None => None
    case Some((value, rest)) => Some((text + value, rest))
  }

  function ReadValue(s: string, bare: char -> bool): (r: Option<(string, string)>)
    ensures r.Some? ==> |r.value.1| <= |s|
  {
    if HeadIs(s, '"') then Quoted(s[1..]) else Some((TakeWhile(s, bare), DropWhile(s, bare)))
  }

  /** looks_like_auth_param */
  predicate LooksLikeAuthParam(s: string) {
    var atName := DropWhile(s, IsAsciiSpace);
    var afterName := DropWhile(atName, IsNameChar);
    |afterName| < |atName| && HeadIs(DropWhile(afterName, IsAsciiSpace), '=')
  }

  /** What one turn of a scanner's loop finds. */
  datatype Turn = Finished | Broken | Found(name: string, value: string, rest: string)

  /** One turn of the loop of parse_auth_params. */
  function Next(s: string): (t: Turn)
    ensures t.Found? ==> |t.rest| < |s|
  {
    var atName := DropWhile(s, IsSeparator);
    var afterName := DropWhile(atName, IsNameChar);
    if afterName == atName then Finished
    else AfterName(Lower(TakeWhile(atName, IsNameChar)), afterName)
  }

  function AfterName(name: string, afterName: string): (t: Turn)
    ensures t.Found? ==> |t.rest| < |afterName|
  {
    var atEquals := DropWhile(afterName, IsAsciiSpace);
    if !HeadIs(atEquals, '=') then
      if |atEquals| < |afterName| && LooksLikeAuthParam(atEquals) then Finished else Broken
    else
      match ReadValue(DropWhile(atEquals[1..], IsAsciiSpace), IsBareChar)
      case None => Broken
      case Some((value, rest)) => if Utf8.Valid(value) then Found(name, value, rest) else Broken
  }

  /** parse_auth_params from some point on, with the parameters read so far. */
  function Parse(s: string, read: Params): Result<Params, ParamError>
    decreases |s|
  {
    match Next(s)
    case Finished => Ok(read)
    case Broken => Err(Malformed)
    case Found(name, value, rest) => if name in read then Err(Duplicate) else Parse(rest, read[name := value])
  }

  /** escape_quoted of the Rust core: two replacements, backslashes before quotes. */
  function Replace(s: string, c: char, instead: string): string {
    if s == "" then "" else (if s[0] == c then instead else [s[0]]) + Replace(s[1..], c, instead)
  }

  function Escape(s: string): string {
    Replace(Replace(s, '\\', "\\\\"), '"', "\\\"")
  }

  /** escapeQuoted of the TypeScript core: one pass over both characters. */
  function TsEscape(s: string): string {
    if s == "" then "" else (if s[0] == '"' || s[0] == '\\' then ['\\', s[0]] else [s[0]]) + TsEscape(s[1..])
  }

  type Field = (string, string)

  function PrintField(f: Field): string { f.0 + "=\"" + Escape(f.1) + "\"" }

  function Print(fields: seq<Field>): string {
    Join(seq(|fields|, i requires 0 <= i < |fields| => PrintField(fields[i])), ", ")
  }

  // ---------------------------------------------------------------- printing, then scanning

  lemma {:induction false} EscapesAgree(s: string)
    ensures Escape(s) == TsEscape(s)
  {
    if s != "" {
      var head := if s[0] == '\\' then "\\\\" else [s[0]];
      ReplaceConcat(head, Replace(s[1..], '\\', "\\\\"), '"', "\\\"");
      EscapesAgree(s[1..]);
      if s[0] == '\\' {
        assert Replace("\\\\", '"', "\\\"") == "\\\\" by {
          assert "\\\\"[1..] == "\\";
          assert "\\"[1..] == "";
        }
      } else {
        assert [s[0]][1..] == "";
      }
    }
  }

  lemma {:induction false} ReplaceConcat(a: string, b: string, c: char, instead: string)
    ensures Replace(a + b, c, instead) == Replace(a, c, instead) + Replace(b, c, instead)
  {
    if a != "" {
      ReplaceConcat(a[1..], b, c, instead);
      assert (a + b)[1..] == a[1..] + b;
    } else {
      assert a + b == b;
    }
  }

  lemma {:induction false} QuotedEscaped(v: string, rest: string)
    ensures Quoted(TsEscape(v) + "\"" + rest) == Some((v, rest))
  {
    var s := TsEscape(v) + "\"" + rest;
    if v == "" {
      assert s[1..] == rest;
    } else {
      QuotedEscaped(v[1..], rest);
      var tail := TsEscape(v[1..]) + "\"" + rest;
      if v[0] == '"' || v[0] == '\\' {
        assert s == ['\\', v[0]] + tail;
        assert s[2..] == tail;
      } else {
        assert s == [v[0]] + tail;
        assert s[1..] == tail;
      }
      assert [v[0]] + v[1..] == v;
    }
  }

  /** Bytes between quotes that stand for the text: a backslash with any byte behind it for that byte, and
      any byte but the quote for itself. */
  predicate Unescapes(body: string, text: string) {
    if body == "" || text == "" then body == text
    else if body[0] == '\\' then |body| >= 2 && text[0] == body[1] && Unescapes(body[2..], text[1..])
    else body[0] != '"' && text[0] == body[0] && Unescapes(body[1..], text[1..])
  }

  /** A quoted text ends at the first quote that no backslash escapes. */
  lemma {:induction false} QuotedIff(s: string, text: string, rest: string)
    ensures Quoted(s) == Some((text, rest)) <==>
      && |rest| < |s| && rest == s[|s| - |rest|..] && s[|s| - |rest| - 1] == '"'
      && Unescapes(s[..|s| - |rest| - 1], text)
  {
    if s != "" && s[0] != '"' && |rest| < |s| {
      var n := if s[0] == '\\' && |s| > 1 then 2 else 1;
      var tail, c := s[n..], s[n - 1];
      if text != "" { QuotedIff(tail, text[1..], rest); }
      if |rest| < |tail| {
        var body := s[..|s| - |rest| - 1];
        assert body[n..] == tail[..|tail| - |rest| - 1] && tail[|tail| - |rest|..] == s[|s| - |rest|..];
      }
      assert text != "" ==> text == [text[0]] + text[1..];
    }
  }

  lemma {:induction false} DropWord(word: string, rest: string, p: char -> bool)
    requires forall i :: 0 <= i < |word| ==> p(word[i])
    requires rest != "" ==> !p(rest[0])
    ensures DropWhile(word + rest, p) == rest && TakeWhile(word + rest, p) == word
  {
    if word != "" {
      DropWord(word[1..], rest, p);
      assert (word + rest)[1..] == word[1..] + rest;
    } else {
      assert word + rest == rest;
    }
  }

  predicate IsName(s: string) {
    s != "" && forall i :: 0 <= i < |s| ==> IsNameChar(s[i]) && !IsUpperLetter(s[i])
  }

  predicate Printable(f: Field) { IsName(f.0) && Utf8.Valid(f.1) }

  lemma NextField(f: Field, rest: string)
    requires Printable(f)
    ensures Next(PrintField(f) + rest) == Found(f.0, f.1, rest)
  {
    var s := PrintField(f) + rest;
    EscapesAgree(f.1);
    var quoted := TsEscape(f.1) + "\"" + rest;
    QuotedEscaped(f.1, rest);
    assert s == f.0 + ("=\"" + quoted);
    assert !IsSeparator(f.0[0]);
    assert DropWhile(s, IsSeparator) == s;
    DropWord(f.0, "=\"" + quoted, IsNameChar);
    LowerFixed(f.0);
    NextQuoted(f.0, quoted);
  }

  lemma NextQuoted(name: string, quoted: string)
    requires Quoted(quoted).Some? && Utf8.Valid(Quoted(quoted).value.0)
    ensures AfterName(name, "=\"" + quoted) == Found(name, Quoted(quoted).value.0, Quoted(quoted).value.1)
  {
    hide Quoted;
    var s := "=\"" + quoted;
    assert DropWhile(s, IsAsciiSpace) == s;
    assert s[1..] == "\"" + quoted;
    assert s[1..][1..] == quoted;
  }

  lemma NextSeparator(rest: string)
    ensures Next(", " + rest) == Next(rest)
  {
    hide AfterName;
    assert (", " + rest)[1..] == " " + rest;
    assert (" " + rest)[1..] == rest;
    assert DropWhile(", " + rest, IsSeparator) == DropWhile(rest, IsSeparator);
  }

  predicate DistinctNames(fields: seq<Field>) {
    forall i, j :: 0 <= i < j < |fields| ==> fields[i].0 != fields[j].0
  }

  function Extend(read: Params, fields: seq<Field>): Params
    decreases |fields|
  {
    if fields == [] then read else Extend(read[fields[0].0 := fields[0].1], fields[1..])
  }

  lemma PrintCons(fields: seq<Field>)
    requires |fields| > 1
    ensures Print(fields) == PrintField(fields[0]) + ", " + Print(fields[1..])
  {
    var parts := seq(|fields|, i requires 0 <= i < |fields| => PrintField(fields[i]));
    var rest := fields[1..];
    assert parts[1..] == seq(|rest|, i requires 0 <= i < |rest| => PrintField(rest[i]));
  }

  lemma ParseField(f: Field, rest: string, read: Params)
    requires Printable(f) && f.0 !in read
    ensures Parse(PrintField(f) + rest, read) == Parse(rest, read[f.0 := f.1])
  {
    hide Next, PrintField, Printable;
    NextField(f, rest);
  }

  lemma ParseSeparator(rest: string, read: Params)
    ensures Parse(", " + rest, read) == Parse(rest, read)
  {
    hide Next;
    NextSeparator(rest);
  }

  /** Scanning a printed list yields its fields and goes on with whatever follows it. */
  lemma {:induction false} ParsePrinted(fields: seq<Field>, tail: string, read: Params)
    requires fields != [] && DistinctNames(fields)
    requires forall i :: 0 <= i < |fields| ==> Printable(fields[i]) && fields[i].0 !in read
    ensures Parse(Print(fields) + tail, read) == Parse(tail, Extend(read, fields))
  {
    var f, rest := fields[0], fields[1..];
    hide Parse, PrintField, Printable;
    if rest == [] {
      assert Print(fields) == PrintField(f);
      ParseField(f, tail, read);
    } else {
      PrintCons(fields);
      var after := Print(rest) + tail;
      assert Print(fields) + tail == PrintField(f) + (", " + after);
      ParseField(f, ", " + after, read);
      ParseSeparator(after, read[f.0 := f.1]);
      ParsePrinted(rest, tail, read[f.0 := f.1]);
    }
  }

  lemma {:induction false} ExtendHolds(read: Params, fields: seq<Field>, name: string)
    requires DistinctNames(fields)
    decreases |fields|
    ensures name in Extend(read, fields) <==> name in read || exists i :: 0 <= i < |fields| && fields[i].0 == name
    ensures forall i :: 0 <= i < |fields| && fields[i].0 == name ==> Extend(read, fields)[name] == fields[i].1
    ensures name in read && (forall i :: 0 <= i < |fields| ==> fields[i].0 != name) ==>
              name in Extend(read, fields) && Extend(read, fields)[name] == read[name]
  {
    if fields != [] {
      var read', rest := read[fields[0].0 := fields[0].1], fields[1..];
      ExtendHolds(read', rest, name);
      assert forall i :: 0 <= i < |rest| ==> rest[i] == fields[i + 1];
      assert forall i :: 0 < i < |fields| ==> fields[i] == rest[i - 1];
    }
  }

  /** Text that ends the list: nothing, or another scheme's challenge with a parameter of its own. */
  ghost predicate EndsList(tail: string) {
    || tail == ""
    || exists scheme, rest :: IsSchemeName(scheme) && LooksLikeAuthParam(rest) && tail == ", " + scheme + " " + rest
  }

  predicate IsSchemeName(s: string) {
    s != "" && forall i :: 0 <= i < |s| ==> IsNameChar(s[i])
  }

  lemma NextEnd(tail: string)
    requires EndsList(tail)
    ensures Next(tail) == Finished
  {
    if tail != "" {
      var scheme, rest :| IsSchemeName(scheme) && LooksLikeAuthParam(rest) && tail == ", " + scheme + " " + rest;
      var s := scheme + (" " + rest);
      assert tail == ", " + s;
      NextSeparator(s);
      assert s[0] == scheme[0];
      assert DropWhile(s, IsSeparator) == s;
      DropWord(scheme, " " + rest, IsNameChar);
      OtherScheme(Lower(scheme), rest);
    }
  }

  lemma OtherScheme(name: string, rest: string)
    requires LooksLikeAuthParam(rest)
    ensures AfterName(name, " " + rest) == Finished
  {
    assert (" " + rest)[1..] == rest;
    var atName := DropWhile(rest, IsAsciiSpace);
    assert DropWhile(" " + rest, IsAsciiSpace) == atName;
    DropTwice(rest, IsAsciiSpace);
    assert !IsNameChar('=');
  }

  lemma {:induction false} DropTwice(s: string, p: char -> bool)
    ensures DropWhile(DropWhile(s, p), p) == DropWhile(s, p)
  {
    if s != "" && p(s[0]) { DropTwice(s[1..], p); }
  }
}
