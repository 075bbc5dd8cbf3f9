/** The WWW-Authenticate: Payment header of a challenge, printed and parsed, and its binding input. */
module ChallengeHeader {
  import opened Wrappers
  import opened Text
  import opened Json
  import opened Wire
  import opened AuthParams
  import Base64
  import Utf8

  const MAX_REQUEST_LENGTH := 16 * 1024

  datatype HeaderError = BadScheme | BadParams(cause: ParamError) | MissingField | InvalidChallenge

  /** The letters of standard base64 that differ from base64url. */
  function ToUrlSymbol(c: char): char {
    if c == '+' then '-' else if c == '/' then '_' else if c == '-' || c == '_' then '=' else c
  }

  /** valid_sha256_digest: "sha-256=:", 32 bytes in padded standard base64, ":". */
  predicate ValidDigest(s: string) {
    && |s| == 54 && StartsWith(s, "sha-256=:") && s[52] == '=' && s[53] == ':'
    && var symbols := s[9..52];
       Base64.Decode(seq(43, i requires 0 <= i < 43 => ToUrlSymbol(symbols[i])), true).Some?
  }

  predicate ValidOpaque(lib: Lib, s: string) {
    match Base64.Decode(s, true)
    case None => false
    case Some(bytes) =>
      match lib.parseJson(bytes)
      case Some(Obj(m)) => lib.jcs(Obj(m)) == bytes && forall k :: k in m ==> m[k].Str?
      case _ => false
  }

  predicate IsExtensionName(s: string) { IsName(s) && IsLowerLetter(s[0]) }

  /** validate_challenge */
  predicate Valid(lib: Lib, c: Challenge) {
    && c.id != "" && c.realm != "" && c.paymentMethod == "fiber" && c.intent == "charge"
    && c.request != "" && |c.request| <= MAX_REQUEST_LENGTH
    && (c.expires.Some? ==> lib.parseTime(c.expires.value).Some?)
    && (c.digest.Some? ==> ValidDigest(c.digest.value))
    && c.description != Some("")
    && (c.opaqueData.Some? ==> ValidOpaque(lib, c.opaqueData.value))
    && (forall k :: k in c.extensions ==> IsExtensionName(k))
  }

  /** Every Rust String is well-formed UTF-8. */
  ghost predicate Utf8Fields(c: Challenge) {
    && (forall f :: f in StandardFields(c) ==> Utf8.Valid(f.1))
    && (forall k :: k in c.extensions ==> Utf8.Valid(c.extensions[k]))
  }

  const STANDARD: set<string> :=
    {"id", "realm", "method", "intent", "request", "expires", "digest", "description", "opaque"}

  function Optional(name: string, value: Option<string>): seq<Field> {
    match value case None => [] case Some(s) => [(name, s)]
  }

  function StandardFields(c: Challenge): seq<Field> {
    [("id", c.id), ("realm", c.realm), ("method", c.paymentMethod), ("intent", c.intent), ("request", c.request)]
    + Optional("expires", c.expires) + Optional("digest", c.digest)
    + Optional("description", c.description) + Optional("opaque", c.opaqueData)
  }

  /** names lists the keys of m once each: a BTreeMap lists them in byte order and the TypeScript
      printer in locale order, and what follows holds for every order. */
  ghost predicate Lists<T>(names: seq<string>, m: map<string, T>) {
    && (forall i :: 0 <= i < |names| ==> names[i] in m)
    && (forall k :: k in m ==> k in names)
    && (forall i, j :: 0 <= i < j < |names| ==> names[i] != names[j])
  }

  function ExtensionFields(names: seq<string>, m: map<string, string>): seq<Field>
    requires forall i :: 0 <= i < |names| ==> names[i] in m
  {
    seq(|names|, i requires 0 <= i < |names| => (names[i], m[names[i]]))
  }

  /** www_authenticate_header */
  function PrintHeader(lib: Lib, c: Challenge, names: seq<string>): Result<string, HeaderError>
    requires forall i :: 0 <= i < |names| ==> names[i] in c.extensions
  {
    if !Valid(lib, c) then Err(InvalidChallenge)
    else Ok("Payment " + Print(StandardFields(c) + ExtensionFields(names, c.extensions)))
  }

  function Lookup(p: Params, name: string): Option<string> {
    if name in p then Some(p[name]) else None
  }

  function FromParams(p: Params): Option<Challenge> {
    if !({"id", "realm", "method", "intent", "request"} <= p.Keys) then None
    else Some(Challenge(p["id"], p["realm"], p["method"], p["intent"], p["request"],
                        Lookup(p, "expires"), Lookup(p, "digest"), Lookup(p, "description"),
                        Lookup(p, "opaque"), p - STANDARD))
  }

  /** parse_www_authenticate_header */
  function ParseHeader(lib: Lib, header: string): Result<Challenge, HeaderError> {
    match Utf8.SplitOnce(Utf8.Trim(header))
    case None => Err(BadScheme)
    case Some((scheme, params)) =>
      if !EqIgnoreAsciiCase(scheme, "Payment") then Err(BadScheme)
      else
        match Parse(params, map[])
        case Err(e) => Err(BadParams(e))
        case Ok(p) =>
          match FromParams(p)
          case None => Err(MissingField)
          case Some(c) => if Valid(lib, c) then Ok(c) else Err(InvalidChallenge)
  }

  // ---------------------------------------------------------------- what a challenge must be

  /** The digest of a body in the form of RFC 9530: 32 bytes, in standard base64 between colons. */
  ghost predicate IsDigest(s: string) {
    exists b :: IsBytes(b) && |b| == 32 && DigestOf(s, b)
  }

  predicate DigestOf(s: string, b: string)
    requires IsBytes(b)
  {
    var symbols := Base64.Encode(b);
    && |symbols| == 43 && |s| == 54 && s[..9] == "sha-256=:" && s[52..] == "=:"
    && forall i :: 0 <= i < 43 ==>
      s[9 + i] == if symbols[i] == '-' then '+' else if symbols[i] == '_' then '/' else symbols[i]
  }

  /** Base64url of the canonical JSON of an object of texts. */
  ghost predicate IsOpaque(lib: Lib, s: string)
    requires Sound(lib)
  {
    exists v: Json :: v.Obj? && (forall k :: k in v.fields ==> v.fields[k].Str?) && s == Base64.Encode(lib.jcs(v))
  }

  /** A name in lower case that starts with a letter. */
  predicate IsLowerName(s: string) {
    && s != "" && 'a' <= s[0] <= 'z'
    && forall i :: 0 <= i < |s| ==> 'a' <= s[i] <= 'z' || '0' <= s[i] <= '9' || s[i] == '_' || s[i] == '-'
  }

  ghost predicate WellMade(lib: Lib, c: Challenge)
    requires Sound(lib)
  {
    && c.id != "" && c.realm != "" && c.paymentMethod == "fiber" && c.intent == "charge"
    && 0 < |c.request| <= 16384
    && (c.expires.Some? ==> lib.parseTime(c.expires.value).Some?)
    && (c.digest.Some? ==> IsDigest(c.digest.value))
    && (c.description.Some? ==> c.description.value != "")
    && (c.opaqueData.Some? ==> IsOpaque(lib, c.opaqueData.value))
    && (forall k :: k in c.extensions ==> IsLowerName(k))
  }

  /** The symbols of a digest, as base64url has them. */
  function UrlSymbols(s: string): string
    requires |s| == 54
  {
    seq(43, i requires 0 <= i < 43 => ToUrlSymbol(s[9..52][i]))
  }

  lemma DigestOfIff(s: string, b: string)
    requires |s| == 54 && IsBytes(b) && |b| == 32
    ensures DigestOf(s, b) <==>
            StartsWith(s, "sha-256=:") && s[52] == '=' && s[53] == ':' && UrlSymbols(s) == Base64.Encode(b)
  {
    hide Base64.Encode;
    Base64.EncodeUsesAlphabet(b);
    var symbols := Base64.Encode(b);
    assert |symbols| == 43;
    forall i | 0 <= i < 43 ensures Base64.SextetOf(symbols[i]).Some? {}
    assert s[52..] == [s[52], s[53]];
    if UrlSymbols(s) == symbols {
      forall i | 0 <= i < 43
        ensures s[9 + i] == if symbols[i] == '-' then '+' else if symbols[i] == '_' then '/' else symbols[i]
      {
        assert UrlSymbols(s)[i] == symbols[i] && s[9..52][i] == s[9 + i];
      }
    }
    if DigestOf(s, b) {
      forall i | 0 <= i < 43 ensures UrlSymbols(s)[i] == symbols[i] { assert s[9..52][i] == s[9 + i]; }
    }
  }

  lemma DigestIff(s: string)
    ensures ValidDigest(s) <==> IsDigest(s)
  {
    hide Base64.Encode, Base64.Decode, DigestOf, ToUrlSymbol;
    if |s| == 54 {
      var symbols := UrlSymbols(s);
      forall b | IsBytes(b) && |b| == 32 ensures DigestOf(s, b) ==> Base64.Decode(symbols, true) == Some(b) {
        DigestOfIff(s, b);
        Base64.StrictDecodeIsInverse(symbols, b);
      }
      if Base64.Decode(symbols, true).Some? {
        var b := Base64.Decode(symbols, true).value;
        Base64.StrictDecodeIsInverse(symbols, b);
        Base64.EncodeUsesAlphabet(b);
        DigestOfIff(s, b);
      }
    } else {
      forall b | IsBytes(b) ensures !DigestOf(s, b) { NoDigest(s, b); }
    }
  }

  lemma NoDigest(s: string, b: string)
    requires IsBytes(b) && |s| != 54
    ensures !DigestOf(s, b)
  {}

  lemma OpaqueIff(lib: Lib, s: string)
    requires Sound(lib)
    ensures ValidOpaque(lib, s) <==> IsOpaque(lib, s)
  {
    hide Base64.Encode, Base64.Decode;
    if Base64.Decode(s, true).Some? {
      var bytes := Base64.Decode(s, true).value;
      Base64.StrictDecodeIsInverse(s, bytes);
    }
    forall v: Json | s == Base64.Encode(lib.jcs(v)) ensures Base64.Decode(s, true) == Some(lib.jcs(v)) {
      Base64.StrictDecodeIsInverse(s, lib.jcs(v));
    }
  }

  lemma NameIff(s: string)
    ensures IsExtensionName(s) <==> IsLowerName(s)
  {}

  lemma ValidIff(lib: Lib, c: Challenge)
    requires Sound(lib)
    ensures Valid(lib, c) <==> WellMade(lib, c)
  {
    hide ValidDigest, IsDigest, ValidOpaque, IsOpaque, IsExtensionName, IsLowerName;
    if c.digest.Some? { DigestIff(c.digest.value); }
    if c.opaqueData.Some? { OpaqueIff(lib, c.opaqueData.value); }
    forall k | k in c.extensions ensures IsExtensionName(k) <==> IsLowerName(k) { NameIff(k); }
  }

  /** A challenge can be printed exactly when it is well made, and whatever is read is well made. */
  lemma OnlyWellMade(lib: Lib, c: Challenge, names: seq<string>, header: string)
    requires Sound(lib) && forall i :: 0 <= i < |names| ==> names[i] in c.extensions
    ensures PrintHeader(lib, c, names).Ok? <==> WellMade(lib, c)
    ensures ParseHeader(lib, header) == Ok(c) ==> WellMade(lib, c)
  {
    hide Valid, WellMade, FromParams;
    ValidIff(lib, c);
  }

  // ---------------------------------------------------------------- round trip

  lemma {:induction false} ExtendMembers(fields: seq<Field>)
    requires DistinctNames(fields)
    ensures var m := Extend(map[], fields);
      && (forall f :: f in fields ==> f.0 in m && m[f.0] == f.1)
      && (forall n :: n in m ==> (n, m[n]) in fields)
  {
    var m := Extend(map[], fields);
    forall f | f in fields ensures f.0 in m && m[f.0] == f.1 { ExtendHolds(map[], fields, f.0); }
    forall n | n in m ensures (n, m[n]) in fields { ExtendHolds(map[], fields, n); }
  }

  lemma StandardNames(c: Challenge)
    ensures DistinctNames(StandardFields(c))
    ensures forall f :: f in StandardFields(c) ==> f.0 in STANDARD && IsName(f.0)
  {
    StandardNamesDiffer(c);
    StandardNamesAreNames();
    hide IsName, DistinctNames;
    assert STANDARD == {"id", "realm", "method", "intent", "request", "expires", "digest", "description", "opaque"};
  }

  lemma StandardNamesAreNames()
    ensures IsName("id") && IsName("realm") && IsName("method") && IsName("intent") && IsName("request")
    ensures IsName("expires") && IsName("digest") && IsName("description") && IsName("opaque")
  {}

  lemma StandardNamesDiffer(c: Challenge)
    ensures DistinctNames(StandardFields(c))
  {
    hide IsName;
  }

  /** The fields that the printer takes from the nine members, by name. */
  lemma StandardMembers(c: Challenge)
    ensures var fields := StandardFields(c);
      && ("id", c.id) in fields && ("realm", c.realm) in fields && ("method", c.paymentMethod) in fields
      && ("intent", c.intent) in fields && ("request", c.request) in fields
  {
    var fields := StandardFields(c);
    assert fields[0] in fields && fields[1] in fields && fields[2] in fields && fields[3] in fields
        && fields[4] in fields;
  }

  lemma OptionalMembers(c: Challenge, v: string)
    ensures ("expires", v) in StandardFields(c) <==> c.expires == Some(v)
    ensures ("digest", v) in StandardFields(c) <==> c.digest == Some(v)
    ensures ("description", v) in StandardFields(c) <==> c.description == Some(v)
    ensures ("opaque", v) in StandardFields(c) <==> c.opaqueData == Some(v)
  {
    var fields := StandardFields(c);
    var head := [("id", c.id), ("realm", c.realm), ("method", c.paymentMethod), ("intent", c.intent),
                 ("request", c.request)];
    assert forall f :: f in fields <==>
      f in head || f in Optional("expires", c.expires) || f in Optional("digest", c.digest)
      || f in Optional("description", c.description) || f in Optional("opaque", c.opaqueData);
  }

  lemma StandardLookup(c: Challenge, m: Params)
    requires forall f :: f in StandardFields(c) ==> f.0 in m && m[f.0] == f.1
    requires forall n :: n in m && n in STANDARD ==> (n, m[n]) in StandardFields(c)
    requires m - STANDARD == c.extensions
    ensures FromParams(m) == Some(c)
  {
    hide StandardFields;
    StandardMembers(c);
    forall v ensures
      && (("expires", v) in StandardFields(c) <==> c.expires == Some(v))
      && (("digest", v) in StandardFields(c) <==> c.digest == Some(v))
      && (("description", v) in StandardFields(c) <==> c.description == Some(v))
      && (("opaque", v) in StandardFields(c) <==> c.opaqueData == Some(v))
    {
      OptionalMembers(c, v);
    }
    OptionalLookup(m, StandardFields(c), "expires", c.expires);
    OptionalLookup(m, StandardFields(c), "digest", c.digest);
    OptionalLookup(m, StandardFields(c), "description", c.description);
    OptionalLookup(m, StandardFields(c), "opaque", c.opaqueData);
  }

  lemma OptionalLookup(m: Params, fields: seq<Field>, name: string, value: Option<string>)
    requires forall f :: f in fields ==> f.0 in m && m[f.0] == f.1
    requires name in m ==> (name, m[name]) in fields
    requires forall v :: (name, v) in fields <==> value == Some(v)
    ensures Lookup(m, name) == value
  {
    if value.Some? { assert (name, value.value) in fields; }
  }

  /** What the fields of a challenge whose extension names are its own scan back to. */
  lemma FieldNames(c: Challenge, names: seq<string>)
    requires Lists(names, c.extensions) && c.extensions.Keys !! STANDARD
    ensures DistinctNames(StandardFields(c) + ExtensionFields(names, c.extensions))
  {
    hide StandardFields, IsName;
    var standard := StandardFields(c);
    StandardNames(c);
    assert forall i :: 0 <= i < |standard| ==> standard[i] in standard;
  }

  lemma FieldsScanBack(c: Challenge, names: seq<string>)
    requires Lists(names, c.extensions) && c.extensions.Keys !! STANDARD
    ensures var fields := StandardFields(c) + ExtensionFields(names, c.extensions);
      DistinctNames(fields) && FromParams(Extend(map[], fields)) == Some(c)
  {
    hide StandardFields, FromParams, IsName, DistinctNames, Extend;
    var standard, own := StandardFields(c), ExtensionFields(names, c.extensions);
    var fields := standard + own;
    StandardNames(c);
    FieldNames(c, names);
    ExtendMembers(fields);
    var m := Extend(map[], fields);
    assert forall f :: f in fields ==> f in standard || f in own;
    assert forall f :: f in own ==> f.0 in c.extensions;
    assert forall n :: n in m && n in STANDARD ==> (n, m[n]) in standard;
    forall n | n in c.extensions ensures n in m && m[n] == c.extensions[n] {
      var i :| 0 <= i < |names| && names[i] == n;
      assert own[i] in fields;
    }
    assert forall n :: n in m && n !in STANDARD ==> (n, m[n]) in own;
    assert m - STANDARD == c.extensions;
    StandardLookup(c, m);
  }

  /** A tail that ends the parameter list and that trimming leaves alone. */
  ghost predicate EndsHeader(tail: string) {
    EndsList(tail) && (tail != "" ==> '!' <= tail[|tail| - 1] <= '~')
  }

  lemma ScanHeader(params: string, tail: string)
    requires params != "" && '!' <= params[|params| - 1] <= '~'
    requires tail != "" ==> '!' <= tail[|tail| - 1] <= '~'
    ensures Utf8.SplitOnce(Utf8.Trim("Payment " + params + tail)) == Some(("Payment", params + tail))
  {
    var header := "Payment " + params + tail;
    assert header[0] == 'P';
    assert '!' <= header[|header| - 1] <= '~';
    assert Utf8.SpaceAtStart(header) == 0 && Utf8.SpaceAtEnd(header) == 0;
    assert header == "Payment" + " " + (params + tail);
    Utf8.SplitAfterWord("Payment", params + tail);
  }

  lemma {:induction false} PrintEndsInQuote(fields: seq<Field>)
    requires fields != []
    ensures Print(fields) != "" && Print(fields)[|Print(fields)| - 1] == '"'
  {
    hide Escape;
    if |fields| == 1 {
      assert Print(fields) == PrintField(fields[0]);
    } else {
      PrintCons(fields);
      PrintEndsInQuote(fields[1..]);
    }
  }

  /** The scheme is read in any letter case, and no other scheme is read. */
  lemma SchemeIff(lib: Lib, scheme: string, params: string)
    requires scheme != "" && forall i :: 0 <= i < |scheme| ==> '!' <= scheme[i] <= '~'
    requires params != "" && '!' <= params[|params| - 1] <= '~'
    ensures ParseHeader(lib, scheme + " " + params) ==
            if EqIgnoreAsciiCase(scheme, "Payment") then ParseHeader(lib, "Payment" + " " + params) else Err(BadScheme)
  {
    hide Utf8.SplitOnce, Utf8.Trim, Parse, FromParams, Valid, Lower;
    SchemeSplits(scheme, params);
    SchemeSplits("Payment", params);
  }

  lemma SchemeSplits(scheme: string, params: string)
    requires scheme != "" && forall i :: 0 <= i < |scheme| ==> '!' <= scheme[i] <= '~'
    requires params != "" && '!' <= params[|params| - 1] <= '~'
    ensures Utf8.SplitOnce(Utf8.Trim(scheme + " " + params)) == Some((scheme, params))
  {
    var header := scheme + " " + params;
    assert header[0] == scheme[0] && header[|header| - 1] == params[|params| - 1];
    assert Utf8.SpaceAtStart(header) == 0 && Utf8.SpaceAtEnd(header) == 0;
    Utf8.SplitAfterWord(scheme, params);
  }

  /** Printing then parsing gives the challenge back, even with another scheme's challenge appended,
      exactly when no extension reuses one of the nine standard names. */
  lemma HeaderRoundTrip(lib: Lib, c: Challenge, names: seq<string>, tail: string)
    requires Valid(lib, c) && Utf8Fields(c) && Lists(names, c.extensions) && EndsHeader(tail)
    ensures ParseHeader(lib, PrintHeader(lib, c, names).value + tail) == Ok(c) <==> c.extensions.Keys !! STANDARD
  {
    if c.extensions.Keys !! STANDARD {
      HeaderScansBack(lib, c, names, tail);
    }
  }

  lemma HeaderScansBack(lib: Lib, c: Challenge, names: seq<string>, tail: string)
    requires Valid(lib, c) && Utf8Fields(c) && Lists(names, c.extensions) && EndsHeader(tail)
    requires c.extensions.Keys !! STANDARD
    ensures ParseHeader(lib, PrintHeader(lib, c, names).value + tail) == Ok(c)
  {
    hide Print, Parse, Next, FromParams, Utf8.SplitOnce, Utf8.Trim, EndsList, Valid, Utf8Fields, StandardFields,
      ExtensionFields, Printable, DistinctNames, Extend, STANDARD, Lower;
    var fields := StandardFields(c) + ExtensionFields(names, c.extensions);
    FieldsScanBack(c, names);
    FieldsArePrintable(lib, c, names);
    ParsePrinted(fields, tail, map[]);
    NextEnd(tail);
    ParseFinished(tail, Extend(map[], fields));
    PrintEndsInQuote(fields);
    ScanHeader(Print(fields), tail);
  }

  lemma FieldsArePrintable(lib: Lib, c: Challenge, names: seq<string>)
    requires Valid(lib, c) && Utf8Fields(c) && Lists(names, c.extensions)
    ensures var fields := StandardFields(c) + ExtensionFields(names, c.extensions);
      fields != [] && forall i :: 0 <= i < |fields| ==> Printable(fields[i])
  {
    hide Utf8.Valid, ValidDigest, ValidOpaque, IsName;
    var fields := StandardFields(c) + ExtensionFields(names, c.extensions);
    StandardNames(c);
    forall i | 0 <= i < |fields| ensures Printable(fields[i]) {
      assert fields[i] in StandardFields(c) || fields[i].0 in c.extensions;
    }
  }

  lemma ParseFinished(tail: string, read: Params)
    requires Next(tail) == Finished
    ensures Parse(tail, read) == Ok(read)
  {}

  /** The challenge of another scheme with printed parameters is such a tail. */
  lemma PrintedSchemeEndsHeader(scheme: string, fields: seq<Field>)
    requires IsSchemeName(scheme) && fields != []
    requires IsName(fields[0].0)
    ensures EndsHeader(", " + scheme + " " + Print(fields))
  {
    var params := Print(fields);
    PrintEndsInQuote(fields);
    var name := fields[0].0;
    var afterName := params[|name|..];
    assert params == name + afterName && HeadIs(afterName, '=') by {
      if |fields| == 1 { assert params == PrintField(fields[0]); } else { PrintCons(fields); }
    }
    DropWord(name, afterName, IsNameChar);
    assert !IsAsciiSpace(name[0]);
    assert LooksLikeAuthParam(params);
  }

  // ---------------------------------------------------------------- the binding input

  function OrEmpty(s: Option<string>): string { match s case None => "" case Some(v) => v }

  /** challenge_binding_input */
  function BindingInput(c: Challenge): string {
    Join([c.realm, c.paymentMethod, c.intent, c.request, OrEmpty(c.expires), OrEmpty(c.digest),
          OrEmpty(c.opaqueData)], "|")
  }

  /** The seven fields that the binding covers. */
  predicate SameBoundFields(c: Challenge, d: Challenge) {
    && c.realm == d.realm && c.paymentMethod == d.paymentMethod && c.intent == d.intent && c.request == d.request
    && c.expires == d.expires && c.digest == d.digest && c.opaqueData == d.opaqueData
  }

  /** With b free of bars, a + "|" + b splits in one way. */
  lemma LastBar(a: string, b: string, a': string, b': string)
    requires '|' !in b && '|' !in b'
    requires a + "|" + b == a' + "|" + b'
    ensures a == a' && b == b'
  {
    var s := a + "|" + b;
    assert s == a' + "|" + b';
    assert s[|a|] == '|' && s[|a'|] == '|';
    assert forall i :: |a| < i < |s| ==> s[i] == b[i - |a| - 1];
    assert forall i :: |a'| < i < |s| ==> s[i] == b'[i - |a'| - 1];
    assert |a| == |a'|;
    assert s[..|a|] == a && s[..|a'|] == a';
    assert s[|a| + 1..] == b && s[|a'| + 1..] == b';
  }

  lemma BindingParts(c: Challenge)
    ensures BindingInput(c) ==
            c.realm + "|" + c.paymentMethod + "|" + c.intent + "|" + c.request + "|" + OrEmpty(c.expires) + "|"
            + OrEmpty(c.digest) + "|" + OrEmpty(c.opaqueData)
  {
    var parts := [c.realm, c.paymentMethod, c.intent, c.request, OrEmpty(c.expires), OrEmpty(c.digest),
                  OrEmpty(c.opaqueData)];
    assert parts[1..][1..][1..][1..][1..][1..] == [OrEmpty(c.opaqueData)];
    JoinCons(parts, "|");
    JoinCons(parts[1..], "|");
    JoinCons(parts[2..], "|");
    JoinCons(parts[3..], "|");
    JoinCons(parts[4..], "|");
    JoinCons(parts[5..], "|");
    assert Join(parts[6..], "|") == OrEmpty(c.opaqueData);
  }

  lemma JoinCons(parts: seq<string>, separator: string)
    requires |parts| > 1
    ensures Join(parts, separator) == parts[0] + separator + Join(parts[1..], separator)
    ensures |parts| > 2 ==> parts[1..][1..] == parts[2..]
  {}

  /** No bound field but the realm and the request can hold a bar, or be present and empty. */
  predicate Separable(c: Challenge) {
    && c.paymentMethod == "fiber" && c.intent == "charge"
    && '|' !in OrEmpty(c.expires) && '|' !in OrEmpty(c.digest) && '|' !in OrEmpty(c.opaqueData)
    && c.expires != Some("") && c.digest != Some("") && c.opaqueData != Some("")
  }

  lemma ValidIsSeparable(lib: Lib, c: Challenge)
    requires Sound(lib) && TimeText(lib) && Valid(lib, c)
    ensures Separable(c)
  {
    if c.digest.Some? { DigestAlphabet(c.digest.value); }
    if c.opaqueData.Some? {
      var bytes := Base64.Decode(c.opaqueData.value, true).value;
      Base64.EncodeDecode(c.opaqueData.value);
      EncodedHasNoBar(bytes);
    }
  }

  lemma EncodedHasNoBar(bytes: string)
    requires IsBytes(bytes)
    ensures '|' !in Base64.Encode(bytes)
    ensures bytes != "" ==> Base64.Encode(bytes) != ""
  {
    Base64.EncodeUsesAlphabet(bytes);
    assert Base64.SextetOf('|').None?;
  }

  lemma DigestAlphabet(s: string)
    requires ValidDigest(s)
    ensures '|' !in s && s != ""
  {
    hide Base64.Decode, Base64.Encode;
    var symbols := s[9..52];
    var mapped := seq(43, i requires 0 <= i < 43 => ToUrlSymbol(symbols[i]));
    Base64.EncodeDecode(mapped);
    Base64.EncodeUsesAlphabet(Base64.Decode(mapped, true).value);
    forall i | 0 <= i < 43 ensures symbols[i] != '|' { assert Base64.SextetOf(mapped[i]).Some?; }
    assert s == "sha-256=:" + symbols + "=:";
  }

  const MIDDLE := "|fiber|charge|"

  lemma SeparableParts(c: Challenge)
    requires Separable(c)
    ensures BindingInput(c) ==
            c.realm + MIDDLE + c.request + "|" + OrEmpty(c.expires) + "|" + OrEmpty(c.digest) + "|"
            + OrEmpty(c.opaqueData)
  {
    hide BindingInput;
    BindingParts(c);
    assert c.realm + "|" + "fiber" + "|" + "charge" + "|" == c.realm + MIDDLE;
  }

  /** What equal binding inputs say: the last three fields agree, and so do realm and request as far
      as the text between them shows where one ends. */
  lemma BindingDetermines(c: Challenge, d: Challenge)
    requires Separable(c) && Separable(d)
    ensures BindingInput(c) == BindingInput(d) <==>
            && c.expires == d.expires && c.digest == d.digest && c.opaqueData == d.opaqueData
            && c.realm + MIDDLE + c.request == d.realm + MIDDLE + d.request
  {
    SeparableParts(c);
    SeparableParts(d);
    if BindingInput(c) == BindingInput(d) {
      hide BindingInput;
      var c1, d1 := c.realm + MIDDLE + c.request, d.realm + MIDDLE + d.request;
      LastBar(c1 + "|" + OrEmpty(c.expires) + "|" + OrEmpty(c.digest), OrEmpty(c.opaqueData),
              d1 + "|" + OrEmpty(d.expires) + "|" + OrEmpty(d.digest), OrEmpty(d.opaqueData));
      LastBar(c1 + "|" + OrEmpty(c.expires), OrEmpty(c.digest), d1 + "|" + OrEmpty(d.expires), OrEmpty(d.digest));
      LastBar(c1, OrEmpty(c.expires), d1, OrEmpty(d.expires));
    }
  }

  /** When the requests hold no bar either, the binding input determines the seven bound fields, bars
      in the realm or not. */
  lemma BindingSeparates(c: Challenge, d: Challenge)
    requires Separable(c) && Separable(d)
    requires '|' !in c.request && '|' !in d.request
    ensures BindingInput(c) == BindingInput(d) <==> SameBoundFields(c, d)
  {
    BindingDetermines(c, d);
    if BindingInput(c) == BindingInput(d) {
      hide BindingInput;
      var c2, d2 := c.realm + "|fiber|charge", d.realm + "|fiber|charge";
      assert c.realm + MIDDLE + c.request == c2 + "|" + c.request;
      assert d.realm + MIDDLE + d.request == d2 + "|" + d.request;
      LastBar(c2, c.request, d2, d.request);
      assert c2[..|c.realm|] == c.realm && d2[..|d.realm|] == d.realm;
    }
  }

  /** On validated challenges whose request is a base64url token the binding input is injective. */
  lemma BindingInjective(lib: Lib, c: Challenge, d: Challenge)
    requires Sound(lib) && TimeText(lib)
    requires Valid(lib, c) && Valid(lib, d)
    requires Base64.IsAlphabet(c.request) && Base64.IsAlphabet(d.request)
    ensures BindingInput(c) == BindingInput(d) <==> SameBoundFields(c, d)
  {
    hide Valid, BindingInput;
    ValidIsSeparable(lib, c);
    ValidIsSeparable(lib, d);
    assert Base64.SextetOf('|').None?;
    BindingSeparates(c, d);
  }

  /** Validation alone does not give that: it lets a request hold a bar, and then moving text across
      the fixed middle yields another validated challenge with the same binding input. */
  lemma BarsInRequestCollide(lib: Lib, c: Challenge, d: Challenge, a: string, b: string, q: string)
    requires Sound(lib) && TimeText(lib)
    requires Valid(lib, c) && Valid(lib, d) && d == c.(realm := a, request := b + MIDDLE + q)
    requires c.realm == a + MIDDLE + b && c.request == q
    ensures BindingInput(c) == BindingInput(d) && !SameBoundFields(c, d)
  {
    ValidIsSeparable(lib, c);
    ValidIsSeparable(lib, d);
    BindingDetermines(c, d);
    assert (a + MIDDLE + b) + MIDDLE + q == a + MIDDLE + (b + MIDDLE + q);
  }

  /** Such a pair. */
  lemma CollidingPair(lib: Lib)
    requires Sound(lib) && TimeText(lib)
    ensures var c := Challenge("i", "a" + MIDDLE + "b", "fiber", "charge", "c", None, None, None, None, map[]);
      var d := c.(realm := "a", request := "b" + MIDDLE + "c");
      Valid(lib, c) && Valid(lib, d) && BindingInput(c) == BindingInput(d) && !SameBoundFields(c, d)
  {
    var c := Challenge("i", "a" + MIDDLE + "b", "fiber", "charge", "c", None, None, None, None, map[]);
    var d := c.(realm := "a", request := "b" + MIDDLE + "c");
    BarsInRequestCollide(lib, c, d, "a", "b", "c");
  }
}
