/** The decisions of the Rust gateway: which resource a request names, which challenge it is issued,
    when a credential verifies, and what is recorded and answered after the upstream call. */
module Gateway {
  import opened Wrappers
  import opened Text
  import opened Json
  import opened Wire
  import opened Storage
  import Base64
  import ChallengeHeader
  import ChargeToken
  import Ingress
  import Invoice
  import Quantity

  datatype Config = Config(
    realm: string, serverId: string, publicBaseUrl: string, charge: Invoice.ChargeInput, secret: string,
    previousSecrets: seq<string>, ttlSeconds: int, node: Invoice.Node, fl402: Option<Ingress.Fl402Config>)

  datatype HttpRequest = HttpRequest(
    verb: string, pathAndQuery: string, contentType: Option<string>, authorization: Option<string>, body: string)

  // ---------------------------------------------------------------- the resource

  function ToStandardSymbol(c: char): char {
    if c == '-' then '+' else if c == '_' then '/' else c
  }

  /** The padded standard base64 of 32 bytes. */
  function StandardBase64(bytes: string): string
    requires IsBytes(bytes) && |bytes| == 32
  {
    var symbols := Base64.Encode(bytes);
    seq(|symbols|, i requires 0 <= i < |symbols| => ToStandardSymbol(symbols[i])) + "="
  }

  /** body_digest */
  function BodyDigest(lib: Lib, body: string): string
    requires Sound(lib)
  {
    "sha-256=:" + StandardBase64(lib.sha256(body)) + ":"
  }

  /** resource_descriptor */
  function Resource(lib: Lib, config: Config, r: HttpRequest): Json
    requires Sound(lib)
  {
    var base: map<string, Json> := map["method" := Str(r.verb), "url" := Str(config.publicBaseUrl + r.pathAndQuery)];
    var withDigest := if r.verb == "GET" || r.verb == "HEAD" then base
        else base["digest" := Str(BodyDigest(lib, r.body))];
    Obj(WithOptional(withDigest, "contentType", r.contentType))
  }

  lemma DigestShape(symbols: string)
    requires Base64.IsAlphabet(symbols) && |symbols| == 43 && Base64.Decode(symbols, true).Some?
    ensures ChallengeHeader.ValidDigest(
              "sha-256=:" + (seq(|symbols|, i requires 0 <= i < |symbols| => ToStandardSymbol(symbols[i])) + "=") + ":")
  {
    var standard := seq(|symbols|, i requires 0 <= i < |symbols| => ToStandardSymbol(symbols[i]));
    var s := "sha-256=:" + (standard + "=") + ":";
    assert s == "sha-256=:" + standard + "=:";
    assert s[9..52] == standard;
    forall i | 0 <= i < 43 ensures ChallengeHeader.ToUrlSymbol(standard[i]) == symbols[i] {
      assert Base64.SextetOf(symbols[i]).Some?;
    }
    assert seq(43, i requires 0 <= i < 43 => ChallengeHeader.ToUrlSymbol(s[9..52][i])) == symbols;
  }

  /** The digest that the gateway computes is one that challenge validation accepts. */
  lemma BodyDigestIsValid(lib: Lib, body: string)
    requires Sound(lib)
    ensures ChallengeHeader.ValidDigest(BodyDigest(lib, body))
    ensures ChallengeHeader.DigestOf(BodyDigest(lib, body), lib.sha256(body))
  {
    hide ChallengeHeader.ValidDigest, Base64.Encode, Base64.Decode;
    var bytes := lib.sha256(body);
    Base64.DecodeEncode(bytes, true);
    Base64.EncodeUsesAlphabet(bytes);
    DigestShape(Base64.Encode(bytes));
    StandardSymbols(Base64.Encode(bytes));
  }

  lemma StandardSymbols(symbols: string)
    requires |symbols| == 43
    ensures var standard := seq(|symbols|, i requires 0 <= i < |symbols| => ToStandardSymbol(symbols[i]));
      var s := "sha-256=:" + (standard + "=") + ":";
      && |s| == 54 && s[..9] == "sha-256=:" && s[52..] == "=:"
      && forall i :: 0 <= i < 43 ==>
        s[9 + i] == if symbols[i] == '-' then '+' else if symbols[i] == '_' then '/' else symbols[i]
  {
    var standard := seq(|symbols|, i requires 0 <= i < |symbols| => ToStandardSymbol(symbols[i]));
    var s := "sha-256=:" + (standard + "=") + ":";
    assert s == "sha-256=:" + standard + "=:";
    forall i | 0 <= i < 43 ensures s[9 + i] == standard[i] {}
  }

  /** Two requests name the same resource exactly when method, URL and content type agree and, for
      methods that send a body, the bodies have one digest. */
  lemma SameResourceIff(lib: Lib, config: Config, r: HttpRequest, s: HttpRequest)
    requires Sound(lib)
    ensures Resource(lib, config, r) == Resource(lib, config, s) <==>
            && r.verb == s.verb && r.pathAndQuery == s.pathAndQuery && r.contentType == s.contentType
            && (r.verb != "GET" && r.verb != "HEAD" ==> lib.sha256(r.body) == lib.sha256(s.body))
  {
    if Resource(lib, config, r) == Resource(lib, config, s) {
      ResourceFields(lib, config, r);
      ResourceFields(lib, config, s);
      hide Resource, BodyDigest;
      UrlTail(config.publicBaseUrl, r.pathAndQuery, s.pathAndQuery);
      if r.verb != "GET" && r.verb != "HEAD" { DigestsDiffer(lib, r.body, s.body); }
    }
  }

  lemma UrlTail(base: string, a: string, b: string)
    ensures base + a == base + b <==> a == b
  {
    assert (base + a)[|base|..] == a && (base + b)[|base|..] == b;
  }

  lemma ResourceFields(lib: Lib, config: Config, r: HttpRequest)
    requires Sound(lib)
    ensures var v := Resource(lib, config, r);
      && GetStr(v, "method") == Some(r.verb) && GetStr(v, "url") == Some(config.publicBaseUrl + r.pathAndQuery)
      && GetStr(v, "contentType") == r.contentType
      && GetStr(v, "digest") == (if r.verb == "GET" || r.verb == "HEAD" then None else Some(BodyDigest(lib, r.body)))
      && v.Obj? && v.fields.Keys <= {"method", "url", "contentType", "digest"}
  {
    hide BodyDigest;
  }

  lemma DigestsDiffer(lib: Lib, a: string, b: string)
    requires Sound(lib)
    ensures BodyDigest(lib, a) == BodyDigest(lib, b) <==> lib.sha256(a) == lib.sha256(b)
  {
    if BodyDigest(lib, a) == BodyDigest(lib, b) {
      var x, y := Base64.Encode(lib.sha256(a)), Base64.Encode(lib.sha256(b));
      Base64.EncodeUsesAlphabet(lib.sha256(a));
      Base64.EncodeUsesAlphabet(lib.sha256(b));
      hide Base64.Encode;
      forall i | 0 <= i < 43 ensures x[i] == y[i] {
        assert BodyDigest(lib, a)[9 + i] == ToStandardSymbol(x[i]);
        assert BodyDigest(lib, b)[9 + i] == ToStandardSymbol(y[i]);
        assert Base64.SextetOf(x[i]).Some? && Base64.SextetOf(y[i]).Some?;
      }
      assert x == y;
      Base64.EncodeInjective(lib.sha256(a), lib.sha256(b));
    }
  }

  // ---------------------------------------------------------------- issuing

  /** bind_challenge_id */
  function BindId(lib: Lib, c: Challenge, secret: string): string
    requires Sound(lib)
  {
    Base64.Encode(lib.hmac(secret, ChallengeHeader.BindingInput(c)))
  }

  /** verify_challenge_id */
  predicate VerifyId(lib: Lib, c: Challenge, secrets: seq<string>) {
    match Base64.Decode(c.id, true)
    case None => false
    case Some(tag) => exists s :: s in secrets && lib.hmac(s, ChallengeHeader.BindingInput(c)) == tag
  }

  function Secrets(config: Config): seq<string> { [config.secret] + config.previousSecrets }

  lemma Listed(config: Config, secret: string)
    ensures secret in Secrets(config) <==> secret == config.secret || secret in config.previousSecrets
  {}

  function Expiry(config: Config, now: int): int { now + 1000 * config.ttlSeconds }

  function Draft(lib: Lib, config: Config, token: string, resource: Json, now: int): Challenge
    requires Sound(lib)
  {
    Challenge("", config.realm, "fiber", "charge", token, Some(lib.printTime(Expiry(config, now))),
              GetStr(resource, "digest"), config.charge.description,
              Some(Base64.Encode(lib.jcs(Obj(map["serverId" := Str(config.serverId)])))), map[])
  }

  /** The record that issue_challenge stores for a charge that Fiber invoiced; None when the charge
      does not encode. */
  function Issue(lib: Lib, config: Config, charge: Charge, resource: Json, now: int): Option<ChallengeRecord>
    requires Sound(lib)
  {
    match ChargeToken.Encode(lib, charge)
    case Err(_) => None
    case Ok(token) =>
      var draft := Draft(lib, config, token, resource, now);
      Some(ChallengeRecord(draft.(id := BindId(lib, draft, config.secret)), ChargeToJson(charge), resource,
                           lib.printTime(now), lib.printTime(Expiry(config, now))))
  }

  // ---------------------------------------------------------------- verifying

  /** What credential_from_authorization finds; its errors lead to a fresh challenge like no credential. */
  function Present(lib: Lib, config: Config, stored: map<string, Challenge>, header: string,
                   now: int): Option<Credential>
    requires Sound(lib)
  {
    match Ingress.FromAuthorization(lib, config.fl402, stored, header, now)
    case Ok(presented) => presented
    case Err(_) => None
  }

  /** The part of verify_credential between get_challenge and verify_paid. */
  function CheckCredential(lib: Lib, secrets: seq<string>, record: ChallengeRecord, presented: Credential,
                           resource: Json, now: int): Result<Charge, string>
    requires Sound(lib)
  {
    var issued := record.challenge;
    if presented.challenge != issued then Err("invalid-challenge")
    else if !VerifyId(lib, issued, secrets) then Err("invalid-challenge-binding")
    else if issued.expires.None? then Err("missing-expiry")
    else if lib.parseTime(issued.expires.value).None? then Err("invalid-expiry")
    else if now > lib.parseTime(issued.expires.value).value then Err("expired-challenge")
    else if lib.jcs(resource) != lib.jcs(record.resourceBinding) then Err("wrong-resource")
    else
      match ChargeToken.Decode(lib, true, issued.request)
      case Err(_) => Err("invalid request")
      case Ok(charge) =>
        if lib.jcs(ChargeToJson(charge)) != lib.jcs(record.chargeRequest) then Err("invalid-charge-request")
        else if presented.paymentHash != charge.methodDetails.paymentHash then Err("wrong-payment-hash")
        else Ok(charge)
  }

  function InvoiceStatus(invoice: Json): string {
    match GetStr(invoice, "status") case Some(s) => s case None => "unknown"
  }

  predicate IsTerminal(status: string) { status == "Cancelled" || status == "Expired" }

  /** The settlement that verify_paid returns. */
  function Settlement(lib: Lib, paymentHash: string, invoice: Json, now: int): Json {
    Obj(map["status" := Str("settled"), "paymentHash" := Str(paymentHash),
            "invoiceStatus" := (match Get(invoice, "status") case Some(s) => s case None => Null),
            "observedAt" := Str(lib.printTime(now))])
  }

  /** What passing those checks means. */
  ghost predicate Proves(lib: Lib, secrets: seq<string>, record: ChallengeRecord, presented: Credential,
                         resource: Json, now: int, charge: Charge)
    requires Sound(lib)
  {
    && presented.challenge == record.challenge
    && (exists s :: s in secrets && record.challenge.id == BindId(lib, record.challenge, s))
    && record.challenge.expires.Some? && lib.parseTime(record.challenge.expires.value).Some?
    && now <= lib.parseTime(record.challenge.expires.value).value
    && resource == record.resourceBinding
    && SeparateNames(charge) && ChargeToken.Encode(lib, charge) == Ok(record.challenge.request)
    && record.chargeRequest == ChargeToJson(charge)
    && presented.paymentHash == charge.methodDetails.paymentHash
  }

  /** The checks accept a charge exactly when the credential echoes the stored challenge, whose id is
      bound under one of the secrets and whose expiry has not passed, the resource is the bound one,
      and the stored request and charge are both this charge. */
  lemma CheckAcceptsIffProves(lib: Lib, secrets: seq<string>, record: ChallengeRecord, presented: Credential,
                              resource: Json, now: int, charge: Charge)
    requires Sound(lib)
    ensures CheckCredential(lib, secrets, record, presented, resource, now) == Ok(charge)
            <==> Proves(lib, secrets, record, presented, resource, now, charge)
  {
    hide ChargeToken.Encode, ChargeToken.Decode, ChargeToJson, SeparateNames, VerifyId;
    VerifyIdIffBound(lib, record.challenge, secrets);
    ChargeToken.DecodeIffEncode(lib, true, record.challenge.request, charge);
    SameJcs(lib, resource, record.resourceBinding);
    SameJcs(lib, ChargeToJson(charge), record.chargeRequest);
  }

  lemma SameJcs(lib: Lib, v: Json, w: Json)
    requires Sound(lib)
    ensures lib.jcs(v) == lib.jcs(w) <==> v == w
  {
    if lib.jcs(v) == lib.jcs(w) { JcsInjective(lib, v, w); }
  }

  lemma VerifyIdIffBound(lib: Lib, c: Challenge, secrets: seq<string>)
    requires Sound(lib)
    ensures VerifyId(lib, c, secrets) <==> exists s :: s in secrets && c.id == BindId(lib, c, s)
  {
    hide ChallengeHeader.BindingInput, Base64.Encode, Base64.Decode;
    var input := ChallengeHeader.BindingInput(c);
    forall s | s in secrets
      ensures c.id == BindId(lib, c, s) <==> Base64.Decode(c.id, true) == Some(lib.hmac(s, input))
    {
      Base64.StrictDecodeIsInverse(c.id, lib.hmac(s, input));
    }
  }

  // ---------------------------------------------------------------- what the gateway issued itself

  lemma IssueFields(lib: Lib, config: Config, charge: Charge, resource: Json, now: int)
    requires Sound(lib) && Issue(lib, config, charge, resource, now).Some?
    ensures var record := Issue(lib, config, charge, resource, now).value;
      && record.challenge.id == BindId(lib, record.challenge, config.secret)
      && ChargeToken.Encode(lib, charge) == Ok(record.challenge.request)
      && record.chargeRequest == ChargeToJson(charge) && record.resourceBinding == resource
      && record.challenge.expires == Some(lib.printTime(Expiry(config, now)))
      && record.challenge.realm == config.realm && record.challenge.description == config.charge.description
      && record.challenge.digest == GetStr(resource, "digest")
      && record.challenge.extensions == map[]
      && record.createdAt == lib.printTime(now) && Some(record.expiresAt) == record.challenge.expires
      && record.challenge.paymentMethod == "fiber" && record.challenge.intent == "charge"
      && record.challenge.opaqueData.Some?
    ensures var record := Issue(lib, config, charge, resource, now).value;
      var bytes := Base64.DecodeChecked(record.challenge.opaqueData.value, true);
      bytes.Some? && lib.parseJson(bytes.value) == Some(Obj(map["serverId" := Str(config.serverId)]))
    ensures var c := Issue(lib, config, charge, resource, now).value.challenge;
      var digest := if c.digest.Some? then c.digest.value else "";
      && c.expires == Some(lib.printTime(now + 1000 * config.ttlSeconds))
      && Base64.DecodeChecked(c.id, true) ==
         Some(lib.hmac(config.secret, config.realm + "|fiber|charge|" + c.request + "|" + c.expires.value + "|" + digest
                                      + "|" + c.opaqueData.value))
  {
    hide ChargeToken.Encode, ChargeToJson;
    var server := lib.jcs(Obj(map["serverId" := Str(config.serverId)]));
    Base64.CheckedDecodeIsInverse(Base64.Encode(server), server, true);
    var draft := Draft(lib, config, ChargeToken.Encode(lib, charge).value, resource, now);
    assert ChallengeHeader.BindingInput(draft.(id := BindId(lib, draft, config.secret)))
        == ChallengeHeader.BindingInput(draft);
    BoundText(draft);
    var tag := lib.hmac(config.secret, ChallengeHeader.BindingInput(draft));
    Base64.CheckedDecodeIsInverse(Base64.Encode(tag), tag, true);
  }

  /** The bound text of a challenge of this method and intent that expires and names its server. */
  lemma BoundText(c: Challenge)
    requires c.paymentMethod == "fiber" && c.intent == "charge" && c.expires.Some? && c.opaqueData.Some?
    ensures var digest := if c.digest.Some? then c.digest.value else "";
      ChallengeHeader.BindingInput(c) ==
      c.realm + "|fiber|charge|" + c.request + "|" + c.expires.value + "|" + digest + "|" + c.opaqueData.value
  {
    var digest, opaqueText := ChallengeHeader.OrEmpty(c.digest), c.opaqueData.value;
    hide Join;
    assert [c.realm, "fiber", "charge", c.request, ChallengeHeader.OrEmpty(c.expires), digest,
            ChallengeHeader.OrEmpty(c.opaqueData)]
        == [c.realm, "fiber", "charge", c.request, c.expires.value, digest, opaqueText];
    JoinSeven(c.realm, "fiber", "charge", c.request, c.expires.value, digest, opaqueText);
    LiteralMiddle(c.realm, c.request + "|" + c.expires.value + "|" + digest + "|" + opaqueText);
  }

  lemma LiteralMiddle(realm: string, rest: string)
    ensures realm + "|" + ("fiber" + "|" + ("charge" + "|" + rest)) == realm + "|fiber|charge|" + rest
  {}

  lemma JoinSeven(a: string, b: string, c: string, d: string, e: string, f: string, h: string)
    ensures Join([a, b, c, d, e, f, h], "|") ==
            a + "|" + (b + "|" + (c + "|" + (d + "|" + e + "|" + f + "|" + h)))
  {
    hide Join;
    var one := [h];
    var two := [f] + one;
    var three := [e] + two;
    var four := [d] + three;
    var five := [c] + four;
    var six := [b] + five;
    assert [a, b, c, d, e, f, h] == [a] + six;
    JoinCons(a, six);
    JoinCons(b, five);
    JoinCons(c, four);
    JoinCons(d, three);
    JoinCons(e, two);
    JoinCons(f, one);
    JoinOne(h);
    assert Join(four, "|") == d + "|" + e + "|" + f + "|" + h;
  }

  lemma JoinOne(text: string)
    ensures Join([text], "|") == text
  {}

  lemma JoinCons(head: string, rest: seq<string>)
    requires rest != []
    ensures Join([head] + rest, "|") == head + "|" + Join(rest, "|")
  {
    assert ([head] + rest)[1..] == rest;
  }

  lemma BindIdDetermines(lib: Lib, c: Challenge, d: Challenge, s: string, t: string)
    requires Sound(lib) && IdealMac(lib)
    requires BindId(lib, c, s) == BindId(lib, d, t)
    ensures s == t && ChallengeHeader.BindingInput(c) == ChallengeHeader.BindingInput(d)
  {
    hide ChallengeHeader.BindingInput, Base64.Encode;
    Base64.EncodeInjective(lib.hmac(s, ChallengeHeader.BindingInput(c)), lib.hmac(t, ChallengeHeader.BindingInput(d)));
  }

  /** A challenge that the gateway issued passes the checks later, under whatever configuration,
      exactly when it is echoed in full for the same resource with its payment hash, the issuing
      secret is still current or previous, and the time to live has not passed. */
  lemma OwnChallengePassesIff(lib: Lib, config: Config, charge: Charge, issuedFor: Json, issuedAt: int,
                              later: Config, presented: Credential, resource: Json, now: int)
    requires Sound(lib) && IdealMac(lib)
    requires Issue(lib, config, charge, issuedFor, issuedAt).Some? && SeparateNames(charge)
    requires 0 <= Expiry(config, issuedAt) <= LAST_INSTANT
    ensures var record := Issue(lib, config, charge, issuedFor, issuedAt).value;
      var verdict := CheckCredential(lib, Secrets(later), record, presented, resource, now);
      && (verdict.Ok? <==>
            && presented.challenge == record.challenge && resource == issuedFor
            && presented.paymentHash == charge.methodDetails.paymentHash
            && (config.secret == later.secret || config.secret in later.previousSecrets)
            && now <= issuedAt + 1000 * config.ttlSeconds)
      && (verdict.Ok? ==> verdict.value == charge)
  {
    var record := Issue(lib, config, charge, issuedFor, issuedAt).value;
    var verdict := CheckCredential(lib, Secrets(later), record, presented, resource, now);
    IssueFields(lib, config, charge, issuedFor, issuedAt);
    Listed(later, config.secret);
    assert lib.parseTime(lib.printTime(Expiry(config, issuedAt))) == Some(Expiry(config, issuedAt));
    CheckAcceptsIffProves(lib, Secrets(later), record, presented, resource, now, charge);
    hide CheckCredential, Issue, Secrets, SeparateNames, ChargeToJson, BindId;
    if verdict.Ok? {
      CheckAcceptsIffProves(lib, Secrets(later), record, presented, resource, now, verdict.value);
      var s :| s in Secrets(later) && record.challenge.id == BindId(lib, record.challenge, s);
      BindIdDetermines(lib, record.challenge, record.challenge, s, config.secret);
      SameToken(lib, charge, verdict.value);
    }
  }

  lemma SameToken(lib: Lib, c: Charge, d: Charge)
    requires Sound(lib) && SeparateNames(c) && SeparateNames(d)
    requires ChargeToken.Encode(lib, c).Ok? && ChargeToken.Encode(lib, c) == ChargeToken.Encode(lib, d)
    ensures c == d
  {
    hide ChargeToken.Encode, ChargeToken.Decode;
    var token := ChargeToken.Encode(lib, c).value;
    ChargeToken.DecodeIffEncode(lib, true, token, c);
    ChargeToken.DecodeIffEncode(lib, true, token, d);
  }

  lemma CreatedChargeIsSeparate(lib: Lib, node: Invoice.Node, input: Invoice.ChargeInput, reply: Json, now: int)
    requires Invoice.CreateCharge(lib, node, input, reply, now).Ok?
    ensures SeparateNames(Invoice.CreateCharge(lib, node, input, reply, now).value)
  {
    hide Invoice.Validate, Invoice.PaymentHashOf, Invoice.Extensions, Quantity.ToHexQuantity, GetStr, DETAIL_FIELDS;
    var charge := Invoice.CreateCharge(lib, node, input, reply, now).value;
    var metadata :| charge.methodDetails.extensions == Invoice.Extensions(node, metadata);
    ExtensionsAreSeparate(node, metadata);
  }

  lemma ExtensionsAreSeparate(node: Invoice.Node, metadata: Invoice.Metadata)
    ensures Invoice.Extensions(node, metadata).Keys !! DETAIL_FIELDS
  {
    var names := {"invoiceCurrency", "invoiceExpiresAt", "invoiceUdtScript"};
    assert Invoice.Extensions(node, metadata).Keys <= names;
    assert names !! DETAIL_FIELDS;
  }

  lemma JcsIsNotEmpty(lib: Lib, v: Json)
    requires Sound(lib)
    ensures lib.jcs(v) != ""
  {
    assert lib.parseJson(lib.jcs(v)).Some?;
  }

  lemma IssuedIsSeparable(lib: Lib, config: Config, charge: Charge, r: HttpRequest, at: Config, now: int)
    requires Sound(lib) && TimeText(lib)
    requires Issue(lib, config, charge, Resource(lib, at, r), now).Some?
    ensures var c := Issue(lib, config, charge, Resource(lib, at, r), now).value.challenge;
      ChallengeHeader.Separable(c) && '|' !in c.request
  {
    hide Base64.Encode, Resource, BodyDigest, ChargeToJson, BindId, ValidCharge, ChallengeHeader.BindingInput,
      ChallengeHeader.ValidDigest, Expiry, GetStr;
    ResourceFields(lib, at, r);
    BodyDigestIsValid(lib, r.body);
    ChallengeHeader.DigestAlphabet(BodyDigest(lib, r.body));
    ChallengeHeader.EncodedHasNoBar(lib.jcs(ChargeToJson(charge)));
    var opaqueText := lib.jcs(Obj(map["serverId" := Str(config.serverId)]));
    JcsIsNotEmpty(lib, Obj(map["serverId" := Str(config.serverId)]));
    ChallengeHeader.EncodedHasNoBar(opaqueText);
  }

  /** So INSERT OR IGNORE only ever skips a challenge whose seven bound fields are those of the row it
      keeps, issued under the same secret. */
  lemma SkippedInsertIsTheSameChallenge(lib: Lib, config: Config, charge: Charge, r: HttpRequest, now: int,
                                        config': Config, charge': Charge, r': HttpRequest, now': int)
    requires Sound(lib) && TimeText(lib) && IdealMac(lib)
    requires Issue(lib, config, charge, Resource(lib, config, r), now).Some?
    requires Issue(lib, config', charge', Resource(lib, config', r'), now').Some?
    ensures var c := Issue(lib, config, charge, Resource(lib, config, r), now).value.challenge;
      var d := Issue(lib, config', charge', Resource(lib, config', r'), now').value.challenge;
      c.id == d.id <==> config.secret == config'.secret && ChallengeHeader.SameBoundFields(c, d)
  {
    var c := Issue(lib, config, charge, Resource(lib, config, r), now).value.challenge;
    var d := Issue(lib, config', charge', Resource(lib, config', r'), now').value.challenge;
    IssuedIsSeparable(lib, config, charge, r, config, now);
    IssuedIsSeparable(lib, config', charge', r', config', now');
    IssueFields(lib, config, charge, Resource(lib, config, r), now);
    IssueFields(lib, config', charge', Resource(lib, config', r'), now');
    ChallengeHeader.BindingSeparates(c, d);
    hide Issue, Resource, ChallengeHeader.BindingInput, ChallengeHeader.Separable;
    if c.id == d.id { BindIdDetermines(lib, c, d, config.secret, config'.secret); }
  }

  /** The 402 answer can be printed exactly when the configured realm and description are usable and
      the charge's token fits. */
  lemma IssuedIsValidIff(lib: Lib, config: Config, charge: Charge, r: HttpRequest, now: int)
    requires Sound(lib) && 0 <= Expiry(config, now) <= LAST_INSTANT
    requires Issue(lib, config, charge, Resource(lib, config, r), now).Some?
    ensures var c := Issue(lib, config, charge, Resource(lib, config, r), now).value.challenge;
      ChallengeHeader.Valid(lib, c) <==>
        && config.realm != "" && config.charge.description != Some("")
        && |c.request| <= 16384
  {
    var resource := Resource(lib, config, r);
    ResourceFields(lib, config, r);
    BodyDigestIsValid(lib, r.body);
    assert lib.parseTime(lib.printTime(Expiry(config, now))) == Some(Expiry(config, now));
    var server := Obj(map["serverId" := Str(config.serverId)]);
    OpaqueIsValid(lib, server);
    ChallengeHeader.EncodedHasNoBar(lib.jcs(ChargeToJson(charge)));
    assert lib.parseJson(lib.jcs(ChargeToJson(charge))).Some?;
    var c := Issue(lib, config, charge, resource, now).value.challenge;
    var draft := Draft(lib, config, ChargeToken.Encode(lib, charge).value, resource, now);
    ChallengeHeader.EncodedHasNoBar(lib.hmac(config.secret, ChallengeHeader.BindingInput(draft)));
    hide Base64.Encode, Resource, BodyDigest, ChargeToJson, ChallengeHeader.BindingInput, ChallengeHeader.ValidDigest,
      ChallengeHeader.ValidOpaque;
  }

  lemma OpaqueIsValid(lib: Lib, v: Json)
    requires Sound(lib) && v.Obj? && forall k :: k in v.fields ==> v.fields[k].Str?
    ensures ChallengeHeader.ValidOpaque(lib, Base64.Encode(lib.jcs(v)))
  {
    hide Base64.Encode, Base64.Decode;
    Base64.DecodeEncode(lib.jcs(v), true);
    assert lib.parseJson(lib.jcs(v)) == Some(v);
  }
}
