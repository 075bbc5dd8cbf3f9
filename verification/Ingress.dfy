/** Reading the Authorization header: the Payment scheme and the L402 scheme. */
module Ingress {
  import opened Wrappers
  import opened Text
  import opened Json
  import opened Wire
  import opened Fl402
  import Base64
  import ChallengeHeader
  import Hex
  import Utf8

  const MAX_TOKEN_LENGTH := 16 * 1024

  // ---------------------------------------------------------------- the credential's JSON

  function StringsToJson(m: map<string, string>): map<string, Json> {
    map k | k in m :: Str(m[k])
  }

  function ChallengeToJson(c: Challenge): Json {
    Obj(WithOptional(WithOptional(WithOptional(WithOptional(
          StringsToJson(c.extensions)["id" := Str(c.id)]["realm" := Str(c.realm)]["method" := Str(c.paymentMethod)]
            ["intent" := Str(c.intent)]["request" := Str(c.request)],
          "expires", c.expires), "digest", c.digest), "description", c.description), "opaque", c.opaqueData))
  }

  function ChallengeFromJson(v: Json): Option<Challenge> {
    if !(v.Obj? && GetStr(v, "id").Some? && GetStr(v, "realm").Some? && GetStr(v, "method").Some?
         && GetStr(v, "intent").Some? && GetStr(v, "request").Some?
         && ReadOptional(v, "expires").Some? && ReadOptional(v, "digest").Some?
         && ReadOptional(v, "description").Some? && ReadOptional(v, "opaque").Some?
         && forall k :: k in v.fields && k !in ChallengeHeader.STANDARD ==> v.fields[k].Str?)
    then None
    else Some(Challenge(
                GetStr(v, "id").value, GetStr(v, "realm").value, GetStr(v, "method").value, GetStr(v, "intent").value,
                GetStr(v, "request").value, ReadOptional(v, "expires").value, ReadOptional(v, "digest").value,
                ReadOptional(v, "description").value, ReadOptional(v, "opaque").value,
                map k | k in v.fields && k !in ChallengeHeader.STANDARD :: v.fields[k].text))
  }

  function CredentialToJson(c: Credential): Json {
    Obj(WithOptional(
          c.extensions["challenge" := ChallengeToJson(c.challenge)]
            ["payload" := Obj(StringsToJson(c.payloadExtensions)["paymentHash" := Str(c.paymentHash)])],
          "source", c.source))
  }

  function CredentialFromJson(v: Json): Option<Credential> {
    if !(v.Obj? && "challenge" in v.fields && "payload" in v.fields && ChallengeFromJson(v.fields["challenge"]).Some?
         && ReadOptional(v, "source").Some? && v.fields["payload"].Obj?
         && GetStr(v.fields["payload"], "paymentHash").Some?
         && forall k :: k in v.fields["payload"].fields ==> v.fields["payload"].fields[k].Str?)
    then None
    else
      var payload := v.fields["payload"].fields;
      Some(Credential(ChallengeFromJson(v.fields["challenge"]).value, ReadOptional(v, "source").value,
                      payload["paymentHash"].text,
                      map k | k in payload && k != "paymentHash" :: payload[k].text,
                      v.fields - {"challenge", "source", "payload"}))
  }

  /** credential_hash */
  function CredentialHash(lib: Lib, c: Credential): string
    requires Sound(lib)
  {
    Hex.Encode(lib.sha256(lib.jcs(CredentialToJson(c))))
  }

  // ---------------------------------------------------------------- what the JSON says

  /** These are the members besides the named ones. */
  ghost predicate Others(fields: map<string, Json>, named: set<string>, others: map<string, string>) {
    && others.Keys !! named
    && forall k :: k !in named ==> Member(fields, k, if k in others then Some(others[k]) else None)
  }

  /** A member that may be missing: where null may stand for that, lenient is set. */
  predicate Optional(fields: map<string, Json>, name: string, value: Option<string>, lenient: bool) {
    Member(fields, name, value) || (lenient && value.None? && name in fields && fields[name].Null?)
  }

  ghost predicate DescribesChallenge(v: Json, c: Challenge, lenient: bool) {
    && v.Obj?
    && Member(v.fields, "id", Some(c.id)) && Member(v.fields, "realm", Some(c.realm))
    && Member(v.fields, "method", Some(c.paymentMethod)) && Member(v.fields, "intent", Some(c.intent))
    && Member(v.fields, "request", Some(c.request))
    && Optional(v.fields, "expires", c.expires, lenient) && Optional(v.fields, "digest", c.digest, lenient)
    && Optional(v.fields, "description", c.description, lenient)
    && Optional(v.fields, "opaque", c.opaqueData, lenient)
    && Others(v.fields, {"id", "realm", "method", "intent", "request", "expires", "digest", "description", "opaque"},
              c.extensions)
  }

  /** The JSON value holds this credential and nothing else. */
  ghost predicate Describes(v: Json, c: Credential, lenient: bool) {
    && v.Obj? && Optional(v.fields, "source", c.source, lenient)
    && "challenge" in v.fields && DescribesChallenge(v.fields["challenge"], c.challenge, lenient)
    && "payload" in v.fields && v.fields["payload"].Obj?
    && Member(v.fields["payload"].fields, "paymentHash", Some(c.paymentHash))
    && Others(v.fields["payload"].fields, {"paymentHash"}, c.payloadExtensions)
    && v.fields - {"challenge", "source", "payload"} == c.extensions
  }

  // ---------------------------------------------------------------- the header

  datatype IngressError = BadCredential | PaymentRejected(code: string) | CapabilityRejected(cause: Fl402Error)

  datatype Fl402Config = Fl402Config(rootKey: string, hashAlgorithm: string)

  /** decode_base64url_json for a credential */
  function DecodeCredential(lib: Lib, token: string): Option<Credential> {
    if |token| > MAX_TOKEN_LENGTH then None
    else
      match Base64.DecodeChecked(token, true)
      case None => None
      case Some(bytes) =>
        match lib.parseJson(bytes)
        case None => None
        case Some(v) => CredentialFromJson(v)
  }

  /** str::rsplit_once(':') */
  function RSplitColon(s: string): Option<(string, string)> {
    if s == "" then None
    else if s[|s| - 1] == ':' then Some((s[..|s| - 1], ""))
    else
      match RSplitColon(s[..|s| - 1])
      case None => None
      case Some(parts) => Some((parts.0, parts.1 + [s[|s| - 1]]))
  }

  /** The L402 branch of credential_from_authorization; stored is what get_challenge finds. */
  function FromCapability(lib: Lib, fl402: Fl402Config, stored: map<string, Challenge>, token: string, now: int)
    : Result<Credential, IngressError>
    requires Sound(lib)
  {
    match RSplitColon(token)
    case None => Err(PaymentRejected("invalid-fl402-proof"))
    case Some((capability, preimage)) =>
      match DecodeCapability(lib, capability)
      case Err(e) => Err(CapabilityRejected(e))
      case Ok((payload, _)) =>
        match Get(payload, "caveats")
        case None => Err(PaymentRejected("invalid-fl402-capability"))
        case Some(caveats) => FromCaveats(lib, fl402, stored, capability, preimage, caveats, now)
  }

  function FromCaveats(lib: Lib, fl402: Fl402Config, stored: map<string, Challenge>, capability: string,
                       preimage: string, caveats: Json, now: int): Result<Credential, IngressError>
    requires Sound(lib)
  {
    if GetStr(caveats, "challengeId").None? then Err(PaymentRejected("missing-challengeId"))
    else if GetStr(caveats, "challengeId").value !in stored then Err(PaymentRejected("unknown-challenge"))
    else
      var challenge := stored[GetStr(caveats, "challengeId").value];
      match Present(challenge.id, capability, caveats)
      case None => Err(PaymentRejected("missing-field"))
      case Some(presented) =>
        var proof := Proof(capability, preimage, presented.paymentHash, presented.hashAlgorithm);
        match VerifyProof(lib, presented, proof, fl402.rootKey, now)
        case Err(e) => Err(CapabilityRejected(e))
        case Ok(_) => Ok(Credential(challenge, Some("l402"), presented.paymentHash, map[], map[]))
  }

  /** The compatibility challenge rebuilt from the caveats; every named caveat must be a string. */
  function Present(challengeId: string, capability: string, caveats: Json): Option<Presented> {
    match (GetStr(caveats, "paymentHash"), GetStr(caveats, "hashAlgorithm"), GetStr(caveats, "resourceHash"),
           GetStr(caveats, "url"), GetStr(caveats, "invoice"), GetStr(caveats, "amount"))
    case (Some(paymentHash), Some(hashAlgorithm), Some(resourceHash), Some(url), Some(invoice), Some(amount)) =>
      (match (GetStr(caveats, "currency"), GetStr(caveats, "expiresAt"), GetStr(caveats, "issuer"),
              GetStr(caveats, "network"))
       case (Some(currency), Some(expiresAt), Some(issuer), Some(network)) =>
         Some(Presented(challengeId, capability, paymentHash, resourceHash, url, invoice, amount, currency, expiresAt,
                        issuer, GetStr(caveats, "fiberNodeId"), network, hashAlgorithm))
       case _ => None)
    case _ => None
  }

  /** credential_from_authorization; None is "no credential presented". */
  function FromAuthorization(lib: Lib, fl402: Option<Fl402Config>, stored: map<string, Challenge>, header: string,
                             now: int)
    : Result<Option<Credential>, IngressError>
    requires Sound(lib)
  {
    match Utf8.SplitOnce(Utf8.Trim(header))
    case None => Ok(None)
    case Some((scheme, rest)) =>
      var token := Utf8.TrimStart(rest);
      if EqIgnoreAsciiCase(scheme, "Payment") then
        if token == "" || DecodeCredential(lib, token).None? then Err(BadCredential)
        else Ok(DecodeCredential(lib, token))
      else if !EqIgnoreAsciiCase(scheme, "L402") then Ok(None)
      else if fl402.None? then Err(PaymentRejected("fl402-disabled"))
      else
        match FromCapability(lib, fl402.value, stored, token, now)
        case Err(e) => Err(e)
        case Ok(c) => Ok(Some(c))
  }

  /** The token is base64url of JSON text that holds the credential. */
  ghost predicate CarriesCredential(lib: Lib, token: string, c: Credential) {
    |token| <= 16 * 1024
    && exists bytes :: IsBytes(bytes) && token == Base64.Encode(bytes) && lib.parseJson(bytes).Some?
                       && Describes(lib.parseJson(bytes).value, c, true)
  }

  /** The header carries the credential in the Payment scheme. */
  ghost predicate ShowsPayment(lib: Lib, header: string, c: Credential) {
    match Utf8.SplitOnce(Utf8.Trim(header))
    case None => false
    case Some((scheme, rest)) =>
      EqIgnoreAsciiCase(scheme, "Payment") && CarriesCredential(lib, Utf8.TrimStart(rest), c)
  }

  const NAMED_CAVEATS: set<string> :=
    {"challengeId", "paymentHash", "hashAlgorithm", "resourceHash", "url", "invoice", "amount", "currency", "expiresAt",
     "issuer", "network"}

  /** The capability verifies at this time, its named caveats are texts, and it names a stored challenge,
      which is the credential's, and its payment hash, which the preimage opens under the algorithm that
      it names. */
  ghost predicate Redeems(lib: Lib, fl402: Fl402Config, stored: map<string, Challenge>, capability: string,
                          preimage: string, now: int, c: Credential)
    requires Sound(lib)
  {
    var verdict := VerifyCapability(lib, capability, fl402.rootKey, now);
    && verdict.Ok? && GetObj(verdict.value, "caveats").Some?
    && var caveats := GetObj(verdict.value, "caveats").value;
       && (forall name :: name in NAMED_CAVEATS ==> GetStr(caveats, name).Some?)
       && var id, algorithm := GetStr(caveats, "challengeId").value, GetStr(caveats, "hashAlgorithm").value;
          && id in stored && stored[id].id == id
          && c == Credential(stored[id], Some("l402"), GetStr(caveats, "paymentHash").value, map[], map[])
          && Opens(lib, preimage, algorithm, c.paymentHash)
  }

  /** The capability and the preimage that a header carries in the L402 scheme. */
  function CarriedCapability(header: string): Option<(string, string)> {
    match Utf8.SplitOnce(Utf8.Trim(header))
    case None => None
    case Some((scheme, rest)) => if EqIgnoreAsciiCase(scheme, "L402") then RSplitColon(Utf8.TrimStart(rest)) else None
  }

  /** The header carries such a capability and preimage. */
  ghost predicate ShowsCapability(lib: Lib, fl402: Fl402Config, stored: map<string, Challenge>, header: string,
                                  now: int, c: Credential)
    requires Sound(lib)
  {
    match CarriedCapability(header)
    case None => false
    case Some((capability, preimage)) => Redeems(lib, fl402, stored, capability, preimage, now, c)
  }

  // ---------------------------------------------------------------- issuing

  /** The caveats of issue_fl402_challenge for a stored challenge, its charge and its resource. */
  function Caveats(fl402: Fl402Config, c: Challenge, expires: string, charge: Charge, resourceHash: string,
                   resourceMethod: string, url: string): Json {
    Obj(WithOptional(CaveatCore(fl402, c, expires, charge, resourceHash, resourceMethod, url), "fiberNodeId",
                     charge.recipient))
  }

  function CaveatCore(fl402: Fl402Config, c: Challenge, expires: string, charge: Charge, resourceHash: string,
                      resourceMethod: string, url: string): map<string, Json> {
    map["challengeId" := Str(c.id), "resourceHash" := Str(resourceHash), "method" := Str(resourceMethod),
        "url" := Str(url), "paymentHash" := Str(charge.methodDetails.paymentHash),
        "invoice" := Str(charge.methodDetails.invoice),
        "amount" := Str(charge.amount), "currency" := Str(charge.currency), "expiresAt" := Str(expires),
        "hashAlgorithm" := Str(fl402.hashAlgorithm), "issuer" := Str(c.realm),
        "network" := Str(charge.methodDetails.network)]
  }

  function Payload(caveats: Json, nonce: string, issuedAt: string): Json {
    Obj(map["domain" := Str(PREFIX), "caveats" := caveats, "nonce" := Str(nonce), "issuedAt" := Str(issuedAt)])
  }

  // ---------------------------------------------------------------- the round trip

  lemma CoreFields(fl402: Fl402Config, c: Challenge, expires: string, charge: Charge, resourceHash: string,
                   resourceMethod: string, url: string)
    ensures var core := CaveatCore(fl402, c, expires, charge, resourceHash, resourceMethod, url);
      && "fiberNodeId" !in core
      && "challengeId" in core && core["challengeId"] == Str(c.id)
      && "resourceHash" in core && core["resourceHash"] == Str(resourceHash)
      && "url" in core && core["url"] == Str(url)
      && "paymentHash" in core && core["paymentHash"] == Str(charge.methodDetails.paymentHash)
      && "invoice" in core && core["invoice"] == Str(charge.methodDetails.invoice)
      && "amount" in core && core["amount"] == Str(charge.amount)
      && "currency" in core && core["currency"] == Str(charge.currency)
      && "expiresAt" in core && core["expiresAt"] == Str(expires)
      && "hashAlgorithm" in core && core["hashAlgorithm"] == Str(fl402.hashAlgorithm)
      && "issuer" in core && core["issuer"] == Str(c.realm)
      && "network" in core && core["network"] == Str(charge.methodDetails.network)
  {}

  lemma FieldWithOptional(m: map<string, Json>, name: string, value: Option<string>, field: string)
    requires field != name && field in m && m[field].Str?
    ensures GetStr(Obj(WithOptional(m, name, value)), field) == Some(m[field].text)
  {}

  lemma OptionalField(m: map<string, Json>, name: string, value: Option<string>)
    requires name !in m
    ensures GetStr(Obj(WithOptional(m, name, value)), name) == value
  {}

  lemma CaveatFields(fl402: Fl402Config, c: Challenge, expires: string, charge: Charge, resourceHash: string,
                     resourceMethod: string, url: string, capability: string)
    ensures var v := Caveats(fl402, c, expires, charge, resourceHash, resourceMethod, url);
      && GetStr(v, "challengeId") == Some(c.id)
      && Present(c.id, capability, v) ==
         Some(Presented(c.id, capability, charge.methodDetails.paymentHash, resourceHash, url,
                        charge.methodDetails.invoice, charge.amount, charge.currency, expires, c.realm,
                        charge.recipient,
                        charge.methodDetails.network, fl402.hashAlgorithm))
  {
    hide GetStr, WithOptional, CaveatCore;
    var core := CaveatCore(fl402, c, expires, charge, resourceHash, resourceMethod, url);
    var name, value := "fiberNodeId", charge.recipient;
    CoreFields(fl402, c, expires, charge, resourceHash, resourceMethod, url);
    OptionalField(core, name, value);
    FieldWithOptional(core, name, value, "challengeId");
    FieldWithOptional(core, name, value, "resourceHash");
    FieldWithOptional(core, name, value, "url");
    FieldWithOptional(core, name, value, "paymentHash");
    FieldWithOptional(core, name, value, "invoice");
    FieldWithOptional(core, name, value, "amount");
    FieldWithOptional(core, name, value, "currency");
    FieldWithOptional(core, name, value, "expiresAt");
    FieldWithOptional(core, name, value, "hashAlgorithm");
    FieldWithOptional(core, name, value, "issuer");
    FieldWithOptional(core, name, value, "network");
  }

  /** The caveats of a capability: twelve texts, and the node where the charge names one. */
  lemma CaveatsAre(fl402: Fl402Config, c: Challenge, expires: string, charge: Charge, resourceHash: string,
                   resourceMethod: string, url: string)
    ensures var v, d := Caveats(fl402, c, expires, charge, resourceHash, resourceMethod, url), charge.methodDetails;
      && v.Obj?
      && v.fields.Keys == NAMED_CAVEATS + {"method"} + (if charge.recipient.Some? then {"fiberNodeId"} else {})
      && GetStr(v, "challengeId") == Some(c.id) && GetStr(v, "issuer") == Some(c.realm)
      && GetStr(v, "paymentHash") == Some(d.paymentHash) && GetStr(v, "hashAlgorithm") == Some(fl402.hashAlgorithm)
      && GetStr(v, "invoice") == Some(d.invoice) && GetStr(v, "network") == Some(d.network)
      && GetStr(v, "amount") == Some(charge.amount) && GetStr(v, "currency") == Some(charge.currency)
      && GetStr(v, "fiberNodeId") == charge.recipient && GetStr(v, "expiresAt") == Some(expires)
      && GetStr(v, "resourceHash") == Some(resourceHash) && GetStr(v, "method") == Some(resourceMethod)
      && GetStr(v, "url") == Some(url)
  {
    var core := CaveatCore(fl402, c, expires, charge, resourceHash, resourceMethod, url);
    CaveatFields(fl402, c, expires, charge, resourceHash, resourceMethod, url, "");
    CoreKeys(fl402, c, expires, charge, resourceHash, resourceMethod, url);
    FieldWithOptional(core, "fiberNodeId", charge.recipient, "method");
    OptionalKeys(core, "fiberNodeId", charge.recipient);
    hide Caveats, CaveatCore, GetStr, WithOptional, NAMED_CAVEATS;
    CaveatsShape(fl402, c, expires, charge, resourceHash, resourceMethod, url);
  }

  lemma CaveatsShape(fl402: Fl402Config, c: Challenge, expires: string, charge: Charge, resourceHash: string,
                         resourceMethod: string, url: string)
    ensures Caveats(fl402, c, expires, charge, resourceHash, resourceMethod, url) ==
            Obj(WithOptional(CaveatCore(fl402, c, expires, charge, resourceHash, resourceMethod, url), "fiberNodeId",
                             charge.recipient))
  {
    hide CaveatCore, WithOptional;
  }

  lemma CoreKeys(fl402: Fl402Config, c: Challenge, expires: string, charge: Charge, resourceHash: string,
                 resourceMethod: string, url: string)
    ensures var core := CaveatCore(fl402, c, expires, charge, resourceHash, resourceMethod, url);
      && core.Keys == NAMED_CAVEATS + {"method"} && "fiberNodeId" !in core
      && "method" in core && core["method"] == Str(resourceMethod)
  {}

  lemma OptionalKeys(m: map<string, Json>, name: string, value: Option<string>)
    ensures WithOptional(m, name, value).Keys == m.Keys + (if value.Some? then {name} else {})
  {}

  lemma {:induction false} RSplitAt(left: string, right: string)
    requires ':' !in right
    ensures RSplitColon(left + ":" + right) == Some((left, right))
  {
    var s := left + ":" + right;
    if right == "" {
      assert s[..|s| - 1] == left;
    } else {
      var head := right[..|right| - 1];
      RSplitAt(left, head);
      assert s[..|s| - 1] == left + ":" + head;
      assert right == head + [right[|right| - 1]];
    }
  }

  /** Of all the checks on a rebuilt challenge only the window and the preimage can fail. */
  lemma ProofOfOwnCapability(lib: Lib, fl402: Fl402Config, presented: Presented, payload: Json, preimage: string,
                             now: int)
    requires Sound(lib)
    requires VerifyCapability(lib, presented.capability, fl402.rootKey, now) == Ok(payload)
    requires Present(presented.challengeId, presented.capability, GetObj(payload, "caveats").value) == Some(presented)
    requires GetStr(GetObj(payload, "caveats").value, "challengeId") == Some(presented.challengeId)
    ensures var proof := Proof(presented.capability, preimage, presented.paymentHash, presented.hashAlgorithm);
      VerifyProof(lib, presented, proof, fl402.rootKey, now).Ok?
      <==> Opens(lib, preimage, presented.hashAlgorithm, presented.paymentHash)
  {
    hide Opens, GetStr, GetObj, VerifyCapability, NormalizeHex, VerifyProof;
    ProofAcceptedIff(lib, presented, Proof(presented.capability, preimage, presented.paymentHash,
                                           presented.hashAlgorithm), fl402.rootKey, now);
  }

  lemma PayloadFields(caveats: Json, nonce: string, issuedAt: string)
    ensures var payload := Payload(caveats, nonce, issuedAt);
      && GetStr(payload, "domain") == Some(PREFIX) && Get(payload, "caveats") == Some(caveats)
      && GetStr(payload, "issuedAt") == Some(issuedAt)
  {}

  /** The header reaches the caveats of the capability in it. */
  lemma HeaderReachesCaveats(lib: Lib, fl402: Fl402Config, stored: map<string, Challenge>, capability: string,
                             preimage: string, payload: Json, signature: string, now: int)
    requires Sound(lib)
    requires DecodeCapability(lib, capability) == Ok((payload, signature))
    requires Get(payload, "caveats").Some? && StartsWith(capability, "f")
    requires preimage != "" && ':' !in preimage && '!' <= preimage[|preimage| - 1] <= '~'
    ensures FromAuthorization(lib, Some(fl402), stored, "L402 " + capability + ":" + preimage, now) ==
            match FromCaveats(lib, fl402, stored, capability, preimage, Get(payload, "caveats").value, now)
            case Err(e) => Err(e)
            case Ok(c) => Ok(Some(c))
  {
    hide DecodeCapability, FromCaveats, Get, DecodeCredential;
    var token := capability + ":" + preimage;
    var header := "L402 " + capability + ":" + preimage;
    assert header == "L402" + " " + token;
    assert header[0] == 'L' && header[|header| - 1] == preimage[|preimage| - 1];
    assert Utf8.Trim(header) == header;
    Utf8.SplitAfterWord("L402", token);
    assert token[0] == 'f' && Utf8.TrimStart(token) == token;
    assert Lower("L402") != Lower("Payment") by { assert |Lower("L402")| != |Lower("Payment")|; }
    RSplitAt(capability, preimage);
  }

  lemma CaveatsYield(lib: Lib, fl402: Fl402Config, stored: map<string, Challenge>, c: Challenge, presented: Presented,
                     preimage: string, payload: Json, signature: string, now: int)
    requires Sound(lib)
    requires c.id in stored && stored[c.id] == c && presented.challengeId == c.id
    requires DecodeCapability(lib, presented.capability) == Ok((payload, signature)) && GetObj(payload, "caveats").Some?
    requires GetStr(GetObj(payload, "caveats").value, "challengeId") == Some(c.id)
    requires Present(c.id, presented.capability, GetObj(payload, "caveats").value) == Some(presented)
    ensures var r := FromCaveats(lib, fl402, stored, presented.capability, preimage, GetObj(payload, "caveats").value,
                                 now);
      && (r.Ok? ==> r.value == Credential(c, Some("l402"), presented.paymentHash, map[], map[]))
      && (r.Ok? <==>
            && VerifyCapability(lib, presented.capability, fl402.rootKey, now) == Ok(payload)
            && Opens(lib, preimage, presented.hashAlgorithm, presented.paymentHash))
  {
    hide Opens, GetStr, GetObj, Present, DecodeCapability, NormalizeHex, Current;
    if VerifyCapability(lib, presented.capability, fl402.rootKey, now) == Ok(payload) {
      ProofOfOwnCapability(lib, fl402, presented, payload, preimage, now);
    }
  }

  /** The issued capability decodes to its payload, which holds the caveats and verifies within the
      window. */
  lemma IssuedCapability(lib: Lib, fl402: Fl402Config, caveats: Json, nonce: string, issued: int, expires: int,
                         now: int)
    requires Sound(lib) && |fl402.rootKey| >= 32 && caveats.Obj?
    requires 0 <= issued <= LAST_INSTANT && 0 <= expires <= LAST_INSTANT
    requires GetStr(caveats, "expiresAt") == Some(lib.printTime(expires))
    ensures var payload := Payload(caveats, nonce, lib.printTime(issued));
      var signature := Signature(lib, payload, fl402.rootKey);
      var capability := Token(lib, payload, signature);
      && Issue(lib, payload, fl402.rootKey) == Ok(capability) && StartsWith(capability, "f")
      && DecodeCapability(lib, capability) == Ok((payload, signature))
      && (VerifyCapability(lib, capability, fl402.rootKey, now) == Ok(payload) <==> issued <= now <= expires)
      && Get(payload, "caveats") == Some(caveats) && GetObj(payload, "caveats") == Some(caveats)
  {
    var payload := Payload(caveats, nonce, lib.printTime(issued));
    var signature := Signature(lib, payload, fl402.rootKey);
    var capability := Token(lib, payload, signature);
    PayloadFields(caveats, nonce, lib.printTime(issued));
    OwnSignature(lib, payload, fl402.rootKey);
    hide Payload, GetStr, Get, VerifyCapability, Signature, DecodeCapability;
    DecodeIffToken(lib, capability, payload, signature);
    AcceptedIffCaseVariantOfIssued(lib, capability, fl402.rootKey, now, payload);
  }

  /** L402 ingress: the capability issued for a stored challenge, with any colon-free preimage text,
      reads as the credential that holds the stored challenge and its payment hash when the clock is
      within the capability's window and the preimage opens the payment hash, and is an error
      otherwise. */
  lemma CapabilityRoundTrip(lib: Lib, fl402: Fl402Config, stored: map<string, Challenge>, c: Challenge, charge: Charge,
                            resourceHash: string, resourceMethod: string, url: string, nonce: string,
                            issued: int, expires: int, preimage: string, now: int)
    requires Sound(lib) && |fl402.rootKey| >= 32
    requires c.id in stored && stored[c.id] == c && ValidCharge(charge)
    requires 0 <= issued <= LAST_INSTANT && 0 <= expires <= LAST_INSTANT
    requires preimage != "" && ':' !in preimage && '!' <= preimage[|preimage| - 1] <= '~'
    ensures var caveats := Caveats(fl402, c, lib.printTime(expires), charge, resourceHash, resourceMethod, url);
      var payload := Payload(caveats, nonce, lib.printTime(issued));
      && Issue(lib, payload, fl402.rootKey).Ok?
      && var header := "L402 " + Issue(lib, payload, fl402.rootKey).value + ":" + preimage;
         var r := FromAuthorization(lib, Some(fl402), stored, header, now);
         if issued <= now <= expires
            && Opens(lib, preimage, fl402.hashAlgorithm, charge.methodDetails.paymentHash)
         then r == Ok(Some(Credential(c, Some("l402"), charge.methodDetails.paymentHash, map[], map[])))
         else r.Err?
  {
    hide Caveats, Payload, Present, Opens, GetStr, GetObj, Get, FromAuthorization, VerifyCapability, Token,
      Signature, DecodeCapability, FromCaveats, Issue, ValidCharge;
    var caveats := Caveats(fl402, c, lib.printTime(expires), charge, resourceHash, resourceMethod, url);
    var payload := Payload(caveats, nonce, lib.printTime(issued));
    var signature := Signature(lib, payload, fl402.rootKey);
    var capability := Token(lib, payload, signature);
    CaveatFields(fl402, c, lib.printTime(expires), charge, resourceHash, resourceMethod, url, capability);
    var presented := Present(c.id, capability, caveats).value;
    SomeCaveats(fl402, c, lib.printTime(expires), charge, resourceHash, resourceMethod, url);
    IssuedCapability(lib, fl402, caveats, nonce, issued, expires, now);
    CaveatsYield(lib, fl402, stored, c, presented, preimage, payload, signature, now);
    HeaderReachesCaveats(lib, fl402, stored, capability, preimage, payload, signature, now);
  }

  lemma SomeCaveats(fl402: Fl402Config, c: Challenge, expires: string, charge: Charge, resourceHash: string,
                     resourceMethod: string, url: string)
    ensures var v := Caveats(fl402, c, expires, charge, resourceHash, resourceMethod, url);
      && v.Obj? && GetStr(v, "challengeId") == Some(c.id) && GetStr(v, "expiresAt") == Some(expires)
      && GetStr(v, "paymentHash") == Some(charge.methodDetails.paymentHash)
  {
    CaveatFields(fl402, c, expires, charge, resourceHash, resourceMethod, url, "");
    hide GetStr, CaveatCore, WithOptional;
  }

  lemma OwnSignature(lib: Lib, payload: Json, rootKey: string)
    requires Sound(lib)
    ensures Lower(Signature(lib, payload, rootKey)) == Signature(lib, payload, rootKey)
    ensures '.' !in Signature(lib, payload, rootKey)
  {
    Hex.DecodeEncode(lib.hmac(rootKey, lib.jcs(payload)));
    LowerFixed(Signature(lib, payload, rootKey));
    HexHasNoDot(Signature(lib, payload, rootKey));
  }

  lemma {:induction false} RSplitIff(s: string, left: string, right: string)
    ensures RSplitColon(s) == Some((left, right)) <==> s == left + ":" + right && ':' !in right
  {
    if s == left + ":" + right && ':' !in right { RSplitAt(left, right); }
    if RSplitColon(s) == Some((left, right)) && s[|s| - 1] != ':' {
      RSplitIff(s[..|s| - 1], left, right[..|right| - 1]);
    }
  }

  lemma DecodeCredentialIff(lib: Lib, token: string, c: Credential)
    requires Sound(lib)
    ensures DecodeCredential(lib, token) == Some(c) <==> CarriesCredential(lib, token, c)
  {
    hide CredentialFromJson, Describes, Base64.Encode, Base64.Decode;
    match Base64.DecodeChecked(token, true)
    case None =>
      forall bytes | IsBytes(bytes) ensures token != Base64.Encode(bytes) {
        Base64.CheckedDecodeIsInverse(token, bytes, true);
      }
    case Some(bytes) =>
      Base64.CheckedDecodeIsInverse(token, bytes, true);
      forall other | IsBytes(other) && token == Base64.Encode(other) ensures other == bytes {
        Base64.CheckedDecodeIsInverse(token, other, true);
      }
      if lib.parseJson(bytes).Some? { CredentialReadIff(lib.parseJson(bytes).value, c); }
  }

  /** A header yields a credential exactly when it shows it, in one scheme or the other. */
  lemma PresentedIff(lib: Lib, fl402: Option<Fl402Config>, stored: map<string, Challenge>, header: string, now: int,
                     c: Credential)
    requires Sound(lib)
    ensures FromAuthorization(lib, fl402, stored, header, now) == Ok(Some(c)) <==>
            ShowsPayment(lib, header, c) || (fl402.Some? && ShowsCapability(lib, fl402.value, stored, header, now, c))
  {
    hide Utf8.SplitOnce, Utf8.Trim, Utf8.TrimStart, RSplitColon, DecodeCredential, FromCapability, Redeems,
      EqIgnoreAsciiCase, CarriesCredential;
    SchemesDiffer();
    var parts := Utf8.SplitOnce(Utf8.Trim(header));
    if parts.Some? {
      var token := Utf8.TrimStart(parts.value.1);
      DecodeCredentialIff(lib, token, c);
      EmptyTokenIsNone(lib);
      if fl402.Some? { CapabilityIff(lib, fl402.value, stored, token, now, c); }
    }
  }

  lemma SchemesDiffer()
    ensures forall s :: EqIgnoreAsciiCase(s, "L402") ==> !EqIgnoreAsciiCase(s, "Payment")
  {
    assert |Lower("L402")| != |Lower("Payment")|;
  }

  lemma EmptyTokenIsNone(lib: Lib)
    requires Sound(lib)
    ensures DecodeCredential(lib, "") == None
  {
    Base64.CheckedDecodeIsInverse("", "", true);
  }

  lemma CapabilityIff(lib: Lib, fl402: Fl402Config, stored: map<string, Challenge>, token: string, now: int,
                      c: Credential)
    requires Sound(lib)
    ensures FromCapability(lib, fl402, stored, token, now) == Ok(c) <==>
            RSplitColon(token).Some?
            && Redeems(lib, fl402, stored, RSplitColon(token).value.0, RSplitColon(token).value.1, now, c)
  {
    hide RSplitColon, DecodeCapability, Present, VerifyProof, Redeems, GetStr, FromCaveats, VerifyCapability;
    if RSplitColon(token).Some? {
      var (capability, preimage) := RSplitColon(token).value;
      VerifiedIsDecoded(lib, capability, fl402.rootKey, now);
      if DecodeCapability(lib, capability).Ok? && Get(DecodeCapability(lib, capability).value.0, "caveats").Some? {
        var caveats := Get(DecodeCapability(lib, capability).value.0, "caveats").value;
        CaveatsYieldIff(lib, fl402, stored, capability, preimage, caveats, now, c);
      } else {
        NoCaveats(lib, fl402, stored, capability, preimage, now, c);
      }
    }
  }

  lemma VerifiedIsDecoded(lib: Lib, capability: string, rootKey: string, now: int)
    requires Sound(lib)
    ensures VerifyCapability(lib, capability, rootKey, now).Ok? ==>
      DecodeCapability(lib, capability).Ok?
      && VerifyCapability(lib, capability, rootKey, now).value == DecodeCapability(lib, capability).value.0
      && GetObj(VerifyCapability(lib, capability, rootKey, now).value, "caveats").Some?
  {
    hide DecodeCapability, Current;
  }

  lemma NoCaveats(lib: Lib, fl402: Fl402Config, stored: map<string, Challenge>, capability: string, preimage: string,
                  now: int, c: Credential)
    requires Sound(lib)
    requires DecodeCapability(lib, capability).Ok? ==> Get(DecodeCapability(lib, capability).value.0, "caveats").None?
    ensures !Redeems(lib, fl402, stored, capability, preimage, now, c)
  {
    hide DecodeCapability, VerifyCapability, Opens;
    VerifiedIsDecoded(lib, capability, fl402.rootKey, now);
  }

  lemma PresentIff(challengeId: string, capability: string, caveats: Json)
    ensures Present(challengeId, capability, caveats).Some? <==>
            forall name :: name in NAMED_CAVEATS && name != "challengeId" ==> GetStr(caveats, name).Some?
    ensures var presented := Present(challengeId, capability, caveats);
      presented.Some? ==>
        && presented.value.challengeId == challengeId && presented.value.capability == capability
        && GetStr(caveats, "paymentHash") == Some(presented.value.paymentHash)
        && GetStr(caveats, "hashAlgorithm") == Some(presented.value.hashAlgorithm)
        && GetStr(caveats, "resourceHash") == Some(presented.value.resourceHash)
        && GetStr(caveats, "url") == Some(presented.value.resource)
        && GetStr(caveats, "invoice") == Some(presented.value.invoice)
        && GetStr(caveats, "amount") == Some(presented.value.amount)
        && GetStr(caveats, "currency") == Some(presented.value.currency)
        && GetStr(caveats, "expiresAt") == Some(presented.value.expiresAt)
        && GetStr(caveats, "issuer") == Some(presented.value.issuer)
        && GetStr(caveats, "fiberNodeId") == presented.value.fiberNodeId
        && GetStr(caveats, "network") == Some(presented.value.network)
  {
    hide GetStr;
    if forall name :: name in NAMED_CAVEATS && name != "challengeId" ==> GetStr(caveats, name).Some? {
      assert "paymentHash" in NAMED_CAVEATS && "hashAlgorithm" in NAMED_CAVEATS && "resourceHash" in NAMED_CAVEATS
          && "url" in NAMED_CAVEATS && "invoice" in NAMED_CAVEATS && "amount" in NAMED_CAVEATS
          && "currency" in NAMED_CAVEATS && "expiresAt" in NAMED_CAVEATS && "issuer" in NAMED_CAVEATS
          && "network" in NAMED_CAVEATS;
    }
  }

  lemma CaveatsYieldIff(lib: Lib, fl402: Fl402Config, stored: map<string, Challenge>, capability: string,
                        preimage: string, caveats: Json, now: int, c: Credential)
    requires Sound(lib)
    requires DecodeCapability(lib, capability).Ok?
        && Get(DecodeCapability(lib, capability).value.0, "caveats") == Some(caveats)
    ensures FromCaveats(lib, fl402, stored, capability, preimage, caveats, now) == Ok(c)
            <==> Redeems(lib, fl402, stored, capability, preimage, now, c)
  {
    hide DecodeCapability, NormalizeHex, Opens, VerifyCapability, VerifyProof, Present, NAMED_CAVEATS, GetStr;
    VerifiedIsDecoded(lib, capability, fl402.rootKey, now);
    assert "challengeId" in NAMED_CAVEATS by { ChallengeIsNamed(); }
    if GetStr(caveats, "challengeId").Some? && GetStr(caveats, "challengeId").value in stored {
      var challenge := stored[GetStr(caveats, "challengeId").value];
      PresentIff(challenge.id, capability, caveats);
      if Present(challenge.id, capability, caveats).Some? {
        var presented := Present(challenge.id, capability, caveats).value;
        ProofAcceptedIff(lib, presented,
                         Proof(capability, preimage, presented.paymentHash, presented.hashAlgorithm), fl402.rootKey,
                             now);
      }
    }
  }

  lemma ChallengeIsNamed()
    ensures "challengeId" in NAMED_CAVEATS
  {}

  /** What a verified proof shows of its capability, preimage and payment hash. */
  lemma ProofVerifies(lib: Lib, presented: Presented, proof: Proof, rootKey: string, now: int)
    requires Sound(lib) && VerifyProof(lib, presented, proof, rootKey, now).Ok?
    ensures var verdict := VerifyCapability(lib, proof.capability, rootKey, now);
      && verdict.Ok? && DecodeCapability(lib, proof.capability).Ok?
      && DecodeCapability(lib, proof.capability).value.0 == verdict.value && GetObj(verdict.value, "caveats").Some?
    ensures Opens(lib, proof.preimage, proof.hashAlgorithm, proof.paymentHash)
  {
    hide GetStr, NormalizeHex, HashPreimage, Opens, VerifyProof;
    ProofAcceptedIff(lib, presented, proof, rootKey, now);
    var hash := GetStr(GetObj(VerifyCapability(lib, proof.capability, rootKey, now).value, "caveats").value,
                       "paymentHash").value;
    OpensIff(lib, proof.preimage, proof.hashAlgorithm, hash);
    OpensIff(lib, proof.preimage, proof.hashAlgorithm, proof.paymentHash);
  }

  // ---------------------------------------------------------------- the Payment scheme

  function ChallengeCore(c: Challenge): map<string, Json> {
    StringsToJson(c.extensions)["id" := Str(c.id)]["realm" := Str(c.realm)]["method" := Str(c.paymentMethod)]
      ["intent" := Str(c.intent)]["request" := Str(c.request)]
  }

  lemma ChallengeCoreFields(c: Challenge)
    requires c.extensions.Keys !! ChallengeHeader.STANDARD
    ensures var m := ChallengeCore(c);
      && GetStr(Obj(m), "id") == Some(c.id) && GetStr(Obj(m), "realm") == Some(c.realm)
      && GetStr(Obj(m), "method") == Some(c.paymentMethod) && GetStr(Obj(m), "intent") == Some(c.intent)
      && GetStr(Obj(m), "request") == Some(c.request)
      && "expires" !in m && "digest" !in m && "description" !in m && "opaque" !in m
      && (forall k :: k in m && k !in ChallengeHeader.STANDARD ==> k in c.extensions)
      && (forall k :: k in c.extensions ==> k in m && m[k] == Str(c.extensions[k]))
  {}

  /** Adding an optional field leaves every other field alone. */
  lemma OptionalFrame(m: map<string, Json>, name: string, value: Option<string>, other: string)
    requires other != name
    ensures var m' := WithOptional(m, name, value); Get(Obj(m'), other) == Get(Obj(m), other)
  {}

  lemma ChallengeFrame(c: Challenge, other: string)
    requires other != "expires" && other != "digest" && other != "description" && other != "opaque"
    ensures Get(ChallengeToJson(c), other) == Get(Obj(ChallengeCore(c)), other)
  {
    hide WithOptional, ChallengeCore, StringsToJson, Get;
    var first := WithOptional(ChallengeCore(c), "expires", c.expires);
    var second := WithOptional(first, "digest", c.digest);
    var third := WithOptional(second, "description", c.description);
    OptionalFrame(ChallengeCore(c), "expires", c.expires, other);
    OptionalFrame(first, "digest", c.digest, other);
    OptionalFrame(second, "description", c.description, other);
    OptionalFrame(third, "opaque", c.opaqueData, other);
    assert ChallengeToJson(c) == Obj(WithOptional(third, "opaque", c.opaqueData)) by { ChallengeShape(c); }
  }

  lemma ChallengeShape(c: Challenge)
    ensures ChallengeToJson(c) ==
            Obj(WithOptional(WithOptional(WithOptional(WithOptional(ChallengeCore(c), "expires", c.expires), "digest",
                                                       c.digest), "description", c.description), "opaque",
                                                       c.opaqueData))
  {
    hide WithOptional, StringsToJson;
  }

  lemma ChallengeOptionals(c: Challenge)
    requires c.extensions.Keys !! ChallengeHeader.STANDARD
    ensures var v := ChallengeToJson(c);
      && ReadOptional(v, "expires") == Some(c.expires) && ReadOptional(v, "digest") == Some(c.digest)
      && ReadOptional(v, "description") == Some(c.description) && ReadOptional(v, "opaque") == Some(c.opaqueData)
  {
    ChallengeCoreFields(c);
    ChallengeShape(c);
    hide ChallengeCore, WithOptional, ChallengeToJson;
    var core := ChallengeCore(c);
    var first := WithOptional(core, "expires", c.expires);
    var second := WithOptional(first, "digest", c.digest);
    var third := WithOptional(second, "description", c.description);
    OptionalLookup(core, "expires", c.expires);
    OptionalLookup(first, "digest", c.digest);
    OptionalLookup(second, "description", c.description);
    OptionalLookup(third, "opaque", c.opaqueData);
  }

  lemma ChallengeRoundTrip(c: Challenge)
    requires c.extensions.Keys !! ChallengeHeader.STANDARD
    ensures ChallengeFromJson(ChallengeToJson(c)) == Some(c)
  {
    var v := ChallengeToJson(c);
    ChallengeCoreFields(c);
    ChallengeOptionals(c);
    ChallengeFrame(c, "id");
    ChallengeFrame(c, "realm");
    ChallengeFrame(c, "method");
    ChallengeFrame(c, "intent");
    ChallengeFrame(c, "request");
    OptionalsAreStandard();
    hide ChallengeToJson, ReadOptional, ChallengeCore, ChallengeHeader.STANDARD;
    assert v.Obj?;
    forall k | k !in ChallengeHeader.STANDARD
      ensures k in v.fields <==> k in c.extensions
      ensures k in c.extensions ==> v.fields[k] == Str(c.extensions[k])
    {
      ChallengeFrame(c, k);
    }
    assert (map k | k in v.fields && k !in ChallengeHeader.STANDARD :: v.fields[k].text) == c.extensions;
  }

  lemma OptionalsAreStandard()
    ensures "expires" in ChallengeHeader.STANDARD && "digest" in ChallengeHeader.STANDARD
    ensures "description" in ChallengeHeader.STANDARD && "opaque" in ChallengeHeader.STANDARD
  {}

  /** The flattened maps of a credential reuse no name of the records they are flattened into. */
  predicate SeparateCredential(c: Credential) {
    && c.challenge.extensions.Keys !! ChallengeHeader.STANDARD
    && "paymentHash" !in c.payloadExtensions
    && "challenge" !in c.extensions && "source" !in c.extensions && "payload" !in c.extensions
  }

  function PayloadToJson(c: Credential): Json {
    Obj(StringsToJson(c.payloadExtensions)["paymentHash" := Str(c.paymentHash)])
  }

  lemma PayloadRoundTrip(c: Credential)
    requires "paymentHash" !in c.payloadExtensions
    ensures var payload := PayloadToJson(c).fields;
      && "paymentHash" in payload && payload["paymentHash"] == Str(c.paymentHash)
      && (forall k :: k in payload ==> payload[k].Str?)
      && (map k | k in payload && k != "paymentHash" :: payload[k].text) == c.payloadExtensions
  {}

  lemma CredentialFields(c: Credential)
    requires SeparateCredential(c)
    ensures var v := CredentialToJson(c);
      && Get(v, "challenge") == Some(ChallengeToJson(c.challenge)) && Get(v, "payload") == Some(PayloadToJson(c))
      && ReadOptional(v, "source") == Some(c.source)
      && v.fields - {"challenge", "source", "payload"} == c.extensions
  {
    hide ChallengeToJson, StringsToJson;
  }

  lemma CredentialRoundTrip(c: Credential)
    requires SeparateCredential(c)
    ensures CredentialFromJson(CredentialToJson(c)) == Some(c)
  {
    CredentialFields(c);
    ChallengeRoundTrip(c.challenge);
    PayloadRoundTrip(c);
    hide ChallengeToJson, ChallengeFromJson, CredentialToJson, PayloadToJson, ReadOptional, StringsToJson;
  }

  lemma ReadCredentialIsSeparate(v: Json)
    requires CredentialFromJson(v).Some?
    ensures SeparateCredential(CredentialFromJson(v).value)
  {
    hide ReadOptional, GetStr, ChallengeHeader.STANDARD;
  }

  // ---------------------------------------------------------------- reading the JSON

  lemma OptionalIff(v: Json, name: string, value: Option<string>)
    requires v.Obj?
    ensures ReadOptional(v, name) == Some(value) <==> Optional(v.fields, name, value, true)
  {}

  lemma OthersIff(fields: map<string, Json>, named: set<string>, others: map<string, string>)
    ensures Others(fields, named, others) <==>
      && (forall k :: k in fields && k !in named ==> fields[k].Str?)
      && others == map k | k in fields && k !in named && fields[k].Str? :: fields[k].text
  {
    if Others(fields, named, others) {
      forall k
        ensures k in fields && k !in named <==> k in others
        ensures k in others ==> fields[k] == Str(others[k])
      {
        if k !in named { assert Member(fields, k, if k in others then Some(others[k]) else None); }
      }
    }
  }

  lemma ChallengeReadIff(v: Json, c: Challenge)
    ensures ChallengeFromJson(v) == Some(c) <==> DescribesChallenge(v, c, true)
  {
    hide Others, Optional, ReadOptional;
    if v.Obj? {
      OptionalIff(v, "expires", c.expires);
      OptionalIff(v, "digest", c.digest);
      OptionalIff(v, "description", c.description);
      OptionalIff(v, "opaque", c.opaqueData);
      OthersIff(v.fields, ChallengeHeader.STANDARD, c.extensions);
      if forall k :: k in v.fields && k !in ChallengeHeader.STANDARD ==> v.fields[k].Str? {
        ReadOthers(v.fields, ChallengeHeader.STANDARD);
      }
    }
  }

  lemma ReadOthers(fields: map<string, Json>, named: set<string>)
    requires forall k :: k in fields && k !in named ==> fields[k].Str?
    ensures (map k | k in fields && k !in named && fields[k].Str? :: fields[k].text)
            == map k | k in fields && k !in named :: fields[k].text
  {}

  /** Deserialization yields a credential exactly from the JSON values that describe it. */
  lemma CredentialReadIff(v: Json, c: Credential)
    ensures CredentialFromJson(v) == Some(c) <==> Describes(v, c, true)
  {
    hide Others, Optional, ReadOptional, DescribesChallenge, ChallengeFromJson;
    if v.Obj? && "challenge" in v.fields && "payload" in v.fields && v.fields["payload"].Obj? {
      var payload := v.fields["payload"].fields;
      ChallengeReadIff(v.fields["challenge"], c.challenge);
      OptionalIff(v, "source", c.source);
      PayloadReadIff(payload, c);
    }
  }

  lemma PayloadReadIff(payload: map<string, Json>, c: Credential)
    ensures Member(payload, "paymentHash", Some(c.paymentHash)) && Others(payload, {"paymentHash"}, c.payloadExtensions)
            <==>
              && GetStr(Obj(payload), "paymentHash") == Some(c.paymentHash)
              && (forall k :: k in payload ==> payload[k].Str?)
              && c.payloadExtensions == map k | k in payload && k != "paymentHash" :: payload[k].text
  {
    hide Others;
    OthersIff(payload, {"paymentHash"}, c.payloadExtensions);
    if forall k :: k in payload ==> payload[k].Str? {
      assert (map k | k in payload && k !in {"paymentHash"} && payload[k].Str? :: payload[k].text)
          == map k | k in payload && k != "paymentHash" :: payload[k].text;
    }
  }

  // ---------------------------------------------------------------- the credential's hash

  /** The text is canonical JSON and holds the credential. */
  ghost predicate WritesOut(lib: Lib, text: string, c: Credential) {
    match lib.parseJson(text)
    case None => false
    case Some(v) => lib.jcs(v) == text && Describes(v, c, false)
  }

  lemma ChallengeIsDescribed(c: Challenge)
    requires c.extensions.Keys !! ChallengeHeader.STANDARD
    ensures DescribesChallenge(ChallengeToJson(c), c, false)
  {
    hide ChallengeToJson, ChallengeCore, WithOptional, StringsToJson;
    ChallengeCoreFields(c);
    ChallengeFrame(c, "id");
    ChallengeFrame(c, "realm");
    ChallengeFrame(c, "method");
    ChallengeFrame(c, "intent");
    ChallengeFrame(c, "request");
    ChallengeMembers(c);
    OptionalsAreStandard();
    forall k | k !in ChallengeHeader.STANDARD
      ensures Member(ChallengeToJson(c).fields, k, if k in c.extensions then Some(c.extensions[k]) else None)
    {
      ChallengeFrame(c, k);
    }
  }

  lemma OptionalMember(m: map<string, Json>, name: string, value: Option<string>)
    requires name !in m
    ensures Member(WithOptional(m, name, value), name, value)
  {}

  lemma ChallengeMembers(c: Challenge)
    requires c.extensions.Keys !! ChallengeHeader.STANDARD
    ensures var m := ChallengeToJson(c).fields;
      && Member(m, "expires", c.expires) && Member(m, "digest", c.digest)
      && Member(m, "description", c.description) && Member(m, "opaque", c.opaqueData)
  {
    ChallengeCoreFields(c);
    ChallengeShape(c);
    hide ChallengeCore, WithOptional, ChallengeToJson;
    var core := ChallengeCore(c);
    var first := WithOptional(core, "expires", c.expires);
    var second := WithOptional(first, "digest", c.digest);
    var third := WithOptional(second, "description", c.description);
    OptionalMember(core, "expires", c.expires);
    OptionalLookup(core, "expires", c.expires);
    OptionalMember(first, "digest", c.digest);
    OptionalLookup(first, "digest", c.digest);
    OptionalMember(second, "description", c.description);
    OptionalLookup(second, "description", c.description);
    OptionalMember(third, "opaque", c.opaqueData);
    OptionalLookup(third, "opaque", c.opaqueData);
  }

  lemma CredentialIsDescribed(c: Credential)
    requires SeparateCredential(c)
    ensures Describes(CredentialToJson(c), c, false)
  {
    CredentialFields(c);
    ChallengeIsDescribed(c.challenge);
    PayloadIsDescribed(c);
    SourceIsDescribed(c);
    hide ChallengeToJson, CredentialToJson, PayloadToJson, DescribesChallenge, Others, Member, ReadOptional;
  }

  lemma PayloadIsDescribed(c: Credential)
    requires "paymentHash" !in c.payloadExtensions
    ensures PayloadToJson(c).Obj? && Member(PayloadToJson(c).fields, "paymentHash", Some(c.paymentHash))
    ensures Others(PayloadToJson(c).fields, {"paymentHash"}, c.payloadExtensions)
  {}

  lemma SourceIsDescribed(c: Credential)
    requires SeparateCredential(c)
    ensures Member(CredentialToJson(c).fields, "source", c.source)
  {
    hide ChallengeToJson, StringsToJson;
  }

  lemma SameMembers(one: map<string, Json>, other: map<string, Json>, named: set<string>, others: map<string, string>)
    requires Others(one, named, others) && Others(other, named, others)
    requires forall k :: k in named ==> (k in one <==> k in other) && (k in one ==> one[k] == other[k])
    ensures one == other
  {
    forall k
      ensures k in one <==> k in other
      ensures k in one ==> one[k] == other[k]
    {
      if k !in named {
        var text := if k in others then Some(others[k]) else None;
        assert Member(one, k, text) && Member(other, k, text);
      }
    }
  }

  lemma DescribedOnce(v: Json, w: Json, c: Challenge)
    requires DescribesChallenge(v, c, false) && DescribesChallenge(w, c, false)
    ensures v == w
  {
    hide Others;
    SameMembers(v.fields, w.fields,
                {"id", "realm", "method", "intent", "request", "expires", "digest", "description", "opaque"},
                    c.extensions);
  }

  /** A credential is described by one JSON value. */
  lemma CredentialDescribedOnce(v: Json, w: Json, c: Credential)
    requires Describes(v, c, false) && Describes(w, c, false)
    ensures v == w
  {
    hide Others, DescribesChallenge;
    DescribedOnce(v.fields["challenge"], w.fields["challenge"], c.challenge);
    SameMembers(v.fields["payload"].fields, w.fields["payload"].fields, {"paymentHash"}, c.payloadExtensions);
    SameSplit(v.fields, w.fields, {"challenge", "source", "payload"});
  }

  /** A credential's hash is the hexadecimal SHA-256 of the one canonical JSON text that holds the
      credential and nothing else; that text reads back as the credential. */
  lemma CredentialHashTells(lib: Lib, c: Credential) returns (text: string)
    requires Sound(lib) && SeparateCredential(c)
    ensures WritesOut(lib, text, c) && CredentialFromJson(lib.parseJson(text).value) == Some(c)
    ensures forall other :: WritesOut(lib, other, c) ==> other == text
    ensures Hex.Decode(CredentialHash(lib, c)) == Some(lib.sha256(text))
    ensures Lower(CredentialHash(lib, c)) == CredentialHash(lib, c)
  {
    hide CredentialToJson, CredentialFromJson, Describes, SeparateCredential;
    text := lib.jcs(CredentialToJson(c));
    CredentialIsDescribed(c);
    CredentialRoundTrip(c);
    forall other | WritesOut(lib, other, c) ensures other == text {
      CredentialDescribedOnce(lib.parseJson(other).value, CredentialToJson(c), c);
    }
    Hex.DecodeEncode(lib.sha256(text));
    Hex.DecodeIffLower(CredentialHash(lib, c), lib.sha256(text));
  }

  /** Two credentials share their hash exactly when the texts that hold them share their SHA-256. */
  lemma HashesAgreeIff(lib: Lib, c: Credential, d: Credential, text: string, text': string)
    requires Sound(lib) && SeparateCredential(c) && SeparateCredential(d)
    requires WritesOut(lib, text, c) && WritesOut(lib, text', d)
    ensures CredentialHash(lib, c) == CredentialHash(lib, d) <==> lib.sha256(text) == lib.sha256(text')
  {
    hide CredentialHash, WritesOut, SeparateCredential;
    var own := CredentialHashTells(lib, c);
    var own' := CredentialHashTells(lib, d);
    var hash, hash' := CredentialHash(lib, c), CredentialHash(lib, d);
    if lib.sha256(text) == lib.sha256(text') { Hex.DecodeIffLower(hash, lib.sha256(text)); }
    if lib.sha256(text) == lib.sha256(text') { Hex.DecodeIffLower(hash', lib.sha256(text)); }
  }

  /** encode_jcs_base64url of a credential. */
  function CredentialToken(lib: Lib, c: Credential): string
    requires Sound(lib)
  {
    Base64.Encode(lib.jcs(CredentialToJson(c)))
  }

  /** authorization_header */
  function PaymentHeader(lib: Lib, c: Credential): string
    requires Sound(lib)
  {
    "Payment " + CredentialToken(lib, c)
  }

  lemma AlphabetIsVisible(token: string)
    requires Base64.IsAlphabet(token)
    ensures forall i :: 0 <= i < |token| ==> '!' <= token[i] <= '~'
  {
    forall i | 0 <= i < |token| ensures '!' <= token[i] <= '~' { assert Base64.SextetOf(token[i]).Some?; }
  }

  lemma ScanPaymentHeader(token: string)
    requires token != "" && '!' <= token[0] <= '~' && '!' <= token[|token| - 1] <= '~'
    ensures Utf8.SplitOnce(Utf8.Trim("Payment " + token)) == Some(("Payment", token)) && Utf8.TrimStart(token) == token
  {
    VisibleStart(token);
    hide *;
    ChallengeHeader.ScanHeader(token, "");
    assert "Payment " + token + "" == "Payment " + token && token + "" == token;
  }

  lemma VisibleStart(token: string)
    requires token != "" && '!' <= token[0] <= '~'
    ensures Utf8.TrimStart(token) == token
  {}

  lemma TokenReadsBack(lib: Lib, c: Credential)
    requires Sound(lib)
    ensures var token := CredentialToken(lib, c);
      && token != "" && (forall i :: 0 <= i < |token| ==> '!' <= token[i] <= '~')
      && DecodeCredential(lib, token) ==
         if |token| > MAX_TOKEN_LENGTH then None else CredentialFromJson(CredentialToJson(c))
  {
    hide CredentialFromJson, CredentialToJson, Base64.Encode, Base64.DecodeChecked;
    var bytes := lib.jcs(CredentialToJson(c));
    assert lib.parseJson(bytes) == Some(CredentialToJson(c));
    Base64.EncodeUsesAlphabet(bytes);
    AlphabetIsVisible(CredentialToken(lib, c));
    Base64.CheckedDecodeIsInverse(CredentialToken(lib, c), bytes, true);
  }

  /** The Authorization header of a credential reads back as that credential, whatever the stored
      challenges and the clock, exactly when its token fits and its flattened maps keep apart. */
  lemma PaymentHeaderRoundTrip(lib: Lib, fl402: Option<Fl402Config>, stored: map<string, Challenge>, c: Credential,
                               now: int)
    requires Sound(lib)
    ensures FromAuthorization(lib, fl402, stored, PaymentHeader(lib, c), now) == Ok(Some(c))
            <==> |CredentialToken(lib, c)| <= MAX_TOKEN_LENGTH && SeparateCredential(c)
  {
    hide CredentialFromJson, CredentialToJson, SeparateCredential, Base64.Encode, DecodeCredential, FromCapability,
      Utf8.Trim, Utf8.SplitOnce, Utf8.TrimStart;
    TokenReadsBack(lib, c);
    ScanPaymentHeader(CredentialToken(lib, c));
    if SeparateCredential(c) { CredentialRoundTrip(c); }
    if CredentialFromJson(CredentialToJson(c)).Some? { ReadCredentialIsSeparate(CredentialToJson(c)); }
  }
}
