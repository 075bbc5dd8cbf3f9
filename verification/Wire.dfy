/** The MPP wire records of the Rust core and their JSON forms. */
module Wire {
  import opened Wrappers
  import opened Text
  import opened Json

  datatype UdtTypeScript = UdtTypeScript(codeHash: string, hashType: string, args: string)

  datatype MethodDetails = MethodDetails(
    invoice: string,
    paymentHash: string,
    network: string,
    hashAlgorithm: string,
    udtTypeScript: Option<UdtTypeScript>,
    extensions: map<string, Json>)

  datatype Charge = Charge(
    amount: string,
    currency: string,
    recipient: Option<string>,
    description: Option<string>,
    externalId: Option<string>,
    methodDetails: MethodDetails,
    extensions: map<string, Json>)

  datatype Challenge = Challenge(
    id: string,
    realm: string,
    paymentMethod: string,
    intent: string,
    request: string,
    expires: Option<string>,
    digest: Option<string>,
    description: Option<string>,
    opaqueData: Option<string>,
    extensions: map<string, string>)

  datatype Credential = Credential(
    challenge: Challenge,
    source: Option<string>,
    paymentHash: string,
    payloadExtensions: map<string, string>,
    extensions: map<string, Json>)

  datatype Receipt = Receipt(timestamp: string, reference: string, challengeId: string)

  predicate IsHash256(s: string) {
    |s| == 66 && StartsWith(s, "0x") && forall i :: 2 <= i < 66 ==> IsHexDigit(s[i])
  }

  predicate IsNetwork(s: string) { s == "mainnet" || s == "testnet" || s == "dev" }

  predicate IsHashAlgorithm(s: string) { s == "ckb_hash" || s == "sha256" }

  /** validate_fiber_charge_request */
  predicate ValidCharge(c: Charge) {
    && c.amount != "" && c.amount[0] != '0'
    && (forall i :: 0 <= i < |c.amount| ==> IsDigit(c.amount[i]))
    && c.currency != ""
    && c.methodDetails.invoice != ""
    && IsHash256(c.methodDetails.paymentHash)
    && IsNetwork(c.methodDetails.network)
    && IsHashAlgorithm(c.methodDetails.hashAlgorithm)
  }

  const CHARGE_FIELDS: set<string> :=
    {"amount", "currency", "recipient", "description", "externalId", "methodDetails"}

  const DETAIL_FIELDS: set<string> :=
    {"invoice", "paymentHash", "network", "hashAlgorithm", "udtTypeScript"}

  /** The flattened extension maps reuse no name of the record they are flattened into. */
  predicate SeparateNames(c: Charge) {
    c.extensions.Keys !! CHARGE_FIELDS && c.methodDetails.extensions.Keys !! DETAIL_FIELDS
  }

  function WithOptional(m: map<string, Json>, name: string, value: Option<string>): map<string, Json> {
    match value case None => m case Some(s) => m[name := Str(s)]
  }

  /** The member is there with this text, or, without a text, is not there. */
  predicate Member(fields: map<string, Json>, name: string, value: Option<string>) {
    if value.Some? then name in fields && fields[name] == Str(value.value) else name !in fields
  }

  function UdtToJson(u: UdtTypeScript): Json {
    Obj(map["codeHash" := Str(u.codeHash), "hashType" := Str(u.hashType), "args" := Str(u.args)])
  }

  function DetailsToJson(d: MethodDetails): Json {
    Obj(d.extensions
        + map["invoice" := Str(d.invoice), "paymentHash" := Str(d.paymentHash),
              "network" := Str(d.network), "hashAlgorithm" := Str(d.hashAlgorithm)]
        + (match d.udtTypeScript case None => map[] case Some(u) => map["udtTypeScript" := UdtToJson(u)]))
  }

  function ChargeToJson(c: Charge): Json {
    Obj(WithOptional(
          WithOptional(
            WithOptional(ChargeCore(c), "recipient", c.recipient),
            "description", c.description),
          "externalId", c.externalId))
  }

  function ChargeCore(c: Charge): map<string, Json> {
    c.extensions["amount" := Str(c.amount)]["currency" := Str(c.currency)]["methodDetails" :=
        DetailsToJson(c.methodDetails)]
  }

  /** An Option<String> field: absent and null both read as None, any other type is an error. */
  function ReadOptional(v: Json, field: string): Option<Option<string>> {
    match Get(v, field)
    case None => Some(None)
    case Some(Null) => Some(None)
    case Some(Str(s)) => Some(Some(s))
    case Some(_) => None
  }

  function ReadUdt(v: Json): Option<Option<UdtTypeScript>> {
    match Get(v, "udtTypeScript")
    case None => Some(None)
    case Some(Null) => Some(None)
    case Some(u) =>
      if GetStr(u, "codeHash").Some? && GetStr(u, "hashType").Some? && GetStr(u, "args").Some?
      then Some(Some(UdtTypeScript(GetStr(u, "codeHash").value, GetStr(u, "hashType").value, GetStr(u, "args").value)))
      else None
  }

  function DetailsFromJson(v: Json): Option<MethodDetails> {
    if !(v.Obj? && GetStr(v, "invoice").Some? && GetStr(v, "paymentHash").Some? && GetStr(v, "network").Some?
         && GetStr(v, "hashAlgorithm").Some? && ReadUdt(v).Some?)
    then None
    else Some(MethodDetails(
                GetStr(v, "invoice").value, GetStr(v, "paymentHash").value, GetStr(v, "network").value,
                GetStr(v, "hashAlgorithm").value, ReadUdt(v).value, v.fields - DETAIL_FIELDS))
  }

  /** Deserialization of a FiberChargeRequest: the flattened map collects the unknown names. */
  function ChargeFromJson(v: Json): Option<Charge> {
    if !(v.Obj? && GetStr(v, "amount").Some? && GetStr(v, "currency").Some?
         && ReadOptional(v, "recipient").Some? && ReadOptional(v, "description").Some?
         && ReadOptional(v, "externalId").Some? && "methodDetails" in v.fields
         && DetailsFromJson(v.fields["methodDetails"]).Some?)
    then None
    else Some(Charge(
                GetStr(v, "amount").value, GetStr(v, "currency").value, ReadOptional(v, "recipient").value,
                ReadOptional(v, "description").value, ReadOptional(v, "externalId").value,
                DetailsFromJson(v.fields["methodDetails"]).value, v.fields - CHARGE_FIELDS))
  }

  /** Two records that agree on the named members and beside them are one. */
  lemma SameSplit(one: map<string, Json>, other: map<string, Json>, named: set<string>)
    requires one - named == other - named
    requires forall k :: k in named ==> (k in one <==> k in other) && (k in one ==> one[k] == other[k])
    ensures one == other
  {
    forall k
      ensures k in one <==> k in other
      ensures k in one ==> one[k] == other[k]
    {
      if k !in named {
        assert k in one <==> k in one - named;
        assert k in other <==> k in other - named;
      }
    }
  }

  lemma DetailsRoundTrip(d: MethodDetails)
    requires d.extensions.Keys !! DETAIL_FIELDS
    ensures DetailsFromJson(DetailsToJson(d)) == Some(d)
  {
    var v := DetailsToJson(d);
    assert v.fields - DETAIL_FIELDS == d.extensions;
    if d.udtTypeScript.Some? {
      assert Get(v, "udtTypeScript") == Some(UdtToJson(d.udtTypeScript.value));
    }
  }

  lemma OptionalLookup(m: map<string, Json>, name: string, value: Option<string>)
    requires name !in m
    ensures var v := Obj(WithOptional(m, name, value));
      && ReadOptional(v, name) == Some(value)
      && (forall other {:trigger other in v.fields} :: other != name ==>
            (other in v.fields <==> other in m) && (other in m ==> v.fields[other] == m[other]))
  {}

  lemma ChargeFields(c: Charge)
    requires SeparateNames(c)
    ensures var v := ChargeToJson(c);
      && Get(v, "amount") == Some(Str(c.amount)) && Get(v, "currency") == Some(Str(c.currency))
      && Get(v, "methodDetails") == Some(DetailsToJson(c.methodDetails))
      && ReadOptional(v, "recipient") == Some(c.recipient)
      && ReadOptional(v, "description") == Some(c.description)
      && ReadOptional(v, "externalId") == Some(c.externalId)
  {
    hide DetailsToJson, WithOptional;
    var core := ChargeCore(c);
    OptionalLookup(core, "recipient", c.recipient);
    var first := WithOptional(core, "recipient", c.recipient);
    OptionalLookup(first, "description", c.description);
    var second := WithOptional(first, "description", c.description);
    OptionalLookup(second, "externalId", c.externalId);
  }

  lemma ChargeExtensions(c: Charge)
    requires SeparateNames(c)
    ensures ChargeToJson(c).fields - CHARGE_FIELDS == c.extensions
  {
    hide DetailsToJson;
  }

  lemma ChargeRoundTrip(c: Charge)
    requires SeparateNames(c)
    ensures ChargeFromJson(ChargeToJson(c)) == Some(c)
  {
    hide ChargeToJson, DetailsToJson, DetailsFromJson, ReadOptional;
    ChargeFields(c);
    ChargeExtensions(c);
    DetailsRoundTrip(c.methodDetails);
  }

  lemma ReadChargeIsSeparate(v: Json)
    requires ChargeFromJson(v).Some?
    ensures SeparateNames(ChargeFromJson(v).value)
  {}
}
