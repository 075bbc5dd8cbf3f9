/** The x402 v2 "exact" Fiber profile: charges to payment requirements and back. */
module X402 {
  import opened Wrappers
  import opened Text
  import opened Json
  import opened Wire
  import ChargeToken

  type Error = string

  type Fields = map<string, Json>

  const EXTENSIONS: seq<string> := ["invoiceCurrency", "invoiceExpiresAt", "invoiceUdtScript"]
  const REQUIREMENT_KEYS: set<string> :=
    {"scheme", "network", "amount", "asset", "payTo", "maxTimeoutSeconds", "extra"}
  const FIBER_REQUIRED: set<string> := {"profile", "currency", "invoice", "paymentHash", "hashAlgorithm"}
  const FIBER_OPTIONAL: set<string> :=
    {"description", "externalId", "invoiceCurrency", "invoiceExpiresAt", "invoiceUdtScript", "udtTypeScript"}

  /** The entries of source under the given names, put into target in order. */
  function CopyFields(source: Fields, names: seq<string>, target: Fields): Fields {
    if names == [] then target
    else
      var before := CopyFields(source, names[..|names| - 1], target);
      var name := names[|names| - 1];
      if name in source then before[name := source[name]] else before
  }

  function FiberCore(c: Charge): Fields {
    map["profile" := Str("fiber-charge-v1"), "currency" := Str(Lower(c.currency)),
        "invoice" := Str(c.methodDetails.invoice), "paymentHash" := Str(c.methodDetails.paymentHash),
        "hashAlgorithm" := Str(c.methodDetails.hashAlgorithm)]
  }

  function FiberFields(c: Charge): Fields {
    var described := WithOptional(WithOptional(FiberCore(c), "description", c.description), "externalId", c.externalId);
    var extended := CopyFields(c.methodDetails.extensions, EXTENSIONS, described);
    match c.methodDetails.udtTypeScript
    case None => extended
    case Some(u) => extended["udtTypeScript" := UdtToJson(u)]
  }

  function Requirements(c: Charge, timeout: nat, payTo: string): Json
    requires ValidTimeout(timeout)
  {
    Obj(map["scheme" := Str("exact"), "network" := Str("fiber:" + c.methodDetails.network), "amount" := Str(c.amount),
            "asset" := Str("fiber:" + Lower(c.currency)), "payTo" := Str(payTo),
            "maxTimeoutSeconds" := Number(timeout), "extra" := Obj(map["fiber" := Obj(FiberFields(c))])])
  }

  predicate ValidTimeout(timeout: nat) { 0 < timeout <= 86400 }

  /** fiber_charge_to_requirements as a function of its arguments. */
  function ToRequirements(c: Charge, timeout: nat): Result<Json, Error> {
    if !ValidTimeout(timeout) then Err("x402-fiber-invalid-timeout")
    else if c.recipient.None? then Err("x402-fiber-recipient-required")
    else Ok(Requirements(c, timeout, c.recipient.value))
  }

  method CopyLoop(source: Fields, target: Fields) returns (fields: Fields)
    ensures fields == CopyFields(source, EXTENSIONS, target)
  {
    fields := target;
    assert EXTENSIONS[..|EXTENSIONS|] == EXTENSIONS;
    for i := 0 to |EXTENSIONS|
      invariant fields == CopyFields(source, EXTENSIONS[..i], target)
    {
      assert EXTENSIONS[..i + 1][..i] == EXTENSIONS[..i];
      var field := EXTENSIONS[i];
      if field in source {
        fields := fields[field := source[field]];
      }
    }
  }

  /** fiber_charge_to_requirements: fills the fiber object step by step. */
  method FiberChargeToRequirements(c: Charge, timeout: nat) returns (r: Result<Json, Error>)
    ensures r == ToRequirements(c, timeout)
  {
    if !ValidTimeout(timeout) { return Err("x402-fiber-invalid-timeout"); }
    if c.recipient == None { return Err("x402-fiber-recipient-required"); }
    var fiber := FiberCore(c);
    if c.description != None { fiber := fiber["description" := Str(c.description.value)]; }
    if c.externalId != None { fiber := fiber["externalId" := Str(c.externalId.value)]; }
    fiber := CopyLoop(c.methodDetails.extensions, fiber);
    if c.methodDetails.udtTypeScript != None {
      fiber := fiber["udtTypeScript" := UdtToJson(c.methodDetails.udtTypeScript.value)];
    }
    r := Ok(Obj(map["scheme" := Str("exact"), "network" := Str("fiber:" + c.methodDetails.network),
                    "amount" := Str(c.amount), "asset" := Str("fiber:" + Lower(c.currency)),
                    "payTo" := Str(c.recipient.value),
                    "maxTimeoutSeconds" := Number(timeout), "extra" := Obj(map["fiber" := Obj(fiber)])]));
  }

  /** The helper string(): a string field that is not empty. */
  function NonEmpty(v: Json, field: string): Option<string> {
    match GetStr(v, field)
    case Some(s) => if s == "" then None else Some(s)
    case None => None
  }

  function ReadUdtStrict(fiber: Json): Option<Option<UdtTypeScript>> {
    match Get(fiber, "udtTypeScript")
    case None => Some(None)
    case Some(u) =>
      if GetStr(u, "codeHash").Some? && GetStr(u, "hashType").Some? && GetStr(u, "args").Some?
      then Some(Some(UdtTypeScript(GetStr(u, "codeHash").value, GetStr(u, "hashType").value, GetStr(u, "args").value)))
      else None
  }

  predicate PositiveDecimal(s: string) {
    !StartsWith(s, "0") && forall i :: 0 <= i < |s| ==> IsDigit(s[i])
  }

  predicate ExactKeys(v: Json, keys: set<string>) { v.Obj? && v.fields.Keys == keys }

  predicate AllowedKeys(v: Json, required: set<string>, optional: set<string>) {
    v.Obj? && required <= v.fields.Keys <= required + optional
  }

  /** The second half of requirements_to_fiber_charge: the fiber object, then what it must agree with. */
  function ReadFiber(fiber: Json, requirement: Json, network: string): Result<Charge, Error> {
    if !AllowedKeys(fiber, FIBER_REQUIRED, FIBER_OPTIONAL) then Err("x402-unexpected-fields")
    else if NonEmpty(fiber, "profile").None? then Err("profile")
    else if NonEmpty(fiber, "profile") != Some("fiber-charge-v1") then Err("x402-fiber-wrong-profile")
    else if NonEmpty(fiber, "currency").None? then Err("currency")
    else if NonEmpty(requirement, "asset").None? then Err("asset")
    else if NonEmpty(requirement, "asset").value != "fiber:" + Lower(NonEmpty(fiber, "currency").value) then
      Err("x402-fiber-asset-mismatch")
    else if NonEmpty(requirement, "amount").None? then Err("amount")
    else if !PositiveDecimal(NonEmpty(requirement, "amount").value) then Err("x402-fiber-invalid-amount")
    else if NonEmpty(fiber, "paymentHash").None? || !IsHash256(NonEmpty(fiber, "paymentHash").value)
        then Err("paymentHash")
    else if NonEmpty(fiber, "hashAlgorithm").None? then Err("hashAlgorithm")
    else if !IsHashAlgorithm(NonEmpty(fiber, "hashAlgorithm").value) then Err("x402-fiber-wrong-hash-algorithm")
    else if ReadUdtStrict(fiber).None? then Err("json")
    else if NonEmpty(requirement, "payTo").None? then Err("payTo")
    else if NonEmpty(fiber, "invoice").None? then Err("invoice")
    else Ok(Charge(NonEmpty(requirement, "amount").value, NonEmpty(fiber, "currency").value,
                   Some(NonEmpty(requirement, "payTo").value), GetStr(fiber, "description"),
                       GetStr(fiber, "externalId"),
                   MethodDetails(NonEmpty(fiber, "invoice").value, NonEmpty(fiber, "paymentHash").value, network,
                                 NonEmpty(fiber, "hashAlgorithm").value, ReadUdtStrict(fiber).value,
                                 CopyFields(fiber.fields, EXTENSIONS, map[])),
                   map[]))
  }

  /** requirements_to_fiber_charge as a function of its argument. */
  function ToCharge(v: Json): Result<Charge, Error> {
    if !ExactKeys(v, REQUIREMENT_KEYS) then Err("x402-unexpected-fields")
    else if NonEmpty(v, "scheme").None? then Err("scheme")
    else if NonEmpty(v, "scheme") != Some("exact") then Err("x402-fiber-wrong-scheme")
    else if NonEmpty(v, "network").None? then Err("network")
    else if StripPrefix(NonEmpty(v, "network").value, "fiber:").None?
            || !IsNetwork(StripPrefix(NonEmpty(v, "network").value, "fiber:").value)
                then Err("x402-fiber-wrong-network")
    else if AsU64(v.fields["maxTimeoutSeconds"]).None? || !ValidTimeout(AsU64(v.fields["maxTimeoutSeconds"]).value) then
      Err("x402-fiber-invalid-timeout")
    else if !v.fields["extra"].Obj? then Err("extra")
    else if !ExactKeys(v.fields["extra"], {"fiber"}) then Err("x402-unexpected-fields")
    else if !v.fields["extra"].fields["fiber"].Obj? then Err("fiber")
    else ReadFiber(v.fields["extra"].fields["fiber"], v, StripPrefix(NonEmpty(v, "network").value, "fiber:").value)
  }

  // ---------------------------------------------------------------- nothing is lost

  /** What the profile can carry: a named recipient, a lower-case currency and no extension of its own. */
  predicate Carried(c: Charge) {
    && c.recipient.Some? && c.recipient.value != ""
    && Lower(c.currency) == c.currency
    && c.extensions == map[]
    && (forall k :: k in c.methodDetails.extensions ==> k in EXTENSIONS)
  }

  lemma {:induction false} CopyHolds(source: Fields, names: seq<string>, target: Fields, k: string)
    ensures var r := CopyFields(source, names, target);
      && (k in r <==> k in target || (k in names && k in source))
      && (k in r ==> r[k] == if k in names && k in source then source[k] else target[k])
  {
    if names != [] {
      CopyHolds(source, names[..|names| - 1], target, k);
      assert names == names[..|names| - 1] + [names[|names| - 1]];
    }
  }

  lemma CoreFields(c: Charge)
    ensures var m := FiberCore(c);
      && m.Keys == FIBER_REQUIRED
      && m["profile"] == Str("fiber-charge-v1") && m["currency"] == Str(Lower(c.currency))
      && m["invoice"] == Str(c.methodDetails.invoice) && m["paymentHash"] == Str(c.methodDetails.paymentHash)
      && m["hashAlgorithm"] == Str(c.methodDetails.hashAlgorithm)
  {}

  lemma Distinct()
    ensures FIBER_REQUIRED !! FIBER_OPTIONAL
    ensures "description" !in EXTENSIONS && "externalId" !in EXTENSIONS && "udtTypeScript" !in EXTENSIONS
    ensures forall k :: k in EXTENSIONS ==> k in FIBER_OPTIONAL
    ensures "description" != "externalId" && "description" != "udtTypeScript" && "externalId" != "udtTypeScript"
  {
    assert forall k :: k in EXTENSIONS ==> k == EXTENSIONS[0] || k == EXTENSIONS[1] || k == EXTENSIONS[2];
  }

  /** Which entries the fiber object has, and what they hold. */
  lemma FiberEntry(c: Charge, k: string)
    ensures var m := FiberFields(c);
      && (k in FIBER_REQUIRED ==> k in m && m[k] == FiberCore(c)[k])
      && (k in m ==> k in FIBER_REQUIRED || k in FIBER_OPTIONAL)
      && (k in EXTENSIONS ==> (k in m <==> k in c.methodDetails.extensions))
      && (k in EXTENSIONS && k in m ==> m[k] == c.methodDetails.extensions[k])
      && (k == "description" ==> (k in m <==> c.description.Some?) && (k in m ==> m[k] == Str(c.description.value)))
      && (k == "externalId" ==> (k in m <==> c.externalId.Some?) && (k in m ==> m[k] == Str(c.externalId.value)))
      && (k == "udtTypeScript" ==>
            (k in m <==> c.methodDetails.udtTypeScript.Some?)
            && (k in m ==> m[k] == UdtToJson(c.methodDetails.udtTypeScript.value)))
  {
    CoreFields(c);
    Distinct();
    hide FiberCore, UdtToJson, CopyFields;
    var described := WithOptional(WithOptional(FiberCore(c), "description", c.description), "externalId", c.externalId);
    CopyHolds(c.methodDetails.extensions, EXTENSIONS, described, k);
  }

  lemma FiberKeys(c: Charge)
    ensures AllowedKeys(Obj(FiberFields(c)), FIBER_REQUIRED, FIBER_OPTIONAL)
  {
    hide FiberFields, FiberCore;
    forall k ensures (k in FIBER_REQUIRED ==> k in FiberFields(c))
                     && (k in FiberFields(c) ==> k in FIBER_REQUIRED || k in FIBER_OPTIONAL)
    {
      FiberEntry(c, k);
    }
  }

  lemma FiberExtensions(c: Charge)
    ensures forall k :: k in CopyFields(FiberFields(c), EXTENSIONS, map[]) ==> k in EXTENSIONS
    ensures (forall k :: k in c.methodDetails.extensions ==> k in EXTENSIONS) ==>
              CopyFields(FiberFields(c), EXTENSIONS, map[]) == c.methodDetails.extensions
  {
    hide FiberFields, FiberCore;
    var copied := CopyFields(FiberFields(c), EXTENSIONS, map[]);
    forall k ensures (k in copied ==> k in EXTENSIONS)
                     && (k in EXTENSIONS ==> (k in copied <==> k in c.methodDetails.extensions)
                                             && (k in copied ==> copied[k] == c.methodDetails.extensions[k]))
    {
      CopyHolds(FiberFields(c), EXTENSIONS, map[], k);
      FiberEntry(c, k);
    }
  }

  lemma FiberOptionals(c: Charge)
    ensures var fiber := Obj(FiberFields(c));
      && GetStr(fiber, "description") == c.description && GetStr(fiber, "externalId") == c.externalId
      && ReadUdtStrict(fiber) == Some(c.methodDetails.udtTypeScript)
  {
    hide FiberFields, FiberCore;
    FiberEntry(c, "description");
    FiberEntry(c, "externalId");
    FiberEntry(c, "udtTypeScript");
  }

  lemma FiberRequired(c: Charge)
    requires ValidCharge(c)
    ensures var fiber := Obj(FiberFields(c));
      && NonEmpty(fiber, "profile") == Some("fiber-charge-v1") && NonEmpty(fiber, "currency") == Some(Lower(c.currency))
      && NonEmpty(fiber, "invoice") == Some(c.methodDetails.invoice)
      && NonEmpty(fiber, "paymentHash") == Some(c.methodDetails.paymentHash)
      && NonEmpty(fiber, "hashAlgorithm") == Some(c.methodDetails.hashAlgorithm)
  {
    hide FiberFields, FiberCore;
    CoreFields(c);
    assert |Lower(c.currency)| > 0;
    FiberEntry(c, "profile");
    FiberEntry(c, "currency");
    FiberEntry(c, "invoice");
    FiberEntry(c, "paymentHash");
    FiberEntry(c, "hashAlgorithm");
  }

  lemma RequirementFields(c: Charge, timeout: nat, payTo: string)
    requires ValidTimeout(timeout)
    ensures var v := Requirements(c, timeout, payTo);
      && ExactKeys(v, REQUIREMENT_KEYS)
      && GetStr(v, "scheme") == Some("exact") && GetStr(v, "network") == Some("fiber:" + c.methodDetails.network)
      && GetStr(v, "amount") == Some(c.amount) && GetStr(v, "asset") == Some("fiber:" + Lower(c.currency))
      && GetStr(v, "payTo") == Some(payTo) && v.fields["maxTimeoutSeconds"] == Number(timeout)
      && v.fields["extra"] == Obj(map["fiber" := Obj(FiberFields(c))])
  {
    hide FiberFields;
  }

  lemma ReadFiberBack(c: Charge, v: Json, payTo: string)
    requires ValidCharge(c)
    requires GetStr(v, "amount") == Some(c.amount) && GetStr(v, "asset") == Some("fiber:" + Lower(c.currency))
    requires GetStr(v, "payTo") == Some(payTo)
    ensures ReadFiber(Obj(FiberFields(c)), v, c.methodDetails.network) ==
            if payTo == "" then Err("payTo")
            else Ok(Charge(c.amount, Lower(c.currency), Some(payTo), c.description, c.externalId,
                           c.methodDetails.(extensions := CopyFields(FiberFields(c), EXTENSIONS, map[])), map[]))
  {
    FiberKeys(c);
    FiberRequired(c);
    FiberOptionals(c);
    LowerIdempotent(c.currency);
    assert PositiveDecimal(c.amount) by { assert c.amount[0] != '0'; }
    assert "fiber:" + Lower(c.currency) != "" by { assert |"fiber:"| == 6; }
    assert IsHash256(c.methodDetails.paymentHash) && IsHashAlgorithm(c.methodDetails.hashAlgorithm);
    hide FiberFields, ReadUdtStrict, CopyFields, AllowedKeys, GetStr, ValidCharge, IsHash256, IsHashAlgorithm,
      PositiveDecimal, Lower;
    assert NonEmpty(v, "amount") == Some(c.amount);
    assert NonEmpty(v, "asset") == Some("fiber:" + Lower(c.currency));
  }

  /** What a requirement made from a valid charge reads back to. */
  lemma ReadBack(c: Charge, timeout: nat, payTo: string)
    requires ValidCharge(c) && ValidTimeout(timeout)
    ensures ToCharge(Requirements(c, timeout, payTo)) ==
            if payTo == "" then Err("payTo")
            else Ok(Charge(c.amount, Lower(c.currency), Some(payTo), c.description, c.externalId,
                           c.methodDetails.(extensions := CopyFields(FiberFields(c), EXTENSIONS, map[])), map[]))
  {
    var v := Requirements(c, timeout, payTo);
    RequirementFields(c, timeout, payTo);
    ReadFiberBack(c, v, payTo);
    assert IsNetwork(c.methodDetails.network);
    hide FiberFields, Requirements, ReadFiber, CopyFields, GetStr, ValidCharge, IsNetwork;
    var network := "fiber:" + c.methodDetails.network;
    assert StripPrefix(network, "fiber:") == Some(c.methodDetails.network) by {
      assert network[6..] == c.methodDetails.network;
    }
    assert network != "" by { assert |"fiber:"| == 6; }
    assert NonEmpty(v, "network") == Some(network);
    assert NonEmpty(v, "scheme") == Some("exact");
  }

  /** Converting a valid charge to requirements and back gives the charge exactly when the profile
      carries all of it. */
  lemma ConversionRoundTrip(c: Charge, timeout: nat)
    requires ValidCharge(c) && ValidTimeout(timeout)
    ensures ToRequirements(c, timeout).Ok? && ToCharge(ToRequirements(c, timeout).value) == Ok(c) <==> Carried(c)
  {
    if c.recipient.Some? {
      ReadBack(c, timeout, c.recipient.value);
      FiberExtensions(c);
    }
    hide ToCharge, FiberFields, CopyFields, ValidCharge;
  }

  // ---------------------------------------------------------------- what a requirement says

  /** A requirement of seven members around one fiber object, for this charge and this time. */
  ghost predicate Frames(v: Json, c: Charge, timeout: nat, fiber: Json) {
    && 1 <= timeout <= 86400 && c.recipient.Some? && v.Obj?
    && v.fields.Keys == {"scheme", "network", "amount", "asset", "payTo", "maxTimeoutSeconds", "extra"}
    && v.fields["scheme"] == Str("exact") && v.fields["network"] == Str("fiber:" + c.methodDetails.network)
    && v.fields["amount"] == Str(c.amount) && v.fields["asset"] == Str("fiber:" + Lower(c.currency))
    && v.fields["payTo"] == Str(c.recipient.value) && v.fields["maxTimeoutSeconds"] == Number(timeout)
    && v.fields["extra"] == Obj(map["fiber" := fiber]) && fiber.Obj?
  }

  /** The three extensions that travel: there or not, and the same value. */
  ghost predicate Travels(fields: Fields, extensions: Fields) {
    forall k :: k in {"invoiceCurrency", "invoiceExpiresAt", "invoiceUdtScript"} ==>
      (k in fields <==> k in extensions) && (k in fields ==> fields[k] == extensions[k])
  }

  /** The members that any fiber object for the charge has, and those that it may have. */
  ghost predicate FramesFiber(fields: Fields, c: Charge) {
    && Member(fields, "profile", Some("fiber-charge-v1")) && Member(fields, "invoice", Some(c.methodDetails.invoice))
    && Member(fields, "paymentHash", Some(c.methodDetails.paymentHash))
    && Member(fields, "hashAlgorithm", Some(c.methodDetails.hashAlgorithm)) && "currency" in fields
    && fields.Keys <= {"profile", "currency", "invoice", "paymentHash", "hashAlgorithm", "description", "externalId",
                       "invoiceCurrency", "invoiceExpiresAt", "invoiceUdtScript", "udtTypeScript"}
    && Travels(fields, c.methodDetails.extensions)
  }

  /** The fiber object as it is written for the charge. */
  ghost predicate WrittenFor(fields: Fields, c: Charge) {
    && FramesFiber(fields, c) && Member(fields, "currency", Some(Lower(c.currency)))
    && Member(fields, "description", c.description) && Member(fields, "externalId", c.externalId)
    && match c.methodDetails.udtTypeScript
       case None => "udtTypeScript" !in fields
       case Some(u) =>
         "udtTypeScript" in fields
         && fields["udtTypeScript"] ==
            Obj(map["codeHash" := Str(u.codeHash), "hashType" := Str(u.hashType), "args" := Str(u.args)])
  }

  /** A fiber object that reads as the charge: a description that is no text counts for none, and a script
      may have members besides its three. */
  ghost predicate ReadsAs(fields: Fields, c: Charge) {
    && FramesFiber(fields, c) && Member(fields, "currency", Some(c.currency))
    && GetStr(Obj(fields), "description") == c.description && GetStr(Obj(fields), "externalId") == c.externalId
    && (forall k :: k in c.methodDetails.extensions ==>
          k in {"invoiceCurrency", "invoiceExpiresAt", "invoiceUdtScript"})
    && match c.methodDetails.udtTypeScript
       case None => "udtTypeScript" !in fields
       case Some(u) =>
         "udtTypeScript" in fields
         && var script := fields["udtTypeScript"];
            GetStr(script, "codeHash") == Some(u.codeHash) && GetStr(script, "hashType") == Some(u.hashType)
            && GetStr(script, "args") == Some(u.args)
  }

  lemma ExtensionsAre()
    ensures forall k :: k in EXTENSIONS <==> k in {"invoiceCurrency", "invoiceExpiresAt", "invoiceUdtScript"}
  {
    assert forall k :: k in EXTENSIONS ==> k == EXTENSIONS[0] || k == EXTENSIONS[1] || k == EXTENSIONS[2];
    assert EXTENSIONS[0] in EXTENSIONS && EXTENSIONS[1] in EXTENSIONS && EXTENSIONS[2] in EXTENSIONS;
  }

  lemma FiberIsWritten(c: Charge)
    ensures WrittenFor(FiberFields(c), c)
  {
    hide FiberFields, FiberCore, EXTENSIONS;
    CoreFields(c);
    ExtensionsAre();
    FiberEntry(c, "profile");
    FiberEntry(c, "currency");
    FiberEntry(c, "invoice");
    FiberEntry(c, "paymentHash");
    FiberEntry(c, "hashAlgorithm");
    FiberEntry(c, "description");
    FiberEntry(c, "externalId");
    FiberEntry(c, "udtTypeScript");
    FiberKeys(c);
    forall k | k in EXTENSIONS
      ensures k in FiberFields(c) <==> k in c.methodDetails.extensions
      ensures k in FiberFields(c) ==> FiberFields(c)[k] == c.methodDetails.extensions[k]
    {
      FiberEntry(c, k);
    }
  }

  lemma WrittenOnce(fields: Fields, others: Fields, c: Charge)
    requires WrittenFor(fields, c) && WrittenFor(others, c)
    ensures fields == others
  {
    forall k
      ensures k in fields <==> k in others
      ensures k in fields ==> fields[k] == others[k]
    {}
  }

  /** The requirement made for a charge is the one JSON value that frames the object written for it. */
  lemma RequirementIff(c: Charge, timeout: nat, v: Json)
    ensures ToRequirements(c, timeout) == Ok(v) <==>
            exists fields :: Frames(v, c, timeout, Obj(fields)) && WrittenFor(fields, c)
  {
    FiberIsWritten(c);
    hide WrittenFor, FiberFields;
    if ValidTimeout(timeout) && c.recipient.Some? {
      var made := Requirements(c, timeout, c.recipient.value);
      RequirementFields(c, timeout, c.recipient.value);
      hide Requirements;
      assert Frames(made, c, timeout, Obj(FiberFields(c)));
      forall fields | Frames(v, c, timeout, Obj(fields)) && WrittenFor(fields, c) ensures v == made {
        WrittenOnce(fields, FiberFields(c), c);
        FramedOnce(v, made, c, timeout, Obj(fields));
      }
    }
  }

  lemma FramedOnce(v: Json, w: Json, c: Charge, timeout: nat, fiber: Json)
    requires Frames(v, c, timeout, fiber) && Frames(w, c, timeout, fiber)
    ensures v == w
  {
    assert v.fields == w.fields;
  }

  lemma CopiedIff(fields: Fields, extensions: Fields)
    ensures CopyFields(fields, EXTENSIONS, map[]) == extensions <==>
      Travels(fields, extensions)
      && forall k :: k in extensions ==> k in {"invoiceCurrency", "invoiceExpiresAt", "invoiceUdtScript"}
  {
    hide EXTENSIONS;
    ExtensionsAre();
    var copied := CopyFields(fields, EXTENSIONS, map[]);
    forall k
      ensures k in copied <==> k in EXTENSIONS && k in fields
      ensures k in copied ==> copied[k] == fields[k]
    {
      CopyHolds(fields, EXTENSIONS, map[], k);
    }
    if Travels(fields, extensions)
       && forall k :: k in extensions ==> k in {"invoiceCurrency", "invoiceExpiresAt", "invoiceUdtScript"} {
      assert copied == extensions;
    }
  }

  lemma ScriptIff(fields: Fields, udt: Option<UdtTypeScript>)
    ensures ReadUdtStrict(Obj(fields)) == Some(udt) <==>
      match udt
      case None => "udtTypeScript" !in fields
      case Some(u) =>
        "udtTypeScript" in fields
        && var script := fields["udtTypeScript"];
           GetStr(script, "codeHash") == Some(u.codeHash) && GetStr(script, "hashType") == Some(u.hashType)
           && GetStr(script, "args") == Some(u.args)
  {
    hide GetStr;
  }

  lemma TextMember(fields: Fields, name: string, text: string)
    ensures NonEmpty(Obj(fields), name) == Some(text) <==> Member(fields, name, Some(text)) && text != ""
  {}

  lemma FiberKeysAre(fields: Fields)
    ensures AllowedKeys(Obj(fields), FIBER_REQUIRED, FIBER_OPTIONAL) <==>
      && "profile" in fields && "currency" in fields && "invoice" in fields && "paymentHash" in fields
      && "hashAlgorithm" in fields
      && fields.Keys <= {"profile", "currency", "invoice", "paymentHash", "hashAlgorithm", "description", "externalId",
                         "invoiceCurrency", "invoiceExpiresAt", "invoiceUdtScript", "udtTypeScript"}
  {}

  lemma ReadFiberIff(fields: Fields, v: Json, network: string, c: Charge)
    requires v.Obj?
    ensures ReadFiber(Obj(fields), v, network) == Ok(c) <==>
      && ReadsAs(fields, c) && c.methodDetails.network == network && c.extensions == map[] && c.recipient.Some?
      && NonEmpty(v, "asset") == Some("fiber:" + Lower(c.currency)) && NonEmpty(v, "amount") == Some(c.amount)
      && NonEmpty(v, "payTo") == Some(c.recipient.value) && PositiveDecimal(c.amount)
      && c.currency != "" && c.methodDetails.invoice != "" && IsHash256(c.methodDetails.paymentHash)
      && IsHashAlgorithm(c.methodDetails.hashAlgorithm)
  {
    hide AllowedKeys, Travels, CopyFields, ReadUdtStrict, NonEmpty, Member, IsHash256, IsHashAlgorithm, PositiveDecimal,
      GetStr, Lower, EXTENSIONS;
    FiberKeysAre(fields);
    CopiedIff(fields, c.methodDetails.extensions);
    ScriptIff(fields, c.methodDetails.udtTypeScript);
    TextMember(fields, "profile", "fiber-charge-v1");
    TextMember(fields, "currency", c.currency);
    TextMember(fields, "invoice", c.methodDetails.invoice);
    TextMember(fields, "paymentHash", c.methodDetails.paymentHash);
    TextMember(fields, "hashAlgorithm", c.methodDetails.hashAlgorithm);
    NotEmpty(c.methodDetails.paymentHash, c.methodDetails.hashAlgorithm);
    if FramesFiber(fields, c) { MembersPresent(fields, c); }
  }

  lemma MembersPresent(fields: Fields, c: Charge)
    requires FramesFiber(fields, c)
    ensures "profile" in fields && "currency" in fields && "invoice" in fields && "paymentHash" in fields
    ensures "hashAlgorithm" in fields
  {}

  lemma NotEmpty(hash: string, algorithm: string)
    ensures IsHash256(hash) ==> hash != ""
    ensures IsHashAlgorithm(algorithm) ==> algorithm != ""
  {}

  lemma NetworkIff(text: string, network: string)
    ensures StripPrefix(text, "fiber:") == Some(network) <==> text == "fiber:" + network
  {
    assert |"fiber:"| == 6;
    if StripPrefix(text, "fiber:") == Some(network) { assert text == text[..6] + text[6..]; }
    if text == "fiber:" + network { assert text[..6] == "fiber:" && text[6..] == network; }
  }

  lemma TopFields(v: Json, c: Charge)
    requires v.Obj? && v.fields.Keys == REQUIREMENT_KEYS && c.recipient.Some?
    ensures NonEmpty(v, "scheme") == Some("exact") <==> v.fields["scheme"] == Str("exact")
    ensures NonEmpty(v, "network") == Some("fiber:" + c.methodDetails.network)
            <==> v.fields["network"] == Str("fiber:" + c.methodDetails.network)
    ensures NonEmpty(v, "asset") == Some("fiber:" + Lower(c.currency))
            <==> v.fields["asset"] == Str("fiber:" + Lower(c.currency))
    ensures NonEmpty(v, "amount") == Some(c.amount) <==> c.amount != "" && v.fields["amount"] == Str(c.amount)
    ensures NonEmpty(v, "payTo") == Some(c.recipient.value)
            <==> c.recipient.value != "" && v.fields["payTo"] == Str(c.recipient.value)
  {
    assert |"fiber:" + c.methodDetails.network| >= 6 && |"fiber:" + Lower(c.currency)| >= 6;
  }

  lemma OnlyFiber(extra: Json)
    ensures extra.Obj? && ExactKeys(extra, {"fiber"}) <==>
            exists fiber :: extra == Obj(map["fiber" := fiber])
  {
    if extra.Obj? && ExactKeys(extra, {"fiber"}) { assert extra == Obj(map["fiber" := extra.fields["fiber"]]); }
  }

  lemma ChargeIsValidIff(c: Charge)
    ensures ValidCharge(c) <==>
      && PositiveDecimal(c.amount) && c.amount != "" && c.currency != "" && c.methodDetails.invoice != ""
      && IsHash256(c.methodDetails.paymentHash) && IsHashAlgorithm(c.methodDetails.hashAlgorithm)
      && IsNetwork(c.methodDetails.network)
  {
    if c.amount != "" { assert StartsWith(c.amount, "0") <==> c.amount[0] == '0'; }
  }

  lemma FramedReads(v: Json, c: Charge, timeout: nat, fields: Fields)
    requires ValidTimeout(timeout) && c.recipient.Some? && Frames(v, c, timeout, Obj(fields))
    ensures ToCharge(v) == Ok(c) <==>
            ValidCharge(c) && c.extensions == map[] && c.recipient.value != "" && ReadsAs(fields, c)
  {
    var network := "fiber:" + c.methodDetails.network;
    TopFields(v, c);
    NetworkIff(network, c.methodDetails.network);
    ReadFiberIff(fields, v, c.methodDetails.network, c);
    ChargeIsValidIff(c);
    assert v.fields["extra"].fields["fiber"] == Obj(fields);
    hide ReadFiber, ReadsAs, NonEmpty, StripPrefix, IsNetwork, IsHash256, IsHashAlgorithm, PositiveDecimal, Lower,
      ValidCharge;
  }

  lemma ReadIsFramed(v: Json, c: Charge) returns (timeout: nat, fields: Fields)
    requires ToCharge(v) == Ok(c)
    ensures c.recipient.Some? && Frames(v, c, timeout, Obj(fields))
  {
    OnlyFiber(v.fields["extra"]);
    timeout, fields := AsU64(v.fields["maxTimeoutSeconds"]).value, v.fields["extra"].fields["fiber"].fields;
    var network := NonEmpty(v, "network").value;
    var name := StripPrefix(network, "fiber:").value;
    NetworkIff(network, name);
    ReadFiberIff(fields, v, name, c);
    TopFields(v, c);
    hide ReadFiber, ReadsAs, NonEmpty, StripPrefix, IsNetwork, IsHash256, IsHashAlgorithm, PositiveDecimal, Lower;
  }

  /** A JSON value reads as a charge exactly when it frames a fiber object that says the charge, and the
      charge is valid, names a recipient and has no extension of its own. */
  lemma ReadIff(v: Json, c: Charge)
    ensures ToCharge(v) == Ok(c) <==>
      && ValidCharge(c) && c.extensions == map[] && c.recipient.Some? && c.recipient.value != ""
      && exists timeout, fields :: Frames(v, c, timeout, Obj(fields)) && ReadsAs(fields, c)
  {
    hide ToCharge, ValidCharge, ReadsAs, Frames;
    if ToCharge(v) == Ok(c) {
      var timeout, fields := ReadIsFramed(v, c);
      assert ValidTimeout(timeout) by { FrameTime(v, c, timeout, Obj(fields)); }
      FramedReads(v, c, timeout, fields);
    }
    if c.recipient.Some? {
      forall timeout, fields | Frames(v, c, timeout, Obj(fields))
        ensures ToCharge(v) == Ok(c) <==>
                ValidCharge(c) && c.extensions == map[] && c.recipient.value != "" && ReadsAs(fields, c)
      {
        FrameTime(v, c, timeout, Obj(fields));
        FramedReads(v, c, timeout, fields);
      }
    }
  }

  lemma FrameTime(v: Json, c: Charge, timeout: nat, fiber: Json)
    requires Frames(v, c, timeout, fiber)
    ensures ValidTimeout(timeout)
  {}

  // ---------------------------------------------------------------- payloads

  /** payment_payload_to_credential, up to the credential it builds around the payment hash. */
  function AcceptPayload(lib: Lib, payload: Json, challenge: Challenge, expectedUrl: Option<string>)
    : Result<string, Error>
  {
    if Get(payload, "x402Version").None? || AsU64(Get(payload, "x402Version").value) != Some(2)
        then Err("x402-v2-required")
    else if expectedUrl.Some? && (Get(payload, "resource").None?
                                  || GetStr(Get(payload, "resource").value, "url") != expectedUrl) then
      Err("x402-fiber-resource-mismatch")
    else if Get(payload, "accepted").None? then Err("x402-fiber-requirement-missing")
    else
      var accepted := Get(payload, "accepted").value;
      if Get(accepted, "maxTimeoutSeconds").None? || AsU64(Get(accepted, "maxTimeoutSeconds").value).None? then
        Err("x402-fiber-invalid-timeout")
      else
        var timeout := AsU64(Get(accepted, "maxTimeoutSeconds").value).value;
        match ChargeToken.Decode(lib, true, challenge.request)
        case Err(_) => Err("core")
        case Ok(charge) => AcceptRequirement(lib, payload, accepted, charge, timeout)
  }

  function AcceptRequirement(lib: Lib, payload: Json, accepted: Json, charge: Charge, timeout: nat)
    : Result<string, Error>
  {
    match ToRequirements(charge, timeout)
    case Err(e) => Err(e)
    case Ok(expected) =>
      if lib.jcs(expected) != lib.jcs(accepted) then Err("x402-fiber-requirement-mismatch")
      else if GetObj(payload, "payload").None? then Err("payload")
      else AcceptHash(GetObj(payload, "payload").value, charge.methodDetails.paymentHash)
  }

  function AcceptHash(payment: Json, expected: string): Result<string, Error> {
    if !ExactKeys(payment, {"paymentHash"}) then Err("x402-unexpected-fields")
    else if NonEmpty(payment, "paymentHash").None? then Err("paymentHash")
    else if NonEmpty(payment, "paymentHash").value != expected then Err("wrong-payment-hash")
    else Ok(expected)
  }

  /** The payload's own members: the version, the resource where one is expected, and the payment. */
  ghost predicate Accepts(payload: Json, expectedUrl: Option<string>, hash: string) {
    && Get(payload, "x402Version").Some? && Get(payload, "x402Version").value == Number(2)
    && (expectedUrl.Some? ==>
          Get(payload, "resource").Some? && GetStr(Get(payload, "resource").value, "url") == expectedUrl)
    && Get(payload, "payload") == Some(Obj(map["paymentHash" := Str(hash)]))
  }

  lemma HashIff(payload: Json, expected: string, hash: string)
    requires expected != ""
    ensures GetObj(payload, "payload").Some? && AcceptHash(GetObj(payload, "payload").value, expected) == Ok(hash) <==>
            hash == expected && Get(payload, "payload") == Some(Obj(map["paymentHash" := Str(hash)]))
  {
    if GetObj(payload, "payload").Some? {
      var payment := GetObj(payload, "payload").value;
      if ExactKeys(payment, {"paymentHash"}) && payment.fields["paymentHash"] == Str(hash) {
        assert payment.fields == map["paymentHash" := Str(hash)];
      }
    }
  }

  lemma RequirementAcceptedIff(lib: Lib, payload: Json, accepted: Json, charge: Charge, timeout: nat, hash: string)
    requires Sound(lib) && ValidCharge(charge)
    ensures AcceptRequirement(lib, payload, accepted, charge, timeout) == Ok(hash) <==>
      && ToRequirements(charge, timeout) == Ok(accepted) && hash == charge.methodDetails.paymentHash
      && Get(payload, "payload") == Some(Obj(map["paymentHash" := Str(hash)]))
  {
    HashIff(payload, charge.methodDetails.paymentHash, hash);
    hide ValidCharge, GetObj, AcceptHash, ToRequirements;
    if ToRequirements(charge, timeout).Ok? && lib.jcs(ToRequirements(charge, timeout).value) == lib.jcs(accepted) {
      JcsInjective(lib, ToRequirements(charge, timeout).value, accepted);
    }
  }

  /** A payload is accepted for a challenge exactly when it is of version 2, names the expected resource
      where one is expected, holds the challenge's payment hash and nothing else as its payment, and has
      accepted the requirement made for the charge in the challenge's token for some valid time. */
  lemma AcceptedIff(lib: Lib, payload: Json, challenge: Challenge, expectedUrl: Option<string>, hash: string)
    requires Sound(lib)
    ensures AcceptPayload(lib, payload, challenge, expectedUrl) == Ok(hash) <==>
      && Accepts(payload, expectedUrl, hash) && Get(payload, "accepted").Some?
      && exists charge: Charge, timeout: nat, fields ::
           && SeparateNames(charge) && ChargeToken.Encode(lib, charge) == Ok(challenge.request)
           && hash == charge.methodDetails.paymentHash
           && Frames(Get(payload, "accepted").value, charge, timeout, Obj(fields)) && WrittenFor(fields, charge)
  {
    hide AcceptPayload, ChargeToken.Encode, Accepts, SeparateNames, Frames, WrittenFor;
    if AcceptPayload(lib, payload, challenge, expectedUrl) == Ok(hash) {
      var fields := AcceptedFrames(lib, payload, challenge, expectedUrl, hash);
      ChargeToken.DecodeIffEncode(lib, true, challenge.request, ChargeToken.Decode(lib, true, challenge.request).value);
    }
    if Accepts(payload, expectedUrl, hash) && Get(payload, "accepted").Some? {
      forall charge: Charge, timeout: nat, fields |
        && SeparateNames(charge) && ChargeToken.Encode(lib, charge) == Ok(challenge.request)
        && hash == charge.methodDetails.paymentHash
        && Frames(Get(payload, "accepted").value, charge, timeout, Obj(fields)) && WrittenFor(fields, charge)
        ensures AcceptPayload(lib, payload, challenge, expectedUrl) == Ok(hash)
      {
        FramedIsAccepted(lib, payload, challenge, expectedUrl, hash, charge, timeout, fields);
      }
    }
  }

  lemma AcceptedFrames(lib: Lib, payload: Json, challenge: Challenge, expectedUrl: Option<string>, hash: string)
    returns (fields: Fields)
    requires Sound(lib) && AcceptPayload(lib, payload, challenge, expectedUrl) == Ok(hash)
    ensures Accepts(payload, expectedUrl, hash) && Get(payload, "accepted").Some?
    ensures Get(Get(payload, "accepted").value, "maxTimeoutSeconds").Some?
    ensures AsU64(Get(Get(payload, "accepted").value, "maxTimeoutSeconds").value).Some?
    ensures ChargeToken.Decode(lib, true, challenge.request).Ok?
    ensures var accepted, charge :=
        Get(payload, "accepted").value, ChargeToken.Decode(lib, true, challenge.request).value;
      && hash == charge.methodDetails.paymentHash
      && Frames(accepted, charge, AsU64(Get(accepted, "maxTimeoutSeconds").value).value, Obj(fields))
      && WrittenFor(fields, charge)
  {
    hide ChargeToken.Decode, AcceptRequirement, ToRequirements, Frames, WrittenFor, GetStr, ValidCharge;
    var accepted, charge := Get(payload, "accepted").value, ChargeToken.Decode(lib, true, challenge.request).value;
    var timeout := AsU64(Get(accepted, "maxTimeoutSeconds").value).value;
    ChargeToken.DecodeIffEncode(lib, true, challenge.request, charge);
    TokenIsValid(lib, charge, challenge.request);
    RequirementAcceptedIff(lib, payload, accepted, charge, timeout, hash);
    RequirementIff(charge, timeout, accepted);
    fields :| Frames(accepted, charge, timeout, Obj(fields)) && WrittenFor(fields, charge);
  }

  lemma FramedIsAccepted(lib: Lib, payload: Json, challenge: Challenge, expectedUrl: Option<string>, hash: string,
                         charge: Charge, timeout: nat, fields: Fields)
    requires Sound(lib) && Accepts(payload, expectedUrl, hash) && Get(payload, "accepted").Some?
    requires SeparateNames(charge) && ChargeToken.Encode(lib, charge) == Ok(challenge.request)
    requires hash == charge.methodDetails.paymentHash && WrittenFor(fields, charge)
    requires Frames(Get(payload, "accepted").value, charge, timeout, Obj(fields))
    ensures AcceptPayload(lib, payload, challenge, expectedUrl) == Ok(hash)
  {
    hide ChargeToken.Decode, ChargeToken.Encode, AcceptRequirement, ToRequirements, Frames, WrittenFor, GetStr,
      ValidCharge, SeparateNames;
    var accepted := Get(payload, "accepted").value;
    ChargeToken.DecodeIffEncode(lib, true, challenge.request, charge);
    TokenIsValid(lib, charge, challenge.request);
    FramedTime(accepted, charge, timeout, Obj(fields));
    RequirementIff(charge, timeout, accepted);
    RequirementAcceptedIff(lib, payload, accepted, charge, timeout, hash);
  }

  lemma TokenIsValid(lib: Lib, charge: Charge, token: string)
    requires Sound(lib) && ChargeToken.Encode(lib, charge) == Ok(token)
    ensures ValidCharge(charge)
  {}

  lemma FramedTime(v: Json, c: Charge, timeout: nat, fiber: Json)
    requires Frames(v, c, timeout, fiber)
    ensures timeout <= 86400 && Get(v, "maxTimeoutSeconds") == Some(Number(timeout))
  {}

  lemma AcceptedRequirementIsTheCharge(lib: Lib, payload: Json, accepted: Json, charge: Charge, timeout: nat)
    requires Sound(lib) && ValidCharge(charge)
    requires AcceptRequirement(lib, payload, accepted, charge, timeout).Ok?
    ensures AcceptRequirement(lib, payload, accepted, charge, timeout) == Ok(charge.methodDetails.paymentHash)
    ensures ToCharge(accepted) == Ok(charge) <==> Carried(charge)
  {
    hide ToCharge, Requirements, ValidCharge, Carried, GetObj, ExactKeys, NonEmpty;
    JcsInjective(lib, ToRequirements(charge, timeout).value, accepted);
    ConversionRoundTrip(charge, timeout);
  }

  /** An accepted payload names the challenge's payment hash, and its requirement reads as the
      challenge's own charge whenever the profile carries that charge. */
  lemma AcceptedPayloadIsTheCharge(lib: Lib, payload: Json, challenge: Challenge, expectedUrl: Option<string>)
    requires Sound(lib)
    requires AcceptPayload(lib, payload, challenge, expectedUrl).Ok?
    ensures ChargeToken.Decode(lib, true, challenge.request).Ok?
    ensures var charge := ChargeToken.Decode(lib, true, challenge.request).value;
      && AcceptPayload(lib, payload, challenge, expectedUrl) == Ok(charge.methodDetails.paymentHash)
      && (ToCharge(Get(payload, "accepted").value) == Ok(charge) <==> Carried(charge))
  {
    var charge := ChargeToken.Decode(lib, true, challenge.request).value;
    ChargeToken.DecodeIffEncode(lib, true, challenge.request, charge);
    assert ValidCharge(charge);
    hide ChargeToken.Decode, ChargeToken.Encode, AcceptRequirement, ToCharge, ValidCharge, Carried, GetObj, GetStr;
    var accepted := Get(payload, "accepted").value;
    var timeout := AsU64(Get(accepted, "maxTimeoutSeconds").value).value;
    AcceptedRequirementIsTheCharge(lib, payload, accepted, charge, timeout);
  }
}
