/** The request token: canonical JSON of a charge, in unpadded base64url. */
module ChargeToken {
  import opened Wrappers
  import opened Json
  import opened Wire
  import Base64
  import Hex
  import Quantity
  import opened Text

  datatype TokenError = BadBase64 | BadJson | NotCanonical | InvalidCharge

  /** encode_fiber_charge_request */
  function Encode(lib: Lib, c: Charge): Result<string, TokenError>
    requires Sound(lib)
  {
    if !ValidCharge(c) then Err(InvalidCharge) else Ok(Base64.Encode(lib.jcs(ChargeToJson(c))))
  }

  /** decode_fiber_charge_request; strict says whether the base64 engine itself rejects spare bits. */
  function Decode(lib: Lib, strict: bool, input: string): Result<Charge, TokenError> {
    match Base64.DecodeChecked(input, strict)
    case None => Err(BadBase64)
    case Some(bytes) =>
      match lib.parseJson(bytes)
      case None => Err(BadJson)
      case Some(v) =>
        match ChargeFromJson(v)
        case None => Err(BadJson)
        case Some(c) =>
          if lib.jcs(ChargeToJson(c)) != bytes then Err(NotCanonical)
          else if !ValidCharge(c) then Err(InvalidCharge)
          else Ok(c)
  }

  /** Decoding inverts encoding: a token reads as c exactly when c is a valid charge whose flattened
      maps reuse no field name and the token is the one that encoding c gives. */
  lemma DecodeIffEncode(lib: Lib, strict: bool, token: string, c: Charge)
    requires Sound(lib)
    ensures Decode(lib, strict, token) == Ok(c) <==> SeparateNames(c) && Encode(lib, c) == Ok(token)
  {
    hide ChargeToJson, ChargeFromJson, ValidCharge, SeparateNames;
    var bytes := lib.jcs(ChargeToJson(c));
    if Decode(lib, strict, token) == Ok(c) {
      var raw := Base64.DecodeChecked(token, strict).value;
      ReadChargeIsSeparate(lib.parseJson(raw).value);
      Base64.CheckedDecodeIsInverse(token, raw, strict);
    }
    if SeparateNames(c) && Encode(lib, c) == Ok(token) {
      Base64.CheckedDecodeIsInverse(token, bytes, strict);
      ChargeRoundTrip(c);
    }
  }

  /** So no charge has two tokens and no token two charges. */
  lemma TokensAreUnique(lib: Lib, strict: bool, s: string, t: string)
    requires Sound(lib)
    requires Decode(lib, strict, s).Ok? && Decode(lib, strict, t).Ok?
    ensures Decode(lib, strict, s).value == Decode(lib, strict, t).value <==> s == t
  {
    hide *;
    DecodeIffEncode(lib, strict, s, Decode(lib, strict, s).value);
    DecodeIffEncode(lib, strict, t, Decode(lib, strict, t).value);
  }

  // ---------------------------------------------------------------- what a token says

  /** Texts under their names, a script with its three texts, and the extensions beside them. */
  ghost predicate DescribesDetails(v: Json, d: MethodDetails) {
    && v.Obj? && Member(v.fields, "invoice", Some(d.invoice)) && Member(v.fields, "paymentHash", Some(d.paymentHash))
    && Member(v.fields, "network", Some(d.network)) && Member(v.fields, "hashAlgorithm", Some(d.hashAlgorithm))
    && (match d.udtTypeScript
        case None => "udtTypeScript" !in v.fields
        case Some(u) =>
          "udtTypeScript" in v.fields
          && v.fields["udtTypeScript"] ==
             Obj(map["codeHash" := Str(u.codeHash), "hashType" := Str(u.hashType), "args" := Str(u.args)]))
    && v.fields - {"invoice", "paymentHash", "network", "hashAlgorithm", "udtTypeScript"} == d.extensions
  }

  ghost predicate DescribesCharge(v: Json, c: Charge) {
    && v.Obj? && Member(v.fields, "amount", Some(c.amount)) && Member(v.fields, "currency", Some(c.currency))
    && Member(v.fields, "recipient", c.recipient) && Member(v.fields, "description", c.description)
    && Member(v.fields, "externalId", c.externalId)
    && "methodDetails" in v.fields && DescribesDetails(v.fields["methodDetails"], c.methodDetails)
    && v.fields - {"amount", "currency", "recipient", "description", "externalId", "methodDetails"} == c.extensions
  }

  /** A positive whole number in decimal. */
  ghost predicate IsPositive(s: string) { exists n: nat :: n > 0 && s == Quantity.Print(n, 10) }

  /** A positive amount, texts that are not empty, a hash of 32 bytes, and one of the known
      networks and algorithms. */
  ghost predicate Chargeable(c: Charge) {
    var d := c.methodDetails;
    && IsPositive(c.amount) && c.currency != "" && d.invoice != ""
    && |d.paymentHash| == 66 && d.paymentHash[..2] == "0x" && Hex.Decode(d.paymentHash[2..]).Some?
    && d.network in {"mainnet", "testnet", "dev"} && d.hashAlgorithm in {"ckb_hash", "sha256"}
  }

  lemma AmountIff(amount: string)
    ensures amount != "" && amount[0] != '0' && (forall i :: 0 <= i < |amount| ==> IsDigit(amount[i]))
            <==> IsPositive(amount)
  {
    hide Quantity.Print, Quantity.Value;
    if amount != "" && amount[0] != '0' && forall i :: 0 <= i < |amount| ==> IsDigit(amount[i]) {
      assert Quantity.Canonical(amount, 10);
      Quantity.PrintValue(amount, 10);
    }
    forall n: nat | n > 0 && amount == Quantity.Print(n, 10)
      ensures amount != "" && amount[0] != '0' && forall i :: 0 <= i < |amount| ==> IsDigit(amount[i])
    {
      Quantity.PrintIsCanonical(n, 10);
      forall i | 0 <= i < |amount| ensures IsDigit(amount[i]) { assert Quantity.DigitValue(amount[i]) < 10; }
    }
  }

  lemma HashIff(hash: string)
    ensures IsHash256(hash) <==> |hash| == 66 && hash[..2] == "0x" && Hex.Decode(hash[2..]).Some?
  {
    hide Hex.Decode;
    if |hash| == 66 {
      var digits := hash[2..];
      if forall i :: 0 <= i < 64 ==> IsHexDigit(digits[i]) { Hex.DigitsDecode(digits); }
      if Hex.Decode(digits).Some? { Hex.DecodedDigits(digits); }
    }
  }

  lemma ValidIff(c: Charge)
    ensures ValidCharge(c) <==> Chargeable(c)
  {
    hide IsHash256, IsPositive, Hex.Decode;
    AmountIff(c.amount);
    HashIff(c.methodDetails.paymentHash);
  }

  lemma DetailsAreDescribed(d: MethodDetails)
    requires d.extensions.Keys !! DETAIL_FIELDS
    ensures DescribesDetails(DetailsToJson(d), d)
  {
    var v := DetailsToJson(d);
    assert v.fields - DETAIL_FIELDS == d.extensions;
  }

  lemma ChargeIsDescribed(c: Charge)
    requires SeparateNames(c)
    ensures DescribesCharge(ChargeToJson(c), c)
  {
    ChargeFields(c);
    ChargeExtensions(c);
    DetailsAreDescribed(c.methodDetails);
    OptionalMembers(c);
    hide ChargeToJson, DetailsToJson, DescribesDetails;
  }

  lemma OptionalMembers(c: Charge)
    requires SeparateNames(c)
    ensures var m := ChargeToJson(c).fields;
      && Member(m, "recipient", c.recipient) && Member(m, "description", c.description)
      && Member(m, "externalId", c.externalId)
  {
    hide DetailsToJson;
  }

  lemma DescribedOnce(v: Json, w: Json, c: Charge)
    requires DescribesCharge(v, c) && DescribesCharge(w, c)
    ensures v == w
  {
    hide DescribesDetails;
    DetailsOnce(v.fields["methodDetails"], w.fields["methodDetails"], c.methodDetails);
    SameSplit(v.fields, w.fields, {"amount", "currency", "recipient", "description", "externalId", "methodDetails"});
  }

  lemma DetailsOnce(v: Json, w: Json, d: MethodDetails)
    requires DescribesDetails(v, d) && DescribesDetails(w, d)
    ensures v == w
  {
    SameSplit(v.fields, w.fields, {"invoice", "paymentHash", "network", "hashAlgorithm", "udtTypeScript"});
  }

  /** A charge has a token exactly when it is chargeable, and then the token is base64url of the canonical
      JSON of the one value that describes the charge. */
  lemma TokenTells(lib: Lib, c: Charge, token: string)
    requires Sound(lib) && SeparateNames(c)
    ensures Encode(lib, c) == Ok(token) <==>
            Chargeable(c) && exists v :: DescribesCharge(v, c) && token == Base64.Encode(lib.jcs(v))
  {
    hide ChargeToJson, DescribesCharge, Chargeable, ValidCharge, SeparateNames, Base64.Encode;
    ValidIff(c);
    ChargeIsDescribed(c);
    forall v | DescribesCharge(v, c) ensures v == ChargeToJson(c) { DescribedOnce(v, ChargeToJson(c), c); }
  }
}
