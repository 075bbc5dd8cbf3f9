/** What a node's invoice record says, member by member, and what the gateway makes of that. */
module InvoiceTerms {
  import opened Wrappers
  import opened Text
  import opened Json
  import opened Wire
  import opened Quantity
  import opened Invoice
  import Molecule

  // ---------------------------------------------------------------- what a record says

  /** The value under these names, one inside the other. */
  function At(v: Json, path: seq<string>): Option<Json>
    decreases |path|
  {
    if path == [] then Some(v)
    else if v.Obj? && path[0] in v.fields then At(v.fields[path[0]], path[1..])
    else None
  }

  predicate IsText(v: Option<Json>, text: string) { v == Some(Str(text)) }

  predicate NoText(v: Option<Json>) { v.None? || !v.value.Str? }

  predicate IsObject(v: Option<Json>) { v.Some? && v.value.Obj? }

  /** Digits of the radix that stand for n, after a sign at most. */
  ghost predicate Numeral(text: string, radix: Radix, n: nat) {
    exists digits :: (text == digits || text == "+" + digits) && digits != "" && DigitsOf(digits, radix)
                     && Value(digits, radix) == n
  }

  /** Decimal, or hexadecimal behind 0x, below 2^128. */
  ghost predicate TextDenotes(text: string, n: nat) {
    && n < 0x1_0000_0000_0000_0000_0000_0000_0000_0000
    && (Numeral(text, 10, n) || (|text| > 2 && text[..2] == "0x" && Numeral(text[2..], 16, n)))
  }

  ghost predicate Denotes(v: Option<Json>, n: nat) {
    v.Some? && ((v.value.Number? && v.value.number == n) || (v.value.Str? && TextDenotes(v.value.text, n)))
  }

  /** The text of the first attribute that holds one under the name. */
  ghost predicate First(attributes: Option<Json>, name: string, text: string) {
    && attributes.Some? && attributes.value.Arr?
    && var items := attributes.value.items;
       exists i :: 0 <= i < |items| && IsText(At(items[i], [name]), text)
                   && forall j :: 0 <= j < i ==> NoText(At(items[j], [name]))
  }

  ghost predicate Absent(attributes: Option<Json>, name: string) {
    attributes.Some? && attributes.value.Arr? ==>
      forall i :: 0 <= i < |attributes.value.items| ==> NoText(At(attributes.value.items[i], [name]))
  }

  /** The terms of an invoice; times are a start in milliseconds since 1970 and a span in seconds. */
  datatype Terms = Terms(address: string, paymentHash: string, amount: nat, currency: string, hashAlgorithm: string,
                         udt: Option<string>, timestamp: nat, seconds: nat)

  ghost predicate Says(record: Json, t: Terms) {
    var invoice, data, attributes := ["invoice"], ["invoice", "data"], At(record, ["invoice", "data", "attrs"]);
    && IsText(At(record, ["invoice_address"]), t.address)
    && IsObject(At(record, invoice)) && IsObject(At(record, data))
    && (|| IsText(At(record, ["invoice", "data", "payment_hash"]), t.paymentHash)
        || (NoText(At(record, ["invoice", "data", "payment_hash"]))
            && IsText(At(record, ["payment_hash"]), t.paymentHash)))
    && Denotes(At(record, ["invoice", "amount"]), t.amount)
    && IsText(At(record, ["invoice", "currency"]), t.currency)
    && (t.hashAlgorithm == "ckb_hash" || t.hashAlgorithm == "sha256")
    && (|| First(attributes, "hash_algorithm", t.hashAlgorithm)
        || (t.hashAlgorithm == "ckb_hash" && Absent(attributes, "hash_algorithm")))
    && (match t.udt
        case None => Absent(attributes, "udt_script")
        case Some(udt) => exists text :: First(attributes, "udt_script", text) && udt == Lower(text))
    && Denotes(At(record, ["invoice", "data", "timestamp"]), t.timestamp)
    && exists text :: First(attributes, "expiry_time", text) && TextDenotes(text, t.seconds)
  }

  /** The instant at which the invoice expires. */
  function Expires(t: Terms): nat { t.timestamp + 1000 * t.seconds }

  /** chrono's last instant, at the end of the year 262142. */
  predicate IsInstant(millis: nat) { millis <= 8210266876799999 }

  predicate Runs(currency: string, network: string) {
    (Lower(currency), network) in {("fibb", "mainnet"), ("fibt", "testnet"), ("fibd", "dev")}
  }

  // ---------------------------------------------------------------- the reading functions

  lemma ParseIff(s: string, radix: Radix, n: nat)
    ensures ParseU128(s, radix) == Some(n)
            <==> n < 0x1_0000_0000_0000_0000_0000_0000_0000_0000 && Numeral(s, radix, n)
  {
    if ParseU128(s, radix) == Some(n) {
      var digits := if StartsWith(s, "+") then s[1..] else s;
      assert s == digits || s == "+" + digits;
    }
    if Numeral(s, radix, n) {
      var digits :| (s == digits || s == "+" + digits) && digits != "" && DigitsOf(digits, radix)
                    && Value(digits, radix) == n;
      assert DigitValue(digits[0]) < radix;
      if s == "+" + digits { assert s[1..] == digits; }
    }
  }

  lemma ParseTextIff(text: string, n: nat)
    ensures ParseRpcText(text) == Some(n) <==> TextDenotes(text, n)
  {
    hide ParseU128, Value;
    ParseIff(text, 10, n);
    if StartsWith(text, "0x") {
      ParseIff(text[2..], 16, n);
      if Numeral(text, 10, n) {
        var digits :| (text == digits || text == "+" + digits) && digits != "" && DigitsOf(digits, 10)
                      && Value(digits, 10) == n;
        assert text[1] == 'x' && text[1] in digits;
      }
      if |text| == 2 { assert text[2..] == ""; }
    }
  }

  lemma QuantityIff(v: Json, field: string, n: nat)
    ensures QuantityField(v, field) == Some(n) <==> Denotes(At(v, [field]), n)
  {
    hide ParseRpcText, TextDenotes;
    assert [field][1..] == [];
    match Get(v, field)
    case Some(Str(text)) => ParseTextIff(text, n);
    case _ =>
  }

  lemma TextIff(v: Json, name: string, text: string)
    ensures GetStr(v, name) == Some(text) <==> IsText(At(v, [name]), text)
    ensures GetStr(v, name).None? <==> NoText(At(v, [name]))
  {
    assert [name][1..] == [];
  }

  lemma {:induction false} FindIff(items: seq<Json>, name: string, text: string)
    ensures FindAttribute(items, name) == Some(text) <==> First(Some(Arr(items)), name, text)
    ensures FindAttribute(items, name).None? <==> Absent(Some(Arr(items)), name)
  {
    hide At;
    if items != [] {
      TextIff(items[0], name, text);
      FindIff(items[1..], name, text);
      forall i | 1 <= i < |items| ensures items[i] == items[1..][i - 1] {}
      FirstSteps(items, name, text);
    }
  }

  lemma FirstSteps(items: seq<Json>, name: string, text: string)
    requires items != []
    ensures First(Some(Arr(items)), name, text) <==>
            IsText(At(items[0], [name]), text)
            || (NoText(At(items[0], [name])) && First(Some(Arr(items[1..])), name, text))
  {
    hide At;
    var rest := items[1..];
    if First(Some(Arr(items)), name, text) {
      var i :| 0 <= i < |items| && IsText(At(items[i], [name]), text)
               && forall j :: 0 <= j < i ==> NoText(At(items[j], [name]));
      if i > 0 {
        assert IsText(At(rest[i - 1], [name]), text);
        assert forall j :: 0 <= j < i - 1 ==> rest[j] == items[j + 1];
      }
    }
    if NoText(At(items[0], [name])) && First(Some(Arr(rest)), name, text) {
      var i :| 0 <= i < |rest| && IsText(At(rest[i], [name]), text)
               && forall j :: 0 <= j < i ==> NoText(At(rest[j], [name]));
      assert IsText(At(items[i + 1], [name]), text);
      forall j | 0 <= j < i + 1 ensures NoText(At(items[j], [name])) {
        if j > 0 { assert items[j] == rest[j - 1]; }
      }
    }
  }

  // ---------------------------------------------------------------- the record as a whole

  lemma AtStep(v: Json, name: string, rest: seq<string>)
    ensures At(v, [name] + rest) == match Get(v, name) case None => None case Some(inner) => At(inner, rest)
  {
    assert ([name] + rest)[1..] == rest;
  }

  /** The paths of a record, in terms of its nested values. */
  lemma Paths(record: Json, name: string)
    ensures At(record, ["invoice"]) == Get(record, "invoice")
    ensures At(record, ["invoice", name]) == match Get(record, "invoice") case None => None case Some(v) => Get(v, name)
    ensures At(record, ["invoice", "data", name]) ==
            match At(record, ["invoice", "data"]) case None => None case Some(v) => Get(v, name)
  {
    assert ["invoice", name] == ["invoice"] + [name] && ["invoice", "data", name] == ["invoice"] + ["data", name]
        && ["data", name] == ["data"] + [name] && ["invoice", "data"] == ["invoice"] + ["data"];
    AtStep(record, "invoice", []);
    AtStep(record, "invoice", [name]);
    AtStep(record, "invoice", ["data"]);
    AtStep(record, "invoice", ["data", name]);
    match Get(record, "invoice")
    case None =>
    case Some(v) =>
      AtStep(v, name, []);
      AtStep(v, "data", []);
      AtStep(v, "data", [name]);
      if Get(v, "data").Some? { AtStep(Get(v, "data").value, name, []); }
  }

  lemma HashIff(record: Json, hash: string)
    ensures PaymentHashOf(record) == Some(hash) <==>
      || IsText(At(record, ["invoice", "data", "payment_hash"]), hash)
      || (NoText(At(record, ["invoice", "data", "payment_hash"])) && IsText(At(record, ["payment_hash"]), hash))
  {
    Paths(record, "payment_hash");
    Paths(record, "data");
    TextIff(record, "payment_hash", hash);
    hide At;
  }

  lemma AttributeIff(record: Json, name: string, text: string)
    ensures var attributes := At(record, ["invoice", "data", "attrs"]);
      && (Attribute(record, name) == Some(text) <==> First(attributes, name, text))
      && (Attribute(record, name).None? <==> Absent(attributes, name))
  {
    Paths(record, "attrs");
    Paths(record, "data");
    hide At, First, Absent;
    match At(record, ["invoice", "data", "attrs"])
    case Some(Arr(items)) => FindIff(items, name, text);
    case _ => NoArray(At(record, ["invoice", "data", "attrs"]), name, text);
  }

  lemma NoArray(attributes: Option<Json>, name: string, text: string)
    requires attributes.Some? ==> !attributes.value.Arr?
    ensures !First(attributes, name, text) && Absent(attributes, name)
  {}

  lemma AmountIff(record: Json, amount: nat)
    requires IsObject(At(record, ["invoice"]))
    ensures AmountOf(record) == Some(amount) <==> Denotes(At(record, ["invoice", "amount"]), amount)
  {
    Paths(record, "amount");
    QuantityIff(Get(record, "invoice").value, "amount", amount);
    AtStep(Get(record, "invoice").value, "amount", []);
    hide At, Denotes, QuantityField;
  }

  lemma CurrencyIff(record: Json, currency: string)
    requires IsObject(At(record, ["invoice"]))
    ensures CurrencyOf(record) == Some(currency) <==> IsText(At(record, ["invoice", "currency"]), currency)
  {
    Paths(record, "currency");
    hide At;
  }

  lemma AlgorithmIff(record: Json, algorithm: string)
    ensures HashAlgorithmOf(record) == Some(algorithm) <==>
      && (algorithm == "ckb_hash" || algorithm == "sha256")
      && (|| First(At(record, ["invoice", "data", "attrs"]), "hash_algorithm", algorithm)
          || (algorithm == "ckb_hash" && Absent(At(record, ["invoice", "data", "attrs"]), "hash_algorithm")))
  {
    AttributeIff(record, "hash_algorithm", algorithm);
    hide Attribute, First, Absent, At;
  }

  lemma UdtIff(record: Json, udt: Option<string>)
    ensures var attributes := At(record, ["invoice", "data", "attrs"]);
      UdtOf(record) == udt <==>
      match udt
      case None => Absent(attributes, "udt_script")
      case Some(u) => exists text :: First(attributes, "udt_script", text) && u == Lower(text)
  {
    forall text
      ensures Attribute(record, "udt_script") == Some(text)
              <==> First(At(record, ["invoice", "data", "attrs"]), "udt_script", text)
    {
      AttributeIff(record, "udt_script", text);
    }
    AttributeIff(record, "udt_script", "");
    hide Attribute, First, Absent, At;
  }

  /** The record states these times, in a data object. */
  ghost predicate Times(record: Json, timestamp: nat, seconds: nat) {
    && IsObject(At(record, ["invoice", "data"]))
    && Denotes(At(record, ["invoice", "data", "timestamp"]), timestamp)
    && exists text :: First(At(record, ["invoice", "data", "attrs"]), "expiry_time", text) && TextDenotes(text, seconds)
  }

  lemma TimesIff(record: Json, timestamp: nat, seconds: nat)
    requires IsObject(At(record, ["invoice"]))
    ensures Times(record, timestamp, seconds) <==>
      && IsObject(At(record, ["invoice", "data"]))
      && QuantityField(At(record, ["invoice", "data"]).value, "timestamp") == Some(timestamp)
      && Attribute(record, "expiry_time").Some?
      && ParseRpcText(Attribute(record, "expiry_time").value) == Some(seconds)
  {
    Paths(record, "timestamp");
    if IsObject(At(record, ["invoice", "data"])) {
      var data := At(record, ["invoice", "data"]).value;
      QuantityIff(data, "timestamp", timestamp);
      AtStep(data, "timestamp", []);
    }
    forall text
      ensures Attribute(record, "expiry_time") == Some(text)
              <==> First(At(record, ["invoice", "data", "attrs"]), "expiry_time", text)
    {
      AttributeIff(record, "expiry_time", text);
    }
    if Attribute(record, "expiry_time").Some? { ParseTextIff(Attribute(record, "expiry_time").value, seconds); }
    hide Attribute, First, At, TextDenotes, Denotes, QuantityField;
  }

  /** The expiry is the start plus the span, in milliseconds, where chrono can name that instant. */
  lemma ExpiryIff(record: Json, millis: nat)
    requires IsObject(At(record, ["invoice"]))
    ensures ExpiryOf(record) == Some(millis) <==>
      IsInstant(millis) && exists timestamp: nat, seconds: nat ::
        Times(record, timestamp, seconds) && millis == timestamp + 1000 * seconds
  {
    Paths(record, "data");
    forall timestamp: nat, seconds: nat
      ensures Times(record, timestamp, seconds) <==>
        && IsObject(At(record, ["invoice", "data"]))
        && QuantityField(At(record, ["invoice", "data"]).value, "timestamp") == Some(timestamp)
        && Attribute(record, "expiry_time").Some?
        && ParseRpcText(Attribute(record, "expiry_time").value) == Some(seconds)
    {
      TimesIff(record, timestamp, seconds);
    }
    hide Attribute, At, QuantityField, ParseRpcText, Times;
    if ExpiryOf(record) == Some(millis) {
      var timestamp := QuantityField(At(record, ["invoice", "data"]).value, "timestamp").value;
      var seconds := ParseRpcText(Attribute(record, "expiry_time").value).value;
      assert Times(record, timestamp, seconds) && millis == timestamp + 1000 * seconds;
    }
  }

  lemma SaysIff(record: Json, t: Terms)
    ensures Says(record, t) <==>
      && GetStr(record, "invoice_address") == Some(t.address) && PaymentHashOf(record) == Some(t.paymentHash)
      && GetObj(record, "invoice").Some?
      && AmountOf(record) == Some(t.amount) && CurrencyOf(record) == Some(t.currency)
      && HashAlgorithmOf(record) == Some(t.hashAlgorithm) && UdtOf(record) == t.udt
      && Times(record, t.timestamp, t.seconds)
  {
    TextIff(record, "invoice_address", t.address);
    HashIff(record, t.paymentHash);
    Paths(record, "");
    AlgorithmIff(record, t.hashAlgorithm);
    UdtIff(record, t.udt);
    if IsObject(At(record, ["invoice"])) {
      AmountIff(record, t.amount);
      CurrencyIff(record, t.currency);
    }
    hide At, First, Absent, Denotes, TextDenotes, PaymentHashOf, AmountOf, CurrencyOf, HashAlgorithmOf, UdtOf;
  }

  /** The expiry of a record that says these terms. */
  lemma SaidExpiry(record: Json, t: Terms)
    requires Says(record, t)
    ensures ExpiryOf(record) == if IsInstant(Expires(t)) then Some(Expires(t)) else None
  {
    SaysIff(record, t);
    Paths(record, "");
    hide Says, At, ExpiryOf;
    ExpiryIff(record, Expires(t));
    if ExpiryOf(record).Some? {
      ExpiryIff(record, ExpiryOf(record).value);
      var timestamp: nat, seconds: nat :|
        Times(record, timestamp, seconds) && ExpiryOf(record).value == timestamp + 1000 * seconds;
      TimesIff(record, timestamp, seconds);
      TimesIff(record, t.timestamp, t.seconds);
    }
  }

  /** A record with an expiry and the other terms says terms. */
  lemma SaidTerms(record: Json) returns (t: Terms)
    requires GetStr(record, "invoice_address").Some? && PaymentHashOf(record).Some? && GetObj(record, "invoice").Some?
    requires AmountOf(record).Some? && CurrencyOf(record).Some? && HashAlgorithmOf(record).Some?
    requires ExpiryOf(record).Some?
    ensures Says(record, t)
  {
    Paths(record, "");
    hide Says, At, ExpiryOf, PaymentHashOf, AmountOf, CurrencyOf, HashAlgorithmOf, UdtOf, Times;
    ExpiryIff(record, ExpiryOf(record).value);
    var timestamp: nat, seconds: nat :|
      Times(record, timestamp, seconds) && ExpiryOf(record).value == timestamp + 1000 * seconds;
    t := Terms(GetStr(record, "invoice_address").value, PaymentHashOf(record).value, AmountOf(record).value,
               CurrencyOf(record).value, HashAlgorithmOf(record).value, UdtOf(record), timestamp, seconds);
    SaysIff(record, t);
  }

  // ---------------------------------------------------------------- at issue

  /** The terms that create_charge asks for, of an invoice that has not expired. */
  predicate Fits(node: Node, input: ChargeInput, t: Terms, now: int) {
    && input.amount == Print(t.amount, 10)
    && Lower(t.currency) == Lower(node.invoiceCurrency) && Runs(t.currency, node.network)
    && t.hashAlgorithm == node.hashAlgorithm && t.udt.None?
    && now < Expires(t) && IsInstant(Expires(t))
  }

  /** The charge for such an invoice. */
  function ChargeFor(lib: Lib, node: Node, input: ChargeInput, t: Terms): Charge {
    Charge(input.amount, input.currency, node.nodeId, input.description, input.externalId,
           MethodDetails(t.address, t.paymentHash, node.network, node.hashAlgorithm, None,
                         map["invoiceCurrency" := Str(node.invoiceCurrency),
                             "invoiceExpiresAt" := Str(lib.printTime(Expires(t)))]),
           map[])
  }

  lemma NetworkIff(currency: string, network: string)
    ensures NetworkOf(currency) == Some(network) <==> Runs(currency, network)
  {}

  lemma PrintedAmountIsSent(amount: nat)
    requires amount < 0x1_0000_0000_0000_0000_0000_0000_0000_0000
    ensures ToHexQuantity(Print(amount, 10)).Some?
  {
    PrintIsCanonical(amount, 10);
    AmountRoundTrip(Print(amount, 10));
  }

  lemma SmallAmount(record: Json, amount: nat)
    requires AmountOf(record) == Some(amount)
    ensures amount < 0x1_0000_0000_0000_0000_0000_0000_0000_0000
  {}

  /** What create_charge expects of the answer: its own address and hash, and the node's terms. */
  function Asked(node: Node, input: ChargeInput, t: Terms): Expected {
    Expected(t.address, t.paymentHash, input.amount, node.invoiceCurrency, node.network, node.hashAlgorithm, None, None)
  }

  lemma ValidAtIssueIff(lib: Lib, record: Json, want: Expected, now: int)
    requires want.bound.None? && want.udt.None?
    ensures Validate(lib, record, want, Some(now)).Ok? <==>
      && GetStr(record, "invoice_address") == Some(want.address)
      && PaymentHashOf(record).Some? && EqIgnoreAsciiCase(PaymentHashOf(record).value, want.paymentHash)
      && GetObj(record, "invoice").Some?
      && AmountOf(record).Some? && Print(AmountOf(record).value, 10) == want.amount
      && CurrencyOf(record).Some? && EqIgnoreAsciiCase(CurrencyOf(record).value, want.currency)
      && NetworkOf(CurrencyOf(record).value) == Some(want.network)
      && HashAlgorithmOf(record) == Some(want.hashAlgorithm) && UdtOf(record).None?
      && ExpiryOf(record).Some? && now < ExpiryOf(record).value
    ensures Validate(lib, record, want, Some(now)).Ok? ==>
              Validate(lib, record, want, Some(now)).value == Metadata(lib.printTime(ExpiryOf(record).value), None)
  {
    hide EqIgnoreAsciiCase, ExpiryOf, PaymentHashOf, AmountOf, CurrencyOf, HashAlgorithmOf, UdtOf, GetStr, GetObj,
      Print, NetworkOf, Molecule.Serialize;
  }

  lemma FittingIsValid(lib: Lib, node: Node, input: ChargeInput, reply: Json, now: int, t: Terms)
    requires Says(reply, t)
    ensures Validate(lib, reply, Asked(node, input, t), Some(now)) == Ok(Metadata(lib.printTime(Expires(t)), None))
            <==> Fits(node, input, t, now)
    ensures Validate(lib, reply, Asked(node, input, t), Some(now)).Ok? ==> Fits(node, input, t, now)
  {
    SaysIff(reply, t);
    SaidExpiry(reply, t);
    NetworkIff(t.currency, node.network);
    ValidAtIssueIff(lib, reply, Asked(node, input, t), now);
    hide Says, Validate, ExpiryOf, PaymentHashOf, AmountOf, CurrencyOf, HashAlgorithmOf, UdtOf, Times, GetStr, GetObj,
      Print, NetworkOf, Runs, Expires, Lower;
  }

  lemma FittingIsCharged(lib: Lib, node: Node, input: ChargeInput, reply: Json, now: int, t: Terms)
    requires Says(reply, t)
    ensures CreateCharge(lib, node, input, reply, now) == Ok(ChargeFor(lib, node, input, t))
            <==> Fits(node, input, t, now)
    ensures CreateCharge(lib, node, input, reply, now).Ok? ==> Fits(node, input, t, now)
  {
    SaysIff(reply, t);
    SmallAmount(reply, t.amount);
    PrintedAmountIsSent(t.amount);
    FittingIsValid(lib, node, input, reply, now, t);
    FitsAmount(node, input, t, now);
    hide Says, Validate, PaymentHashOf, Times, GetStr, ToHexQuantity, Fits, Expires;
  }

  lemma FitsAmount(node: Node, input: ChargeInput, t: Terms, now: int)
    ensures Fits(node, input, t, now) ==> input.amount == Print(t.amount, 10)
  {}

  /** The node's answer becomes a charge exactly when it says terms that fit, and then the charge is the
      one for those terms, bound to the instant at which the invoice expires. */
  lemma ChargedIff(lib: Lib, node: Node, input: ChargeInput, reply: Json, now: int, charge: Charge)
    ensures CreateCharge(lib, node, input, reply, now) == Ok(charge) <==>
            exists t :: Says(reply, t) && Fits(node, input, t, now) && charge == ChargeFor(lib, node, input, t)
  {
    hide Says, Fits, ChargeFor, CreateCharge;
    if CreateCharge(lib, node, input, reply, now) == Ok(charge) {
      ChargedSays(lib, node, input, reply, now);
      var t := SaidTerms(reply);
      FittingIsCharged(lib, node, input, reply, now, t);
    }
    forall t | Says(reply, t) && Fits(node, input, t, now)
      ensures CreateCharge(lib, node, input, reply, now) == Ok(ChargeFor(lib, node, input, t))
    {
      FittingIsCharged(lib, node, input, reply, now, t);
    }
  }

  lemma ChargedSays(lib: Lib, node: Node, input: ChargeInput, reply: Json, now: int)
    requires CreateCharge(lib, node, input, reply, now).Ok?
    ensures GetStr(reply, "invoice_address").Some? && PaymentHashOf(reply).Some? && GetObj(reply, "invoice").Some?
    ensures AmountOf(reply).Some? && CurrencyOf(reply).Some? && HashAlgorithmOf(reply).Some? && ExpiryOf(reply).Some?
  {
    hide ExpiryOf, PaymentHashOf, AmountOf, CurrencyOf, HashAlgorithmOf, UdtOf, GetStr, GetObj, Print, ToHexQuantity,
      NetworkOf;
  }

  // ---------------------------------------------------------------- at redemption

  /** Terms that settle a charge: its own invoice, hash, amount, network, algorithm and script, in the
      currency of the node, and the expiry bound at issue. */
  ghost predicate Settles(lib: Lib, node: Node, charge: Charge, t: Terms) {
    var d := charge.methodDetails;
    var bound := Obj(d.extensions);
    && t.address == d.invoice && Lower(t.paymentHash) == Lower(d.paymentHash)
    && Print(t.amount, 10) == charge.amount
    && GetStr(bound, "invoiceCurrency") == Some(node.invoiceCurrency)
    && Lower(t.currency) == Lower(node.invoiceCurrency) && Runs(t.currency, d.network)
    && t.hashAlgorithm == d.hashAlgorithm
    && (match d.udtTypeScript
        case None => t.udt.None?
        case Some(script) => t.udt.Some? && t.udt == Molecule.Serialize(script))
    && (match GetStr(bound, "invoiceUdtScript") case None => t.udt.None? case Some(s) => t.udt == Some(Lower(s)))
    && IsInstant(Expires(t)) && GetStr(bound, "invoiceExpiresAt") == Some(lib.printTime(Expires(t)))
  }

  lemma TermsSettle(lib: Lib, node: Node, charge: Charge, record: Json, t: Terms)
    requires Says(record, t)
    ensures PaidTerms(lib, node, charge, record) <==> Settles(lib, node, charge, t)
  {
    hide Says, At, ExpiryOf, PaymentHashOf, AmountOf, CurrencyOf, HashAlgorithmOf, UdtOf, Times, GetStr, GetObj, Print,
      NetworkOf, Runs, Expires, Molecule.Serialize, Lower;
    SaysIff(record, t);
    SaidExpiry(record, t);
    NetworkIff(t.currency, charge.methodDetails.network);
    OneNetwork(t.currency, node.invoiceCurrency);
  }

  lemma PaidSays(lib: Lib, node: Node, charge: Charge, record: Json)
    requires PaidTerms(lib, node, charge, record)
    ensures GetStr(record, "invoice_address").Some? && PaymentHashOf(record).Some? && GetObj(record, "invoice").Some?
    ensures AmountOf(record).Some? && CurrencyOf(record).Some? && HashAlgorithmOf(record).Some?
    ensures ExpiryOf(record).Some?
  {
    hide ExpiryOf, PaymentHashOf, AmountOf, CurrencyOf, HashAlgorithmOf, UdtOf, GetStr, GetObj, Print, NetworkOf,
      Molecule.Serialize;
  }

  /** The node's record pays for a charge exactly when it says terms that settle it. */
  lemma PaidIff(lib: Lib, node: Node, charge: Charge, paymentHash: string, record: Json)
    ensures VerifyPaid(lib, node, charge, paymentHash, record).Ok? <==>
      paymentHash == charge.methodDetails.paymentHash
      && exists t :: Says(record, t) && Settles(lib, node, charge, t)
  {
    VerifyPaidIffTerms(lib, node, charge, paymentHash, record);
    hide Says, Settles, VerifyPaid, PaidTerms;
    if PaidTerms(lib, node, charge, record) {
      PaidSays(lib, node, charge, record);
      var t := SaidTerms(record);
      TermsSettle(lib, node, charge, record, t);
    }
    forall t | Says(record, t) && Settles(lib, node, charge, t) ensures PaidTerms(lib, node, charge, record) {
      TermsSettle(lib, node, charge, record, t);
    }
  }

  /** The check fails for the node's fault when all that precedes the payment hash is right and the record
      names no payment hash. */
  lemma NodeFaultIff(lib: Lib, node: Node, charge: Charge, paymentHash: string, record: Json)
    ensures var d := charge.methodDetails;
      var verdict := VerifyPaid(lib, node, charge, paymentHash, record);
      verdict.Err? && verdict.error.Fiber? <==>
        && paymentHash == d.paymentHash
        && GetStr(Obj(d.extensions), "invoiceCurrency") == Some(node.invoiceCurrency)
        && GetStr(Obj(d.extensions), "invoiceExpiresAt").Some? && IsText(At(record, ["invoice_address"]), d.invoice)
        && NoText(At(record, ["invoice", "data", "payment_hash"])) && NoText(At(record, ["payment_hash"]))
  {
    TextIff(record, "invoice_address", charge.methodDetails.invoice);
    NoHash(record);
    hide At, PaymentHashOf, AmountOf, CurrencyOf, HashAlgorithmOf, UdtOf, ExpiryOf, GetStr, GetObj, Print, NetworkOf,
      Molecule.Serialize;
  }

  lemma NoHash(record: Json)
    ensures PaymentHashOf(record).None? <==>
            NoText(At(record, ["invoice", "data", "payment_hash"])) && NoText(At(record, ["payment_hash"]))
  {
    hide At;
    var inner, outer := At(record, ["invoice", "data", "payment_hash"]), At(record, ["payment_hash"]);
    if PaymentHashOf(record).Some? { HashIff(record, PaymentHashOf(record).value); }
    if !NoText(inner) { HashIff(record, inner.value.text); }
    if !NoText(outer) { HashIff(record, outer.value.text); }
  }

  /** The terms of one invoice, as two records may spell them. */
  predicate SameTerms(t: Terms, u: Terms) {
    && t.address == u.address && Lower(t.paymentHash) == Lower(u.paymentHash) && t.amount == u.amount
    && Lower(t.currency) == Lower(u.currency) && t.hashAlgorithm == u.hashAlgorithm && t.udt == u.udt
    && t.timestamp + 1000 * t.seconds == u.timestamp + 1000 * u.seconds
  }

  /** A record pays for what was charged for an invoice exactly when it says that invoice's terms. */
  lemma PaidIffSameTerms(lib: Lib, node: Node, input: ChargeInput, t: Terms, now: int, record: Json)
    requires Sound(lib) && Fits(node, input, t, now)
    ensures VerifyPaid(lib, node, ChargeFor(lib, node, input, t), t.paymentHash, record).Ok? <==>
            exists u :: Says(record, u) && SameTerms(t, u)
  {
    var charge := ChargeFor(lib, node, input, t);
    PaidIff(lib, node, charge, t.paymentHash, record);
    hide Says, VerifyPaid, Settles, SameTerms;
    forall u | Says(record, u) ensures Settles(lib, node, charge, u) <==> SameTerms(t, u) {
      SettlesIffSame(lib, node, input, t, now, u);
    }
  }

  lemma SettlesIffSame(lib: Lib, node: Node, input: ChargeInput, t: Terms, now: int, u: Terms)
    requires Sound(lib) && Fits(node, input, t, now)
    ensures Settles(lib, node, ChargeFor(lib, node, input, t), u) <==> SameTerms(t, u)
  {
    hide Print;
    PrintIsCanonical(t.amount, 10);
    PrintIsCanonical(u.amount, 10);
  }
}
