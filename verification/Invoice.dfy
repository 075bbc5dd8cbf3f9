/** Fiber invoices: what create_charge accepts at issue and verify_paid at redemption. */
module Invoice {
  import opened Wrappers
  import opened Text
  import opened Json
  import opened Wire
  import opened Quantity
  import Molecule

  /** ServerError::Payment and ServerError::Fiber, the two kinds these checks raise. */
  datatype PayError = Payment(code: string) | Fiber(code: string)

  /** Bound and configured terms that an invoice record is compared with. */
  datatype Expected = Expected(
    address: string,
    paymentHash: string,
    amount: string,
    currency: string,
    network: string,
    hashAlgorithm: string,
    udt: Option<UdtTypeScript>,
    bound: Option<(string, Option<string>)>)

  datatype Metadata = Metadata(expiresAt: string, udtScript: Option<string>)

  /** The last millisecond chrono can represent. */
  const MAX_MILLIS: int := 8210266876799999

  /** extract_invoice_payment_hash: invoice.data.payment_hash, else the top-level payment_hash. */
  function PaymentHashOf(record: Json): Option<string> {
    var inner :=
      match Get(record, "invoice")
      case None => None
      case Some(invoice) =>
        match Get(invoice, "data")
        case None => None
        case Some(data) => GetStr(data, "payment_hash");
    if inner.Some? then inner else GetStr(record, "payment_hash")
  }

  /** parse_rpc_quantity */
  function RpcQuantity(v: Json): Option<nat> {
    match v
    case Number(_) => AsU64(v)
    case Str(s) => ParseRpcText(s)
    case _ => None
  }

  function QuantityField(v: Json, field: string): Option<nat> {
    match Get(v, field)
    case None => None
    case Some(q) => RpcQuantity(q)
  }

  function FindAttribute(attrs: seq<Json>, name: string): Option<string> {
    if attrs == [] then None
    else if GetStr(attrs[0], name).Some? then GetStr(attrs[0], name)
    else FindAttribute(attrs[1..], name)
  }

  /** invoice_attribute: the first attribute object that holds a string under the name. */
  function Attribute(record: Json, name: string): Option<string> {
    match Get(record, "invoice")
    case None => None
    case Some(invoice) =>
      match Get(invoice, "data")
      case None => None
      case Some(data) =>
        match Get(data, "attrs")
        case Some(Arr(items)) => FindAttribute(items, name)
        case _ => None
  }

  function HashAlgorithmOf(record: Json): Option<string> {
    match Attribute(record, "hash_algorithm")
    case None => Some("ckb_hash")
    case Some(s) => if IsHashAlgorithm(s) then Some(s) else None
  }

  function NetworkOf(currency: string): Option<string> {
    var name := Lower(currency);
    if name == "fibb" then Some("mainnet")
    else if name == "fibt" then Some("testnet")
    else if name == "fibd" then Some("dev")
    else None
  }

  function LowerOption(s: Option<string>): Option<string> {
    match s case None => None case Some(t) => Some(Lower(t))
  }

  function UdtOf(record: Json): Option<string> { LowerOption(Attribute(record, "udt_script")) }

  function AmountOf(record: Json): Option<nat> {
    match GetObj(record, "invoice")
    case None => None
    case Some(invoice) => QuantityField(invoice, "amount")
  }

  function CurrencyOf(record: Json): Option<string> {
    match GetObj(record, "invoice")
    case None => None
    case Some(invoice) => GetStr(invoice, "currency")
  }

  /** The expiry instant: timestamp + expiry_time * 1000 in checked u128 arithmetic, within i64 and
      chrono's range. */
  function ExpiryOf(record: Json): Option<nat> {
    match GetObj(record, "invoice")
    case None => None
    case Some(invoice) =>
      match GetObj(invoice, "data")
      case None => None
      case Some(data) =>
        match (QuantityField(data, "timestamp"), Attribute(record, "expiry_time"))
        case (Some(timestamp), Some(text)) =>
          (match ParseRpcText(text)
           case None => None
           case Some(seconds) =>
             if seconds * 1000 >= U128_LIMIT || timestamp + seconds * 1000 >= U128_LIMIT then None
             else if timestamp + seconds * 1000 >= 0x8000_0000_0000_0000 then None
             else if timestamp + seconds * 1000 > MAX_MILLIS then None
             else Some(timestamp + seconds * 1000))
        case _ => None
  }

  /** validate_invoice_record; at is the clock when an unexpired invoice is required. */
  function Validate(lib: Lib, record: Json, want: Expected, at: Option<int>): Result<Metadata, PayError> {
    if GetStr(record, "invoice_address") != Some(want.address) then Err(Payment("wrong-invoice"))
    else if PaymentHashOf(record).None? then Err(Fiber("missing payment hash"))
    else if !EqIgnoreAsciiCase(PaymentHashOf(record).value, want.paymentHash) then Err(Payment("wrong-payment-hash"))
    else if GetObj(record, "invoice").None? then Err(Payment("missing-invoice"))
    else if AmountOf(record).None? || Print(AmountOf(record).value, 10) != want.amount then Err(Payment("wrong-amount"))
    else if CurrencyOf(record).None? || !EqIgnoreAsciiCase(CurrencyOf(record).value, want.currency) then
      Err(Payment("wrong-currency"))
    else if NetworkOf(CurrencyOf(record).value) != Some(want.network) then Err(Payment("wrong-network"))
    else if HashAlgorithmOf(record) != Some(want.hashAlgorithm) then Err(Payment("wrong-hash-algorithm"))
    else if want.udt.Some? && Molecule.Serialize(want.udt.value).None? then Err(Payment("wrong-udt"))
    else if UdtOf(record) != (if want.udt.None? then None else Molecule.Serialize(want.udt.value)) then
      Err(Payment("wrong-udt"))
    else if ExpiryOf(record).None? then Err(Payment("wrong-expiry"))
    else if at.Some? && ExpiryOf(record).value <= at.value then Err(Payment("expired-challenge"))
    else if want.bound.Some? && lib.printTime(ExpiryOf(record).value) != want.bound.value.0 then
      Err(Payment("wrong-expiry"))
    else if want.bound.Some? && UdtOf(record) != LowerOption(want.bound.value.1) then Err(Payment("wrong-udt"))
    else Ok(Metadata(lib.printTime(ExpiryOf(record).value), UdtOf(record)))
  }

  /** The fields of RpcGatewayFiber that matter here. */
  datatype Node = Node(network: string, invoiceCurrency: string, nodeId: Option<string>, hashAlgorithm: string)

  datatype ChargeInput = ChargeInput(
    amount: string, currency: string, description: Option<string>, externalId: Option<string>)

  /** What a charge binds beyond the fields of its record. */
  function Extensions(node: Node, metadata: Metadata): map<string, Json> {
    WithOptional(map["invoiceCurrency" := Str(node.invoiceCurrency), "invoiceExpiresAt" := Str(metadata.expiresAt)],
                 "invoiceUdtScript", metadata.udtScript)
  }

  /** create_charge, given the node's reply to new_invoice; the request itself fails when the amount
      is no u128. */
  function CreateCharge(lib: Lib, node: Node, input: ChargeInput, reply: Json, now: int): Result<Charge, PayError> {
    if ToHexQuantity(input.amount).None? then Err(Fiber("invalid decimal quantity"))
    else if GetStr(reply, "invoice_address").None? then Err(Fiber("missing invoice_address"))
    else if PaymentHashOf(reply).None? then Err(Fiber("missing payment hash"))
    else
      var address, hash := GetStr(reply, "invoice_address").value, PaymentHashOf(reply).value;
      match Validate(lib, reply, Expected(address, hash, input.amount, node.invoiceCurrency, node.network,
                                          node.hashAlgorithm, None, None), Some(now))
      case Err(e) => Err(e)
      case Ok(metadata) =>
        Ok(Charge(input.amount, input.currency, node.nodeId, input.description, input.externalId,
                  MethodDetails(address, hash, node.network, node.hashAlgorithm, None, Extensions(node, metadata)),
                  map[]))
  }

  /** What verify_paid requires of the record that the node reports as paid. */
  function VerifyPaid(lib: Lib, node: Node, charge: Charge, paymentHash: string, record: Json)
    : Result<Metadata, PayError>
  {
    var bound := Obj(charge.methodDetails.extensions);
    if paymentHash != charge.methodDetails.paymentHash then Err(Payment("wrong-payment-hash"))
    else if GetStr(bound, "invoiceCurrency").None? then Err(Payment("missing-invoice-currency-binding"))
    else if GetStr(bound, "invoiceCurrency").value != node.invoiceCurrency then Err(Payment("wrong-currency"))
    else if GetStr(bound, "invoiceExpiresAt").None? then Err(Payment("missing-invoice-expiry-binding"))
    else Validate(lib, record, Bound(charge), None)
  }

  function Bound(charge: Charge): Expected {
    var d := charge.methodDetails;
    var bound := Obj(d.extensions);
    Expected(d.invoice, d.paymentHash, charge.amount,
             if GetStr(bound, "invoiceCurrency").Some? then GetStr(bound, "invoiceCurrency").value else "",
             d.network, d.hashAlgorithm, d.udtTypeScript,
             Some((if GetStr(bound, "invoiceExpiresAt").Some? then GetStr(bound, "invoiceExpiresAt").value else "",
                   GetStr(bound, "invoiceUdtScript"))))
  }

  /** The node's later record of an invoice: the same, with a status. */
  function WithStatus(record: Json, status: string): Json {
    if record.Obj? then Obj(record.fields["status" := Str(status)]) else record
  }

  lemma StatusKeepsFields(record: Json, status: string, field: string)
    requires field != "status"
    ensures Get(WithStatus(record, status), field) == Get(record, field)
  {}

  lemma StatusKeepsInvoice(record: Json, status: string, name: string)
    ensures var later := WithStatus(record, status);
      && GetStr(later, "invoice_address") == GetStr(record, "invoice_address")
      && GetObj(later, "invoice") == GetObj(record, "invoice")
      && PaymentHashOf(later) == PaymentHashOf(record)
      && Attribute(later, name) == Attribute(record, name)
  {
    hide WithStatus, FindAttribute;
    StatusKeepsFields(record, status, "invoice");
    StatusKeepsFields(record, status, "invoice_address");
    StatusKeepsFields(record, status, "payment_hash");
  }

  lemma StatusIsIgnored(lib: Lib, record: Json, status: string, want: Expected, at: Option<int>)
    ensures Validate(lib, WithStatus(record, status), want, at) == Validate(lib, record, want, at)
  {
    hide WithStatus, PaymentHashOf, Attribute, GetStr, GetObj, QuantityField, Print, ParseRpcText, NetworkOf,
      Molecule.Serialize;
    StatusKeepsInvoice(record, status, "udt_script");
    StatusKeepsInvoice(record, status, "hash_algorithm");
    StatusKeepsInvoice(record, status, "expiry_time");
  }

  /** An invoice that passed at issue passes at redemption unchanged. */
  lemma IssuedInvoiceStaysPayable(lib: Lib, node: Node, input: ChargeInput, reply: Json, now: int, status: string)
    requires CreateCharge(lib, node, input, reply, now).Ok?
    ensures var charge := CreateCharge(lib, node, input, reply, now).value;
      VerifyPaid(lib, node, charge, charge.methodDetails.paymentHash, WithStatus(reply, status)).Ok?
  {
    var charge := CreateCharge(lib, node, input, reply, now).value;
    StatusIsIgnored(lib, reply, status, Bound(charge), None);
    ValidAtIssue(lib, node, input, reply, now);
    NoUdtAtIssue(lib, node, input, reply, now);
    hide CreateCharge, Validate, Bound;
    var bound := Obj(charge.methodDetails.extensions);
    assert GetStr(bound, "invoiceCurrency") == Some(node.invoiceCurrency);
    assert GetStr(bound, "invoiceExpiresAt").Some?;
  }

  lemma NoUdtAtIssue(lib: Lib, node: Node, input: ChargeInput, reply: Json, now: int)
    requires CreateCharge(lib, node, input, reply, now).Ok?
    ensures GetStr(reply, "invoice_address").Some? && PaymentHashOf(reply).Some? && ExpiryOf(reply).Some?
    ensures UdtOf(reply).None?
    ensures var charge := CreateCharge(lib, node, input, reply, now).value;
      && charge.amount == input.amount
      && charge.methodDetails == MethodDetails(
           GetStr(reply, "invoice_address").value, PaymentHashOf(reply).value, node.network, node.hashAlgorithm, None,
           map["invoiceCurrency" := Str(node.invoiceCurrency),
               "invoiceExpiresAt" := Str(lib.printTime(ExpiryOf(reply).value))])
  {
    hide PaymentHashOf, AmountOf, CurrencyOf, NetworkOf, HashAlgorithmOf, UdtOf, ExpiryOf, Print, ToHexQuantity,
      GetObj, GetStr;
  }

  lemma BoundAtIssue(lib: Lib, node: Node, input: ChargeInput, reply: Json, now: int)
    requires CreateCharge(lib, node, input, reply, now).Ok?
    ensures GetStr(reply, "invoice_address").Some? && PaymentHashOf(reply).Some? && ExpiryOf(reply).Some?
    ensures Bound(CreateCharge(lib, node, input, reply, now).value) ==
            Expected(GetStr(reply, "invoice_address").value, PaymentHashOf(reply).value, input.amount,
                     node.invoiceCurrency, node.network, node.hashAlgorithm, None,
                     Some((lib.printTime(ExpiryOf(reply).value), None)))
  {
    NoUdtAtIssue(lib, node, input, reply, now);
    hide CreateCharge, PaymentHashOf, UdtOf, ExpiryOf;
  }

  /** Two records denote the same invoice. */
  predicate SameInvoice(a: Json, b: Json) {
    && GetStr(a, "invoice_address") == GetStr(b, "invoice_address")
    && LowerOption(PaymentHashOf(a)) == LowerOption(PaymentHashOf(b))
    && AmountOf(a) == AmountOf(b)
    && LowerOption(CurrencyOf(a)) == LowerOption(CurrencyOf(b))
    && HashAlgorithmOf(a) == HashAlgorithmOf(b)
    && UdtOf(a) == UdtOf(b)
    && ExpiryOf(a) == ExpiryOf(b)
  }

  /** A record passes at redemption exactly when it denotes the invoice that passed at issue. */
  lemma PaidRecordIsTheIssuedInvoice(lib: Lib, node: Node, input: ChargeInput, reply: Json, now: int, record: Json)
    requires Sound(lib)
    requires CreateCharge(lib, node, input, reply, now).Ok?
    ensures var charge := CreateCharge(lib, node, input, reply, now).value;
      VerifyPaid(lib, node, charge, charge.methodDetails.paymentHash, record).Ok?
      <==> SameInvoice(record, reply) && GetObj(record, "invoice").Some?
  {
    var charge := CreateCharge(lib, node, input, reply, now).value;
    BoundAtIssue(lib, node, input, reply, now);
    NoUdtAtIssue(lib, node, input, reply, now);
    assert charge.methodDetails.paymentHash == PaymentHashOf(reply).value;
    var want := Bound(charge);
    ValidAtIssue(lib, node, input, reply, now);
    hide CreateCharge, PaymentHashOf, AmountOf, CurrencyOf, NetworkOf, HashAlgorithmOf, UdtOf, ExpiryOf, ToHexQuantity,
      GetObj, Bound;
    assert GetStr(Obj(charge.methodDetails.extensions), "invoiceCurrency") == Some(node.invoiceCurrency);
    assert GetStr(Obj(charge.methodDetails.extensions), "invoiceExpiresAt").Some?;
    ValidIffSame(lib, want, reply, record);
  }

  lemma ValidAtIssue(lib: Lib, node: Node, input: ChargeInput, reply: Json, now: int)
    requires CreateCharge(lib, node, input, reply, now).Ok?
    ensures Validate(lib, reply, Bound(CreateCharge(lib, node, input, reply, now).value), None).Ok?
  {
    hide Validate, PaymentHashOf, UdtOf, ExpiryOf, ToHexQuantity, Bound, GetStr;
    BoundAtIssue(lib, node, input, reply, now);
    NoUdtAtIssue(lib, node, input, reply, now);
    BindAfterIssue(lib, reply, Expected(GetStr(reply, "invoice_address").value, PaymentHashOf(reply).value,
                                        input.amount, node.invoiceCurrency, node.network, node.hashAlgorithm, None,
                                        None), now);
  }

  /** The terms checked at issue, with the expiry found then bound to them, hold at any later time. */
  lemma BindAfterIssue(lib: Lib, reply: Json, want: Expected, now: int)
    requires want.bound.None? && want.udt.None? && Validate(lib, reply, want, Some(now)).Ok? && UdtOf(reply).None?
    ensures Validate(lib, reply, want.(bound := Some((lib.printTime(ExpiryOf(reply).value), None))), None).Ok?
  {
    hide PaymentHashOf, AmountOf, CurrencyOf, NetworkOf, HashAlgorithmOf, UdtOf, ExpiryOf, Print, GetObj, GetStr;
  }

  /** What the checks ask of a record with the terms bound to it. */
  ghost predicate Meets(lib: Lib, record: Json, want: Expected)
    requires want.bound.Some?
  {
    && GetStr(record, "invoice_address") == Some(want.address)
    && LowerOption(PaymentHashOf(record)) == Some(Lower(want.paymentHash))
    && GetObj(record, "invoice").Some?
    && AmountOf(record).Some? && Print(AmountOf(record).value, 10) == want.amount
    && LowerOption(CurrencyOf(record)) == Some(Lower(want.currency)) && NetworkOf(want.currency) == Some(want.network)
    && HashAlgorithmOf(record) == Some(want.hashAlgorithm)
    && UdtOf(record) == (match want.udt case None => None case Some(u) => Molecule.Serialize(u))
    && (want.udt.Some? ==> UdtOf(record).Some?)
    && UdtOf(record) == LowerOption(want.bound.value.1)
    && ExpiryOf(record).Some? && lib.printTime(ExpiryOf(record).value) == want.bound.value.0
  }

  lemma OneNetwork(a: string, b: string)
    ensures Lower(a) == Lower(b) ==> NetworkOf(a) == NetworkOf(b)
  {}

  lemma ValidIffMeets(lib: Lib, record: Json, want: Expected)
    requires want.bound.Some?
    ensures Validate(lib, record, want, None).Ok? <==> Meets(lib, record, want)
  {
    hide PaymentHashOf, AmountOf, CurrencyOf, HashAlgorithmOf, UdtOf, ExpiryOf, GetObj, Print, NetworkOf,
      Molecule.Serialize, GetStr;
    if CurrencyOf(record).Some? { OneNetwork(CurrencyOf(record).value, want.currency); }
  }

  lemma ValidIffSame(lib: Lib, want: Expected, reply: Json, record: Json)
    requires Sound(lib) && want.bound.Some?
    requires Validate(lib, reply, want, None).Ok?
    ensures Validate(lib, record, want, None).Ok? <==> SameInvoice(record, reply) && GetObj(record, "invoice").Some?
  {
    hide Validate, PaymentHashOf, AmountOf, CurrencyOf, HashAlgorithmOf, UdtOf, ExpiryOf, GetObj, Print, NetworkOf,
      Molecule.Serialize, GetStr;
    ValidIffMeets(lib, record, want);
    ValidIffMeets(lib, reply, want);
    if AmountOf(record).Some? && AmountOf(reply).Some?
       && Print(AmountOf(record).value, 10) == Print(AmountOf(reply).value, 10) {
      PrintIsCanonical(AmountOf(record).value, 10);
      PrintIsCanonical(AmountOf(reply).value, 10);
    }
    if ExpiryOf(record).Some? && ExpiryOf(reply).Some?
       && lib.printTime(ExpiryOf(record).value) == lib.printTime(ExpiryOf(reply).value) {
      assert ExpiryOf(record).value == ExpiryOf(reply).value;
    }
  }

  /** What redemption asks of the node's record: the charge's own address, hash, amount, currency,
      network, algorithm and UDT, and the expiry bound at issue. */
  ghost predicate PaidTerms(lib: Lib, node: Node, charge: Charge, record: Json) {
    var d := charge.methodDetails;
    var bound := Obj(d.extensions);
    && GetStr(bound, "invoiceCurrency") == Some(node.invoiceCurrency) && GetStr(bound, "invoiceExpiresAt").Some?
    && Meets(lib, record, Expected(d.invoice, d.paymentHash, charge.amount, node.invoiceCurrency, d.network,
                                   d.hashAlgorithm, d.udtTypeScript, Some((GetStr(bound, "invoiceExpiresAt").value,
                                       GetStr(bound, "invoiceUdtScript")))))
  }

  lemma VerifyPaidIffTerms(lib: Lib, node: Node, charge: Charge, paymentHash: string, record: Json)
    ensures VerifyPaid(lib, node, charge, paymentHash, record).Ok?
            <==> paymentHash == charge.methodDetails.paymentHash && PaidTerms(lib, node, charge, record)
  {
    hide Validate, Meets, GetStr;
    ValidIffMeets(lib, record, Bound(charge));
  }

  /** A record that passes under any node's configuration passes under the issuing one's. */
  lemma IssuingNodeAgrees(lib: Lib, node: Node, input: ChargeInput, reply: Json, now: int, later: Node, record: Json)
    requires Sound(lib) && CreateCharge(lib, node, input, reply, now).Ok?
    requires var charge := CreateCharge(lib, node, input, reply, now).value;
      VerifyPaid(lib, later, charge, charge.methodDetails.paymentHash, record).Ok?
    ensures SameInvoice(record, reply)
  {
    NoUdtAtIssue(lib, node, input, reply, now);
    var charge := CreateCharge(lib, node, input, reply, now).value;
    assert GetStr(Obj(charge.methodDetails.extensions), "invoiceCurrency") == Some(node.invoiceCurrency);
    hide CreateCharge, Validate, Bound, SameInvoice;
    PaidRecordIsTheIssuedInvoice(lib, node, input, reply, now, record);
  }
}
