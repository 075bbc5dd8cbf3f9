/** The protocol with the gateway's own decisions: what stands behind its upstream calls, its answers
    and its stored challenges. */
module GatewayProtocol {
  import opened Wrappers
  import opened Text
  import opened Json
  import opened Wire
  import opened Storage
  import opened Gateway
  import opened Delivery
  import opened Protocol
  import opened ProtocolInvariant
  import opened ProtocolSteps
  import ChallengeHeader
  import Fl402
  import Hex
  import Ingress
  import Invoice
  import ProtocolSafety
  import ProtocolService

  /** create_charge, errors aside. */
  function Invoiced(lib: Lib, config: Config, invoice: Json, now: int): Option<Charge> {
    match Invoice.CreateCharge(lib, config.node, config.charge, invoice, now)
    case Ok(charge) => Some(charge)
    case Err(_) => None
  }

  /** www_authenticate_header, errors aside. */
  function HeaderOf(lib: Lib, c: Challenge): Option<string> {
    match ChallengeHeader.PrintHeader(lib, c, []) case Ok(header) => Some(header) case Err(_) => None
  }

  /** issue_fl402_challenge: the payload that it signs, where there is a capability to issue. */
  function Granted(lib: Lib, config: Config, charge: Charge, record: ChallengeRecord, nonce: string, issued: int)
    : Option<Option<Json>>
    requires Sound(lib)
  {
    var resource, c := record.resourceBinding, record.challenge;
    match config.fl402
    case None => Some(None)
    case Some(fl402) =>
      match (GetStr(resource, "method"), GetStr(resource, "url"), c.expires)
      case (Some(verb), Some(url), Some(expires)) =>
        var hash := Hex.Encode(lib.sha256(lib.jcs(resource)));
        var payload := Ingress.Payload(Ingress.Caveats(fl402, c, expires, charge, hash, verb, url), nonce,
                                       lib.printTime(issued));
        if Fl402.Issue(lib, payload, fl402.rootKey).Ok? then Some(Some(payload)) else None
      case _ => None
  }

  function Checked(lib: Lib, config: Config, record: ChallengeRecord, presented: Credential, resource: Json, now: int)
    : Option<Charge>
    requires Sound(lib)
  {
    match CheckCredential(lib, Secrets(config), record, presented, resource, now)
    case Ok(charge) => Some(charge)
    case Err(_) => None
  }

  /** verify_paid on one answer of get_invoice. */
  function Judge(lib: Lib, config: Config, charge: Charge, presented: Credential, invoice: Json, now: int): Judgement {
    if InvoiceStatus(invoice) == "Paid" then
      match Invoice.VerifyPaid(lib, config.node, charge, presented.paymentHash, invoice)
      case Err(Payment(_)) => Refused
      case Err(Fiber(_)) => Erroneous
      case Ok(_) => Paid(Settlement(lib, presented.paymentHash, invoice, now))
    else if IsTerminal(InvoiceStatus(invoice)) then Refused
    else Waiting
  }

  // ---------------------------------------------------------------- rules that decide as the gateway does

  ghost predicate Presents(lib: Lib, g: Rules)
    requires Sound(lib)
  {
    forall a, b, c, d {:trigger g.present(a, b, c, d)} :: g.present(a, b, c, d) == Present(lib, a, b, c, d)
  }

  ghost predicate Offers(lib: Lib, g: Rules)
    requires Sound(lib)
  {
    && (forall a, b {:trigger g.resource(a, b)} :: g.resource(a, b) == Resource(lib, a, b))
    && (forall a, b, c {:trigger g.charge(a, b, c)} :: g.charge(a, b, c) == Invoiced(lib, a, b, c))
    && (forall a, b, c, d {:trigger g.issue(a, b, c, d)} :: g.issue(a, b, c, d) == Issue(lib, a, b, c, d))
  }

  ghost predicate Prints(lib: Lib, g: Rules) {
    forall a {:trigger g.header(a)} :: g.header(a) == HeaderOf(lib, a)
  }

  ghost predicate Grants(lib: Lib, g: Rules)
    requires Sound(lib)
  {
    forall a, b, c, d, e {:trigger g.grant(a, b, c, d, e)} :: g.grant(a, b, c, d, e) == Granted(lib, a, b, c, d, e)
  }

  ghost predicate Checks(lib: Lib, g: Rules)
    requires Sound(lib)
  {
    forall a, b, c, d, e {:trigger g.check(a, b, c, d, e)} :: g.check(a, b, c, d, e) == Checked(lib, a, b, c, d, e)
  }

  ghost predicate Judges(lib: Lib, g: Rules) {
    forall a, b, c, d, e {:trigger g.judge(a, b, c, d, e)} :: g.judge(a, b, c, d, e) == Judge(lib, a, b, c, d, e)
  }

  ghost predicate Hashes(lib: Lib, g: Rules)
    requires Sound(lib)
  {
    forall a {:trigger g.hash(a)} :: g.hash(a) == Ingress.CredentialHash(lib, a)
  }

  ghost predicate Responds(lib: Lib, g: Rules)
    requires Sound(lib)
  {
    && (forall a, b {:trigger g.respond(a, b)} :: g.respond(a, b) == Response(lib, a, b))
    && (forall a {:trigger g.stamp(a)} :: g.stamp(a) == lib.printTime(a))
  }

  /** The gateway's own rules. */
  function GatewayRules(lib: Lib): (g: Rules)
    requires Sound(lib)
    ensures Presents(lib, g) && Offers(lib, g) && Prints(lib, g) && Checks(lib, g) && Judges(lib, g)
    ensures Hashes(lib, g) && Responds(lib, g) && Grants(lib, g)
  {
    Rules(
      (config: Config, stored: map<string, Challenge>, header: string, now: int) =>
        Present(lib, config, stored, header, now),
      (config: Config, request: HttpRequest) => Resource(lib, config, request),
      (config: Config, invoice: Json, now: int) => Invoiced(lib, config, invoice, now),
      (config: Config, charge: Charge, resource: Json, now: int) => Issue(lib, config, charge, resource, now),
      (c: Challenge) => HeaderOf(lib, c),
      (config: Config, charge: Charge, record: ChallengeRecord, nonce: string, issued: int) =>
        Granted(lib, config, charge, record, nonce, issued),
      (config: Config, record: ChallengeRecord, presented: Credential, resource: Json, now: int) =>
        Checked(lib, config, record, presented, resource, now),
      (config: Config, charge: Charge, presented: Credential, invoice: Json, now: int) =>
        Judge(lib, config, charge, presented, invoice, now),
      (presented: Credential) => Ingress.CredentialHash(lib, presented),
      (upstream: HttpReply, receipt: Option<Receipt>) => Response(lib, upstream, receipt),
      (now: int) => lib.printTime(now))
  }

  // ---------------------------------------------------------------- provenance

  /** The gateway had the invoice made and issued the challenge. */
  ghost predicate IssuedIt(lib: Lib, offered: Event)
    requires Sound(lib) && offered.Offered?
  {
    && Invoice.CreateCharge(lib, offered.config.node, offered.config.charge, offered.invoice, offered.at)
       == Ok(offered.charge)
    && Issue(lib, offered.config, offered.charge, Resource(lib, offered.config, offered.request), offered.now)
       == Some(offered.record)
  }

  /** The request's Authorization header shows the credential, by Payment or by L402. */
  ghost predicate ShowsIt(lib: Lib, shown: Event)
    requires Sound(lib) && shown.Shown?
  {
    var header, fl402 := shown.request.authorization, shown.config.fl402;
    && header.Some?
    && (|| Ingress.ShowsPayment(lib, header.value, shown.presented)
        || (fl402.Some?
            && Ingress.ShowsCapability(lib, fl402.value, shown.stored, header.value, shown.now, shown.presented)))
  }

  /** The credential proves the offered challenge to the gateway at that time. */
  ghost predicate ProvesIt(lib: Lib, offered: Event, verified: Event)
    requires Sound(lib) && offered.Offered? && verified.Verified?
  {
    Proves(lib, Secrets(verified.config), offered.record, verified.presented,
           Resource(lib, verified.config, verified.request), verified.now, offered.charge)
  }

  /** The node reports the offered invoice paid, on the charge's terms. */
  ghost predicate PaysIt(lib: Lib, offered: Event, config: Config, reported: Event)
    requires offered.Offered? && reported.Reported?
  {
    && InvoiceStatus(reported.invoice) == "Paid"
    && Invoice.PaidTerms(lib, config.node, offered.charge, reported.invoice)
    && Invoice.SameInvoice(reported.invoice, offered.invoice)
  }

  /** Everything that stands behind an upstream call. */
  ghost predicate Provenance(lib: Lib, log: seq<Event>, s: nat, q: nat, v: nat, p: nat, c: nat, i: nat)
    requires Sound(lib) && ProtocolSafety.LeadsTo(log, s, q, v, p, c, i)
  {
    && IssuedIt(lib, log[s]) && ShowsIt(lib, log[q]) && ProvesIt(lib, log[s], log[v])
       && PaysIt(lib, log[s], log[v].config, log[p])
    && (forall id :: id in log[q].stored ==> ChallengeInserted(log, q, id, log[q].stored[id]))
    && var redemption := log[c].redemption;
       && redemption.challengeId == log[s].record.challenge.id
       && redemption.credentialHash == Ingress.CredentialHash(lib, log[q].presented)
       && redemption.paymentHash == log[s].charge.methodDetails.paymentHash
  }

  lemma EchoedChallenge(lib: Lib, offered: Event, verified: Event)
    requires Sound(lib) && offered.Offered? && verified.Verified? && ProvesIt(lib, offered, verified)
    ensures verified.presented.challenge == offered.record.challenge
  {
    hide Resource, Secrets, BindId;
  }

  lemma PaidOffer(lib: Lib, offered: Event, verified: Event, reported: Event)
    requires Sound(lib) && offered.Offered? && verified.Verified? && reported.Reported? && IssuedIt(lib, offered)
    requires verified.charge == offered.charge
        && verified.presented.paymentHash == offered.charge.methodDetails.paymentHash
    requires Judge(lib, verified.config, verified.charge, verified.presented, reported.invoice, reported.now).Paid?
    ensures PaysIt(lib, offered, verified.config, reported)
  {
    hide Issue, Resource, Invoice.CreateCharge, Invoice.VerifyPaid, Invoice.PaidTerms, Invoice.SameInvoice,
      InvoiceStatus, Settlement;
    var node := verified.config.node;
    Invoice.VerifyPaidIffTerms(lib, node, offered.charge, verified.presented.paymentHash, reported.invoice);
    Invoice.IssuingNodeAgrees(lib, offered.config.node, offered.config.charge, offered.invoice, offered.at, node,
                              reported.invoice);
  }

  lemma ShownCredential(lib: Lib, shown: Event)
    requires Sound(lib) && shown.Shown? && shown.request.authorization.Some?
    requires Present(lib, shown.config, shown.stored, shown.request.authorization.value, shown.now)
        == Some(shown.presented)
    ensures ShowsIt(lib, shown)
  {
    hide Ingress.FromAuthorization, Ingress.ShowsPayment, Ingress.ShowsCapability;
    Ingress.PresentedIff(lib, shown.config.fl402, shown.stored, shown.request.authorization.value, shown.now,
                             shown.presented);
  }

  /** A credential that passed the checks of an offered record proves the offered charge. */
  lemma ProvesOffer(lib: Lib, offered: Event, verified: Event)
    requires Sound(lib) && offered.Offered? && verified.Verified? && verified.record == offered.record
    requires IssuedIt(lib, offered)
    requires Checked(lib, verified.config, verified.record, verified.presented,
                     Resource(lib, verified.config, verified.request), verified.now) == Some(verified.charge)
    ensures verified.charge == offered.charge
        && verified.presented.paymentHash == offered.charge.methodDetails.paymentHash
    ensures ProvesIt(lib, offered, verified)
  {
    hide CheckCredential, Issue, Resource, Invoice.CreateCharge, Secrets;
    var resource := Resource(lib, verified.config, verified.request);
    CheckAcceptsIffProves(lib, Secrets(verified.config), verified.record, verified.presented, resource, verified.now,
                          verified.charge);
    IssueFields(lib, offered.config, offered.charge, Resource(lib, offered.config, offered.request), offered.now);
    CreatedChargeIsSeparate(lib, offered.config.node, offered.config.charge, offered.invoice, offered.at);
    SameToken(lib, offered.charge, verified.charge);
  }

  /** In every run every upstream call has its full history behind it: the gateway invoiced and
      inserted the challenge; the request's Authorization header showed a credential that echoes it,
      under a secret of the time of checking, before expiry and for the bound resource; the node
      reported that invoice paid, on the charge's terms; and the redemption was consumed for it. */
  lemma UpstreamCallsHaveProvenance(lib: Lib, g: Rules, config: Config, clock: int, steps: seq<Step>, i: nat)
    returns (s: nat, q: nat, v: nat, p: nat, c: nat)
    requires Sound(lib)
    requires Presents(lib, g) && Offers(lib, g) && Checks(lib, g) && Judges(lib, g) && Hashes(lib, g)
    requires var log := Run(g, Init(config, clock), steps).log; i < |log| && log[i].Called?
    ensures var log := Run(g, Init(config, clock), steps).log;
      ProtocolSafety.LeadsTo(log, s, q, v, p, c, i) && Provenance(lib, log, s, q, v, p, c, i)
  {
    hide Run, CheckCredential, Issue, Resource, Ingress.CredentialHash, Invoice.CreateCharge, InsertedBefore,
      ChallengeInserted, ShowsIt, ProvesIt, PaysIt, Present, Judge;
    s, q, v, p, c := ProtocolSafety.CallsHaveHistory(g, config, clock, steps, i);
    var log := Run(g, Init(config, clock), steps).log;
    assert IssuedIt(lib, log[s]);
    ShownCredential(lib, log[q]);
    ProvesOffer(lib, log[s], log[v]);
    PaidOffer(lib, log[s], log[v], log[p]);
    EchoedChallenge(lib, log[s], log[v]);
  }

  /** Under an ideal MAC the secret that accepted the credential is the one that issued the challenge. */
  lemma IssuingSecretWasCurrent(lib: Lib, g: Rules, config: Config, clock: int, steps: seq<Step>, i: nat)
    returns (s: nat, q: nat, v: nat, p: nat, c: nat)
    requires Sound(lib) && IdealMac(lib)
    requires Offers(lib, g) && Checks(lib, g)
    requires var log := Run(g, Init(config, clock), steps).log; i < |log| && log[i].Called?
    ensures var log := Run(g, Init(config, clock), steps).log;
      && ProtocolSafety.LeadsTo(log, s, q, v, p, c, i)
      && (log[s].config.secret == log[v].config.secret || log[s].config.secret in log[v].config.previousSecrets)
  {
    hide Run, CheckCredential, Issue, Resource, Invoice.CreateCharge, InsertedBefore, ChallengeInserted, BindId,
      Secrets;
    s, q, v, p, c := ProtocolSafety.CallsHaveHistory(g, config, clock, steps, i);
    var log := Run(g, Init(config, clock), steps).log;
    ProvesOffer(lib, log[s], log[v]);
    OneSecret(lib, log[s], Secrets(log[v].config));
    Listed(log[v].config, log[s].config.secret);
  }

  lemma OneSecret(lib: Lib, offered: Event, secrets: seq<string>)
    requires Sound(lib) && IdealMac(lib) && offered.Offered?
    requires IssuedIt(lib, offered)
    requires exists t :: t in secrets && offered.record.challenge.id == BindId(lib, offered.record.challenge, t)
    ensures offered.config.secret in secrets
  {
    hide Issue, Resource, BindId, ChallengeHeader.BindingInput, Invoice.CreateCharge;
    IssueFields(lib, offered.config, offered.charge, Resource(lib, offered.config, offered.request), offered.now);
    var t :| t in secrets && offered.record.challenge.id == BindId(lib, offered.record.challenge, t);
    BindIdDetermines(lib, offered.record.challenge, offered.record.challenge, t, offered.config.secret);
  }

  // ---------------------------------------------------------------- answers

  /** Whatever the upstream sends, a response carries a receipt header exactly when the upstream's
      status was a success, and then the header names the one receipt that is stored behind the
      delivered row of its challenge. */
  lemma ReceiptHeadersAreBacked(lib: Lib, g: Rules, config: Config, clock: int, steps: seq<Step>, r: nat, text: string)
    requires Sound(lib) && Responds(lib, g)
    requires var w := Run(g, Init(config, clock), steps);
      r in w.phases && w.phases[r].Done? && w.phases[r].outcome.Answered?
    ensures var w := Run(g, Init(config, clock), steps);
      var answer := w.phases[r].outcome;
      && ((PAYMENT_RECEIPT, text) in answer.response.headers <==>
            Success(answer.upstream.status) && answer.receipt.Some? && text == ReceiptToken(lib, answer.receipt.value))
      && (answer.receipt.Some? <==> Success(answer.upstream.status))
      && (answer.receipt.Some? ==> Backed(w.db, answer.receipt.value, answer.upstream.status))
      && answer.response.status == answer.upstream.status && answer.response.body == answer.upstream.body
  {
    hide Run, Backed, Kept, Insert, ReceiptToken;
    ProtocolSafety.ResponsesAreBacked(g, config, clock, steps, r);
    var answer := Run(g, Init(config, clock), steps).phases[r].outcome;
    ResponseHeaders(lib, answer.upstream, answer.receipt, (PAYMENT_RECEIPT, text));
  }

  /** When nothing comes between its two locks, finish_upstream is the last two steps: the same
      tables, and the same response, which is never an error. */
  lemma FinishUpstreamIsTwoSteps(lib: Lib, g: Rules, w: World, r: nat)
    requires Sound(lib) && Responds(lib, g) && Inv(g, w) && r in w.phases && w.phases[r].Replied?
    ensures var p := w.phases[r];
      var end := Run(g, w, [RecordDelivery(r), RecordReceipt(r)]);
      var (db, response) := Finish(lib, w.db, p.redemption, p.upstream, lib.printTime(w.clock));
      && end.db == db && response.Ok?
      && r in end.phases && end.phases[r].Done? && end.phases[r].outcome.Answered?
      && end.phases[r].outcome.response == response.value
  {
    hide Run, Inv, Response, SaveDelivery, SaveReceipt, Delivery.Outcome, Safe;
    var p := w.phases[r];
    RecordDeliveryIsSafe(g, w, r);
    DeliveryIsSaved(g, w, r);
    ProtocolService.RecordingServes(g, w, r);
  }

  lemma DeliveryIsSaved(g: Rules, w: World, r: nat)
    requires Inv(g, w) && r in w.phases && w.phases[r].Replied?
    ensures var row := Delivery.Outcome(w.phases[r].redemption, w.phases[r].upstream.status, g.stamp(w.clock));
      SaveDelivery(w.db, row) == Ok(WithDelivery(w.db, row))
  {
    hide Inv, Linked, ReceiptsBacked, RowsInserted, ConsumptionsKept, Evolves, Spares, Receipted, SaveDelivery;
    UsePhase(g, w, r);
    UseTables(g, w);
    RecordedTables(w.db, Delivery.Outcome(w.phases[r].redemption, w.phases[r].upstream.status, g.stamp(w.clock)));
  }

  // ---------------------------------------------------------------- skipped insertions

  /** Under an ideal MAC an INSERT OR IGNORE of a challenge that found its id taken skipped a
      challenge with the same seven bound fields and the same secret as the stored one. */
  lemma SkippedChallengesAreStored(lib: Lib, g: Rules, config: Config, clock: int, steps: seq<Step>,
                                   i: nat) returns (k: nat)
    requires Sound(lib) && TimeText(lib) && IdealMac(lib) && Offers(lib, g)
    requires var log := Run(g, Init(config, clock), steps).log; i < |log| && log[i].Offered? && !log[i].inserted
    ensures var log := Run(g, Init(config, clock), steps).log;
      && k < i && log[k].Offered? && log[k].inserted
      && log[k].config.secret == log[i].config.secret
      && log[k].record.challenge.id == log[i].record.challenge.id
      && ChallengeHeader.SameBoundFields(log[k].record.challenge, log[i].record.challenge)
  {
    hide Run, Issue, Resource, Invoiced, Linked, ReceiptsBacked, RowsInserted, ConsumptionsKept, PhasesOk, CallsKept;
    ProtocolSafety.ReachableIsInv(g, config, clock, steps);
    var log := Run(g, Init(config, clock), steps).log;
    assert EventOk(g, log, i);
    var c: Challenge :| ChallengeInserted(log, i, log[i].record.challenge.id, c);
    k :| k < i && k < |log| && log[k].Offered? && log[k].inserted && log[k].record.challenge == c;
    assert EventOk(g, log, k);
    SkippedInsertIsTheSameChallenge(lib, log[k].config, log[k].charge, log[k].request, log[k].now,
                                    log[i].config, log[i].charge, log[i].request, log[i].now);
  }

  // ---------------------------------------------------------------- granted capabilities

  /** What the event's configuration makes of a payload: its tag, in bytes. */
  function TagOf(lib: Lib, config: Config, payload: Json): Option<string> {
    match config.fl402 case None => None case Some(fl402) => Some(lib.hmac(fl402.rootKey, lib.jcs(payload)))
  }

  /** Nobody but the gateway makes tags: a header that shows a capability with the right tag of its
      payload shows a tag that an earlier offer granted. */
  ghost predicate TagsAreGranted(lib: Lib, log: seq<Event>) {
    forall q :: 0 <= q < |log| && log[q].Shown? && log[q].request.authorization.Some? ==>
      var carried := Ingress.CarriedCapability(log[q].request.authorization.value);
      carried.Some? && Fl402.DecodeCapability(lib, carried.value.0).Ok? ==>
        var (payload, signature) := Fl402.DecodeCapability(lib, carried.value.0).value;
        TagOf(lib, log[q].config, payload).Some? && Hex.Decode(signature) == TagOf(lib, log[q].config, payload) ==>
          exists k :: 0 <= k < q && GrantsTag(lib, log[k], Hex.Decode(signature))
  }

  predicate GrantsTag(lib: Lib, event: Event, tag: Option<string>) {
    event.Offered? && event.granted.Some? && TagOf(lib, event.config, event.granted.value) == tag
  }

  /** The capability that the header shows is the one granted with the offer, up to the letter case of
      its signature, and the credential holds the offer's challenge id and payment hash. */
  ghost predicate GrantedWith(lib: Lib, offered: Event, shown: Event)
    requires Sound(lib) && offered.Offered? && shown.Shown?
  {
    && offered.granted.Some? && offered.config.fl402.Some?
    && shown.request.authorization.Some? && shown.config.fl402.Some?
    && var carried := Ingress.CarriedCapability(shown.request.authorization.value);
       var payload, rootKey := offered.granted.value, offered.config.fl402.value.rootKey;
       && rootKey == shown.config.fl402.value.rootKey
       && carried.Some?
       && (exists signature :: Lower(signature) == Fl402.Signature(lib, payload, rootKey)
                               && carried.value.0 == Fl402.Token(lib, payload, signature))
       && shown.presented.challenge.id == offered.record.challenge.id
       && shown.presented.paymentHash == offered.charge.methodDetails.paymentHash
  }

  /** The capability was verified by its tag. */
  lemma VerifiedTag(lib: Lib, capability: string, rootKey: string, now: int)
    requires Fl402.VerifyCapability(lib, capability, rootKey, now).Ok?
    ensures Fl402.DecodeCapability(lib, capability).Ok? && |rootKey| >= 32
    ensures var (payload, signature) := Fl402.DecodeCapability(lib, capability).value;
      payload == Fl402.VerifyCapability(lib, capability, rootKey, now).value
      && Hex.Decode(signature) == Some(lib.hmac(rootKey, lib.jcs(payload)))
  {
    hide Fl402.DecodeCapability, Fl402.Current, Hex.Decode, GetObj;
  }

  lemma GrantedCaveats(lib: Lib, config: Config, charge: Charge, record: ChallengeRecord, nonce: string, issued: int)
    requires Sound(lib)
    requires Granted(lib, config, charge, record, nonce, issued).Some?
    requires Granted(lib, config, charge, record, nonce, issued).value.Some?
    ensures var payload := Granted(lib, config, charge, record, nonce, issued).value.value;
      && GetObj(payload, "caveats").Some?
      && var caveats := GetObj(payload, "caveats").value;
         && GetStr(caveats, "challengeId") == Some(record.challenge.id)
         && GetStr(caveats, "paymentHash") == Some(charge.methodDetails.paymentHash)
  {
    hide Fl402.Issue, GetStr, Ingress.Payload, Ingress.Caveats;
    var resource, c := record.resourceBinding, record.challenge;
    var hash, verb, url := Hex.Encode(lib.sha256(lib.jcs(resource))), GetStr(resource, "method"),
        GetStr(resource, "url");
    var caveats := Ingress.Caveats(config.fl402.value, c, c.expires.value, charge, hash, verb.value, url.value);
    Ingress.SomeCaveats(config.fl402.value, c, c.expires.value, charge, hash, verb.value, url.value);
    Ingress.PayloadFields(caveats, nonce, lib.printTime(issued));
  }

  /** With each challenge the gateway grants a capability where L402 is configured, and fails to exactly
      when the configured root key is too short. The payload names the domain, the time, and as caveats the
      challenge, the charge, the expiry and the resource, by its hash, method and URL. */
  lemma GrantTells(lib: Lib, config: Config, charge: Charge, record: ChallengeRecord, nonce: string, issued: int,
                   request: HttpRequest)
    requires Sound(lib) && record.resourceBinding == Resource(lib, config, request)
    requires record.challenge.expires.Some?
    ensures var granted := Granted(lib, config, charge, record, nonce, issued);
      && (granted.None? <==> config.fl402.Some? && |config.fl402.value.rootKey| < 32)
      && (granted == Some(None) <==> config.fl402.None?)
    ensures var granted := Granted(lib, config, charge, record, nonce, issued);
      granted.Some? && granted.value.Some? ==>
        var payload, c := granted.value.value, record.challenge;
        && payload.Obj? && payload.fields.Keys == {"domain", "caveats", "nonce", "issuedAt"}
        && GetStr(payload, "domain") == Some("fiber-l402-capability-v1") && GetStr(payload, "nonce") == Some(nonce)
        && GetStr(payload, "issuedAt") == Some(lib.printTime(issued)) && GetObj(payload, "caveats").Some?
        && NamesAll(lib, config.fl402.value, c, charge, record.resourceBinding, GetObj(payload, "caveats").value)
        && GetStr(GetObj(payload, "caveats").value, "method") == Some(request.verb)
        && GetStr(GetObj(payload, "caveats").value, "url") == Some(config.publicBaseUrl + request.pathAndQuery)
  {
    hide Granted, Resource, Ingress.Caveats, Ingress.Payload, GetStr, Hex.Encode, NamesAll;
    if config.fl402.Some? {
      var fl402, c, resource := config.fl402.value, record.challenge, record.resourceBinding;
      var hash, url := Hex.Encode(lib.sha256(lib.jcs(resource))), config.publicBaseUrl + request.pathAndQuery;
      GrantedPayload(lib, config, charge, record, nonce, issued, request);
      CaveatsNameAll(lib, fl402, c, charge, resource, request.verb, url);
      PayloadNames(Ingress.Caveats(fl402, c, c.expires.value, charge, hash, request.verb, url), nonce,
                   lib.printTime(issued));
    } else {
      NothingGranted(lib, config, charge, record, nonce, issued);
    }
  }

  lemma NothingGranted(lib: Lib, config: Config, charge: Charge, record: ChallengeRecord, nonce: string, issued: int)
    requires Sound(lib) && config.fl402.None?
    ensures Granted(lib, config, charge, record, nonce, issued) == Some(None)
  {}

  lemma CaveatsNameAll(lib: Lib, fl402: Ingress.Fl402Config, c: Challenge, charge: Charge, resource: Json, verb: string,
                       url: string)
    requires Sound(lib) && c.expires.Some?
    ensures var hash := Hex.Encode(lib.sha256(lib.jcs(resource)));
      var caveats := Ingress.Caveats(fl402, c, c.expires.value, charge, hash, verb, url);
      && caveats.Obj? && NamesAll(lib, fl402, c, charge, resource, caveats)
      && GetStr(caveats, "method") == Some(verb) && GetStr(caveats, "url") == Some(url)
  {
    hide Ingress.Caveats, Ingress.NAMED_CAVEATS, GetStr, Hex.Encode, Hex.Decode;
    var hash := Hex.Encode(lib.sha256(lib.jcs(resource)));
    Ingress.CaveatsAre(fl402, c, c.expires.value, charge, hash, verb, url);
    Hex.DecodeEncode(lib.sha256(lib.jcs(resource)));
  }

  lemma GrantedPayload(lib: Lib, config: Config, charge: Charge, record: ChallengeRecord, nonce: string, issued: int,
                       request: HttpRequest)
    requires Sound(lib) && record.resourceBinding == Resource(lib, config, request)
    requires record.challenge.expires.Some? && config.fl402.Some?
    ensures var fl402 := config.fl402.value;
      var hash := Hex.Encode(lib.sha256(lib.jcs(record.resourceBinding)));
      Granted(lib, config, charge, record, nonce, issued) ==
        if |fl402.rootKey| < 32 then None
        else Some(Some(Ingress.Payload(
               Ingress.Caveats(fl402, record.challenge, record.challenge.expires.value, charge, hash, request.verb,
                               config.publicBaseUrl + request.pathAndQuery), nonce, lib.printTime(issued))))
  {
    ResourceFields(lib, config, request);
    hide Resource, Ingress.Caveats, Ingress.Payload, GetStr, Hex.Encode;
    var fl402 := config.fl402.value;
    var hash := Hex.Encode(lib.sha256(lib.jcs(record.resourceBinding)));
    var caveats := Ingress.Caveats(fl402, record.challenge, record.challenge.expires.value, charge, hash, request.verb,
                                   config.publicBaseUrl + request.pathAndQuery);
    PayloadNames(caveats, nonce, lib.printTime(issued));
  }

  lemma PayloadNames(caveats: Json, nonce: string, issuedAt: string)
    ensures var payload := Ingress.Payload(caveats, nonce, issuedAt);
      && payload.Obj? && payload.fields.Keys == {"domain", "caveats", "nonce", "issuedAt"}
      && GetStr(payload, "domain") == Some("fiber-l402-capability-v1") && GetStr(payload, "nonce") == Some(nonce)
      && GetStr(payload, "issuedAt") == Some(issuedAt)
      && (caveats.Obj? ==> GetObj(payload, "caveats") == Some(caveats))
  {}

  /** The caveats name the challenge, its charge and its expiry, and the resource by its hash. */
  predicate NamesAll(lib: Lib, fl402: Ingress.Fl402Config, c: Challenge, charge: Charge, resource: Json, caveats: Json)
    requires c.expires.Some?
  {
    var d := charge.methodDetails;
    && GetStr(caveats, "challengeId") == Some(c.id) && GetStr(caveats, "issuer") == Some(c.realm)
    && GetStr(caveats, "expiresAt") == c.expires && GetStr(caveats, "paymentHash") == Some(d.paymentHash)
    && GetStr(caveats, "hashAlgorithm") == Some(fl402.hashAlgorithm) && GetStr(caveats, "invoice") == Some(d.invoice)
    && GetStr(caveats, "network") == Some(d.network) && GetStr(caveats, "amount") == Some(charge.amount)
    && GetStr(caveats, "currency") == Some(charge.currency) && GetStr(caveats, "fiberNodeId") == charge.recipient
    && GetStr(caveats, "resourceHash").Some?
    && Hex.Decode(GetStr(caveats, "resourceHash").value) == Some(lib.sha256(lib.jcs(resource)))
  }

  lemma SameGrant(lib: Lib, offered: Event, shown: Event)
    requires Sound(lib) && IdealMac(lib) && offered.Offered? && shown.Shown?
    requires offered.granted.Some? ==>
      Granted(lib, offered.config, offered.charge, offered.record, offered.nonce, offered.issued)
          == Some(offered.granted)
    requires forall id :: id in shown.stored ==> shown.stored[id].id == id
    requires shown.request.authorization.Some? && shown.config.fl402.Some?
    requires Ingress.ShowsCapability(lib, shown.config.fl402.value, shown.stored, shown.request.authorization.value,
                                     shown.now, shown.presented)
    requires var capability := Ingress.CarriedCapability(shown.request.authorization.value).value.0;
      Fl402.DecodeCapability(lib, capability).Ok?
      && GrantsTag(lib, offered, Hex.Decode(Fl402.DecodeCapability(lib, capability).value.1))
      && Hex.Decode(Fl402.DecodeCapability(lib, capability).value.1).Some?
    ensures GrantedWith(lib, offered, shown)
  {
    hide Granted, Ingress.CarriedCapability, Fl402.DecodeCapability, Fl402.VerifyCapability, Hex.Decode,
      Fl402.Opens, GetStr, GetObj, Fl402.Token, Fl402.Signature, Fl402.Issue, Fl402.Current;
    var capability := Ingress.CarriedCapability(shown.request.authorization.value).value.0;
    var rootKey, now := shown.config.fl402.value.rootKey, shown.now;
    VerifiedTag(lib, capability, rootKey, now);
    var payload, key := offered.granted.value, offered.config.fl402.value.rootKey;
    Fl402.TagTellsPayload(lib, capability, rootKey, now, payload, key);
    Fl402.AcceptedIffCaseVariantOfIssued(lib, capability, rootKey, now, payload);
    GrantedCaveats(lib, offered.config, offered.charge, offered.record, offered.nonce, offered.issued);
  }

  /** Under an ideal MAC whose tags only the gateway makes, every capability that a header shows and
      that yields a credential was granted before, with an offer whose challenge id and payment hash the
      credential has. */
  lemma ShownCapabilityWasGranted(lib: Lib, g: Rules, config: Config, clock: int, steps: seq<Step>, q: nat)
    returns (k: nat)
    requires Sound(lib) && IdealMac(lib) && Presents(lib, g) && Grants(lib, g)
    requires var log := Run(g, Init(config, clock), steps).log;
      q < |log| && log[q].Shown? && TagsAreGranted(lib, log)
    requires var event := Run(g, Init(config, clock), steps).log[q];
      event.request.authorization.Some? ==>
        !Ingress.ShowsPayment(lib, event.request.authorization.value, event.presented)
    ensures var log := Run(g, Init(config, clock), steps).log;
      k < q && log[k].Offered? && GrantedWith(lib, log[k], log[q])
  {
    hide Run, Present, Granted, Ingress.FromAuthorization, Ingress.ShowsPayment, Ingress.CarriedCapability,
      Fl402.DecodeCapability, Fl402.VerifyCapability, Hex.Decode, Linked, ReceiptsBacked, RowsInserted, PhasesOk,
      ConsumptionsKept, CallsKept, InsertedBefore, Fl402.Opens, GetStr, GetObj, GrantedWith;
    ProtocolSafety.ReachableIsInv(g, config, clock, steps);
    var log := Run(g, Init(config, clock), steps).log;
    assert EventOk(g, log, q);
    ShownCredential(lib, log[q]);
    var capability := Ingress.CarriedCapability(log[q].request.authorization.value).value.0;
    VerifiedTag(lib, capability, log[q].config.fl402.value.rootKey, log[q].now);
    var tag := Hex.Decode(Fl402.DecodeCapability(lib, capability).value.1);
    k :| 0 <= k < q && GrantsTag(lib, log[k], tag);
    assert EventOk(g, log, k);
    SameGrant(lib, log[k], log[q]);
  }
}
