/** The whole way of a client: asking without a credential, paying, and coming back by either scheme. */
module ProtocolJourney {
  import opened Wrappers
  import opened Text
  import opened Json
  import opened Wire
  import opened Storage
  import opened Gateway
  import opened Delivery
  import opened Protocol
  import opened ProtocolInvariant
  import opened ProtocolService
  import opened GatewayProtocol
  import ChallengeHeader
  import ChargeToken
  import Fl402
  import Hex
  import Ingress
  import Invoice
  import ProtocolSafety

  // ---------------------------------------------------------------- asking

  function Asking(r: nat, request: HttpRequest, invoice: Json, nonce: string): seq<Step> {
    [Arrive(r, request), Authenticate(r), Quote(r), NewInvoice(r, Some(invoice)), Store(r, nonce)]
  }

  /** The charge and the record that the invoice leads to at this moment. */
  function Offer(g: Rules, w: World, request: HttpRequest, invoice: Json): Option<(Charge, ChallengeRecord)> {
    match g.charge(w.config, invoice, w.clock)
    case None => None
    case Some(charge) =>
      match g.issue(w.config, charge, g.resource(w.config, request), w.clock)
      case None => None
      case Some(record) => Some((charge, record))
  }

  /** A request without a readable credential that meets no disturbance is offered the challenge of
      its resource at the time of asking: it is stored unless its id is taken, and the 402 answer
      carries its header, with a capability where one is to be granted. */
  lemma AskingStoresTheOffer(g: Rules, w: World, r: nat, request: HttpRequest, invoice: Json, nonce: string)
    requires r !in w.phases && Presented(g, w, request).None? && Offer(g, w, request, invoice).Some?
    ensures var (charge, record) := Offer(g, w, request, invoice).value;
      var end := Run(g, w, Asking(r, request, invoice, nonce));
      var header, grant := g.header(record.challenge), g.grant(w.config, charge, record, nonce, w.clock);
      && end.db == SaveChallenge(w.db, record.challenge.id, record)
      && end.config == w.config && end.clock == w.clock
      && end.phases == w.phases[r := Done(if header.Some? && grant.Some? then Challenged(header.value) else Broken)]
  {
    hide Run, SaveChallenge;
    RunFive(g, w, Arrive(r, request), Authenticate(r), Quote(r), NewInvoice(r, Some(invoice)), Store(r, nonce));
    var w2, w3 := Move(w, r, Issuing(request)), Move(w, r, Invoicing(request, w.clock));
    var w1 := Move(w, r, Arrived(request));
    assert Apply(g, w, Arrive(r, request)) == w1;
    Enabled(g, w1, r);
    AuthenticateLeads(g, w1, r);
    assert Move(w1, r, Issuing(request)) == w2 && DoAuthenticate(g, w1, r) == w2;
    assert Apply(g, w2, Quote(r)) == w3;
    assert Apply(g, w3, NewInvoice(r, Some(invoice))) == DoNewInvoice(g, w3, r, Some(invoice));
    var w4 := DoNewInvoice(g, w3, r, Some(invoice));
    assert Apply(g, w4, Store(r, nonce)) == DoStore(g, w4, r, nonce);
  }

  /** A node that takes its time, and everything else too: the invoice is judged when it arrives, the
      challenge is issued as of the time before it was asked for, and the capability as of its storing. */
  lemma SlowOfferIsStored(g: Rules, w: World, r: nat, request: HttpRequest, invoice: Json, nonce: string,
                          before: nat, during: nat, after: nat, charge: Charge, record: ChallengeRecord)
    requires r !in w.phases && request.authorization.None?
    requires g.charge(w.config, invoice, w.clock + before + during) == Some(charge)
    requires g.issue(w.config, charge, g.resource(w.config, request), w.clock + before) == Some(record)
    ensures var end := Run(g, w, [Arrive(r, request), Authenticate(r), Tick(before), Quote(r), Tick(during),
                                  NewInvoice(r, Some(invoice)), Tick(after), Store(r, nonce)]);
      var header := g.header(record.challenge);
      var grant := g.grant(w.config, charge, record, nonce, w.clock + before + during + after);
      && end.db == SaveChallenge(w.db, record.challenge.id, record)
      && end.config == w.config && end.clock == w.clock + before + during + after
      && end.phases == w.phases[r := Done(if header.Some? && grant.Some? then Challenged(header.value) else Broken)]
  {
    hide Run, SaveChallenge, Apply;
    var asking := [Arrive(r, request), Authenticate(r), Tick(before), Quote(r)];
    var invoicing := [Tick(during), NewInvoice(r, Some(invoice)), Tick(after), Store(r, nonce)];
    assert asking + invoicing == [Arrive(r, request), Authenticate(r), Tick(before), Quote(r), Tick(during),
                                  NewInvoice(r, Some(invoice)), Tick(after), Store(r, nonce)];
    ProtocolSafety.RunSplits(g, w, asking, invoicing);
    SlowQuote(g, w, r, request, before);
    var quoted := Move(w, r, Invoicing(request, w.clock + before)).(clock := w.clock + before);
    SlowInvoice(g, quoted, r, invoice, nonce, during, after, charge, record);
  }

  lemma SlowQuote(g: Rules, w: World, r: nat, request: HttpRequest, before: nat)
    requires r !in w.phases && request.authorization.None?
    ensures Run(g, w, [Arrive(r, request), Authenticate(r), Tick(before), Quote(r)]) ==
            Move(w, r, Invoicing(request, w.clock + before)).(clock := w.clock + before)
  {
    hide Run;
    RunFour(g, w, Arrive(r, request), Authenticate(r), Tick(before), Quote(r));
    var w1, w2 := Move(w, r, Arrived(request)), Move(w, r, Issuing(request));
    assert Apply(g, w, Arrive(r, request)) == w1;
    Enabled(g, w1, r);
    assert DoAuthenticate(g, w1, r) == w2;
    var w3 := w2.(clock := w.clock + before);
    assert Apply(g, w3, Quote(r)) == Move(w3, r, Invoicing(request, w3.clock));
  }

  lemma SlowInvoice(g: Rules, w: World, r: nat, invoice: Json, nonce: string, during: nat, after: nat, charge: Charge,
                    record: ChallengeRecord)
    requires r in w.phases && w.phases[r].Invoicing?
    requires g.charge(w.config, invoice, w.clock + during) == Some(charge)
    requires g.issue(w.config, charge, g.resource(w.config, w.phases[r].request), w.phases[r].since) == Some(record)
    ensures var end := Run(g, w, [Tick(during), NewInvoice(r, Some(invoice)), Tick(after), Store(r, nonce)]);
      var header, grant := g.header(record.challenge),
          g.grant(w.config, charge, record, nonce, w.clock + during + after);
      && end.db == SaveChallenge(w.db, record.challenge.id, record)
      && end.config == w.config && end.clock == w.clock + during + after
      && end.phases == w.phases[r := Done(if header.Some? && grant.Some? then Challenged(header.value) else Broken)]
  {
    hide Run, SaveChallenge, Apply;
    RunFour(g, w, Tick(during), NewInvoice(r, Some(invoice)), Tick(after), Store(r, nonce));
    var p := w.phases[r];
    var w1 := w.(clock := w.clock + during);
    var w2 := Move(w1, r, Storing(p.request, p.since, invoice, w1.clock, charge, record));
    var w3 := w2.(clock := w1.clock + after);
    Ticks(g, w, during);
    InvoiceArrives(g, w1, r, Some(invoice));
    Ticks(g, w2, after);
    StoreRuns(g, w3, r, nonce);
  }

  lemma Ticks(g: Rules, w: World, elapsed: nat)
    ensures Apply(g, w, Tick(elapsed)) == w.(clock := w.clock + elapsed)
  {}

  lemma InvoiceArrives(g: Rules, w: World, r: nat, invoice: Option<Json>)
    requires r in w.phases && w.phases[r].Invoicing?
    ensures Apply(g, w, NewInvoice(r, invoice)) == DoNewInvoice(g, w, r, invoice)
  {
    hide DoNewInvoice;
  }

  lemma StoreRuns(g: Rules, w: World, r: nat, nonce: string)
    requires r in w.phases && w.phases[r].Storing?
    ensures Apply(g, w, Store(r, nonce)) == DoStore(g, w, r, nonce)
  {
    hide DoStore;
  }

  lemma RunFour(g: Rules, w: World, a: Step, b: Step, c: Step, d: Step)
    ensures Run(g, w, [a, b, c, d]) == Apply(g, Apply(g, Apply(g, Apply(g, w, a), b), c), d)
  {
    hide Apply;
    assert [a, b, c, d] == [a] + ([b] + ([c] + [d]));
    RunStep(g, w, a, [b] + ([c] + [d]));
    var w1 := Apply(g, w, a);
    RunStep(g, w1, b, [c] + [d]);
    RunStep(g, Apply(g, w1, b), c, [d]);
    RunStep(g, Apply(g, Apply(g, w1, b), c), d, []);
  }

  /** When the node refuses an invoice, or what it answers makes no offer, the request is broken off and
      nothing is stored. */
  lemma NoOfferBreaksOff(g: Rules, w: World, r: nat, request: HttpRequest, answer: Option<Json>, nonce: string)
    requires r !in w.phases && Presented(g, w, request).None?
    requires answer.Some? ==> Offer(g, w, request, answer.value).None?
    ensures Run(g, w, [Arrive(r, request), Authenticate(r), Quote(r), NewInvoice(r, answer), Store(r, nonce)])
            == Move(w, r, Done(Broken))
  {
    hide Run, Apply, Presented;
    RunFive(g, w, Arrive(r, request), Authenticate(r), Quote(r), NewInvoice(r, answer), Store(r, nonce));
    var w1, w3 := Move(w, r, Arrived(request)), Move(w, r, Invoicing(request, w.clock));
    Arrives(g, w, r, request);
    Enabled(g, w1, r);
    Unpresented(g, w, r, request);
    QuoteRuns(g, Move(w, r, Issuing(request)), r);
    assert Move(Move(w, r, Issuing(request)), r, Invoicing(request, w.clock)) == w3;
    InvoiceArrives(g, w3, r, answer);
    assert Apply(g, w3, NewInvoice(r, answer)) == DoNewInvoice(g, w3, r, answer) == Move(w, r, Done(Broken));
    DoneStays(g, Move(w, r, Done(Broken)), Store(r, nonce));
  }

  lemma Arrives(g: Rules, w: World, r: nat, request: HttpRequest)
    requires r !in w.phases
    ensures Apply(g, w, Arrive(r, request)) == Move(w, r, Arrived(request))
  {}

  lemma Unpresented(g: Rules, w: World, r: nat, request: HttpRequest)
    requires Presented(g, w, request).None?
    ensures DoAuthenticate(g, Move(w, r, Arrived(request)), r) == Move(w, r, Issuing(request))
  {}

  lemma QuoteRuns(g: Rules, w: World, r: nat)
    requires r in w.phases && w.phases[r].Issuing?
    ensures Apply(g, w, Quote(r)) == Move(w, r, Invoicing(w.phases[r].request, w.clock))
  {}

  lemma DoneStays(g: Rules, w: World, step: Step)
    requires !step.Tick? && !step.Restart? && step.r in w.phases && w.phases[step.r].Done?
    ensures Apply(g, w, step) == w
  {
    hide DoAuthenticate, DoNewInvoice, DoStore, DoFetch, DoCheck, DoPoll, DoConsume, DoCall, DoReceive,
      DoRecordDelivery, DoRecordReceipt;
  }

  lemma RunFive(g: Rules, w: World, a: Step, b: Step, c: Step, d: Step, e: Step)
    ensures Run(g, w, [a, b, c, d, e]) == Apply(g, Apply(g, Apply(g, Apply(g, Apply(g, w, a), b), c), d), e)
  {
    hide Apply;
    assert [a, b, c, d, e] == [a] + ([b] + ([c] + ([d] + [e])));
    RunStep(g, w, a, [b] + ([c] + ([d] + [e])));
    var w1 := Apply(g, w, a);
    RunStep(g, w1, b, [c] + ([d] + [e]));
    var w2 := Apply(g, w1, b);
    RunStep(g, w2, c, [d] + [e]);
    var w3 := Apply(g, w2, c);
    RunStep(g, w3, d, [e]);
    RunStep(g, Apply(g, w3, d), e, []);
  }

  /** The world when the client has been offered the challenge and a while has passed. */
  function Later(g: Rules, w: World, r: nat, request: HttpRequest, invoice: Json, nonce: string, wait: nat): World {
    Run(g, w, Asking(r, request, invoice, nonce) + [Tick(wait)])
  }

  lemma LaterFacts(g: Rules, w: World, r: nat, request: HttpRequest, invoice: Json, nonce: string, wait: nat)
    requires Inv(g, w) && r !in w.phases && Presented(g, w, request).None? && Offer(g, w, request, invoice).Some?
    ensures var record := Offer(g, w, request, invoice).value.1;
      var later := Later(g, w, r, request, invoice, nonce, wait);
      && Inv(g, later) && later.db == SaveChallenge(w.db, record.challenge.id, record)
      && later.config == w.config && later.clock == w.clock + wait && later.phases.Keys == w.phases.Keys + {r}
  {
    hide Inv, Asking, Presented, Offer, SaveChallenge, Evolves, Run;
    AskingStoresTheOffer(g, w, r, request, invoice, nonce);
    var end := Run(g, w, Asking(r, request, invoice, nonce));
    ProtocolSafety.RunKeeps(g, w, Asking(r, request, invoice, nonce) + [Tick(wait)]);
    ProtocolSafety.RunSplits(g, w, Asking(r, request, invoice, nonce), [Tick(wait)]);
    RunStep(g, end, Tick(wait), []);
  }

  // ---------------------------------------------------------------- the gateway's offer

  /** The client is answered with a challenge exactly when the configured realm and description are usable,
      the charge's token fits and the root key, if one is configured, is long enough; and it reads the
      offered challenge out of the header of the 402 answer. */
  lemma OfferedHeaderParses(lib: Lib, g: Rules, w: World, r: nat, request: HttpRequest, invoice: Json, nonce: string)
    requires Sound(lib) && Offers(lib, g) && Prints(lib, g) && Grants(lib, g)
    requires r !in w.phases && Presented(g, w, request).None?
    requires Offer(g, w, request, invoice).Some? && 0 <= Expiry(w.config, w.clock) <= LAST_INSTANT
    requires ChallengeHeader.Utf8Fields(Offer(g, w, request, invoice).value.1.challenge)
    ensures var end := Run(g, w, Asking(r, request, invoice, nonce));
      var c := Offer(g, w, request, invoice).value.1.challenge;
      && r in end.phases && end.phases[r].Done?
      && (end.phases[r].outcome.Challenged? <==>
            && w.config.realm != "" && w.config.charge.description != Some("") && |c.request| <= 16384
            && (w.config.fl402.Some? ==> |w.config.fl402.value.rootKey| >= 32))
      && (end.phases[r].outcome.Challenged? ==> ChallengeHeader.ParseHeader(lib, end.phases[r].outcome.header) == Ok(c))
  {
    hide Run, Presented, Offer, ChallengeHeader.PrintHeader, ChallengeHeader.Utf8Fields, ChallengeHeader.ParseHeader,
      SaveChallenge, Issue, Resource, Granted, ChallengeHeader.Valid;
    AskingStoresTheOffer(g, w, r, request, invoice, nonce);
    OfferFields(lib, g, w, request, invoice);
    var (charge, record) := Offer(g, w, request, invoice).value;
    PlainHeaderParses(lib, record.challenge);
    IssuedIsValidIff(lib, w.config, charge, request, w.clock);
    IssueFields(lib, w.config, charge, Resource(lib, w.config, request), w.clock);
    GrantTells(lib, w.config, charge, record, nonce, w.clock, request);
  }

  lemma PlainHeaderParses(lib: Lib, c: Challenge)
    requires Sound(lib) && ChallengeHeader.Utf8Fields(c) && c.extensions == map[]
    ensures var printed := ChallengeHeader.PrintHeader(lib, c, []);
      && (printed.Ok? <==> ChallengeHeader.Valid(lib, c))
      && (printed.Ok? ==> ChallengeHeader.ParseHeader(lib, printed.value) == Ok(c))
  {
    assert ChallengeHeader.EndsHeader("");
    hide ChallengeHeader.Valid, ChallengeHeader.Utf8Fields, ChallengeHeader.ParseHeader, ChallengeHeader.EndsHeader,
      ChallengeHeader.STANDARD;
    var printed := ChallengeHeader.PrintHeader(lib, c, []);
    if printed.Ok? {
      ChallengeHeader.HeaderRoundTrip(lib, c, [], "");
      assert printed.value + "" == printed.value;
    }
  }

  lemma OfferFields(lib: Lib, g: Rules, w: World, request: HttpRequest, invoice: Json)
    requires Sound(lib) && Offers(lib, g) && Offer(g, w, request, invoice).Some?
    ensures var (charge, record) := Offer(g, w, request, invoice).value;
      && Invoice.CreateCharge(lib, w.config.node, w.config.charge, invoice, w.clock) == Ok(charge)
      && Issue(lib, w.config, charge, Resource(lib, w.config, request), w.clock) == Some(record)
      && record.challenge.extensions == map[] && ValidCharge(charge) && SeparateNames(charge)
  {
    hide Invoice.CreateCharge, Issue, Resource, ValidCharge, SeparateNames, Present, HeaderOf, Checked, Judge,
      Response;
    var (charge, record) := Offer(g, w, request, invoice).value;
    IssueFields(lib, w.config, charge, Resource(lib, w.config, request), w.clock);
    assert ValidCharge(charge) by { EncodedIsValid(lib, charge); }
    CreatedChargeIsSeparate(lib, w.config.node, w.config.charge, invoice, w.clock);
  }

  lemma EncodedIsValid(lib: Lib, charge: Charge)
    requires Sound(lib) && ChargeToken.Encode(lib, charge).Ok?
    ensures ValidCharge(charge)
  {}

  // ---------------------------------------------------------------- paying and coming back

  /** The hashes of a credential were not redeemed. */
  ghost predicate Unredeemed(g: Rules, db: Db, presented: Credential) {
    forall id :: id in db.redemptions ==>
      && db.redemptions[id].credentialHash != g.hash(presented)
      && db.redemptions[id].paymentHash != presented.paymentHash
  }

  /** The later database has the offer's row, unused, and the credential answers the offer. */
  ghost predicate Answers(db: Db, db': Db, charge: Charge, record: ChallengeRecord, presented: Credential) {
    && record.challenge.id in db'.challenges && db'.challenges[record.challenge.id] == ChallengeRow(record, None)
    && db'.redemptions == db.redemptions
    && presented.challenge == record.challenge && presented.paymentHash == charge.methodDetails.paymentHash
  }

  lemma SavedIsAnswered(db: Db, charge: Charge, record: ChallengeRecord, presented: Credential)
    requires record.challenge.id !in db.challenges
    requires presented.challenge == record.challenge && presented.paymentHash == charge.methodDetails.paymentHash
    ensures Answers(db, SaveChallenge(db, record.challenge.id, record), charge, record, presented)
  {}

  /** Once its invoice is paid, an offered challenge is redeemable by a credential that echoes it with
      its payment hash, exactly within its time to live and before the hashes are used. */
  lemma OfferIsRedeemableIff(lib: Lib, g: Rules, w: World, ask: HttpRequest, invoice: Json, later: World,
                             request: HttpRequest, presented: Credential)
    requires Sound(lib) && IdealMac(lib) && Offers(lib, g) && Checks(lib, g) && Judges(lib, g)
    requires Offer(g, w, ask, invoice).Some?
    requires 0 <= Expiry(w.config, w.clock) <= LAST_INSTANT && later.config == w.config
    requires var (charge, record) := Offer(g, w, ask, invoice).value;
      Answers(w.db, later.db, charge, record, presented)
    requires Resource(lib, w.config, request) == Resource(lib, w.config, ask)
    ensures Redeemable(g, later, request, presented, Invoice.WithStatus(invoice, "Paid"))
            <==> later.clock <= Expiry(w.config, w.clock) && Unredeemed(g, w.db, presented)
  {
    hide Offer, CheckCredential, Issue, Resource, Invoice.CreateCharge, Invoice.VerifyPaid, Expiry, ValidCharge,
      Present, HeaderOf, Response, Secrets, Invoice.WithStatus, SeparateNames, Settlement, Ingress.CredentialHash,
      InvoiceStatus, Invoiced;
    OfferFields(lib, g, w, ask, invoice);
    var (charge, record) := Offer(g, w, ask, invoice).value;
    OfferPassesIff(lib, w.config, charge, Resource(lib, w.config, ask), w.clock, presented, later.clock);
    OfferIsPaidFor(lib, w.config, invoice, w.clock, presented);
  }

  lemma OfferPassesIff(lib: Lib, config: Config, charge: Charge, resource: Json, issuedAt: int, presented: Credential,
                       now: int)
    requires Sound(lib) && IdealMac(lib) && SeparateNames(charge)
        && Issue(lib, config, charge, resource, issuedAt).Some?
    requires 0 <= Expiry(config, issuedAt) <= LAST_INSTANT
    requires presented.challenge == Issue(lib, config, charge, resource, issuedAt).value.challenge
    requires presented.paymentHash == charge.methodDetails.paymentHash
    ensures var record := Issue(lib, config, charge, resource, issuedAt).value;
      Checked(lib, config, record, presented, resource, now) == if now <= Expiry(config, issuedAt) then Some(charge)
          else None
  {
    assert Secrets(config)[0] == config.secret;
    hide CheckCredential, Issue, Expiry, Secrets, SeparateNames;
    OwnChallengePassesIff(lib, config, charge, resource, issuedAt, config, presented, resource, now);
  }

  lemma OfferIsPaidFor(lib: Lib, config: Config, invoice: Json, issuedAt: int, presented: Credential)
    requires Sound(lib) && Invoice.CreateCharge(lib, config.node, config.charge, invoice, issuedAt).Ok?
    requires var charge := Invoice.CreateCharge(lib, config.node, config.charge, invoice, issuedAt).value;
      presented.paymentHash == charge.methodDetails.paymentHash
    ensures var charge := Invoice.CreateCharge(lib, config.node, config.charge, invoice, issuedAt).value;
      forall now :: Judge(lib, config, charge, presented, Invoice.WithStatus(invoice, "Paid"), now).Paid?
  {
    hide Invoice.CreateCharge, Invoice.VerifyPaid, Settlement;
    assert InvoiceStatus(Invoice.WithStatus(invoice, "Paid")) == "Paid" by {
      PaidStatus(lib, config.node, config.charge, invoice, issuedAt);
    }
    Invoice.IssuedInvoiceStaysPayable(lib, config.node, config.charge, invoice, issuedAt, "Paid");
  }

  lemma PaidStatus(lib: Lib, node: Invoice.Node, input: Invoice.ChargeInput, invoice: Json, now: int)
    requires Invoice.CreateCharge(lib, node, input, invoice, now).Ok?
    ensures InvoiceStatus(Invoice.WithStatus(invoice, "Paid")) == "Paid"
  {
    hide Invoice.Validate, Invoice.PaymentHashOf;
  }

  /** A client that asks, pays and comes back with the Payment credential of its challenge, meeting no
      disturbance, gets the upstream's success with a receipt exactly when it is back within the time
      to live and neither hash was redeemed before; a failing upstream is its only other obstacle. */
  lemma PaidChallengeIsServedIff(lib: Lib, g: Rules, config: Config, clock: int, steps: seq<Step>, a: nat, b: nat,
                                 ask: HttpRequest, invoice: Json, nonce: string, wait: nat, presented: Credential,
                                 request: HttpRequest, reply: HttpReply)
    requires Sound(lib) && IdealMac(lib) && a != b
    requires Presents(lib, g) && Offers(lib, g) && Checks(lib, g) && Judges(lib, g)
    requires var w := Run(g, Init(config, clock), steps);
      && a !in w.phases && b !in w.phases && 0 <= Expiry(w.config, w.clock) <= LAST_INSTANT
      && Presented(g, w, ask).None? && Offer(g, w, ask, invoice).Some?
      && var (charge, record) := Offer(g, w, ask, invoice).value;
         && record.challenge.id !in w.db.challenges
         && presented.challenge == record.challenge && presented.paymentHash == charge.methodDetails.paymentHash
         && Resource(lib, w.config, request) == Resource(lib, w.config, ask)
    requires Ingress.SeparateCredential(presented)
        && |Ingress.CredentialToken(lib, presented)| <= Ingress.MAX_TOKEN_LENGTH
    requires request.authorization == Some(Ingress.PaymentHeader(lib, presented))
    ensures var w := Run(g, Init(config, clock), steps);
      var later := Later(g, w, a, ask, invoice, nonce, wait);
      var end := Run(g, later, Visit(b, request, Invoice.WithStatus(invoice, "Paid"), reply));
      b in end.phases && (Served(end.phases[b], reply) <==>
        wait <= 1000 * w.config.ttlSeconds && Unredeemed(g, w.db, presented) && Success(reply.status))
  {
    hide Run, Offer, Redeemable, Served, Resource, Unredeemed, Ingress.SeparateCredential, Ingress.PaymentHeader,
      Payable, Ingress.FromAuthorization, Ingress.CredentialToken, Inv, Later, Fresh, Invoiced, Issue, HeaderOf,
      Checked, Judge, Response, Invoice.WithStatus, SaveChallenge, Answers;
    var w := Run(g, Init(config, clock), steps);
    ProtocolSafety.ReachableIsInv(g, config, clock, steps);
    LaterFacts(g, w, a, ask, invoice, nonce, wait);
    var later := Later(g, w, a, ask, invoice, nonce, wait);
    Ingress.PaymentHeaderRoundTrip(lib, later.config.fl402, StoredChallenges(later.db), presented, later.clock);
    assert Presented(g, later, request) == Some(presented);
    ArrivalIsServedIff(g, later, b, request, Invoice.WithStatus(invoice, "Paid"), reply);
    SavedIsAnswered(w.db, Offer(g, w, ask, invoice).value.0, Offer(g, w, ask, invoice).value.1, presented);
    OfferIsRedeemableIff(lib, g, w, ask, invoice, later, request, presented);
  }

  /** The same by L402: with the capability that was granted with the challenge and any preimage text,
      exactly when the preimage opens the payment hash and the client is back in time. */
  lemma PaidCapabilityIsServedIff(lib: Lib, g: Rules, config: Config, clock: int, steps: seq<Step>, a: nat, b: nat,
                                  ask: HttpRequest, invoice: Json, nonce: string, wait: nat, payload: Json,
                                  preimage: string, request: HttpRequest, reply: HttpReply)
    requires Sound(lib) && IdealMac(lib) && a != b
    requires Presents(lib, g) && Offers(lib, g) && Checks(lib, g) && Judges(lib, g) && Grants(lib, g)
    requires var w := Run(g, Init(config, clock), steps);
      && a !in w.phases && b !in w.phases
      && 0 <= w.clock <= LAST_INSTANT && 0 <= Expiry(w.config, w.clock) <= LAST_INSTANT
      && Presented(g, w, ask).None? && Offer(g, w, ask, invoice).Some? && w.config.fl402.Some?
      && var (charge, record) := Offer(g, w, ask, invoice).value;
         var fl402 := w.config.fl402.value;
         && record.challenge.id !in w.db.challenges
         && g.grant(w.config, charge, record, nonce, w.clock) == Some(Some(payload))
         && Resource(lib, w.config, request) == Resource(lib, w.config, ask)
         && Fl402.Issue(lib, payload, fl402.rootKey).Ok?
         && request.authorization == Some("L402 " + Fl402.Issue(lib, payload, fl402.rootKey).value + ":" + preimage)
    requires preimage != "" && ':' !in preimage && '!' <= preimage[|preimage| - 1] <= '~'
    ensures var w := Run(g, Init(config, clock), steps);
      var (charge, record) := Offer(g, w, ask, invoice).value;
      var hash, algorithm := charge.methodDetails.paymentHash, w.config.fl402.value.hashAlgorithm;
      var presented := Credential(record.challenge, Some("l402"), hash, map[], map[]);
      var later := Later(g, w, a, ask, invoice, nonce, wait);
      var end := Run(g, later, Visit(b, request, Invoice.WithStatus(invoice, "Paid"), reply));
      b in end.phases && (Served(end.phases[b], reply) <==>
        && wait <= 1000 * w.config.ttlSeconds && Fl402.Opens(lib, preimage, algorithm, hash)
        && Unredeemed(g, w.db, presented) && Success(reply.status))
  {
    hide Run, Offer, Redeemable, Served, Resource, Unredeemed, Payable, Ingress.FromAuthorization, Inv, Later, Fresh,
      Fl402.Opens, Fl402.Issue, ValidCharge, Invoiced, Issue, HeaderOf, Checked, Judge, Response,
      Invoice.WithStatus, SaveChallenge, SeparateNames, Granted, Present, Presented, Presents, Grants, Checks, Judges,
      Offers, Answers;
    var w := Run(g, Init(config, clock), steps);
    var (charge, record) := Offer(g, w, ask, invoice).value;
    var presented := Credential(record.challenge, Some("l402"), charge.methodDetails.paymentHash, map[], map[]);
    ProtocolSafety.ReachableIsInv(g, config, clock, steps);
    LaterFacts(g, w, a, ask, invoice, nonce, wait);
    OfferFields(lib, g, w, ask, invoice);
    var later := Later(g, w, a, ask, invoice, nonce, wait);
    OfferIsStored(w.db, record);
    var header := request.authorization.value;
    ByRules(lib, g, later, request, w, charge, record, nonce);
    GrantReadsBack(lib, w.config, charge, w.clock, record, Resource(lib, w.config, ask), nonce, payload,
                   StoredChallenges(later.db), preimage, later.clock);
    ArrivalIsServedIff(g, later, b, request, Invoice.WithStatus(invoice, "Paid"), reply);
    if Presented(g, later, request) == Some(presented) {
      SavedIsAnswered(w.db, charge, record, presented);
      OfferIsRedeemableIff(lib, g, w, ask, invoice, later, request, presented);
    }
  }

  lemma ByRules(lib: Lib, g: Rules, later: World, request: HttpRequest, w: World, charge: Charge,
                record: ChallengeRecord, nonce: string)
    requires Sound(lib) && Presents(lib, g) && Grants(lib, g) && request.authorization.Some?
    ensures Presented(g, later, request) ==
            Present(lib, later.config, StoredChallenges(later.db), request.authorization.value, later.clock)
    ensures g.grant(w.config, charge, record, nonce, w.clock) ==
            Granted(lib, w.config, charge, record, nonce, w.clock)
  {
    hide Present, Granted;
  }

  /** The granted capability with a preimage reads as the credential of its challenge, or as none. */
  lemma GrantReadsBack(lib: Lib, config: Config, charge: Charge, at: int, record: ChallengeRecord, resource: Json,
                       nonce: string, payload: Json, stored: map<string, Challenge>, preimage: string, now: int)
    requires Sound(lib) && ValidCharge(charge) && Issue(lib, config, charge, resource, at) == Some(record)
    requires 0 <= at <= LAST_INSTANT && at <= now && 0 <= Expiry(config, at) <= LAST_INSTANT
    requires config.fl402.Some? && Granted(lib, config, charge, record, nonce, at) == Some(Some(payload))
    requires record.challenge.id in stored && stored[record.challenge.id] == record.challenge
    requires preimage != "" && ':' !in preimage && '!' <= preimage[|preimage| - 1] <= '~'
    ensures var fl402, hash := config.fl402.value, charge.methodDetails.paymentHash;
      && Fl402.Issue(lib, payload, fl402.rootKey).Ok?
      && var header := "L402 " + Fl402.Issue(lib, payload, fl402.rootKey).value + ":" + preimage;
         Present(lib, config, stored, header, now) ==
           if now <= Expiry(config, at)
              && Fl402.Opens(lib, preimage, fl402.hashAlgorithm, hash)
           then Some(Credential(record.challenge, Some("l402"), hash, map[], map[]))
           else None
  {
    hide ValidCharge, Issue, Ingress.FromAuthorization, Fl402.Opens, Fl402.Issue, Ingress.Payload,
      Ingress.Caveats, GetStr, Hex.Encode;
    IssueFields(lib, config, charge, resource, at);
    LongKey(lib, payload, config.fl402.value.rootKey);
    var hash := Hex.Encode(lib.sha256(lib.jcs(record.resourceBinding)));
    Ingress.CapabilityRoundTrip(lib, config.fl402.value, stored, record.challenge, charge, hash,
                                GetStr(record.resourceBinding, "method").value,
                                GetStr(record.resourceBinding, "url").value, nonce, at, Expiry(config, at), preimage,
                                now);
  }

  lemma LongKey(lib: Lib, payload: Json, rootKey: string)
    requires Sound(lib) && Fl402.Issue(lib, payload, rootKey).Ok?
    ensures |rootKey| >= 32
  {}

  lemma OfferIsStored(db: Db, record: ChallengeRecord)
    requires record.challenge.id !in db.challenges
    ensures var stored := StoredChallenges(SaveChallenge(db, record.challenge.id, record));
      record.challenge.id in stored && stored[record.challenge.id] == record.challenge
  {}
}
