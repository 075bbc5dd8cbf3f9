/** Two customers of one gateway: each is served on their own merits, whatever becomes of the other. */
module ProtocolCustomers {
  import opened Wrappers
  import opened Json
  import opened Wire
  import opened Storage
  import opened Gateway
  import opened Delivery
  import opened Protocol
  import opened ProtocolInvariant
  import opened ProtocolService
  import opened GatewayProtocol
  import opened ProtocolJourney
  import ChargeToken
  import Ingress
  import Invoice
  import ProtocolSafety
  import ProtocolSpelling

  /** What one customer does: request number asking asks and is invoiced, request number visiting comes
      back with the credential. */
  datatype Customer = Customer(
    asking: nat, ask: HttpRequest, invoice: Json, nonce: string,
    visiting: nat, request: HttpRequest, presented: Credential, reply: HttpReply)

  function Asks(p: Customer): seq<Step> { Asking(p.asking, p.ask, p.invoice, p.nonce) }

  function Visits(p: Customer): seq<Step> {
    Visit(p.visiting, p.request, Invoice.WithStatus(p.invoice, "Paid"), p.reply)
  }

  /** The customer asks without a credential, is offered a new challenge, and comes back for the same
      resource with the Payment header of a credential that answers the offer. */
  ghost predicate Buys(lib: Lib, g: Rules, w: World, p: Customer)
    requires Sound(lib)
  {
    && p.ask.authorization.None? && Offer(g, w, p.ask, p.invoice).Some?
    && p.presented.challenge == RecordOf(g, w, p).challenge && p.presented.paymentHash == HashOf(g, w, p)
    && p.presented.challenge.id !in w.db.challenges
    && Resource(lib, w.config, p.request) == Resource(lib, w.config, p.ask)
    && Ingress.SeparateCredential(p.presented)
    && |Ingress.CredentialToken(lib, p.presented)| <= Ingress.MAX_TOKEN_LENGTH
    && p.request.authorization == Some(Ingress.PaymentHeader(lib, p.presented))
  }

  function RecordOf(g: Rules, w: World, p: Customer): ChallengeRecord
    requires Offer(g, w, p.ask, p.invoice).Some?
  {
    Offer(g, w, p.ask, p.invoice).value.1
  }

  function HashOf(g: Rules, w: World, p: Customer): string
    requires Offer(g, w, p.ask, p.invoice).Some?
  {
    Offer(g, w, p.ask, p.invoice).value.0.methodDetails.paymentHash
  }

  /** The two customers send four requests. */
  predicate Separate(p: Customer, q: Customer) {
    p.asking != q.asking && p.visiting != q.visiting && {p.asking, q.asking} !! {p.visiting, q.visiting}
  }

  /** Nothing keeps the customer's visit from being served but time, an earlier redemption of its hashes,
      and the upstream. */
  ghost predicate Deserves(g: Rules, w: World, p: Customer, wait: nat) {
    wait <= 1000 * w.config.ttlSeconds && Unredeemed(g, w.db, p.presented) && Success(p.reply.status)
  }

  lemma SameOffer(g: Rules, w: World, w': World, p: Customer)
    requires w'.config == w.config && w'.clock == w.clock
    ensures Offer(g, w', p.ask, p.invoice) == Offer(g, w, p.ask, p.invoice)
  {}

  /** Offers for different payment hashes are different challenges. */
  lemma OffersDiffer(lib: Lib, g: Rules, w: World, p: Customer, q: Customer)
    requires Sound(lib) && TimeText(lib) && IdealMac(lib) && Offers(lib, g)
    requires Buys(lib, g, w, p) && Buys(lib, g, w, q) && p.presented.paymentHash != q.presented.paymentHash
    ensures p.presented.challenge.id != q.presented.challenge.id
  {
    hide Offer, Issue, Resource, ValidCharge, SeparateNames, Ingress.SeparateCredential, Ingress.CredentialToken,
      Ingress.PaymentHeader;
    OfferFields(lib, g, w, p.ask, p.invoice);
    OfferFields(lib, g, w, q.ask, q.invoice);
    var charge, charge' := Offer(g, w, p.ask, p.invoice).value.0, Offer(g, w, q.ask, q.invoice).value.0;
    IssueFields(lib, w.config, charge, Resource(lib, w.config, p.ask), w.clock);
    IssueFields(lib, w.config, charge', Resource(lib, w.config, q.ask), w.clock);
    SkippedInsertIsTheSameChallenge(lib, w.config, charge, p.ask, w.clock, w.config, charge', q.ask, w.clock);
    if p.presented.challenge.request == q.presented.challenge.request {
      SameTokenSameCharge(lib, charge, charge');
    }
  }

  lemma SameTokenSameCharge(lib: Lib, charge: Charge, charge': Charge)
    requires Sound(lib) && SeparateNames(charge) && SeparateNames(charge')
    requires ChargeToken.Encode(lib, charge).Ok? && ChargeToken.Encode(lib, charge) == ChargeToken.Encode(lib, charge')
    ensures charge == charge'
  {
    var token := ChargeToken.Encode(lib, charge).value;
    ChargeToken.DecodeIffEncode(lib, true, token, charge);
    ChargeToken.DecodeIffEncode(lib, true, token, charge');
  }

  /** When both have asked and a while has passed, both offers are stored. */
  lemma BothAreOffered(lib: Lib, g: Rules, w: World, p: Customer, q: Customer, wait: nat)
    requires Sound(lib) && Inv(g, w) && p.asking != q.asking && p.asking !in w.phases && q.asking !in w.phases
    requires Buys(lib, g, w, p) && Buys(lib, g, w, q) && p.presented.challenge.id != q.presented.challenge.id
    ensures var later := Run(g, w, Asks(p) + Asks(q) + [Tick(wait)]);
      && Inv(g, later) && later.config == w.config && later.clock == w.clock + wait
      && later.phases.Keys == w.phases.Keys + {p.asking, q.asking}
      && Answers(w.db, later.db, Offer(g, w, p.ask, p.invoice).value.0, RecordOf(g, w, p), p.presented)
      && Answers(w.db, later.db, Offer(g, w, q.ask, q.invoice).value.0, RecordOf(g, w, q), q.presented)
  {
    hide Run, Inv, Asking, Offer, Evolves, Resource, Ingress.SeparateCredential, Ingress.CredentialToken,
      Ingress.PaymentHeader;
    var first := Run(g, w, Asks(p));
    AskingStoresTheOffer(g, w, p.asking, p.ask, p.invoice, p.nonce);
    SameOffer(g, w, first, q);
    AskingStoresTheOffer(g, first, q.asking, q.ask, q.invoice, q.nonce);
    var second := Run(g, first, Asks(q));
    ProtocolSafety.RunSplits(g, w, Asks(p), Asks(q));
    ProtocolSafety.RunSplits(g, w, Asks(p) + Asks(q), [Tick(wait)]);
    RunStep(g, second, Tick(wait), []);
    ProtocolSafety.RunKeeps(g, w, Asks(p) + Asks(q) + [Tick(wait)]);
  }

  /** A visit that did or did not redeem its credential leaves another credential as redeemable as it was. */
  lemma StaysRedeemable(g: Rules, w: World, later: World, c: Credential, request: HttpRequest, other: Credential,
                        invoice: Json)
    requires RedeemsOnce(g, w, later, c) && c.challenge.id !in w.db.redemptions
    requires c.challenge.id != other.challenge.id && g.hash(c) != g.hash(other) && c.paymentHash != other.paymentHash
    ensures Redeemable(g, later, request, other, invoice) <==> Redeemable(g, w, request, other, invoice)
  {
    hide ProtocolSafety.CallOf;
    var x: RedemptionRecord :|
      && x.challengeId == c.challenge.id && x.credentialHash == g.hash(c) && x.paymentHash == c.paymentHash
      && later.db.redemptions == w.db.redemptions[x.challengeId := x]
      && later.db.challenges ==
         w.db.challenges[x.challengeId := w.db.challenges[x.challengeId].(consumedAt := Some(x.consumedAt))];
    if Redeemable(g, later, request, other, invoice) {
      forall id | id in w.db.redemptions
        ensures w.db.redemptions[id].credentialHash != g.hash(other)
        ensures w.db.redemptions[id].paymentHash != other.paymentHash
      {
        assert id in later.db.redemptions;
      }
    }
  }

  /** Later, at an unchanged configuration and with the offer stored, the visit shows the credential, and
      the credential is redeemable exactly if the customer deserves it. */
  lemma VisitIsPrepared(lib: Lib, g: Rules, w: World, later: World, p: Customer, wait: nat)
    requires Sound(lib) && IdealMac(lib) && Presents(lib, g) && Offers(lib, g) && Checks(lib, g) && Judges(lib, g)
    requires Buys(lib, g, w, p) && 0 <= Expiry(w.config, w.clock) <= LAST_INSTANT
    requires later.config == w.config && later.clock == w.clock + wait
    requires Answers(w.db, later.db, Offer(g, w, p.ask, p.invoice).value.0, RecordOf(g, w, p), p.presented)
    ensures Redeemable(g, later, p.request, p.presented, Invoice.WithStatus(p.invoice, "Paid"))
            <==> wait <= 1000 * w.config.ttlSeconds && Unredeemed(g, w.db, p.presented)
  {
    hide Offer, Answers, Resource, Invoice.WithStatus, Redeemable, Unredeemed, Presents, Checks, Judges, Offers,
      Ingress.SeparateCredential, Ingress.CredentialToken, Ingress.PaymentHeader;
    OfferIsRedeemableIff(lib, g, w, p.ask, p.invoice, later, p.request, p.presented);
  }

  lemma VisitShows(lib: Lib, g: Rules, w: World, later: World, p: Customer)
    requires Sound(lib) && Presents(lib, g) && Buys(lib, g, w, p)
    ensures Presented(g, later, p.request) == Some(p.presented)
  {
    hide Offer, Resource, Ingress.FromAuthorization, Ingress.SeparateCredential, Ingress.CredentialToken,
      Ingress.PaymentHeader;
    Ingress.PaymentHeaderRoundTrip(lib, later.config.fl402, StoredChallenges(later.db), p.presented, later.clock);
  }

  /** The visit of one customer, served or not, leaves the other's chances as they were. */
  lemma OneVisit(g: Rules, w: World, p: Customer, q: Customer)
    requires Inv(g, w) && p.visiting !in w.phases && q.visiting !in w.phases && p.visiting != q.visiting
    requires Presented(g, w, p.request) == Some(p.presented)
    requires p.presented.challenge.id != q.presented.challenge.id && g.hash(p.presented) != g.hash(q.presented)
    requires p.presented.paymentHash != q.presented.paymentHash
    ensures var later := Run(g, w, Visits(p));
      && Inv(g, later) && p.visiting in later.phases && q.visiting !in later.phases
      && (Served(later.phases[p.visiting], p.reply) <==>
            Redeemable(g, w, p.request, p.presented, Invoice.WithStatus(p.invoice, "Paid")) && Success(p.reply.status))
      && (Redeemable(g, later, q.request, q.presented, Invoice.WithStatus(q.invoice, "Paid")) <==>
          Redeemable(g, w, q.request, q.presented, Invoice.WithStatus(q.invoice, "Paid")))
  {
    hide Inv, Run, Presented, Served, RedeemsOnce, Evolves, Invoice.WithStatus, Redeemable;
    var paid, paid' := Invoice.WithStatus(p.invoice, "Paid"), Invoice.WithStatus(q.invoice, "Paid");
    var later := Run(g, w, Visits(p));
    ArrivalIsServedIff(g, w, p.visiting, p.request, paid, p.reply);
    ProtocolSafety.RunKeeps(g, w, Visits(p));
    ProtocolSpelling.OthersUntouched(g, w, p.visiting, Visits(p), q.visiting);
    hide Visits;
    if Redeemable(g, w, p.request, p.presented, paid) {
      NotYetRedeemed(g, w, p.request, p.presented, paid);
      StaysRedeemable(g, w, later, p.presented, q.request, q.presented, paid');
    } else {
      SameChances(g, w, later, q.request, q.presented, paid');
    }
  }

  lemma NotYetRedeemed(g: Rules, w: World, request: HttpRequest, c: Credential, invoice: Json)
    requires Inv(g, w) && Redeemable(g, w, request, c, invoice)
    ensures c.challenge.id !in w.db.redemptions
  {
    hide Payable, PhasesOk, LogOk, RowsInserted, ConsumptionsKept, CallsKept, ReceiptsBacked;
  }

  lemma SameChances(g: Rules, w: World, later: World, request: HttpRequest, c: Credential, invoice: Json)
    requires later.db == w.db && later.config == w.config && later.clock == w.clock
    ensures Redeemable(g, later, request, c, invoice) == Redeemable(g, w, request, c, invoice)
  {}

  /** Once both offers are stored, the visits are served by desert. */
  lemma VisitsFollow(lib: Lib, g: Rules, w: World, later: World, p: Customer, q: Customer, wait: nat)
    requires Sound(lib) && IdealMac(lib) && Presents(lib, g) && Offers(lib, g) && Checks(lib, g) && Judges(lib, g)
    requires Buys(lib, g, w, p) && Buys(lib, g, w, q) && 0 <= Expiry(w.config, w.clock) <= LAST_INSTANT
    requires Inv(g, later) && later.config == w.config && later.clock == w.clock + wait
    requires p.visiting !in later.phases && q.visiting !in later.phases && p.visiting != q.visiting
    requires p.presented.challenge.id != q.presented.challenge.id && g.hash(p.presented) != g.hash(q.presented)
    requires p.presented.paymentHash != q.presented.paymentHash
    requires Answers(w.db, later.db, Offer(g, w, p.ask, p.invoice).value.0, RecordOf(g, w, p), p.presented)
    requires Answers(w.db, later.db, Offer(g, w, q.ask, q.invoice).value.0, RecordOf(g, w, q), q.presented)
    ensures var end := Run(g, later, Visits(p) + Visits(q));
      && p.visiting in end.phases && (Served(end.phases[p.visiting], p.reply) <==> Deserves(g, w, p, wait))
      && q.visiting in end.phases && (Served(end.phases[q.visiting], q.reply) <==> Deserves(g, w, q, wait))
  {
    hide Run, Inv, Presented, Served, Redeemable, Unredeemed, Answers, Offer, Buys, Invoice.WithStatus, RecordOf,
      Presents, Offers, Checks, Judges, Visit;
    VisitShows(lib, g, w, later, p);
    VisitIsPrepared(lib, g, w, later, p, wait);
    VisitIsPrepared(lib, g, w, later, q, wait);
    OneVisit(g, later, p, q);
    var first := Run(g, later, Visits(p));
    VisitShows(lib, g, w, first, q);
    ArrivalIsServedIff(g, first, q.visiting, q.request, Invoice.WithStatus(q.invoice, "Paid"), q.reply);
    ProtocolSafety.RunSplits(g, later, Visits(p), Visits(q));
    VisitSteps(q);
    ProtocolSpelling.OthersUntouched(g, first, q.visiting, Visits(q), p.visiting);
  }

  lemma VisitSteps(p: Customer)
    ensures forall i :: 0 <= i < |Visits(p)| ==>
      !Visits(p)[i].Tick? && !Visits(p)[i].Restart? && Visits(p)[i].r == p.visiting
  {}

  /** Two customers who are offered challenges for different payment hashes, pay, and come back one after
      the other with credentials whose canonical texts have different SHA-256 digests: each is served
      exactly when deserved, that is, in time, with hashes that were not redeemed before both asked,
      and with a succeeding upstream. What becomes of the other does not matter. */
  lemma EachIsServedIff(lib: Lib, g: Rules, config: Config, clock: int, steps: seq<Step>, p: Customer, q: Customer,
                        wait: nat, text: string, text': string)
    requires Sound(lib) && TimeText(lib) && IdealMac(lib)
    requires Presents(lib, g) && Offers(lib, g) && Checks(lib, g) && Judges(lib, g) && Hashes(lib, g)
    requires Separate(p, q)
    requires var w := Run(g, Init(config, clock), steps);
      && {p.asking, p.visiting, q.asking, q.visiting} !! w.phases.Keys
      && Buys(lib, g, w, p) && Buys(lib, g, w, q) && 0 <= Expiry(w.config, w.clock) <= LAST_INSTANT
    requires p.presented.paymentHash != q.presented.paymentHash
    requires Ingress.WritesOut(lib, text, p.presented) && Ingress.WritesOut(lib, text', q.presented)
    requires lib.sha256(text) != lib.sha256(text')
    ensures var w := Run(g, Init(config, clock), steps);
      var end := Run(g, w, Asks(p) + Asks(q) + [Tick(wait)] + (Visits(p) + Visits(q)));
      && p.visiting in end.phases && (Served(end.phases[p.visiting], p.reply) <==> Deserves(g, w, p, wait))
      && q.visiting in end.phases && (Served(end.phases[q.visiting], q.reply) <==> Deserves(g, w, q, wait))
  {
    hide Run, Inv, Presented, Served, Redeemable, Unredeemed, Answers, Visits, Asks, Offer, Resource,
      Invoice.WithStatus, Ingress.WritesOut, Ingress.CredentialHash, Ingress.SeparateCredential, Ingress.PaymentHeader,
      Ingress.CredentialToken, Presents, Offers, Checks, Judges;
    var w := Run(g, Init(config, clock), steps);
    ProtocolSafety.ReachableIsInv(g, config, clock, steps);
    OffersDiffer(lib, g, w, p, q);
    BothAreOffered(lib, g, w, p, q, wait);
    Ingress.HashesAgreeIff(lib, p.presented, q.presented, text, text');
    VisitsFollow(lib, g, w, Run(g, w, Asks(p) + Asks(q) + [Tick(wait)]), p, q, wait);
    ProtocolSafety.RunSplits(g, w, Asks(p) + Asks(q) + [Tick(wait)], Visits(p) + Visits(q));
  }
}
