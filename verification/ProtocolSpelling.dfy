/** One payment hash in two spellings: the store compares hashes exactly, so both spellings are served. */
module ProtocolSpelling {
  import opened Wrappers
  import opened Text
  import opened Json
  import opened Wire
  import opened Storage
  import opened Gateway
  import opened Delivery
  import opened Protocol
  import opened ProtocolInvariant
  import opened ProtocolService
  import ProtocolJourney
  import ProtocolSafety

  /** A visit that redeems another credential leaves this one as presentable and as payable as it was,
      and as fresh if its hashes are others. */
  lemma OtherStaysRedeemableIff(g: Rules, w: World, later: World, c: Credential, request: HttpRequest,
                                other: Credential, invoice: Json)
    requires RedeemsOnce(g, w, later, c) && Redeemable(g, w, request, other, invoice)
    requires c.challenge.id != other.challenge.id && g.hash(c) != g.hash(other)
    ensures Presented(g, later, request) == Presented(g, w, request)
    ensures Redeemable(g, later, request, other, invoice) <==> c.paymentHash != other.paymentHash
  {
    hide ProtocolSafety.CallOf;
    assert StoredChallenges(later.db) == StoredChallenges(w.db);
    assert c.challenge.id in later.db.redemptions;
  }

  lemma OtherUntouched(g: Rules, w: World, step: Step, q: nat)
    requires !step.Tick? && !step.Restart? && step.r != q
    ensures var w' := Apply(g, w, step);
      && (q in w'.phases <==> q in w.phases) && (q in w.phases ==> w'.phases[q] == w.phases[q])
      && w'.config == w.config && w'.clock == w.clock
  {
    hide SaveChallenge, SaveDelivery, SaveReceipt, ConsumeRust, StoredChallenges, GetChallenge, DeliveryRow, ReceiptOf;
  }

  /** The steps of one request leave the phases of the others, the configuration and the clock. */
  lemma {:induction false} OthersUntouched(g: Rules, w: World, r: nat, steps: seq<Step>, q: nat)
    requires q != r && forall i :: 0 <= i < |steps| ==> !steps[i].Tick? && !steps[i].Restart? && steps[i].r == r
    ensures var w' := Run(g, w, steps);
      && (q in w'.phases <==> q in w.phases) && (q in w.phases ==> w'.phases[q] == w.phases[q])
      && w'.config == w.config && w'.clock == w.clock
    decreases steps
  {
    hide Apply;
    if steps != [] {
      OtherUntouched(g, w, steps[0], q);
      OthersUntouched(g, Apply(g, w, steps[0]), r, steps[1..], q);
    }
  }

  /** Two credentials that could each be redeemed now, of different challenges and with different
      hashes of their own, are both served, one after the other, exactly when their payment hashes are
      spelled differently; then an upstream call goes out for each. */
  lemma BothAreServedIff(g: Rules, w: World, a: nat, b: nat, request: HttpRequest, request': HttpRequest,
                         invoice: Json, invoice': Json, reply: HttpReply, reply': HttpReply)
    requires Inv(g, w) && a != b && a !in w.phases && b !in w.phases
    requires Presented(g, w, request).Some? && Presented(g, w, request').Some?
    requires Redeemable(g, w, request, Presented(g, w, request).value, invoice)
    requires Redeemable(g, w, request', Presented(g, w, request').value, invoice')
    requires var c, d := Presented(g, w, request).value, Presented(g, w, request').value;
      c.challenge.id != d.challenge.id && g.hash(c) != g.hash(d)
    requires Success(reply.status) && Success(reply'.status)
    ensures var c, d := Presented(g, w, request).value, Presented(g, w, request').value;
      var end := Run(g, w, Visit(a, request, invoice, reply) + Visit(b, request', invoice', reply'));
      && a in end.phases && Served(end.phases[a], reply) && b in end.phases
      && (Served(end.phases[b], reply') <==> c.paymentHash != d.paymentHash)
      && (c.paymentHash != d.paymentHash ==> TwoCalls(end.log, c.paymentHash, d.paymentHash))
  {
    hide Inv, Run, Presented, Redeemable, Served, RedeemsOnce, Evolves, TwoCalls;
    var c, d := Presented(g, w, request).value, Presented(g, w, request').value;
    var first := Run(g, w, Visit(a, request, invoice, reply));
    var end := Run(g, first, Visit(b, request', invoice', reply'));
    ProtocolSafety.RunSplits(g, w, Visit(a, request, invoice, reply), Visit(b, request', invoice', reply'));
    OthersUntouched(g, w, a, Visit(a, request, invoice, reply), b);
    OthersUntouched(g, first, b, Visit(b, request', invoice', reply'), a);
    hide Visit;
    ArrivalIsServedIff(g, w, a, request, invoice, reply);
    OtherStaysRedeemableIff(g, w, first, c, request', d, invoice');
    ProtocolSafety.RunKeeps(g, w, Visit(a, request, invoice, reply));
    ArrivalIsServedIff(g, first, b, request', invoice', reply');
    if c.paymentHash != d.paymentHash { CallsOfBoth(g, w, first, end, c, d); }
  }

  /** The log holds two calls, for redemptions of these payment hashes. */
  ghost predicate TwoCalls(log: seq<Event>, hash: string, hash': string) {
    exists i, j, x, y :: i != j && ProtocolSafety.CallOf(log, i, x) && ProtocolSafety.CallOf(log, j, y)
                         && x.paymentHash == hash && y.paymentHash == hash'
  }

  lemma CallsOfBoth(g: Rules, w: World, first: World, end: World, c: Credential, d: Credential)
    requires RedeemsOnce(g, w, first, c) && RedeemsOnce(g, first, end, d)
    ensures TwoCalls(end.log, c.paymentHash, d.paymentHash)
  {
    var x: RedemptionRecord :| x.paymentHash == c.paymentHash && ProtocolSafety.CallOf(first.log, |first.log| - 1, x);
    var y: RedemptionRecord :| y.paymentHash == d.paymentHash && ProtocolSafety.CallOf(end.log, |end.log| - 1, y);
    CallStays(first.log, end.log, |first.log| - 1, x);
  }

  lemma CallStays(log: seq<Event>, log': seq<Event>, i: nat, x: RedemptionRecord)
    requires log <= log' && ProtocolSafety.CallOf(log, i, x)
    ensures ProtocolSafety.CallOf(log', i, x)
  {
    assert log'[i] == log[i] && log'[log[i].consumedAt] == log[log[i].consumedAt];
  }

  // ---------------------------------------------------------------- such a run

  function PlainCharge(hash: string): Charge {
    Charge("1", "CKB", None, None, None, MethodDetails("invoice", hash, "dev", "sha256", None, map[]), map[])
  }

  function PlainRecord(hash: string): ChallengeRecord {
    ChallengeRecord(Challenge(hash, "realm", "fiber", "charge", "request", None, None, None, None, map[]), Null, Null,
                    "", "")
  }

  /** Rules under which an invoice is its payment hash and counts as paid, a challenge has that hash for
      its id, and a header shows the credential of the challenge that it names. */
  function PlainRules(): Rules {
    Rules(
      (config: Config, stored: map<string, Challenge>, header: string, now: int) =>
        if header in stored then Some(Credential(stored[header], None, header, map[], map[])) else None,
      (config: Config, request: HttpRequest) => Null,
      (config: Config, invoice: Json, now: int) => if invoice.Str? then Some(PlainCharge(invoice.text)) else None,
      (config: Config, charge: Charge, resource: Json, now: int) => Some(PlainRecord(charge.methodDetails.paymentHash)),
      (c: Challenge) => Some("header"),
      (config: Config, charge: Charge, record: ChallengeRecord, nonce: string, issued: int) => Some(None),
      (config: Config, record: ChallengeRecord, presented: Credential, resource: Json, now: int) =>
        Some(PlainCharge(presented.paymentHash)),
      (config: Config, charge: Charge, presented: Credential, invoice: Json, now: int) => Paid(Null),
      (presented: Credential) => presented.paymentHash,
      (upstream: HttpReply, receipt: Option<Receipt>) => upstream,
      (now: int) => "now")
  }

  function Plain(authorization: Option<string>): HttpRequest { HttpRequest("GET", "/", None, authorization, "") }

  lemma PlainOffer(w: World, r: nat, hash: string)
    requires r !in w.phases
    ensures var end := Run(PlainRules(), w, ProtocolJourney.Asking(r, Plain(None), Str(hash), ""));
      && end.db == SaveChallenge(w.db, hash, PlainRecord(hash)) && end.phases.Keys == w.phases.Keys + {r}
      && end.config == w.config && end.clock == w.clock
  {
    var g := PlainRules();
    assert g.charge(w.config, Str(hash), w.clock) == Some(PlainCharge(hash));
    ProtocolJourney.AskingStoresTheOffer(g, w, r, Plain(None), Str(hash), "");
    hide Run, SaveChallenge, ProtocolJourney.Asking;
  }

  lemma PlainRedeemable(w: World, hash: string)
    requires Unconsumed(w.db, hash) && w.db.challenges[hash].record == PlainRecord(hash) && w.db.redemptions == map[]
    ensures var g, c := PlainRules(), Credential(PlainRecord(hash).challenge, None, hash, map[], map[]);
      && Presented(g, w, Plain(Some(hash))) == Some(c) && Redeemable(g, w, Plain(Some(hash)), c, Null)
      && g.hash(c) == hash
  {}

  lemma TwoOffers(w: World, one: string, other: string)
    requires one != other && w.db == EMPTY && w.phases == map[]
    ensures var g := PlainRules();
      var end := Run(g, w, ProtocolJourney.Asking(0, Plain(None), Str(one), "")
                           + ProtocolJourney.Asking(1, Plain(None), Str(other), ""));
      && end.db.challenges == map[one := ChallengeRow(PlainRecord(one), None),
                                  other := ChallengeRow(PlainRecord(other), None)]
      && end.db.redemptions == map[] && end.phases.Keys == {0, 1}
  {
    hide Run, PlainRules, ProtocolJourney.Asking, PlainRecord, Plain;
    var g := PlainRules();
    var first := ProtocolJourney.Asking(0, Plain(None), Str(one), "");
    PlainOffer(w, 0, one);
    PlainOffer(Run(g, w, first), 1, other);
    ProtocolSafety.RunSplits(g, w, first, ProtocolJourney.Asking(1, Plain(None), Str(other), ""));
  }

  lemma PlainRun(config: Config, clock: int, one: string, other: string) returns (steps: seq<Step>)
    requires one != other
    ensures TwoCalls(Run(PlainRules(), Init(config, clock), steps).log, one, other)
  {
    hide Run, PlainRules, PlainRecord, Plain, Inv, Served, Presented, Redeemable, TwoCalls, Evolves,
      ProtocolJourney.Asking, Visit;
    var g, w0, reply := PlainRules(), Init(config, clock), HttpReply(200, [], "");
    var asking := ProtocolJourney.Asking(0, Plain(None), Str(one), "")
      + ProtocolJourney.Asking(1, Plain(None), Str(other), "");
    var visits := Visit(2, Plain(Some(one)), Null, reply) + Visit(3, Plain(Some(other)), Null, reply);
    var w := Run(g, w0, asking);
    TwoOffers(w0, one, other);
    ProtocolSafety.ReachableIsInv(g, config, clock, asking);
    PlainRedeemable(w, one);
    PlainRedeemable(w, other);
    PlainIds(one, other);
    BothAreServedIff(g, w, 2, 3, Plain(Some(one)), Plain(Some(other)), Null, Null, reply, reply);
    steps := asking + visits;
    ProtocolSafety.RunSplits(g, w0, asking, visits);
  }

  lemma PlainIds(one: string, other: string)
    ensures PlainRecord(one).challenge.id == one && PlainRecord(other).challenge.id == other
  {}

  /** A run in which two calls go out for hashes that differ in letter case only. */
  lemma TwoSpellingsTwoCalls(config: Config, clock: int) returns (steps: seq<Step>, lower: string, upper: string)
    ensures EqIgnoreAsciiCase(lower, upper) && lower != upper
    ensures TwoCalls(Run(PlainRules(), Init(config, clock), steps).log, lower, upper)
  {
    hide Run, PlainRules, TwoCalls;
    lower, upper := "0xa", "0xA";
    assert Lower(lower) == Lower(upper);
    steps := PlainRun(config, clock, lower, upper);
  }
}
