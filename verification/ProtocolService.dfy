/** The other side of safety: which visits are served. A request that runs through the protocol
    undisturbed gets its upstream response and receipt exactly when its credential is redeemable. */
module ProtocolService {
  import opened Wrappers
  import opened Json
  import opened Wire
  import opened Storage
  import opened Gateway
  import opened Delivery
  import opened Protocol
  import opened ProtocolInvariant
  import opened ProtocolSteps
  import ProtocolSafety

  // ---------------------------------------------------------------- an undisturbed visit

  function Ending(r: nat, reply: HttpReply): seq<Step> {
    [Call(r), Receive(r, Some(reply)), RecordDelivery(r), RecordReceipt(r)]
  }

  function Paying(r: nat, invoice: Json, reply: HttpReply): seq<Step> {
    [Poll(r, Record(invoice), false), Consume(r)] + Ending(r, reply)
  }

  function Visit(r: nat, request: HttpRequest, invoice: Json, reply: HttpReply): seq<Step> {
    [Arrive(r, request), Authenticate(r), Fetch(r), Check(r)] + Paying(r, invoice, reply)
  }

  predicate Served(phase: Phase, reply: HttpReply) {
    IsAnswered(phase, reply) && phase.outcome.receipt.Some?
  }

  /** The request is answered with the upstream's reply, and a receipt if that is a success. */
  predicate IsAnswered(phase: Phase, reply: HttpReply) {
    && phase.Done? && phase.outcome.Answered? && phase.outcome.upstream == reply
    && (phase.outcome.receipt.Some? <==> Success(reply.status))
  }

  /** The credential that the request presents, by either scheme. */
  function Presented(g: Rules, w: World, request: HttpRequest): Option<Credential> {
    match request.authorization
    case None => None
    case Some(header) => g.present(w.config, StoredChallenges(w.db), header, w.clock)
  }

  /** Neither the challenge nor either hash was redeemed before. */
  ghost predicate Fresh(g: Rules, db: Db, presented: Credential) {
    && Unconsumed(db, presented.challenge.id)
    && forall id :: id in db.redemptions ==>
         && db.redemptions[id].credentialHash != g.hash(presented)
         && db.redemptions[id].paymentHash != presented.paymentHash
  }

  /** What the checks and the node make of a credential against this record: failing the checks counts
      as refused. */
  function Verdict(g: Rules, w: World, request: HttpRequest, presented: Credential, record: ChallengeRecord,
                   invoice: Json): Judgement {
    match g.check(w.config, record, presented, g.resource(w.config, request), w.clock)
    case None => Refused
    case Some(charge) => g.judge(w.config, charge, presented, invoice, w.clock)
  }

  /** The same from the stored record of what the request presents, if there is either. */
  function VerdictOn(g: Rules, w: World, request: HttpRequest, presented: Option<Credential>,
                     invoice: Json): Judgement {
    if presented.None? || presented.value.challenge.id !in w.db.challenges then Refused
    else Verdict(g, w, request, presented.value, w.db.challenges[presented.value.challenge.id].record, invoice)
  }

  /** Where a visit that is not served ends: a refused credential and a replay are on their way to a fresh
      challenge, a node's error breaks the request off, and an unpaid invoice is still polled. */
  predicate Unserved(verdict: Judgement, request: HttpRequest, phase: Phase) {
    match verdict
    case Erroneous => phase == Done(Broken)
    case Waiting => phase.Polling? && phase.request == request
    case _ => phase == Issuing(request)
  }

  /** The credential belongs to a stored challenge, passes its checks and is paid for. */
  predicate Payable(g: Rules, w: World, request: HttpRequest, presented: Credential, invoice: Json) {
    && presented.challenge.id in w.db.challenges
    && Verdict(g, w, request, presented, w.db.challenges[presented.challenge.id].record, invoice).Paid?
  }

  ghost predicate Redeemable(g: Rules, w: World, request: HttpRequest, presented: Credential, invoice: Json) {
    Payable(g, w, request, presented, invoice) && Fresh(g, w.db, presented)
  }

  /** From w to end the credential is redeemed, once: its redemption is the only new one, its challenge
      the only one marked, and the last event is the upstream call made for it. */
  ghost predicate RedeemsOnce(g: Rules, w: World, end: World, c: Credential) {
    && c.challenge.id in w.db.challenges && end.config == w.config && end.clock == w.clock && w.log < end.log
    && exists x: RedemptionRecord ::
         && x.challengeId == c.challenge.id && x.credentialHash == g.hash(c) && x.paymentHash == c.paymentHash
         && x.consumedAt == g.stamp(w.clock) && end.db.redemptions == w.db.redemptions[x.challengeId := x]
         && end.db.challenges ==
            w.db.challenges[x.challengeId := w.db.challenges[x.challengeId].(consumedAt := Some(x.consumedAt))]
         && ProtocolSafety.CallOf(end.log, |end.log| - 1, x)
  }

  lemma RedeemsFrom(g: Rules, w: World, later: World, end: World, c: Credential)
    requires RedeemsOnce(g, later, end, c)
    requires later.db == w.db && later.config == w.config && later.clock == w.clock && w.log <= later.log
    ensures RedeemsOnce(g, w, end, c)
  {
    hide ProtocolSafety.CallOf;
  }

  // ---------------------------------------------------------------- runs step by step

  lemma RunStep(g: Rules, w: World, step: Step, rest: seq<Step>)
    ensures Run(g, w, [step] + rest) == Run(g, Apply(g, w, step), rest)
    ensures Run(g, w, [step]) == Apply(g, w, step)
  {
    hide Apply;
    assert ([step] + rest)[1..] == rest && [step][1..] == [];
  }

  /** What Apply makes of a step that is enabled. */
  lemma Enabled(g: Rules, w: World, r: nat)
    requires r in w.phases
    ensures w.phases[r].Arrived? ==> Apply(g, w, Authenticate(r)) == DoAuthenticate(g, w, r)
    ensures w.phases[r].Verifying? ==> Apply(g, w, Fetch(r)) == DoFetch(w, r)
    ensures w.phases[r].Checking? ==> Apply(g, w, Check(r)) == DoCheck(g, w, r)
    ensures w.phases[r].Settled? ==> Apply(g, w, Consume(r)) == DoConsume(g, w, r)
    ensures w.phases[r].Redeemed? ==> Apply(g, w, Call(r)) == DoCall(w, r)
    ensures w.phases[r].Replied? ==> Apply(g, w, RecordDelivery(r)) == DoRecordDelivery(g, w, r)
    ensures w.phases[r].Receipting? ==> Apply(g, w, RecordReceipt(r)) == DoRecordReceipt(g, w, r)
  {
    hide DoAuthenticate, DoFetch, DoCheck, DoConsume, DoCall, DoRecordDelivery, DoRecordReceipt;
  }

  lemma EnabledPoll(g: Rules, w: World, r: nat, answer: NodeReply, timedOut: bool)
    requires r in w.phases && w.phases[r].Polling?
    ensures Apply(g, w, Poll(r, answer, timedOut)) == DoPoll(g, w, r, answer, timedOut)
  {
    hide DoPoll;
  }

  lemma EnabledReceive(g: Rules, w: World, r: nat, upstream: Option<HttpReply>)
    requires r in w.phases && w.phases[r].Calling?
    ensures Apply(g, w, Receive(r, upstream)) == DoReceive(w, r, upstream)
  {
    hide DoReceive;
  }

  predicate Idle(phase: Phase, step: Step) {
    (phase.Issuing? && !step.Quote? && !step.Abort?) || (phase.Polling? && !step.Poll? && !step.Abort?) || phase.Done?
  }

  /** Steps of the request that find nothing to do. */
  lemma {:induction false} IdleRun(g: Rules, w: World, r: nat, steps: seq<Step>)
    requires r in w.phases
    requires forall i :: 0 <= i < |steps| ==>
      !steps[i].Tick? && !steps[i].Restart? && !steps[i].Arrive? && steps[i].r == r && Idle(w.phases[r], steps[i])
    ensures Run(g, w, steps) == w
    decreases |steps|
  {
    hide DoAuthenticate, DoNewInvoice, DoStore, DoFetch, DoCheck, DoPoll, DoConsume, DoCall, DoReceive,
      DoRecordDelivery, DoRecordReceipt;
    if steps != [] {
      assert Apply(g, w, steps[0]) == w;
      IdleRun(g, w, r, steps[1..]);
    }
  }

  // ---------------------------------------------------------------- from the end backwards

  /** The two recording steps of a request that the upstream has answered. */
  lemma RecordingServes(g: Rules, w: World, r: nat)
    requires Inv(g, w) && r in w.phases && w.phases[r].Replied?
    ensures var p, now := w.phases[r], g.stamp(w.clock);
      var receipt := ReceiptOf(p.redemption, now);
      var recorded := WithDelivery(w.db, Delivery.Outcome(p.redemption, p.upstream.status, now));
      var end := Run(g, w, [RecordDelivery(r), RecordReceipt(r)]);
      if Success(p.upstream.status)
      then SaveReceipt(recorded, receipt) == Ok(WithReceipt(recorded, receipt))
           && end == Move(w, r, Done(Answered(p.upstream, g.respond(p.upstream, Some(receipt)), Some(receipt)))).(
                       db := WithReceipt(recorded, receipt))
      else end == Move(w, r, Done(Answered(p.upstream, g.respond(p.upstream, None), None))).(db := recorded)
  {
    hide Inv, Evolves, Apply, Run, SaveReceipt, SaveDelivery, Delivery.Outcome, Linked, ReceiptsBacked;
    Enabled(g, w, r);
    RecordDeliveryIsSafe(g, w, r);
    var p, now := w.phases[r], g.stamp(w.clock);
    var w1 := DoRecordDelivery(g, w, r);
    RunStep(g, w, RecordDelivery(r), [RecordReceipt(r)]);
    assert [RecordDelivery(r)] + [RecordReceipt(r)] == [RecordDelivery(r), RecordReceipt(r)];
    RunStep(g, w1, RecordReceipt(r), []);
    DeliveryLeads(g, w, r);
    hide DoRecordDelivery, DoRecordReceipt;
    Enabled(g, w1, r);
    if Success(p.upstream.status) {
      RecordReceiptIsSafe(g, w1, r);
      ReceiptIsSaved(g, w1, r);
    } else {
      IdleRun(g, w1, r, [RecordReceipt(r)]);
      RunStep(g, w1, RecordReceipt(r), []);
    }
  }

  lemma DeliveryLeads(g: Rules, w: World, r: nat)
    requires Inv(g, w) && r in w.phases && w.phases[r].Replied?
    ensures var p, now := w.phases[r], g.stamp(w.clock);
      DoRecordDelivery(g, w, r) ==
      Move(w, r, if Success(p.upstream.status) then Receipting(p.redemption, p.upstream, now, p.consumedAt)
                 else Done(Answered(p.upstream, g.respond(p.upstream, None), None))).(
        db := WithDelivery(w.db, Delivery.Outcome(p.redemption, p.upstream.status, now)))
  {
    hide Inv, Linked, ReceiptsBacked, RowsInserted, ConsumptionsKept, Evolves, Spares, Receipted, SaveDelivery;
    UsePhase(g, w, r);
    UseTables(g, w);
    RecordedTables(w.db, DeliveryRow(w.phases[r], g.stamp(w.clock)));
  }

  lemma ReceiptIsSaved(g: Rules, w: World, r: nat)
    requires Inv(g, w) && r in w.phases && w.phases[r].Receipting?
    ensures var receipt := ReceiptOf(w.phases[r].redemption, w.phases[r].now);
      SaveReceipt(w.db, receipt) == Ok(WithReceipt(w.db, receipt))
  {
    hide Inv, Linked, ReceiptsBacked, RowsInserted, ConsumptionsKept, Evolves, Spares, Receipted, SaveReceipt;
    UsePhase(g, w, r);
    UseTables(g, w);
    ReceiptedTables(w.db, ReceiptOf(w.phases[r].redemption, w.phases[r].now));
  }

  lemma EndingServes(g: Rules, w: World, r: nat, reply: HttpReply)
    requires Inv(g, w) && r in w.phases && w.phases[r].Redeemed?
    ensures var end := Run(g, w, Ending(r, reply));
      && r in end.phases && IsAnswered(end.phases[r], reply)
      && end.db.challenges == w.db.challenges && end.db.redemptions == w.db.redemptions
      && end.config == w.config && end.clock == w.clock
      && end.log == w.log + [Called(r, w.phases[r].consumedAt, w.phases[r].request)]
  {
    hide Inv, Evolves, Apply, Run, Owns, Receipted;
    var w1 := DoCall(w, r);
    var w2 := DoReceive(w1, r, Some(reply));
    var rest := [RecordDelivery(r), RecordReceipt(r)];
    Enabled(g, w, r);
    CallIsSafe(g, w, r);
    EnabledReceive(g, w1, r, Some(reply));
    UsePhase(g, w1, r);
    QuietIsSafe(g, w1, r, w2.phases[r]);
    assert Ending(r, reply) == [Call(r)] + ([Receive(r, Some(reply))] + rest);
    RunStep(g, w, Call(r), [Receive(r, Some(reply))] + rest);
    RunStep(g, w1, Receive(r, Some(reply)), rest);
    hide PhaseOk;
    RecordingServes(g, w2, r);
  }

  lemma PayingServes(g: Rules, w: World, r: nat, invoice: Json, reply: HttpReply)
    requires Inv(g, w) && r in w.phases && w.phases[r].Polling?
    ensures var p, end := w.phases[r], Run(g, w, Paying(r, invoice, reply));
      var verdict := g.judge(w.config, p.charge, p.presented, invoice, w.clock);
      && r in end.phases
      && if verdict.Paid? && Fresh(g, w.db, p.presented)
         then IsAnswered(end.phases[r], reply) && RedeemsOnce(g, w, end, p.presented)
         else Unserved(verdict, p.request, end.phases[r]) && end.db == w.db
  {
    hide Inv, Evolves, Apply, Run, Fresh, RedeemsOnce;
    var p := w.phases[r];
    var w1 := DoPoll(g, w, r, Record(invoice), false);
    var rest := [Consume(r)] + Ending(r, reply);
    EnabledPoll(g, w, r, Record(invoice), false);
    assert Paying(r, invoice, reply) == [Poll(r, Record(invoice), false)] + rest;
    RunStep(g, w, Poll(r, Record(invoice), false), rest);
    if w1.phases[r].Settled? {
      PollIsSafe(g, w, r, Record(invoice), false);
      hide DoConsume;
      ConsumeLeads(g, w1, r);
      ConsumeIsSafe(g, w1, r);
      Enabled(g, w1, r);
      RunStep(g, w1, Consume(r), Ending(r, reply));
      var w2 := DoConsume(g, w1, r);
      if Fresh(g, w.db, p.presented) {
        EndingServes(g, w2, r, reply);
        ConsumedOnce(g, w1, w2, Run(g, w2, Ending(r, reply)), r);
        RedeemsFrom(g, w, w1, Run(g, w2, Ending(r, reply)), p.presented);
      } else {
        IdleRun(g, w2, r, Ending(r, reply));
      }
    } else {
      IdleRun(g, w1, r, rest);
    }
  }

  lemma ConsumeLeads(g: Rules, w: World, r: nat)
    requires Inv(g, w) && r in w.phases && w.phases[r].Settled?
    ensures var p, w' := w.phases[r], DoConsume(g, w, r);
      && r in w'.phases
      && var x := RedemptionRecord(p.presented.challenge.id, g.hash(p.presented), p.presented.paymentHash,
                                   p.settlement, g.stamp(w.clock));
         if Fresh(g, w.db, p.presented)
         then
           && x.challengeId in w.db.challenges && w'.config == w.config && w'.clock == w.clock
           && w'.phases[r].Redeemed? && w'.phases[r].consumedAt == |w.log| && w'.db == Storage.Consumed(w.db, x)
           && w'.log == w.log + [Event.Consumed(r, p.reportedAt, p.request, p.presented, x)]
         else w' == Move(w, r, Issuing(p.request))
  {
    hide Inv, Linked, ReceiptsBacked, RowsInserted, ConsumptionsKept, ConsumeRust, Unconsumed;
    var p := w.phases[r];
    UseTables(g, w);
    ConsumeIff(w.db, RedemptionRecord(p.presented.challenge.id, g.hash(p.presented), p.presented.paymentHash,
                                      p.settlement, g.stamp(w.clock)));
  }

  /** What follows the consumption adds the call to the log and changes neither table. */
  lemma ConsumedOnce(g: Rules, w: World, consumed: World, end: World, r: nat)
    requires Inv(g, w) && r in w.phases && w.phases[r].Settled? && Fresh(g, w.db, w.phases[r].presented)
    requires consumed == DoConsume(g, w, r) && r in consumed.phases && consumed.phases[r].Redeemed?
    requires end.db.challenges == consumed.db.challenges && end.db.redemptions == consumed.db.redemptions
    requires end.config == consumed.config && end.clock == consumed.clock
    requires end.log == consumed.log + [Called(r, consumed.phases[r].consumedAt, consumed.phases[r].request)]
    ensures RedeemsOnce(g, w, end, w.phases[r].presented)
  {
    hide Inv, DoConsume, Fresh;
    var p := w.phases[r];
    ConsumeLeads(g, w, r);
    var x := RedemptionRecord(p.presented.challenge.id, g.hash(p.presented), p.presented.paymentHash,
                              p.settlement, g.stamp(w.clock));
    assert end.log[|w.log|] == Event.Consumed(r, p.reportedAt, p.request, p.presented, x);
    assert ProtocolSafety.CallOf(end.log, |end.log| - 1, x);
  }

  /** To a request that is being issued a challenge the rest of a visit means nothing. */
  lemma PayingIsIdle(w: World, r: nat, invoice: Json, reply: HttpReply)
    ensures forall step, request :: step in Paying(r, invoice, reply) ==>
      !step.Tick? && !step.Restart? && !step.Arrive? && step.r == r && Idle(Issuing(request), step)
  {
    assert Paying(r, invoice, reply) == [Poll(r, Record(invoice), false), Consume(r), Call(r), Receive(r, Some(reply)),
                                         RecordDelivery(r), RecordReceipt(r)];
  }

  lemma CheckingServes(g: Rules, w: World, r: nat, invoice: Json, reply: HttpReply)
    requires Inv(g, w) && r in w.phases && w.phases[r].Checking?
    ensures var p, end := w.phases[r], Run(g, w, [Check(r)] + Paying(r, invoice, reply));
      var verdict := Verdict(g, w, p.request, p.presented, p.record, invoice);
      && r in end.phases
      && if verdict.Paid? && Fresh(g, w.db, p.presented)
         then IsAnswered(end.phases[r], reply) && RedeemsOnce(g, w, end, p.presented)
         else Unserved(verdict, p.request, end.phases[r]) && end.db == w.db
  {
    hide Inv, Evolves, Apply, Run, Fresh, Paying, RedeemsOnce;
    PayingIsIdle(w, r, invoice, reply);
    RunStep(g, w, Check(r), Paying(r, invoice, reply));
    var w' := DoCheck(g, w, r);
    Enabled(g, w, r);
    CheckIsSafe(g, w, r);
    if w'.phases[r].Polling? {
      PayingServes(g, w', r, invoice, reply);
      var end := Run(g, w', Paying(r, invoice, reply));
      if RedeemsOnce(g, w', end, w'.phases[r].presented) { RedeemsFrom(g, w, w', end, w'.phases[r].presented); }
    } else {
      IdleRun(g, w', r, Paying(r, invoice, reply));
    }
  }

  lemma VerifyingServes(g: Rules, w: World, r: nat, invoice: Json, reply: HttpReply)
    requires Inv(g, w) && r in w.phases && w.phases[r].Verifying?
    ensures var p := w.phases[r];
      var end := Run(g, w, [Fetch(r), Check(r)] + Paying(r, invoice, reply));
      && r in end.phases
      && if Redeemable(g, w, p.request, p.presented, invoice)
         then IsAnswered(end.phases[r], reply) && RedeemsOnce(g, w, end, p.presented)
         else
           Unserved(VerdictOn(g, w, p.request, Some(p.presented), invoice), p.request, end.phases[r]) && end.db == w.db
  {
    hide Inv, Evolves, Apply, Run, Fresh, Paying, RedeemsOnce;
    var w' := DoFetch(w, r);
    var rest := [Check(r)] + Paying(r, invoice, reply);
    Enabled(g, w, r);
    PayingIsIdle(w, r, invoice, reply);
    assert [Fetch(r), Check(r)] + Paying(r, invoice, reply) == [Fetch(r)] + rest;
    RunStep(g, w, Fetch(r), rest);
    if w'.phases[r].Checking? {
      FetchIsSafe(g, w, r);
      CheckingServes(g, w', r, invoice, reply);
      var end := Run(g, w', rest);
      if RedeemsOnce(g, w', end, w'.phases[r].presented) { RedeemsFrom(g, w, w', end, w'.phases[r].presented); }
    } else {
      IdleRun(g, w', r, rest);
    }
  }

  lemma ArrivalIsServedIff(g: Rules, w: World, r: nat, request: HttpRequest, invoice: Json, reply: HttpReply)
    requires Inv(g, w) && r !in w.phases
    ensures var end := Run(g, w, Visit(r, request, invoice, reply));
      var presented := Presented(g, w, request);
      && r in end.phases
      && (Served(end.phases[r], reply) <==>
            presented.Some? && Redeemable(g, w, request, presented.value, invoice) && Success(reply.status))
      && if presented.Some? && Redeemable(g, w, request, presented.value, invoice)
         then IsAnswered(end.phases[r], reply) && RedeemsOnce(g, w, end, presented.value)
         else Unserved(VerdictOn(g, w, request, presented, invoice), request, end.phases[r]) && end.db == w.db
  {
    hide Evolves, Run, Fresh, Paying, Redeemable, Payable, RedeemsOnce;
    StepKeeps(g, w, Arrive(r, request));
    hide Inv;
    var w1 := Move(w, r, Arrived(request));
    var w2 := DoAuthenticate(g, w1, r);
    var rest := [Fetch(r), Check(r)] + Paying(r, invoice, reply);
    assert Apply(g, w, Arrive(r, request)) == w1;
    Enabled(g, w1, r);
    AuthenticateLeads(g, w1, r);
    hide Apply, DoAuthenticate, Presented;
    PayingIsIdle(w, r, invoice, reply);
    assert Presented(g, w1, request) == Presented(g, w, request) by { SamePresented(g, w, w1, request); }
    PayableAlike(g, w, w2, request, invoice);
    assert Visit(r, request, invoice, reply) == [Arrive(r, request)] + ([Authenticate(r)] + rest);
    RunStep(g, w, Arrive(r, request), [Authenticate(r)] + rest);
    RunStep(g, w1, Authenticate(r), rest);
    AuthenticateIsSafe(g, w1, r);
    if w2.phases[r].Verifying? {
      VerifyingServes(g, w2, r, invoice, reply);
      var end := Run(g, w2, rest);
      if RedeemsOnce(g, w2, end, w2.phases[r].presented) { RedeemsFrom(g, w, w2, end, w2.phases[r].presented); }
    } else {
      IdleRun(g, w2, r, rest);
    }
  }

  lemma AuthenticateLeads(g: Rules, w: World, r: nat)
    requires r in w.phases && w.phases[r].Arrived?
    ensures var request, w' := w.phases[r].request, DoAuthenticate(g, w, r);
      var presented := Presented(g, w, request);
      && r in w'.phases && w'.db == w.db && w'.config == w.config && w'.clock == w.clock && w.log <= w'.log
      && w'.phases[r] == if presented.Some? then Verifying(request, presented.value, |w.log|) else Issuing(request)
  {}

  lemma SamePresented(g: Rules, w: World, w': World, request: HttpRequest)
    requires w'.db == w.db && w'.config == w.config && w'.clock == w.clock
    ensures Presented(g, w', request) == Presented(g, w, request)
  {}

  lemma PayableAlike(g: Rules, w: World, w': World, request: HttpRequest, invoice: Json)
    requires w'.db == w.db && w'.config == w.config && w'.clock == w.clock
    ensures forall c :: Payable(g, w', request, c, invoice) == Payable(g, w, request, c, invoice)
    ensures forall c :: Redeemable(g, w', request, c, invoice) == Redeemable(g, w, request, c, invoice)
    ensures forall c :: VerdictOn(g, w', request, c, invoice) == VerdictOn(g, w, request, c, invoice)
  {}

  /** From any reachable state a new request that meets no disturbance is answered with the upstream's
      reply and a receipt exactly when the upstream succeeds and the presented credential is
      redeemable: its challenge is stored and passes the checks, the node's answer counts as paid, and
      neither the challenge nor its hashes were redeemed before. When only the last is missing, the
      replay is on its way to a fresh challenge. */
  lemma VisitIsServedIff(g: Rules, config: Config, clock: int, steps: seq<Step>, r: nat, request: HttpRequest,
                         invoice: Json, reply: HttpReply)
    requires r !in Run(g, Init(config, clock), steps).phases
    ensures var w := Run(g, Init(config, clock), steps);
      var end := Run(g, Init(config, clock), steps + Visit(r, request, invoice, reply));
      var presented := Presented(g, w, request);
      && r in end.phases
      && (Served(end.phases[r], reply) <==>
            presented.Some? && Redeemable(g, w, request, presented.value, invoice) && Success(reply.status))
      && if presented.Some? && Redeemable(g, w, request, presented.value, invoice)
         then IsAnswered(end.phases[r], reply) && RedeemsOnce(g, w, end, presented.value)
         else Unserved(VerdictOn(g, w, request, presented, invoice), request, end.phases[r]) && end.db == w.db
  {
    hide Run, Inv, Served, Presented, Redeemable, Payable, Fresh, RedeemsOnce;
    ProtocolSafety.ReachableIsInv(g, config, clock, steps);
    ProtocolSafety.RunSplits(g, Init(config, clock), steps, Visit(r, request, invoice, reply));
    ArrivalIsServedIff(g, Run(g, Init(config, clock), steps), r, request, invoice, reply);
  }
}
