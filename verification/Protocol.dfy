/** The redemption protocol as a state machine: any number of requests, each advancing by one atomic
    step at a time (one store lock, one reply of the node or the upstream, one reading of the clock),
    interleaved with each other, with time, with aborted requests and with restarts. The decisions
    that steps take are parameters here; GatewayProtocol fills in the gateway's own. */
module Protocol {
  import opened Wrappers
  import opened Json
  import opened Wire
  import opened Storage
  import opened Delivery
  import opened Gateway

  /** What verify_paid makes of one answer of the node. */
  datatype Judgement = Paid(settlement: Json) | Refused | Erroneous | Waiting

  /** The decisions of the gateway that depend on no shared state:
      - present: credential_from_authorization, given the stored challenges, the header and the time
      - resource: resource_descriptor
      - charge: create_charge, given the answer of new_invoice and the time
      - issue: the challenge and its record, for a charge and a resource at a time
      - header: www_authenticate_header
      - grant: issue_fl402_challenge, which fails, has nothing to issue, or signs this payload, given a
        nonce and the time
      - check: verify_credential between get_challenge and verify_paid
      - judge: verify_paid on one answer of the node
      - hash: credential_hash
      - respond: the response that finish_upstream builds
      - stamp: an instant in RFC 3339 */
  datatype Rules = Rules(
    present: (Config, map<string, Challenge>, string, int) -> Option<Credential>,
    resource: (Config, HttpRequest) -> Json,
    charge: (Config, Json, int) -> Option<Charge>,
    issue: (Config, Charge, Json, int) -> Option<ChallengeRecord>,
    header: Challenge -> Option<string>,
    grant: (Config, Charge, ChallengeRecord, string, int) -> Option<Option<Json>>,
    check: (Config, ChallengeRecord, Credential, Json, int) -> Option<Charge>,
    judge: (Config, Charge, Credential, Json, int) -> Judgement,
    hash: Credential -> string,
    respond: (HttpReply, Option<Receipt>) -> HttpReply,
    stamp: int -> string)

  datatype Outcome =
    | Challenged(header: string)
    | Answered(upstream: HttpReply, response: HttpReply, receipt: Option<Receipt>)
    | Broken
    | Lost

  /** Where a request is. shownAt, verifiedAt, reportedAt and consumedAt point into the log. */
  datatype Phase =
    | Arrived(request: HttpRequest)
    | Issuing(request: HttpRequest)
    | Invoicing(request: HttpRequest, since: int)
    | Storing(request: HttpRequest, since: int, invoice: Json, at: int, charge: Charge, record: ChallengeRecord)
    | Verifying(request: HttpRequest, presented: Credential, shownAt: nat)
    | Checking(request: HttpRequest, presented: Credential, shownAt: nat, record: ChallengeRecord)
    | Polling(request: HttpRequest, presented: Credential, charge: Charge, verifiedAt: nat)
    | Settled(request: HttpRequest, presented: Credential, settlement: Json, reportedAt: nat)
    | Redeemed(request: HttpRequest, redemption: VerifiedRedemption, consumedAt: nat)
    | Calling(redemption: VerifiedRedemption, consumedAt: nat)
    | Replied(redemption: VerifiedRedemption, upstream: HttpReply, consumedAt: nat)
    | CallBroken(redemption: VerifiedRedemption, consumedAt: nat)
    | Receipting(redemption: VerifiedRedemption, upstream: HttpReply, now: string, consumedAt: nat)
    | Done(outcome: Outcome)

  /** What happened, for stating properties; no step reads the log. */
  datatype Event =
    | Offered(config: Config, request: HttpRequest, invoice: Json, at: int, charge: Charge, now: int,
              record: ChallengeRecord, inserted: bool, nonce: string, issued: int, granted: Option<Json>)
    | Shown(r: nat, request: HttpRequest, config: Config, stored: map<string, Challenge>, now: int,
            presented: Credential)
    | Verified(r: nat, shownAt: nat, request: HttpRequest, presented: Credential, record: ChallengeRecord,
               config: Config, now: int, charge: Charge)
    | Reported(r: nat, verifiedAt: nat, request: HttpRequest, presented: Credential, invoice: Json, now: int,
               settlement: Json)
    | Consumed(r: nat, reportedAt: nat, request: HttpRequest, presented: Credential, redemption: RedemptionRecord)
    | Called(r: nat, consumedAt: nat, request: HttpRequest)

  datatype World = World(config: Config, db: Db, clock: int, phases: map<nat, Phase>, log: seq<Event>)

  datatype NodeReply = Record(invoice: Json) | RpcFailed

  datatype Step =
    | Arrive(r: nat, request: HttpRequest)
    | Authenticate(r: nat)
    | Quote(r: nat)
    | NewInvoice(r: nat, invoice: Option<Json>)
    | Store(r: nat, nonce: string)
    | Fetch(r: nat)
    | Check(r: nat)
    | Poll(r: nat, answer: NodeReply, timedOut: bool)
    | Consume(r: nat)
    | Call(r: nat)
    | Receive(r: nat, upstream: Option<HttpReply>)
    | RecordDelivery(r: nat)
    | RecordReceipt(r: nat)
    | Abort(r: nat)
    | Tick(elapsed: nat)
    | Restart(config: Config)

  function Init(config: Config, clock: int): World { World(config, EMPTY, clock, map[], []) }

  function Move(w: World, r: nat, phase: Phase): World { w.(phases := w.phases[r := phase]) }

  function Logged(w: World, event: Event): World { w.(log := w.log + [event]) }

  /** credential_from_authorization; without a readable credential the request is issued a challenge. */
  function DoAuthenticate(g: Rules, w: World, r: nat): World
    requires r in w.phases && w.phases[r].Arrived?
  {
    var request := w.phases[r].request;
    var stored := StoredChallenges(w.db);
    match request.authorization
    case None => Move(w, r, Issuing(request))
    case Some(header) =>
      match g.present(w.config, stored, header, w.clock)
      case None => Move(w, r, Issuing(request))
      case Some(presented) =>
        Logged(Move(w, r, Verifying(request, presented, |w.log|)),
               Shown(r, request, w.config, stored, w.clock, presented))
  }

  /** issue_challenge once new_invoice has answered. */
  function DoNewInvoice(g: Rules, w: World, r: nat, invoice: Option<Json>): World
    requires r in w.phases && w.phases[r].Invoicing?
  {
    var p := w.phases[r];
    match invoice
    case None => Move(w, r, Done(Broken))
    case Some(answer) =>
      match g.charge(w.config, answer, w.clock)
      case None => Move(w, r, Done(Broken))
      case Some(charge) =>
        match g.issue(w.config, charge, g.resource(w.config, p.request), p.since)
        case None => Move(w, r, Done(Broken))
        case Some(record) => Move(w, r, Storing(p.request, p.since, answer, w.clock, charge, record))
  }

  /** save_challenge, then the 402 answer with its header and its capability, if any. */
  function DoStore(g: Rules, w: World, r: nat, nonce: string): World
    requires r in w.phases && w.phases[r].Storing?
  {
    var p := w.phases[r];
    var id := p.record.challenge.id;
    var (outcome, granted) :=
      match (g.header(p.record.challenge), g.grant(w.config, p.charge, p.record, nonce, w.clock))
      case (Some(header), Some(payload)) => (Challenged(header), payload)
      case _ => (Broken, None);
    Logged(Move(w, r, Done(outcome)).(db := SaveChallenge(w.db, id, p.record)),
           Offered(w.config, p.request, p.invoice, p.at, p.charge, p.since, p.record, id !in w.db.challenges,
                   nonce, w.clock, granted))
  }

  /** get_challenge at the start of verify_credential. */
  function DoFetch(w: World, r: nat): World
    requires r in w.phases && w.phases[r].Verifying?
  {
    var p := w.phases[r];
    match GetChallenge(w.db, p.presented.challenge.id)
    case Some(record) => Move(w, r, Checking(p.request, p.presented, p.shownAt, record))
    case None => Move(w, r, Issuing(p.request))
  }

  /** The checks of verify_credential. */
  function DoCheck(g: Rules, w: World, r: nat): World
    requires r in w.phases && w.phases[r].Checking?
  {
    var p := w.phases[r];
    match g.check(w.config, p.record, p.presented, g.resource(w.config, p.request), w.clock)
    case None => Move(w, r, Issuing(p.request))
    case Some(charge) =>
      Logged(Move(w, r, Polling(p.request, p.presented, charge, |w.log|)),
             Verified(r, p.shownAt, p.request, p.presented, p.record, w.config, w.clock, charge))
  }

  /** One get_invoice answer in the loop of verify_paid. */
  function DoPoll(g: Rules, w: World, r: nat, answer: NodeReply, timedOut: bool): World
    requires r in w.phases && w.phases[r].Polling?
  {
    var p := w.phases[r];
    match answer
    case RpcFailed => Move(w, r, Done(Broken))
    case Record(invoice) =>
      match g.judge(w.config, p.charge, p.presented, invoice, w.clock)
      case Paid(settlement) =>
        Logged(Move(w, r, Settled(p.request, p.presented, settlement, |w.log|)),
               Reported(r, p.verifiedAt, p.request, p.presented, invoice, w.clock, settlement))
      case Refused => Move(w, r, Issuing(p.request))
      case Erroneous => Move(w, r, Done(Broken))
      case Waiting => if timedOut then Move(w, r, Done(Broken)) else w
  }

  /** consume_redemption; a replay is issued a fresh challenge. */
  function DoConsume(g: Rules, w: World, r: nat): World
    requires r in w.phases && w.phases[r].Settled?
  {
    var p := w.phases[r];
    var redemption := RedemptionRecord(p.presented.challenge.id, g.hash(p.presented), p.presented.paymentHash,
                                       p.settlement, g.stamp(w.clock));
    match ConsumeRust(w.db, redemption)
    case (_, Answer(false)) => Move(w, r, Issuing(p.request))
    case (_, Raised(_)) => Move(w, r, Done(Broken))
    case (consumed, Answer(true)) =>
      var v := VerifiedRedemption(redemption.challengeId, redemption.credentialHash, redemption.paymentHash,
                                  p.settlement);
      Logged(Move(w, r, Redeemed(p.request, v, |w.log|)).(db := consumed),
             Consumed(r, p.reportedAt, p.request, p.presented, redemption))
  }

  /** The upstream call goes out. */
  function DoCall(w: World, r: nat): World
    requires r in w.phases && w.phases[r].Redeemed?
  {
    var p := w.phases[r];
    Logged(Move(w, r, Calling(p.redemption, p.consumedAt)), Called(r, p.consumedAt, p.request))
  }

  function DoReceive(w: World, r: nat, upstream: Option<HttpReply>): World
    requires r in w.phases && w.phases[r].Calling?
  {
    var p := w.phases[r];
    match upstream
    case None => Move(w, r, CallBroken(p.redemption, p.consumedAt))
    case Some(reply) => Move(w, r, Replied(p.redemption, reply, p.consumedAt))
  }

  /** What save_delivery records of the call. */
  function DeliveryRow(phase: Phase, now: string): DeliveryOutcome
    requires phase.Replied? || phase.CallBroken?
  {
    if phase.Replied? then Delivery.Outcome(phase.redemption, phase.upstream.status, now)
        else CallFailed(phase.redemption, now)
  }

  /** save_delivery: the first lock of finish_upstream, or the only one of the error branch. */
  function DoRecordDelivery(g: Rules, w: World, r: nat): World
    requires r in w.phases && (w.phases[r].Replied? || w.phases[r].CallBroken?)
  {
    var p := w.phases[r];
    var now := g.stamp(w.clock);
    match SaveDelivery(w.db, DeliveryRow(p, now))
    case Err(_) => Move(w, r, Done(Broken))
    case Ok(db) =>
      Move(w, r, if p.CallBroken? then Done(Broken)
                 else if Success(p.upstream.status) then Receipting(p.redemption, p.upstream, now, p.consumedAt)
                 else Done(Answered(p.upstream, g.respond(p.upstream, None), None))).(db := db)
  }

  /** save_receipt: the second lock of finish_upstream, then the answer. */
  function DoRecordReceipt(g: Rules, w: World, r: nat): World
    requires r in w.phases && w.phases[r].Receipting?
  {
    var p := w.phases[r];
    var receipt := ReceiptOf(p.redemption, p.now);
    match SaveReceipt(w.db, receipt)
    case Err(_) => Move(w, r, Done(Broken))
    case Ok(db) =>
      Move(w, r, Done(Answered(p.upstream, g.respond(p.upstream, Some(receipt)), Some(receipt)))).(db := db)
  }

  /** A restart keeps the database and loses every request under way. */
  function DoRestart(w: World, config: Config): World {
    w.(config := config, phases := map r | r in w.phases :: if w.phases[r].Done? then w.phases[r] else Done(Lost))
  }

  /** One step; a step that is not enabled changes nothing. */
  function Apply(g: Rules, w: World, step: Step): World {
    match step
    case Tick(elapsed) => w.(clock := w.clock + elapsed)
    case Restart(config) => DoRestart(w, config)
    case Arrive(r, request) => if r in w.phases then w else Move(w, r, Arrived(request))
    case _ => if step.r !in w.phases then w else Advance(g, w, step)
  }

  /** A step of a request under way. */
  function Advance(g: Rules, w: World, step: Step): World
    requires !step.Tick? && !step.Restart? && step.r in w.phases
  {
    var r := step.r;
    var phase := w.phases[r];
    match step
    case Authenticate(_) => if phase.Arrived? then DoAuthenticate(g, w, r) else w
    case Quote(_) => if phase.Issuing? then Move(w, r, Invoicing(phase.request, w.clock)) else w
    case NewInvoice(_, invoice) => if phase.Invoicing? then DoNewInvoice(g, w, r, invoice) else w
    case Store(_, nonce) => if phase.Storing? then DoStore(g, w, r, nonce) else w
    case Fetch(_) => if phase.Verifying? then DoFetch(w, r) else w
    case Check(_) => if phase.Checking? then DoCheck(g, w, r) else w
    case Poll(_, answer, timedOut) => if phase.Polling? then DoPoll(g, w, r, answer, timedOut) else w
    case Consume(_) => if phase.Settled? then DoConsume(g, w, r) else w
    case Call(_) => if phase.Redeemed? then DoCall(w, r) else w
    case Receive(_, upstream) => if phase.Calling? then DoReceive(w, r, upstream) else w
    case RecordDelivery(_) => if phase.Replied? || phase.CallBroken? then DoRecordDelivery(g, w, r) else w
    case RecordReceipt(_) => if phase.Receipting? then DoRecordReceipt(g, w, r) else w
    case _ => if phase.Done? then w else Move(w, r, Done(Lost))
  }

  function Run(g: Rules, w: World, steps: seq<Step>): World
    decreases |steps|
  {
    if steps == [] then w else Run(g, Apply(g, w, steps[0]), steps[1..])
  }
}
