/** The inductive invariant of the redemption protocol: whatever the decisions are, history, tables
    and phases fit together. */
module ProtocolInvariant {
  import opened Wrappers
  import opened Wire
  import opened Storage
  import opened Gateway
  import opened Delivery
  import opened Protocol

  // ---------------------------------------------------------------- the log

  /** Before position n the gateway inserted this record into its challenges. */
  ghost predicate InsertedBefore(log: seq<Event>, n: nat, record: ChallengeRecord) {
    exists i :: 0 <= i < n && i < |log| && log[i].Offered? && log[i].inserted && log[i].record == record
  }

  /** The challenge stored under an id was inserted before. */
  ghost predicate ChallengeInserted(log: seq<Event>, n: nat, id: string, challenge: Challenge) {
    && challenge.id == id
    && exists record: ChallengeRecord :: InsertedBefore(log, n, record) && record.challenge == challenge
  }

  /** Each event follows from the events before it. */
  ghost predicate EventOk(g: Rules, log: seq<Event>, i: nat)
    requires i < |log|
  {
    match log[i]
    case Offered(config, request, invoice, at, charge, now, record, inserted, nonce, issued, granted) =>
      && g.charge(config, invoice, at) == Some(charge)
      && g.issue(config, charge, g.resource(config, request), now) == Some(record)
      && (inserted || exists c: Challenge :: ChallengeInserted(log, i, record.challenge.id, c))
      && (granted.Some? ==> g.grant(config, charge, record, nonce, issued) == Some(granted))
    case Shown(_, request, config, stored, now, presented) =>
      && request.authorization.Some?
      && g.present(config, stored, request.authorization.value, now) == Some(presented)
      && forall id :: id in stored ==> ChallengeInserted(log, i, id, stored[id])
    case Verified(r, q, request, presented, record, config, now, charge) =>
      && q < i && log[q].Shown? && log[q].r == r && log[q].request == request && log[q].presented == presented
      && log[q].now <= now && log[q].config == config
      && InsertedBefore(log, i, record)
      && g.check(config, record, presented, g.resource(config, request), now) == Some(charge)
    case Reported(r, v, request, presented, invoice, now, settlement) =>
      && v < i && log[v].Verified? && log[v].r == r && log[v].request == request && log[v].presented == presented
      && g.judge(log[v].config, log[v].charge, presented, invoice, now) == Paid(settlement)
    case Consumed(r, p, request, presented, redemption) =>
      && p < i && log[p].Reported? && log[p].r == r && log[p].request == request && log[p].presented == presented
      && redemption.challengeId == presented.challenge.id && redemption.paymentHash == presented.paymentHash
      && redemption.credentialHash == g.hash(presented) && redemption.settlement == log[p].settlement
    case Called(r, c, request) =>
      c < i && log[c].Consumed? && log[c].r == r && log[c].request == request
  }

  ghost predicate LogOk(g: Rules, log: seq<Event>) {
    forall i :: 0 <= i < |log| ==> EventOk(g, log, i)
  }

  predicate Extends(log: seq<Event>, log': seq<Event>) {
    log' == log || (|log'| == |log| + 1 && log'[..|log|] == log)
  }

  lemma InsertedGrows(log: seq<Event>, log': seq<Event>, n: nat, n': nat, record: ChallengeRecord)
    requires Extends(log, log') && n <= n' && InsertedBefore(log, n, record)
    ensures InsertedBefore(log', n', record)
  {
    var i :| 0 <= i < n && i < |log| && log[i].Offered? && log[i].inserted && log[i].record == record;
    assert log'[i] == log[i];
  }

  lemma ChallengeGrows(log: seq<Event>, log': seq<Event>, n: nat, n': nat, id: string, c: Challenge)
    requires Extends(log, log') && n <= n' && ChallengeInserted(log, n, id, c)
    ensures ChallengeInserted(log', n', id, c)
  {
    var record: ChallengeRecord :| InsertedBefore(log, n, record) && record.challenge == c;
    InsertedGrows(log, log', n, n', record);
  }

  lemma EventKept(g: Rules, log: seq<Event>, log': seq<Event>, i: nat)
    requires Extends(log, log') && i < |log| && EventOk(g, log, i)
    ensures EventOk(g, log', i)
  {
    hide InsertedBefore, ChallengeInserted;
    assert forall j :: 0 <= j < |log| ==> log'[j] == log[j];
    match log[i]
    case Verified(_, _, _, _, record, _, _, _) => InsertedGrows(log, log', i, i, record);
    case Shown(_, _, _, stored, _, _) =>
      forall id | id in stored ensures ChallengeInserted(log', i, id, stored[id]) {
        ChallengeGrows(log, log', i, i, id, stored[id]);
      }
    case Offered(_, _, _, _, _, _, record, inserted, _, _, _) =>
      if !inserted {
        var c: Challenge :| ChallengeInserted(log, i, record.challenge.id, c);
        ChallengeGrows(log, log', i, i, record.challenge.id, c);
      }
    case _ =>
  }

  lemma LogExtends(g: Rules, log: seq<Event>, event: Event)
    requires LogOk(g, log) && EventOk(g, log + [event], |log|)
    ensures LogOk(g, log + [event])
  {
    hide EventOk;
    assert (log + [event])[..|log|] == log;
    forall i | 0 <= i < |log| ensures EventOk(g, log + [event], i) { EventKept(g, log, log + [event], i); }
  }

  // ---------------------------------------------------------------- log, tables and phases

  /** Every stored challenge was put there by a logged insertion. */
  ghost predicate RowsInserted(log: seq<Event>, db: Db) {
    forall id :: id in db.challenges ==>
      db.challenges[id].record.challenge.id == id && InsertedBefore(log, |log|, db.challenges[id].record)
  }

  /** Every consumption is on record, and no challenge is consumed twice. */
  ghost predicate ConsumptionsKept(log: seq<Event>, db: Db) {
    && (forall i :: 0 <= i < |log| && log[i].Consumed? ==>
          var x := log[i].redemption; x.challengeId in db.redemptions && db.redemptions[x.challengeId] == x)
    && (forall i, j :: 0 <= i < j < |log| && log[i].Consumed? && log[j].Consumed? ==>
          log[i].redemption.challengeId != log[j].redemption.challengeId)
  }

  /** The request has sent its call, or never will. */
  predicate Past(phase: Phase) {
    phase.Calling? || phase.Replied? || phase.CallBroken? || phase.Receipting? || phase.Done?
  }

  /** No request calls twice. */
  ghost predicate CallsKept(log: seq<Event>, phases: map<nat, Phase>) {
    && (forall i :: 0 <= i < |log| && log[i].Called? ==> log[i].r in phases && Past(phases[log[i].r]))
    && (forall i, j :: 0 <= i < j < |log| && log[i].Called? && log[j].Called? ==> log[i].r != log[j].r)
  }

  /** The request owns the redemption of a challenge. */
  ghost predicate Owns(log: seq<Event>, db: Db, r: nat, v: VerifiedRedemption, c: nat) {
    && c < |log| && log[c].Consumed? && log[c].r == r
    && var x := log[c].redemption;
       && v == VerifiedRedemption(x.challengeId, x.credentialHash, x.paymentHash, x.settlement)
       && v.challengeId in db.redemptions && db.redemptions[v.challengeId] == x && v.challengeId in db.deliveries
  }

  ghost predicate Holds(log: seq<Event>, db: Db, r: nat, v: VerifiedRedemption, c: nat) {
    Owns(log, db, r, v, c) && db.deliveries[v.challengeId].status == Pending
  }

  ghost predicate Receipted(db: Db, id: string) {
    exists k :: k in db.receipts && db.receipts[k].challengeId == id
  }

  /** The receipt is stored, behind a delivered row of its challenge. */
  ghost predicate Backed(db: Db, receipt: Receipt, status: int) {
    && receipt.reference in db.receipts && db.receipts[receipt.reference].receipt == receipt
    && receipt.challengeId in db.deliveries
    && var row := db.deliveries[receipt.challengeId];
       && row.status == Delivered && row.responseStatus == Some(status)
       && row.paymentHash == receipt.reference && row.receiptReference == Some(receipt.reference)
  }

  /** The request showed this credential, under the configuration in force. */
  ghost predicate ShownAt(w: World, r: nat, request: HttpRequest, presented: Credential, q: nat) {
    && q < |w.log| && w.log[q].Shown? && w.log[q].r == r && w.log[q].request == request
       && w.log[q].presented == presented
    && w.log[q].config == w.config && w.log[q].now <= w.clock
  }

  /** What holds of the world while a request is in a phase. */
  ghost predicate PhaseOk(g: Rules, w: World, r: nat, phase: Phase) {
    match phase
    case Storing(request, since, invoice, at, charge, record) =>
      && g.charge(w.config, invoice, at) == Some(charge)
      && g.issue(w.config, charge, g.resource(w.config, request), since) == Some(record)
    case Verifying(request, presented, q) => ShownAt(w, r, request, presented, q)
    case Checking(request, presented, q, record) =>
      ShownAt(w, r, request, presented, q) && InsertedBefore(w.log, |w.log|, record)
    case Polling(request, presented, charge, v) =>
      && v < |w.log| && w.log[v].Verified? && w.log[v].r == r && w.log[v].request == request
         && w.log[v].presented == presented
      && w.log[v].charge == charge && w.log[v].config == w.config
    case Settled(request, presented, settlement, p) =>
      && p < |w.log| && w.log[p].Reported? && w.log[p].r == r && w.log[p].request == request
         && w.log[p].presented == presented
      && w.log[p].settlement == settlement
    case Redeemed(request, v, c) => Holds(w.log, w.db, r, v, c) && w.log[c].request == request
    case Calling(v, c) => Holds(w.log, w.db, r, v, c)
    case Replied(v, _, c) => Holds(w.log, w.db, r, v, c)
    case CallBroken(v, c) => Holds(w.log, w.db, r, v, c)
    case Receipting(v, upstream, now, c) =>
      && Owns(w.log, w.db, r, v, c) && Success(upstream.status)
      && w.db.deliveries[v.challengeId] == Delivery.Outcome(v, upstream.status, now)
      && !Receipted(w.db, v.challengeId)
    case Done(Answered(upstream, response, receipt)) =>
      && response == g.respond(upstream, receipt)
      && (receipt.Some? <==> Success(upstream.status))
      && (receipt.Some? ==> Backed(w.db, receipt.value, upstream.status))
    case _ => true
  }

  ghost predicate PhasesOk(g: Rules, w: World) {
    forall r :: r in w.phases ==> PhaseOk(g, w, r, w.phases[r])
  }

  ghost predicate Inv(g: Rules, w: World) {
    && Linked(w.db) && ReceiptsBacked(w.db)
    && LogOk(g, w.log) && RowsInserted(w.log, w.db) && ConsumptionsKept(w.log, w.db) && CallsKept(w.log, w.phases)
    && PhasesOk(g, w)
  }

  // ---------------------------------------------------------------- phases that do not move

  /** The redemption whose delivery row a request is about to write, and its place in the log. */
  function Claim(phase: Phase): Option<(VerifiedRedemption, nat)> {
    match phase
    case Redeemed(_, v, c) => Some((v, c))
    case Calling(v, c) => Some((v, c))
    case Replied(v, _, c) => Some((v, c))
    case CallBroken(v, c) => Some((v, c))
    case Receipting(v, _, _, c) => Some((v, c))
    case _ => None
  }

  predicate Claims(phase: Phase, id: string) { Claim(phase).Some? && Claim(phase).value.0.challengeId == id }

  lemma ClaimIsOwned(g: Rules, w: World, r: nat)
    requires PhasesOk(g, w) && r in w.phases && Claim(w.phases[r]).Some?
    ensures Owns(w.log, w.db, r, Claim(w.phases[r]).value.0, Claim(w.phases[r]).value.1)
  {
    hide Owns, Receipted;
    assert PhaseOk(g, w, r, w.phases[r]);
  }

  lemma OneConsumption(log: seq<Event>, db: Db, i: nat, j: nat)
    requires ConsumptionsKept(log, db)
    requires i < |log| && j < |log| && log[i].Consumed? && log[j].Consumed?
    requires log[i].redemption.challengeId == log[j].redemption.challengeId
    ensures i == j
  {}

  /** No two requests are about to write the same delivery row. */
  lemma ClaimsDiffer(g: Rules, w: World, q: nat, r: nat, id: string)
    requires Inv(g, w) && q in w.phases && r in w.phases
    requires Claims(w.phases[q], id) && Claims(w.phases[r], id)
    ensures q == r
  {
    hide PhasesOk, LogOk, Linked, ReceiptsBacked, RowsInserted, CallsKept;
    ClaimIsOwned(g, w, q);
    ClaimIsOwned(g, w, r);
    OneConsumption(w.log, w.db, Claim(w.phases[q]).value.1, Claim(w.phases[r]).value.1);
  }

  /** What a step leaves alone of a challenge under way. */
  ghost predicate Spares(db: Db, db': Db, id: string) {
    && (id in db.redemptions ==> id in db'.redemptions && db'.redemptions[id] == db.redemptions[id])
    && (id in db.deliveries ==> id in db'.deliveries && db'.deliveries[id] == db.deliveries[id])
    && (!Receipted(db, id) ==> !Receipted(db', id))
  }

  lemma PhaseKept(g: Rules, w: World, w': World, r: nat, phase: Phase)
    requires PhaseOk(g, w, r, phase)
    requires w'.config == w.config && w.clock <= w'.clock && Extends(w.log, w'.log) && Evolves(w.db, w'.db)
    requires Claim(phase).Some? ==> Spares(w.db, w'.db, Claim(phase).value.0.challengeId)
    ensures PhaseOk(g, w', r, phase)
  {
    hide Delivery.Outcome, InsertedBefore, Receipted;
    assert forall i :: 0 <= i < |w.log| ==> w'.log[i] == w.log[i];
    if phase.Checking? { InsertedGrows(w.log, w'.log, |w.log|, |w'.log|, phase.record); }
  }

  /** A step of one request keeps the phases of all requests when it does what it must for its own. */
  lemma PhasesKept(g: Rules, w: World, w': World, r: nat)
    requires Inv(g, w) && r in w.phases && r in w'.phases
    requires w'.config == w.config && w'.clock == w.clock && w'.phases == w.phases[r := w'.phases[r]]
    requires Extends(w.log, w'.log) && Evolves(w.db, w'.db)
    requires forall id :: id in w.db.redemptions && !Claims(w.phases[r], id) ==> Spares(w.db, w'.db, id)
    requires PhaseOk(g, w', r, w'.phases[r])
    ensures PhasesOk(g, w')
  {
    hide PhaseOk, Linked, ReceiptsBacked, LogOk, RowsInserted, CallsKept, Evolves, Spares, Extends, Claim;
    forall q | q in w'.phases ensures PhaseOk(g, w', q, w'.phases[q]) {
      if q != r {
        assert w'.phases[q] == w.phases[q];
        if Claim(w.phases[q]).Some? {
          ClaimIsOwned(g, w, q);
          if Claims(w.phases[r], Claim(w.phases[q]).value.0.challengeId) {
            ClaimsDiffer(g, w, q, r, Claim(w.phases[q]).value.0.challengeId);
          }
        }
        PhaseKept(g, w, w', q, w.phases[q]);
      }
    }
  }
}
