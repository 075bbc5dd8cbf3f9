/** What every run guarantees, whatever the decisions, the interleaving, the node, the upstream, the
    clients and the restarts. */
module ProtocolSafety {
  import opened Wrappers
  import opened Text
  import opened Storage
  import opened Gateway
  import opened Delivery
  import opened Protocol
  import opened ProtocolInvariant
  import opened ProtocolSteps

  // ---------------------------------------------------------------- runs

  lemma {:induction false} RunKeeps(g: Rules, w: World, steps: seq<Step>)
    requires Inv(g, w)
    ensures Inv(g, Run(g, w, steps)) && Evolves(w.db, Run(g, w, steps).db)
    decreases |steps|
  {
    hide Inv, Evolves, Apply;
    if steps == [] {
      SparesSelf(w.db);
    } else {
      var next := Apply(g, w, steps[0]);
      StepKeeps(g, w, steps[0]);
      RunKeeps(g, next, steps[1..]);
      EvolvesTransitive(w.db, next.db, Run(g, w, steps).db);
    }
  }

  lemma {:induction false} RunSplits(g: Rules, w: World, first: seq<Step>, second: seq<Step>)
    ensures Run(g, w, first + second) == Run(g, Run(g, w, first), second)
    decreases |first|
  {
    hide Apply;
    if first == [] {
      assert first + second == second;
    } else {
      assert (first + second)[1..] == first[1..] + second;
      RunSplits(g, Apply(g, w, first[0]), first[1..], second);
    }
  }

  lemma ReachableIsInv(g: Rules, config: Config, clock: int, steps: seq<Step>)
    ensures Inv(g, Run(g, Init(config, clock), steps))
  {
    assert Inv(g, Init(config, clock)) by { hide Run, PhaseOk; }
    hide Inv, Run, Evolves, Init;
    RunKeeps(g, Init(config, clock), steps);
  }

  // ---------------------------------------------------------------- at most one upstream call

  /** The i-th event is an upstream call, made for this redemption. */
  predicate CallOf(log: seq<Event>, i: nat, x: RedemptionRecord) {
    && i < |log| && log[i].Called? && log[i].consumedAt < |log|
    && log[log[i].consumedAt].Consumed? && log[log[i].consumedAt].redemption == x
  }

  /** In every run each challenge id, each credential hash and each payment hash causes at most one
      upstream call, whichever scheme the credentials came by. */
  lemma AtMostOneUpstreamCall(g: Rules, config: Config, clock: int, steps: seq<Step>,
                              i: nat, j: nat, x: RedemptionRecord, y: RedemptionRecord)
    requires var log := Run(g, Init(config, clock), steps).log; CallOf(log, i, x) && CallOf(log, j, y)
    requires x.challengeId == y.challengeId || x.credentialHash == y.credentialHash || x.paymentHash == y.paymentHash
    ensures i == j
  {
    hide Run, Linked, ReceiptsBacked, RowsInserted, PhasesOk, ConsumptionsKept, LogOk, CallsKept;
    var w := Run(g, Init(config, clock), steps);
    ReachableIsInv(g, config, clock, steps);
    SameRedemption(w.log, w.db, w.log[i].consumedAt, w.log[j].consumedAt);
    CallsFromOneRequest(g, w.log, w.phases, i, j);
  }

  lemma SameRedemption(log: seq<Event>, db: Db, c: nat, d: nat)
    requires Linked(db) && ConsumptionsKept(log, db)
    requires c < |log| && log[c].Consumed? && d < |log| && log[d].Consumed?
    requires var x, y := log[c].redemption, log[d].redemption;
      x.challengeId == y.challengeId || x.credentialHash == y.credentialHash || x.paymentHash == y.paymentHash
    ensures c == d
  {
    var x, y := log[c].redemption, log[d].redemption;
    assert db.redemptions[x.challengeId] == x && db.redemptions[y.challengeId] == y;
    assert x.challengeId == y.challengeId;
    OneConsumption(log, db, c, d);
  }

  lemma CallsFromOneRequest(g: Rules, log: seq<Event>, phases: map<nat, Phase>, i: nat, j: nat)
    requires LogOk(g, log) && CallsKept(log, phases)
    requires i < |log| && j < |log| && log[i].Called? && log[j].Called? && log[i].consumedAt == log[j].consumedAt
    ensures i == j
  {
    assert EventOk(g, log, i) && EventOk(g, log, j);
    assert log[i].r == log[j].r;
  }

  /** The comparison of payment hashes is exact, as in the UNIQUE column: calls for hashes that differ
      in letter case at most are one call exactly when the hashes are spelled alike. */
  lemma OneCallPerSpelling(g: Rules, config: Config, clock: int, steps: seq<Step>,
                           i: nat, j: nat, x: RedemptionRecord, y: RedemptionRecord)
    requires var log := Run(g, Init(config, clock), steps).log; CallOf(log, i, x) && CallOf(log, j, y)
    requires EqIgnoreAsciiCase(x.paymentHash, y.paymentHash)
    ensures i == j <==> x.paymentHash == y.paymentHash
  {
    hide Run, EqIgnoreAsciiCase;
    if x.paymentHash == y.paymentHash { AtMostOneUpstreamCall(g, config, clock, steps, i, j, x, y); }
  }

  // ---------------------------------------------------------------- the history of a call

  /** Positions s, q, v, p, c lead up to the call at i: the challenge was inserted at s, the credential
      shown at q and verified at v, its invoice reported paid at p and the redemption consumed at c. */
  ghost predicate LeadsTo(log: seq<Event>, s: nat, q: nat, v: nat, p: nat, c: nat, i: nat) {
    && s < v && q < v < p < c < i < |log|
    && log[s].Offered? && log[q].Shown? && log[v].Verified? && log[p].Reported? && log[c].Consumed? && log[i].Called?
    && log[s].inserted && log[v].record == log[s].record
    && log[v].shownAt == q && log[p].verifiedAt == v && log[c].reportedAt == p && log[i].consumedAt == c
    && log[q].r == log[v].r == log[p].r == log[c].r == log[i].r
    && log[q].request == log[v].request == log[i].request
    && log[q].presented == log[v].presented == log[p].presented == log[c].presented
    && log[q].config == log[v].config && log[q].now <= log[v].now
  }

  /** Every upstream call of every run has such a history, each event of which is in order. */
  lemma CallsHaveHistory(g: Rules, config: Config, clock: int, steps: seq<Step>, i: nat)
    returns (s: nat, q: nat, v: nat, p: nat, c: nat)
    requires var log := Run(g, Init(config, clock), steps).log; i < |log| && log[i].Called?
    ensures var log := Run(g, Init(config, clock), steps).log;
      && LeadsTo(log, s, q, v, p, c, i)
      && EventOk(g, log, s) && EventOk(g, log, q) && EventOk(g, log, v) && EventOk(g, log, p) && EventOk(g, log, c)
  {
    hide Run;
    ReachableIsInv(g, config, clock, steps);
    hide Linked, ReceiptsBacked, RowsInserted, PhasesOk, ConsumptionsKept, CallsKept;
    var log := Run(g, Init(config, clock), steps).log;
    assert EventOk(g, log, i);
    c := log[i].consumedAt;
    assert EventOk(g, log, c);
    p := log[c].reportedAt;
    assert EventOk(g, log, p);
    v := log[p].verifiedAt;
    assert EventOk(g, log, v);
    q := log[v].shownAt;
    s :| s < v && s < |log| && log[s].Offered? && log[s].inserted && log[s].record == log[v].record;
    assert EventOk(g, log, q) && EventOk(g, log, s);
  }

  // ---------------------------------------------------------------- the tables

  /** The row records what became of the call: delivered iff the upstream answered with a success, the
      status of any answer, and the reference of the receipt to come. */
  predicate RecordsDelivery(phase: Phase, row: DeliveryOutcome)
    requires phase.Replied? || phase.CallBroken?
  {
    && row.status == (if phase.Replied? && Success(phase.upstream.status) then Delivered else Failed)
    && row.responseStatus == (if phase.Replied? then Some(phase.upstream.status) else None)
    && row.receiptReference == (if row.status == Delivered then Some(phase.redemption.paymentHash) else None)
    && row.credentialHash == phase.redemption.credentialHash && row.paymentHash == phase.redemption.paymentHash
  }

  /** In every reachable database challenges, redemptions and deliveries agree and every receipt
      belongs to a delivered row; no write of the protocol fails or is dropped: consuming never
      raises, recording a delivery replaces the pending row, and recording a receipt inserts it. */
  lemma NoWriteIsDropped(g: Rules, config: Config, clock: int, steps: seq<Step>, r: nat, x: RedemptionRecord)
    ensures var w := Run(g, Init(config, clock), steps);
      && Linked(w.db) && ReceiptsBacked(w.db)
      && !ConsumeRust(w.db, x).1.Raised?
      && (r in w.phases && (w.phases[r].Replied? || w.phases[r].CallBroken?) ==>
            var id := w.phases[r].redemption.challengeId;
            && id in w.db.deliveries && w.db.deliveries[id].status == Pending
            && var after := DoRecordDelivery(g, w, r).db;
               id in after.deliveries && RecordsDelivery(w.phases[r], after.deliveries[id]))
      && (r in w.phases && w.phases[r].Receipting? ==>
            var receipt := ReceiptOf(w.phases[r].redemption, w.phases[r].now);
            && receipt.reference !in w.db.receipts
            && var after := DoRecordReceipt(g, w, r).db;
               receipt.reference in after.receipts && after.receipts[receipt.reference].receipt == receipt)
  {
    hide Run, Inv, Linked, ReceiptsBacked, ConsumeRust, DoRecordDelivery, DoRecordReceipt, Safe;
    var w := Run(g, Init(config, clock), steps);
    ReachableIsInv(g, config, clock, steps);
    UseTables(g, w);
    ConsumeIff(w.db, x);
    if r in w.phases {
      if w.phases[r].Replied? || w.phases[r].CallBroken? {
        RecordDeliveryIsSafe(g, w, r);
      } else if w.phases[r].Receipting? {
        RecordReceiptIsSafe(g, w, r);
      }
    }
  }

  /** Over any further steps of any run no row disappears, a stored challenge changes at most by being
      consumed, redemptions and receipts stay as they are, and a delivery row that has left pending is
      never rewritten. */
  lemma TablesOnlyEvolve(g: Rules, config: Config, clock: int, steps: seq<Step>, more: seq<Step>)
    ensures Evolves(Run(g, Init(config, clock), steps).db, Run(g, Init(config, clock), steps + more).db)
  {
    hide Inv, Run, Evolves;
    ReachableIsInv(g, config, clock, steps);
    RunKeeps(g, Run(g, Init(config, clock), steps), more);
    RunSplits(g, Init(config, clock), steps, more);
  }

  /** In every run a response is the one built for the upstream's reply, with a receipt exactly when
      the upstream's status was a success; the receipt is then stored behind the delivered row. */
  lemma ResponsesAreBacked(g: Rules, config: Config, clock: int, steps: seq<Step>, r: nat)
    requires var w := Run(g, Init(config, clock), steps);
        r in w.phases && w.phases[r].Done? && w.phases[r].outcome.Answered?
    ensures var w := Run(g, Init(config, clock), steps);
      var answer := w.phases[r].outcome;
      && answer.response == g.respond(answer.upstream, answer.receipt)
      && (answer.receipt.Some? <==> Success(answer.upstream.status))
      && (answer.receipt.Some? ==> Backed(w.db, answer.receipt.value, answer.upstream.status))
  {
    hide Run, Inv, Backed;
    ReachableIsInv(g, config, clock, steps);
    UsePhase(g, Run(g, Init(config, clock), steps), r);
  }
}
