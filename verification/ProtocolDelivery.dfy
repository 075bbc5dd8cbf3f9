/** What becomes of the upstream calls: no request that ends by itself leaves its delivery row pending. */
module ProtocolDelivery {
  import opened Wrappers
  import opened Json
  import opened Wire
  import opened Storage
  import opened Gateway
  import opened Delivery
  import opened Protocol
  import opened ProtocolInvariant
  import opened ProtocolSteps
  import ProtocolSafety
  import ProtocolService

  // ---------------------------------------------------------------- a call that fails

  /** When the upstream call itself fails the row of its challenge ends as failed, without a status and
      without a receipt; nothing else in the tables changes, and the request is answered with the error. */
  lemma FailedCallIsRecorded(g: Rules, config: Config, clock: int, steps: seq<Step>, r: nat)
    requires var w := Run(g, Init(config, clock), steps); r in w.phases && w.phases[r].Calling?
    ensures var w := Run(g, Init(config, clock), steps);
      var v := w.phases[r].redemption;
      var end := Run(g, w, [Receive(r, None), RecordDelivery(r)]);
      && end.phases == w.phases[r := Done(Broken)] && end.log == w.log
      && end.db == w.db.(deliveries := w.db.deliveries[v.challengeId :=
           DeliveryOutcome(v.challengeId, v.credentialHash, v.paymentHash, None, Failed, None, Some("upstream-error"),
                           Some("upstream request failed"), g.stamp(w.clock))])
  {
    hide Run, Inv, Evolves, PhaseOk;
    var w := Run(g, Init(config, clock), steps);
    ProtocolSafety.ReachableIsInv(g, config, clock, steps);
    var w' := DoReceive(w, r, None);
    UsePhase(g, w, r);
    ReceiveIsSafe(g, w, r, None);
    ProtocolService.EnabledReceive(g, w, r, None);
    assert [Receive(r, None)] + [RecordDelivery(r)] == [Receive(r, None), RecordDelivery(r)];
    ProtocolService.RunStep(g, w, Receive(r, None), [RecordDelivery(r)]);
    ProtocolService.RunStep(g, w', RecordDelivery(r), []);
    RecordDeliveryIsSafe(g, w', r);
    BrokenCallEnds(g, w', r);
  }

  /** When the upstream answers, the row of its challenge ends as delivered for a status from 200 to 299,
      with a receipt of the time at which the payment was observed, and as failed otherwise; nothing else in
      the tables changes, and the answer is the upstream's with that receipt. */
  lemma ReceivedCallIsRecorded(g: Rules, config: Config, clock: int, steps: seq<Step>, r: nat, reply: HttpReply)
    requires var w := Run(g, Init(config, clock), steps); r in w.phases && w.phases[r].Calling?
    ensures var w := Run(g, Init(config, clock), steps);
      var v, now, delivered := w.phases[r].redemption, g.stamp(w.clock), 200 <= reply.status < 300;
      var time := if GetStr(v.settlement, "observedAt").Some? then GetStr(v.settlement, "observedAt").value else now;
      var receipt := Receipt(time, v.paymentHash, v.challengeId);
      var kept := if delivered then Some(receipt) else None;
      var end := Run(g, w, [Receive(r, Some(reply)), RecordDelivery(r), RecordReceipt(r)]);
      && end.phases == w.phases[r := Done(Answered(reply, g.respond(reply, kept), kept))] && end.log == w.log
      && end.db.challenges == w.db.challenges && end.db.redemptions == w.db.redemptions
      && end.db.receipts ==
         (if delivered then w.db.receipts[v.paymentHash := ReceiptRow(v.challengeId, receipt)] else w.db.receipts)
      && end.db.deliveries == w.db.deliveries[v.challengeId :=
           DeliveryOutcome(v.challengeId, v.credentialHash, v.paymentHash,
                           if delivered then Some(v.paymentHash) else None, if delivered then Delivered else Failed,
                           Some(reply.status), if delivered then None else Some("upstream-non-success"), None, now)]
  {
    hide Run, Inv, Evolves, PhaseOk, SaveReceipt;
    var w := Run(g, Init(config, clock), steps);
    ProtocolSafety.ReachableIsInv(g, config, clock, steps);
    var w' := DoReceive(w, r, Some(reply));
    var rest := [RecordDelivery(r), RecordReceipt(r)];
    ReceiveIsSafe(g, w, r, Some(reply));
    ProtocolService.EnabledReceive(g, w, r, Some(reply));
    assert [Receive(r, Some(reply))] + rest == [Receive(r, Some(reply)), RecordDelivery(r), RecordReceipt(r)];
    ProtocolService.RunStep(g, w, Receive(r, Some(reply)), rest);
    hide Apply;
    ProtocolService.RecordingServes(g, w', r);
  }

  lemma ReceiveIsSafe(g: Rules, w: World, r: nat, upstream: Option<HttpReply>)
    requires Inv(g, w) && r in w.phases && w.phases[r].Calling?
    ensures Safe(g, w, DoReceive(w, r, upstream))
  {
    hide Inv, Safe;
    UsePhase(g, w, r);
    QuietIsSafe(g, w, r, DoReceive(w, r, upstream).phases[r]);
  }

  lemma BrokenCallEnds(g: Rules, w: World, r: nat)
    requires r in w.phases && w.phases[r].CallBroken?
    requires DoRecordDelivery(g, w, r).db == WithDelivery(w.db, DeliveryRow(w.phases[r], g.stamp(w.clock)))
    ensures Apply(g, w, RecordDelivery(r)) ==
            Move(w, r, Done(Broken)).(db := WithDelivery(w.db, DeliveryRow(w.phases[r], g.stamp(w.clock))))
  {}

  // ---------------------------------------------------------------- clock and configuration

  /** The time that passes in a run. */
  function Elapsed(steps: seq<Step>): nat {
    if steps == [] then 0 else (if steps[0].Tick? then steps[0].elapsed else 0) + Elapsed(steps[1..])
  }

  /** The configuration of the last restart, if there is one. */
  function Configured(config: Config, steps: seq<Step>): Config {
    if steps == [] then config
    else if steps[|steps| - 1].Restart? then steps[|steps| - 1].config
    else Configured(config, steps[..|steps| - 1])
  }

  lemma OneStep(g: Rules, w: World, step: Step)
    ensures Apply(g, w, step).clock == w.clock + (if step.Tick? then step.elapsed else 0)
    ensures Apply(g, w, step).config == if step.Restart? then step.config else w.config
  {
    hide SaveDelivery, SaveReceipt, ConsumeRust, StoredChallenges, SaveChallenge, GetChallenge, DeliveryRow;
  }

  /** Only time moves the clock, and only restarts change the configuration. */
  lemma {:induction false} ClockAndConfig(g: Rules, w: World, steps: seq<Step>)
    ensures Run(g, w, steps).clock == w.clock + Elapsed(steps)
    ensures Run(g, w, steps).config == Configured(w.config, steps)
    decreases |steps|
  {
    hide Apply;
    if steps != [] {
      OneStep(g, w, steps[0]);
      ClockAndConfig(g, Apply(g, w, steps[0]), steps[1..]);
      ConfiguredFirst(w.config, steps);
    }
  }

  lemma {:induction false} ConfiguredFirst(config: Config, steps: seq<Step>)
    requires steps != []
    ensures Configured(config, steps) ==
            Configured(if steps[0].Restart? then steps[0].config else config, steps[1..])
    decreases |steps|
  {
    if |steps| > 1 && !steps[|steps| - 1].Restart? {
      ConfiguredFirst(config, steps[..|steps| - 1]);
      assert steps[..|steps| - 1][1..] == steps[1..][..|steps| - 2];
    }
  }

  // ---------------------------------------------------------------- lost requests

  predicate UnderWay(w: World, r: nat) { r in w.phases && !w.phases[r].Done? }

  /** A request is lost by its own abortion and by a restart, while it is under way, and by nothing else. */
  lemma LostIff(g: Rules, w: World, step: Step, r: nat)
    requires r in w.phases
    ensures var w' := Apply(g, w, step);
      r in w'.phases && (w'.phases[r] == Done(Lost) <==>
        w.phases[r] == Done(Lost) || (UnderWay(w, r) && (step == Abort(r) || step.Restart?)))
  {
    hide SaveDelivery, SaveReceipt, ConsumeRust, StoredChallenges, SaveChallenge, GetChallenge, DeliveryRow;
  }

  // ---------------------------------------------------------------- what consumptions owe

  /** A consumption whose row is pending belongs to a request that has yet to write it, or was lost. */
  ghost predicate Owed(w: World, c: nat)
    requires c < |w.log| && w.log[c].Consumed?
  {
    var r, id := w.log[c].r, w.log[c].redemption.challengeId;
    && r in w.phases && id in w.db.deliveries
    && (w.db.deliveries[id].status == Pending ==>
          || w.phases[r] == Done(Lost)
          || (Claim(w.phases[r]).Some? && !w.phases[r].Receipting? && Claim(w.phases[r]).value.1 == c))
  }

  ghost predicate AllOwed(w: World) {
    forall c :: 0 <= c < |w.log| && w.log[c].Consumed? ==> Owed(w, c)
  }

  lemma PhaseMoves(g: Rules, w: World, step: Step, r: nat)
    requires Inv(g, w) && r in w.phases
        && !((w.phases[r].Replied? || w.phases[r].CallBroken?) && step == RecordDelivery(r))
    requires !w.phases[r].Receipting?
    ensures var w' := Apply(g, w, step);
      && w.log <= w'.log && r in w'.phases
      && (|| w'.phases[r] == Done(Lost)
          || ((Claim(w.phases[r]).Some? ==> !w'.phases[r].Receipting? && Claim(w'.phases[r]) == Claim(w.phases[r]))
              && (w.phases[r] == Done(Lost) ==> w'.phases[r] == Done(Lost))))
  {
    hide Inv, SaveDelivery, SaveReceipt, ConsumeRust, StoredChallenges, SaveChallenge, GetChallenge, DeliveryRow;
  }

  lemma LogGrows(g: Rules, w: World, step: Step)
    ensures w.log <= Apply(g, w, step).log && forall r :: r in w.phases ==> r in Apply(g, w, step).phases
  {
    hide SaveDelivery, SaveReceipt, ConsumeRust, StoredChallenges, SaveChallenge, GetChallenge, DeliveryRow;
  }

  /** A step writes the row, leaves the claim, or loses the request. */
  lemma OwedStays(g: Rules, w: World, step: Step, c: nat)
    requires Inv(g, w) && c < |w.log| && w.log[c].Consumed? && Owed(w, c)
    ensures var w' := Apply(g, w, step); c < |w'.log| && w'.log[c] == w.log[c] && Owed(w', c)
  {
    hide Inv, Apply, Evolves;
    StepKeeps(g, w, step);
    LogGrows(g, w, step);
    var r, w' := w.log[c].r, Apply(g, w, step);
    if w.db.deliveries[w.log[c].redemption.challengeId].status != Pending {
      SettledStays(w, w', w.log[c].redemption.challengeId);
    } else if step == RecordDelivery(r) && (w.phases[r].Replied? || w.phases[r].CallBroken?) {
      WrittenNow(g, w, r, c);
    } else {
      PhaseMoves(g, w, step, r);
      hide Claim;
      SettledStays(w, w', w.log[c].redemption.challengeId);
    }
  }

  lemma SettledStays(w: World, w': World, id: string)
    requires Evolves(w.db, w'.db) && id in w.db.deliveries
    ensures id in w'.db.deliveries && (w.db.deliveries[id].status != Pending ==> w'.db.deliveries[id].status != Pending)
  {}

  lemma WrittenNow(g: Rules, w: World, r: nat, c: nat)
    requires Inv(g, w) && r in w.phases && (w.phases[r].Replied? || w.phases[r].CallBroken?)
    requires c < |w.log| && w.log[c].Consumed? && w.phases[r].consumedAt == c
    ensures var w', id := Apply(g, w, RecordDelivery(r)), w.log[c].redemption.challengeId;
      r in w'.phases && id in w'.db.deliveries && w'.db.deliveries[id].status != Pending
  {
    hide Inv, Evolves, Linked, ReceiptsBacked, SaveDelivery, Safe;
    UsePhase(g, w, r);
    RecordDeliveryIsSafe(g, w, r);
  }

  lemma NothingConsumed(g: Rules, w: World, step: Step)
    requires !(step.Consume? && step.r in w.phases && w.phases[step.r].Settled?)
    ensures var w' := Apply(g, w, step); |w'.log| > |w.log| ==> !w'.log[|w.log|].Consumed?
  {
    hide DoConsume, SaveDelivery, SaveReceipt, StoredChallenges, SaveChallenge, GetChallenge, DeliveryRow;
  }

  lemma NewIsOwed(g: Rules, w: World, step: Step)
    requires Inv(g, w)
    ensures var w' := Apply(g, w, step);
      |w'.log| > |w.log| && w'.log[|w.log|].Consumed? ==> |w'.log| == |w.log| + 1 && Owed(w', |w.log|)
  {
    hide Inv, Apply, DoConsume, ProtocolService.Fresh;
    if step.Consume? && step.r in w.phases && w.phases[step.r].Settled? {
      ProtocolService.Enabled(g, w, step.r);
      ProtocolService.ConsumeLeads(g, w, step.r);
    } else {
      NothingConsumed(g, w, step);
    }
  }

  lemma {:induction false} RunOwes(g: Rules, w: World, steps: seq<Step>)
    requires Inv(g, w) && AllOwed(w)
    ensures AllOwed(Run(g, w, steps))
    decreases |steps|
  {
    hide Inv, Apply, Owed, Evolves;
    if steps != [] {
      var next := Apply(g, w, steps[0]);
      StepKeeps(g, w, steps[0]);
      LogGrows(g, w, steps[0]);
      NewIsOwed(g, w, steps[0]);
      LogGrowsByOne(g, w, steps[0]);
      forall c | 0 <= c < |next.log| && next.log[c].Consumed? ensures Owed(next, c) {
        if c < |w.log| { OwedStays(g, w, steps[0], c); }
      }
      RunOwes(g, next, steps[1..]);
    }
  }

  lemma LogGrowsByOne(g: Rules, w: World, step: Step)
    ensures |Apply(g, w, step).log| <= |w.log| + 1
  {
    hide SaveDelivery, SaveReceipt, ConsumeRust, StoredChallenges, SaveChallenge, GetChallenge, DeliveryRow;
  }

  /** In every run a redemption whose request has ended, other than by its abortion or a restart, has no
      pending delivery row: it was delivered, or it failed. */
  lemma EndedRequestsAreSettled(g: Rules, config: Config, clock: int, steps: seq<Step>, c: nat)
    requires var w := Run(g, Init(config, clock), steps);
      && c < |w.log| && w.log[c].Consumed?
      && w.log[c].r in w.phases && w.phases[w.log[c].r].Done? && !w.phases[w.log[c].r].outcome.Lost?
    ensures var w := Run(g, Init(config, clock), steps);
      var id := w.log[c].redemption.challengeId;
      && id in w.db.deliveries && w.db.deliveries[id].status != Pending
      && w.db.deliveries[id].credentialHash == w.log[c].redemption.credentialHash
  {
    hide Run, Inv, Linked, ReceiptsBacked, RowsInserted;
    var w0 := Init(config, clock);
    assert AllOwed(w0);
    ProtocolSafety.ReachableIsInv(g, config, clock, []);
    assert Run(g, w0, []) == w0 by { EmptyRun(g, w0); }
    RunOwes(g, w0, steps);
    ProtocolSafety.ReachableIsInv(g, config, clock, steps);
    var w := Run(g, w0, steps);
    assert Owed(w, c);
    UseTables(g, w);
    RedeemedHash(w.db, w.log, c);
  }

  lemma EmptyRun(g: Rules, w: World)
    ensures Run(g, w, []) == w
  {}

  lemma RedeemedHash(db: Db, log: seq<Event>, c: nat)
    requires Linked(db) && ConsumptionsKept(log, db) && c < |log| && log[c].Consumed?
    ensures var x := log[c].redemption;
      x.challengeId in db.deliveries && db.deliveries[x.challengeId].credentialHash == x.credentialHash
  {}
}
