/** Every step of the redemption protocol keeps the invariant, and tables only ever evolve. */
module ProtocolSteps {
  import opened Wrappers
  import opened Json
  import opened Wire
  import opened Storage
  import opened Delivery
  import opened Protocol
  import opened ProtocolInvariant

  // ---------------------------------------------------------------- shapes of steps

  /** The world after a step of one request. */
  function After(w: World, r: nat, phase: Phase, db: Db, added: seq<Event>): World {
    Move(w, r, phase).(db := db, log := w.log + added)
  }

  /** The invariant is kept and no table loses anything. */
  ghost predicate Safe(g: Rules, w: World, w': World) { Inv(g, w') && Evolves(w.db, w'.db) }

  /** An upstream call comes from its own request, which has not called before. */
  predicate CallsOnce(phases: map<nat, Phase>, r: nat, phase: Phase, added: seq<Event>)
    requires r in phases
  {
    && (Past(phases[r]) ==> Past(phase))
    && forall e :: e in added && e.Called? ==> e.r == r && !Past(phases[r]) && Past(phase)
  }

  lemma CallsKeep(log: seq<Event>, phases: map<nat, Phase>, r: nat, phase: Phase, added: seq<Event>)
    requires CallsKept(log, phases) && r in phases && CallsOnce(phases, r, phase, added) && |added| <= 1
    ensures CallsKept(log + added, phases[r := phase])
  {}

  /** A step of one request that does what it must to log, tables and its own phase is safe. */
  lemma StepIsSafe(g: Rules, w: World, r: nat, phase: Phase, db: Db, added: seq<Event>)
    requires Inv(g, w) && r in w.phases && |added| <= 1 && CallsOnce(w.phases, r, phase, added)
    requires added != [] ==> EventOk(g, w.log + added, |w.log|)
    requires Linked(db) && ReceiptsBacked(db) && Evolves(w.db, db)
    requires RowsInserted(w.log + added, db) && ConsumptionsKept(w.log + added, db)
    requires forall id :: id in w.db.redemptions && !Claims(w.phases[r], id) ==> Spares(w.db, db, id)
    requires PhaseOk(g, After(w, r, phase, db, added), r, phase)
    ensures Safe(g, w, After(w, r, phase, db, added))
  {
    hide PhaseOk, PhasesOk, Linked, ReceiptsBacked, LogOk, EventOk, RowsInserted, Spares, Evolves, ConsumptionsKept,
      CallsKept, Past, Claims, CallsOnce;
    if added == [] {
      assert w.log + added == w.log;
    } else {
      assert added == [added[0]];
      LogExtends(g, w.log, added[0]);
    }
    CallsKeep(w.log, w.phases, r, phase, added);
    assert (w.log + added)[..|w.log|] == w.log;
    PhasesKept(g, w, After(w, r, phase, db, added), r);
  }

  lemma SparesSelf(db: Db)
    ensures Evolves(db, db) && forall id :: Spares(db, db, id)
  {}

  lemma TablesKeepLog(log: seq<Event>, added: seq<Event>, db: Db)
    requires RowsInserted(log, db) && ConsumptionsKept(log, db)
    requires |added| <= 1 && forall e :: e in added ==> !e.Consumed?
    ensures RowsInserted(log + added, db) && ConsumptionsKept(log + added, db)
  {
    hide InsertedBefore;
    assert (log + added)[..|log|] == log;
    if added == [] { assert log + added == log; }
    forall id | id in db.challenges ensures InsertedBefore(log + added, |log + added|, db.challenges[id].record) {
      InsertedGrows(log, log + added, |log|, |log + added|, db.challenges[id].record);
    }
  }

  /** The same for a step that leaves the tables alone. */
  lemma LogStepIsSafe(g: Rules, w: World, r: nat, phase: Phase, added: seq<Event>)
    requires Inv(g, w) && r in w.phases && |added| <= 1 && CallsOnce(w.phases, r, phase, added)
    requires forall e :: e in added ==> !e.Consumed?
    requires added != [] ==> EventOk(g, w.log + added, |w.log|)
    requires PhaseOk(g, After(w, r, phase, w.db, added), r, phase)
    ensures Safe(g, w, After(w, r, phase, w.db, added))
  {
    hide PhaseOk, Linked, ReceiptsBacked, LogOk, EventOk, RowsInserted, Spares, Evolves, ConsumptionsKept, CallsKept,
      PhasesOk, CallsOnce, Claims, After, Safe;
    SparesSelf(w.db);
    TablesKeepLog(w.log, added, w.db);
    StepIsSafe(g, w, r, phase, w.db, added);
  }

  /** The steps that change the phase of their request and nothing else. */
  lemma QuietIsSafe(g: Rules, w: World, r: nat, phase: Phase)
    requires Inv(g, w) && r in w.phases && PhaseOk(g, w, r, phase) && (Past(w.phases[r]) ==> Past(phase))
    ensures Safe(g, w, Move(w, r, phase))
  {
    hide Inv, PhaseOk, Spares, Evolves, Past, Safe;
    SparesSelf(w.db);
    assert w.log + [] == w.log;
    assert After(w, r, phase, w.db, []) == Move(w, r, phase);
    PhaseKept(g, w, Move(w, r, phase), r, phase);
    LogStepIsSafe(g, w, r, phase, []);
  }

  lemma UsePhase(g: Rules, w: World, r: nat)
    requires Inv(g, w) && r in w.phases
    ensures PhaseOk(g, w, r, w.phases[r])
  {
    hide PhaseOk;
  }

  lemma UseTables(g: Rules, w: World)
    requires Inv(g, w)
    ensures Linked(w.db) && ReceiptsBacked(w.db) && RowsInserted(w.log, w.db) && ConsumptionsKept(w.log, w.db)
  {
    hide Linked, ReceiptsBacked, RowsInserted, ConsumptionsKept, LogOk, CallsKept, PhasesOk;
  }

  /** The events so far stay where they are. */
  lemma Prefix(log: seq<Event>, added: seq<Event>)
    ensures (log + added)[..|log|] == log && forall i :: 0 <= i < |log| ==> (log + added)[i] == log[i]
  {}

  // ---------------------------------------------------------------- steps that leave the tables alone

  lemma AuthenticateIsSafe(g: Rules, w: World, r: nat)
    requires Inv(g, w) && r in w.phases && w.phases[r].Arrived?
    ensures Safe(g, w, DoAuthenticate(g, w, r))
  {
    hide Inv, Safe, InsertedBefore;
    var w' := DoAuthenticate(g, w, r);
    if w'.phases[r].Verifying? {
      var stored, event := StoredChallenges(w.db), w'.log[|w.log|];
      UseTables(g, w);
      hide Linked, ReceiptsBacked, ConsumptionsKept;
      Prefix(w.log, [event]);
      forall id | id in stored ensures ChallengeInserted(w.log + [event], |w.log|, id, stored[id]) {
        InsertedGrows(w.log, w.log + [event], |w.log|, |w.log|, w.db.challenges[id].record);
      }
      hide RowsInserted, ChallengeInserted;
      LogStepIsSafe(g, w, r, w'.phases[r], [event]);
    } else {
      QuietIsSafe(g, w, r, w'.phases[r]);
    }
  }

  lemma NewInvoiceIsSafe(g: Rules, w: World, r: nat, invoice: Option<Json>)
    requires Inv(g, w) && r in w.phases && w.phases[r].Invoicing?
    ensures Safe(g, w, DoNewInvoice(g, w, r, invoice))
  {
    hide Inv, Safe;
    QuietIsSafe(g, w, r, DoNewInvoice(g, w, r, invoice).phases[r]);
  }

  lemma FetchIsSafe(g: Rules, w: World, r: nat)
    requires Inv(g, w) && r in w.phases && w.phases[r].Verifying?
    ensures Safe(g, w, DoFetch(w, r))
  {
    hide Inv, Safe, InsertedBefore;
    UsePhase(g, w, r);
    UseTables(g, w);
    hide Linked, ReceiptsBacked, ConsumptionsKept;
    QuietIsSafe(g, w, r, DoFetch(w, r).phases[r]);
  }

  lemma CheckIsSafe(g: Rules, w: World, r: nat)
    requires Inv(g, w) && r in w.phases && w.phases[r].Checking?
    ensures Safe(g, w, DoCheck(g, w, r))
  {
    hide Inv, Safe, InsertedBefore;
    var w' := DoCheck(g, w, r);
    if w'.phases[r].Polling? {
      var event := w'.log[|w.log|];
      UsePhase(g, w, r);
      Prefix(w.log, [event]);
      InsertedGrows(w.log, w.log + [event], |w.log|, |w.log|, w.phases[r].record);
      LogStepIsSafe(g, w, r, w'.phases[r], [event]);
    } else {
      QuietIsSafe(g, w, r, w'.phases[r]);
    }
  }

  lemma PollIsSafe(g: Rules, w: World, r: nat, answer: NodeReply, timedOut: bool)
    requires Inv(g, w) && r in w.phases && w.phases[r].Polling?
    ensures Safe(g, w, DoPoll(g, w, r, answer, timedOut))
  {
    hide Inv, Evolves;
    SparesSelf(w.db);
    var w' := DoPoll(g, w, r, answer, timedOut);
    if w'.phases[r].Settled? {
      var event := w'.log[|w.log|];
      UsePhase(g, w, r);
      Prefix(w.log, [event]);
      LogStepIsSafe(g, w, r, w'.phases[r], [event]);
    } else if w' != w {
      QuietIsSafe(g, w, r, w'.phases[r]);
    }
  }

  lemma CallIsSafe(g: Rules, w: World, r: nat)
    requires Inv(g, w) && r in w.phases && w.phases[r].Redeemed?
    ensures Safe(g, w, DoCall(w, r))
  {
    hide Inv, Safe;
    var event := Called(r, w.phases[r].consumedAt, w.phases[r].request);
    UsePhase(g, w, r);
    Prefix(w.log, [event]);
    LogStepIsSafe(g, w, r, DoCall(w, r).phases[r], [event]);
  }

  // ---------------------------------------------------------------- steps that write

  /** The tables after save_challenge. */
  lemma SavedTables(log: seq<Event>, db: Db, event: Event)
    requires Linked(db) && ReceiptsBacked(db) && RowsInserted(log, db) && ConsumptionsKept(log, db)
    requires event.Offered? && event.inserted == (event.record.challenge.id !in db.challenges)
    ensures var db' := SaveChallenge(db, event.record.challenge.id, event.record);
      && Linked(db') && ReceiptsBacked(db') && Evolves(db, db') && (forall id :: Spares(db, db', id))
      && RowsInserted(log + [event], db') && ConsumptionsKept(log + [event], db')
  {
    hide Linked, ReceiptsBacked, Evolves, Spares, RowsInserted, ConsumptionsKept, SaveChallenge;
    SavedRows(log, db, event);
    SavedLinks(db, event.record.challenge.id, event.record);
    SavedSpares(db, event.record.challenge.id, event.record);
  }

  lemma SavedLinks(db: Db, id: string, record: ChallengeRecord)
    requires Linked(db) && ReceiptsBacked(db)
    ensures var db' := SaveChallenge(db, id, record); Linked(db') && ReceiptsBacked(db')
  {}

  lemma SavedSpares(db: Db, id: string, record: ChallengeRecord)
    ensures var db' := SaveChallenge(db, id, record); Evolves(db, db') && forall other :: Spares(db, db', other)
  {}

  lemma SavedRows(log: seq<Event>, db: Db, event: Event)
    requires RowsInserted(log, db) && ConsumptionsKept(log, db)
    requires event.Offered? && event.inserted == (event.record.challenge.id !in db.challenges)
    ensures var db' := SaveChallenge(db, event.record.challenge.id, event.record);
      RowsInserted(log + [event], db') && ConsumptionsKept(log + [event], db')
  {
    TablesKeepLog(log, [event], db);
    assert (log + [event])[|log|] == event;
    assert event.inserted ==> InsertedBefore(log + [event], |log + [event]|, event.record);
    hide InsertedBefore;
  }

  lemma StoreIsSafe(g: Rules, w: World, r: nat, nonce: string)
    requires Inv(g, w) && r in w.phases && w.phases[r].Storing?
    ensures Safe(g, w, DoStore(g, w, r, nonce))
  {
    hide Inv, InsertedBefore, Linked, ReceiptsBacked, ConsumptionsKept, Evolves, Spares, Safe, SaveChallenge;
    var p, w' := w.phases[r], DoStore(g, w, r, nonce);
    var id, event := p.record.challenge.id, w'.log[|w.log|];
    UsePhase(g, w, r);
    UseTables(g, w);
    SavedTables(w.log, w.db, event);
    Prefix(w.log, [event]);
    if !event.inserted {
      var record := w.db.challenges[id].record;
      InsertedGrows(w.log, w.log + [event], |w.log|, |w.log|, record);
      assert ChallengeInserted(w.log + [event], |w.log|, id, record.challenge);
    }
    hide RowsInserted, ChallengeInserted;
    StepIsSafe(g, w, r, w'.phases[r], w'.db, [event]);
  }

  /** The tables after a successful consume_redemption. */
  lemma ConsumedTables(log: seq<Event>, event: Event, db: Db)
    requires Linked(db) && ReceiptsBacked(db) && RowsInserted(log, db) && ConsumptionsKept(log, db)
    requires event.Consumed? && ConsumeRust(db, event.redemption).1 == Answer(true)
    ensures var x, db' := event.redemption, ConsumeRust(db, event.redemption).0;
      && Linked(db') && ReceiptsBacked(db') && Evolves(db, db')
      && RowsInserted(log + [event], db') && ConsumptionsKept(log + [event], db')
      && (forall id :: id in db.redemptions ==> Spares(db, db', id))
      && x.challengeId in db'.redemptions && db'.redemptions[x.challengeId] == x
      && x.challengeId in db'.deliveries && db'.deliveries[x.challengeId].status == Pending
  {
    var x, db' := event.redemption, ConsumeRust(db, event.redemption).0;
    ConsumeIff(db, x);
    assert db' == Storage.Consumed(db, x) && x.challengeId !in db.redemptions && x.challengeId in db.challenges;
    hide ConsumeRust, RedemptionFits;
    ConsumedRows(log, event, db);
    hide RowsInserted, ConsumptionsKept;
    ConsumedSpares(db, x);
    hide Linked, ReceiptsBacked, Evolves, Spares;
  }

  lemma ConsumedSpares(db: Db, x: RedemptionRecord)
    requires Linked(db) && ReceiptsBacked(db) && Unconsumed(db, x.challengeId) && x.challengeId !in db.redemptions
    ensures var db' := Storage.Consumed(db, x);
      ReceiptsBacked(db') && Evolves(db, db') && forall id :: id in db.redemptions ==> Spares(db, db', id)
  {
    assert x.challengeId !in db.deliveries;
    hide Linked, ReceiptsBacked, Evolves, Spares;
    ConsumedReceipts(db, x);
    ConsumedEvolves(db, x);
  }

  lemma ConsumedEvolves(db: Db, x: RedemptionRecord)
    requires Unconsumed(db, x.challengeId) && x.challengeId !in db.redemptions && x.challengeId !in db.deliveries
    ensures var db' := Storage.Consumed(db, x);
      Evolves(db, db') && forall id :: id in db.redemptions ==> Spares(db, db', id)
  {}

  lemma ConsumedReceipts(db: Db, x: RedemptionRecord)
    requires ReceiptsBacked(db) && x.challengeId in db.challenges && x.challengeId !in db.deliveries
    ensures ReceiptsBacked(Storage.Consumed(db, x))
  {}

  lemma ConsumedRows(log: seq<Event>, event: Event, db: Db)
    requires RowsInserted(log, db) && ConsumptionsKept(log, db) && event.Consumed?
    requires event.redemption.challengeId in db.challenges && event.redemption.challengeId !in db.redemptions
    ensures var db' := Storage.Consumed(db, event.redemption);
      RowsInserted(log + [event], db') && ConsumptionsKept(log + [event], db')
  {
    hide InsertedBefore;
    var db' := Storage.Consumed(db, event.redemption);
    assert (log + [event])[..|log|] == log;
    forall id | id in db'.challenges ensures InsertedBefore(log + [event], |log + [event]|, db'.challenges[id].record) {
      assert db'.challenges[id].record == db.challenges[id].record;
      InsertedGrows(log, log + [event], |log|, |log + [event]|, db.challenges[id].record);
    }
  }

  lemma ConsumeIsSafe(g: Rules, w: World, r: nat)
    requires Inv(g, w) && r in w.phases && w.phases[r].Settled?
    ensures Safe(g, w, DoConsume(g, w, r))
  {
    hide Inv, Linked, ReceiptsBacked, RowsInserted, ConsumptionsKept, Evolves, Spares, ConsumeRust, Safe;
    var w' := DoConsume(g, w, r);
    if w'.phases[r].Redeemed? {
      var event := w'.log[|w.log|];
      UsePhase(g, w, r);
      UseTables(g, w);
      Prefix(w.log, [event]);
      ConsumedTables(w.log, event, w.db);
      StepIsSafe(g, w, r, w'.phases[r], w'.db, [event]);
    } else {
      QuietIsSafe(g, w, r, w'.phases[r]);
    }
  }

  /** A step that writes deliveries or receipts and logs nothing. */
  lemma WriteIsSafe(g: Rules, w: World, r: nat, phase: Phase, db: Db)
    requires Inv(g, w) && r in w.phases && Past(w.phases[r]) && Past(phase)
    requires Linked(db) && ReceiptsBacked(db) && Evolves(w.db, db)
    requires db.challenges == w.db.challenges && db.redemptions == w.db.redemptions
    requires forall id :: id in w.db.redemptions && !Claims(w.phases[r], id) ==> Spares(w.db, db, id)
    requires PhaseOk(g, Move(w, r, phase).(db := db), r, phase)
    ensures Safe(g, w, Move(w, r, phase).(db := db))
  {
    hide Inv, PhaseOk, Linked, ReceiptsBacked, Spares, Evolves, Claims, Past, Safe;
    UseTables(g, w);
    hide InsertedBefore;
    assert w.log + [] == w.log;
    assert After(w, r, phase, db, []) == Move(w, r, phase).(db := db);
    StepIsSafe(g, w, r, phase, db, []);
  }

  /** The tables after the delivery row of a pending redemption is written. */
  lemma RecordedTables(db: Db, row: DeliveryOutcome)
    requires Linked(db) && ReceiptsBacked(db)
    requires row.challengeId in db.redemptions && db.deliveries[row.challengeId].status == Pending
    requires row.credentialHash == db.redemptions[row.challengeId].credentialHash
    requires row.paymentHash == db.redemptions[row.challengeId].paymentHash
    ensures row.challengeId in db.challenges
    ensures var db' := WithDelivery(db, row);
      && SaveDelivery(db, row) == Ok(db')
      && Linked(db') && ReceiptsBacked(db') && Evolves(db, db') && !Receipted(db', row.challengeId)
      && forall id :: id != row.challengeId ==> Spares(db, db', id)
  {
    RecordedLinks(db, row);
    RecordedReceipts(db, row);
    RecordedSpares(db, row);
    hide Linked, ReceiptsBacked, Evolves, Spares, Receipted;
  }

  lemma RecordedSpares(db: Db, row: DeliveryOutcome)
    requires row.challengeId in db.deliveries && db.deliveries[row.challengeId].status == Pending
    ensures var db' := WithDelivery(db, row);
      Evolves(db, db') && forall id :: id != row.challengeId ==> Spares(db, db', id)
  {}

  lemma RecordedReceipts(db: Db, row: DeliveryOutcome)
    requires ReceiptsBacked(db) && row.challengeId in db.deliveries && db.deliveries[row.challengeId].status == Pending
    ensures ReceiptsBacked(WithDelivery(db, row)) && !Receipted(WithDelivery(db, row), row.challengeId)
  {}

  function WithDelivery(db: Db, row: DeliveryOutcome): Db {
    db.(deliveries := db.deliveries[row.challengeId := row])
  }

  function WithReceipt(db: Db, receipt: Receipt): Db {
    db.(receipts := db.receipts[receipt.reference := ReceiptRow(receipt.challengeId, receipt)])
  }

  /** On reachable tables save_delivery never fails, and writes the row of what became of the call. */
  lemma RecordDeliveryIsSafe(g: Rules, w: World, r: nat)
    requires Inv(g, w) && r in w.phases && (w.phases[r].Replied? || w.phases[r].CallBroken?)
    ensures var row := DeliveryRow(w.phases[r], g.stamp(w.clock));
      && Safe(g, w, DoRecordDelivery(g, w, r))
      && row.challengeId in w.db.deliveries && w.db.deliveries[row.challengeId].status == Pending
      && DoRecordDelivery(g, w, r).db == WithDelivery(w.db, row)
  {
    hide Inv, Linked, ReceiptsBacked, RowsInserted, ConsumptionsKept, Evolves, Spares, Receipted, Safe, SaveDelivery;
    UsePhase(g, w, r);
    UseTables(g, w);
    var w' := DoRecordDelivery(g, w, r);
    RecordedTables(w.db, DeliveryRow(w.phases[r], g.stamp(w.clock)));
    WriteIsSafe(g, w, r, w'.phases[r], w'.db);
  }

  /** The tables after the receipt of a delivered redemption without one is written. */
  lemma ReceiptedTables(db: Db, receipt: Receipt)
    requires Linked(db) && ReceiptsBacked(db)
    requires receipt.challengeId in db.redemptions && !Receipted(db, receipt.challengeId)
    requires db.redemptions[receipt.challengeId].paymentHash == receipt.reference
    requires db.deliveries[receipt.challengeId].status == Delivered
    requires db.deliveries[receipt.challengeId].receiptReference == Some(receipt.reference)
    ensures receipt.reference !in db.receipts
    ensures var db' := WithReceipt(db, receipt);
      && SaveReceipt(db, receipt) == Ok(db')
      && Linked(db') && ReceiptsBacked(db') && Evolves(db, db')
      && forall id :: id != receipt.challengeId ==> Spares(db, db', id)
  {
    hide Linked, Evolves, Spares;
    ReferenceIsFree(db, receipt);
    LinkedIgnoresReceipts(db, WithReceipt(db, receipt));
    ReceiptSpares(db, receipt);
  }

  lemma ReceiptSpares(db: Db, receipt: Receipt)
    requires receipt.reference !in db.receipts
    ensures var db' := WithReceipt(db, receipt);
      Evolves(db, db') && forall id :: id != receipt.challengeId ==> Spares(db, db', id)
  {}

  lemma ReferenceIsFree(db: Db, receipt: Receipt)
    requires Linked(db) && ReceiptsBacked(db)
    requires receipt.challengeId in db.redemptions && !Receipted(db, receipt.challengeId)
    requires db.redemptions[receipt.challengeId].paymentHash == receipt.reference
    ensures receipt.reference !in db.receipts
    ensures receipt.challengeId in db.challenges && receipt.challengeId in db.deliveries
    ensures db.deliveries[receipt.challengeId].paymentHash == receipt.reference
  {
    if receipt.reference in db.receipts {
      OnePaymentOneChallenge(db, db.receipts[receipt.reference].challengeId, receipt.challengeId);
    }
  }

  /** On reachable tables save_receipt never fails and never ignores its row. */
  lemma RecordReceiptIsSafe(g: Rules, w: World, r: nat)
    requires Inv(g, w) && r in w.phases && w.phases[r].Receipting?
    ensures var p, w' := w.phases[r], DoRecordReceipt(g, w, r);
      var receipt := ReceiptOf(p.redemption, p.now);
      && Safe(g, w, w') && receipt.reference !in w.db.receipts && w'.db == WithReceipt(w.db, receipt)
      && w' == Move(w, r, Done(Answered(p.upstream, g.respond(p.upstream, Some(receipt)), Some(receipt)))).(db := w'.db)
  {
    hide Inv, Linked, ReceiptsBacked, RowsInserted, ConsumptionsKept, Evolves, Spares, Receipted, SaveReceipt, Safe;
    UsePhase(g, w, r);
    UseTables(g, w);
    var w' := DoRecordReceipt(g, w, r);
    ReceiptedTables(w.db, ReceiptOf(w.phases[r].redemption, w.phases[r].now));
    WriteIsSafe(g, w, r, w'.phases[r], w'.db);
  }

  // ---------------------------------------------------------------- all steps

  /** A world that differs in clock, in new arrivals or in lost requests. */
  lemma OutsideIsSafe(g: Rules, w: World, w': World)
    requires Inv(g, w) && w'.db == w.db && w'.log == w.log && w.clock <= w'.clock
    requires forall r :: r in w.phases ==> r in w'.phases
    requires forall r :: r in w'.phases ==>
      (r in w.phases && w'.phases[r] == w.phases[r] && (w'.config == w.config || w.phases[r].Done?))
      || (r !in w.phases && w'.phases[r].Arrived?) || (r in w.phases && w'.phases[r] == Done(Lost))
    ensures Safe(g, w, w')
  {
    hide Linked, ReceiptsBacked, LogOk, RowsInserted, ConsumptionsKept, Spares, InsertedBefore;
    SparesSelf(w.db);
    hide Evolves;
    forall q | q in w'.phases ensures PhaseOk(g, w', q, w'.phases[q]) {
      if q in w.phases { UsePhase(g, w, q); }
    }
  }

  /** Every step keeps the invariant, and the tables evolve. */
  lemma StepKeeps(g: Rules, w: World, step: Step)
    requires Inv(g, w)
    ensures Inv(g, Apply(g, w, step)) && Evolves(w.db, Apply(g, w, step).db)
  {
    hide Inv, Evolves, Advance;
    match step
    case Tick(_) => OutsideIsSafe(g, w, Apply(g, w, step));
    case Restart(_) => OutsideIsSafe(g, w, Apply(g, w, step));
    case Arrive(_, _) => OutsideIsSafe(g, w, Apply(g, w, step));
    case _ => if step.r in w.phases { AdvanceIsSafe(g, w, step); } else { SparesSelf(w.db); }
  }

  lemma AdvanceIsSafe(g: Rules, w: World, step: Step)
    requires Inv(g, w) && !step.Tick? && !step.Restart? && !step.Arrive? && step.r in w.phases
    ensures Safe(g, w, Advance(g, w, step))
  {
    hide Inv, Evolves, DoAuthenticate, DoNewInvoice, DoStore, DoFetch, DoCheck, DoPoll, DoConsume, DoCall,
      DoRecordDelivery, DoRecordReceipt;
    var r := step.r;
    var phase := w.phases[r];
    SparesSelf(w.db);
    match step
    case Authenticate(_) => if phase.Arrived? { AuthenticateIsSafe(g, w, r); }
    case Quote(_) => if phase.Issuing? { QuietIsSafe(g, w, r, Invoicing(phase.request, w.clock)); }
    case NewInvoice(_, invoice) => if phase.Invoicing? { NewInvoiceIsSafe(g, w, r, invoice); }
    case Store(_, nonce) => if phase.Storing? { StoreIsSafe(g, w, r, nonce); }
    case Fetch(_) => if phase.Verifying? { FetchIsSafe(g, w, r); }
    case Check(_) => if phase.Checking? { CheckIsSafe(g, w, r); }
    case Poll(_, answer, timedOut) => if phase.Polling? { PollIsSafe(g, w, r, answer, timedOut); }
    case Consume(_) => if phase.Settled? { ConsumeIsSafe(g, w, r); }
    case Call(_) => if phase.Redeemed? { CallIsSafe(g, w, r); }
    case Receive(_, upstream) =>
      if phase.Calling? {
        UsePhase(g, w, r);
        QuietIsSafe(g, w, r, DoReceive(w, r, upstream).phases[r]);
      }
    case RecordDelivery(_) => if phase.Replied? || phase.CallBroken? { RecordDeliveryIsSafe(g, w, r); }
    case RecordReceipt(_) => if phase.Receipting? { RecordReceiptIsSafe(g, w, r); }
    case _ => QuietIsSafe(g, w, r, Done(Lost));
  }
}
