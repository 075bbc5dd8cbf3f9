/** The SQLite store: four tables with their keys, unique columns and foreign keys. */
module Storage {
  import opened Wrappers
  import opened Json
  import opened Wire

  datatype ChallengeRecord = ChallengeRecord(
    challenge: Challenge, chargeRequest: Json, resourceBinding: Json, createdAt: string, expiresAt: string)

  datatype ChallengeRow = ChallengeRow(record: ChallengeRecord, consumedAt: Option<string>)

  datatype RedemptionRecord = RedemptionRecord(
    challengeId: string, credentialHash: string, paymentHash: string, settlement: Json, consumedAt: string)

  datatype ReceiptRow = ReceiptRow(challengeId: string, receipt: Receipt)

  datatype Status = Pending | Delivered | Failed

  datatype DeliveryOutcome = DeliveryOutcome(
    challengeId: string, credentialHash: string, paymentHash: string, receiptReference: Option<string>, status: Status,
    responseStatus: Option<int>, errorCode: Option<string>, errorMessage: Option<string>, recordedAt: string)

  /** A database: every table maps its primary key to its row. */
  datatype Db = Db(
    challenges: map<string, ChallengeRow>,
    redemptions: map<string, RedemptionRecord>,
    receipts: map<string, ReceiptRow>,
    deliveries: map<string, DeliveryOutcome>)

  const EMPTY := Db(map[], map[], map[], map[])

  /** What a statement reports when a constraint stops it. */
  datatype StorageError = ConstraintViolation

  /** What consume_redemption returns. */
  datatype Consumption = Answer(consumed: bool) | Raised(error: StorageError)

  // ---------------------------------------------------------------- statements

  function SaveChallenge(db: Db, id: string, record: ChallengeRecord): Db {
    if id in db.challenges then db else db.(challenges := db.challenges[id := ChallengeRow(record, None)])
  }

  function GetChallenge(db: Db, id: string): Option<ChallengeRecord> {
    if id in db.challenges then Some(db.challenges[id].record) else None
  }

  /** What get_challenge finds under every id. */
  function StoredChallenges(db: Db): map<string, Challenge> {
    map id | id in db.challenges :: db.challenges[id].record.challenge
  }

  predicate Unconsumed(db: Db, id: string) { id in db.challenges && db.challenges[id].consumedAt.None? }

  function MarkConsumed(db: Db, id: string, at: string): Db
    requires id in db.challenges
  {
    db.(challenges := db.challenges[id := db.challenges[id].(consumedAt := Some(at))])
  }

  /** The UNIQUE and PRIMARY KEY constraints and the foreign key of a redemption row. */
  predicate RedemptionFits(db: Db, r: RedemptionRecord) {
    && r.challengeId in db.challenges && r.challengeId !in db.redemptions
    && forall id :: id in db.redemptions ==>
         db.redemptions[id].credentialHash != r.credentialHash && db.redemptions[id].paymentHash != r.paymentHash
  }

  function PendingDelivery(r: RedemptionRecord): DeliveryOutcome {
    DeliveryOutcome(r.challengeId, r.credentialHash, r.paymentHash, None, Pending, None, None, None, r.consumedAt)
  }

  function Consumed(db: Db, r: RedemptionRecord): Db
    requires r.challengeId in db.challenges
  {
    MarkConsumed(db, r.challengeId, r.consumedAt).(
      redemptions := db.redemptions[r.challengeId := r],
      deliveries := db.deliveries[r.challengeId := PendingDelivery(r)])
  }

  /** consume_redemption of the Rust store: the tables afterwards and the answer. */
  function ConsumeRust(db: Db, r: RedemptionRecord): (Db, Consumption) {
    if !Unconsumed(db, r.challengeId) || !RedemptionFits(db, r) then (db, Answer(false))
    else if r.challengeId in db.deliveries then (db, Raised(ConstraintViolation))
    else (Consumed(db, r), Answer(true))
  }

  /** consumeRedemption of the TypeScript store, which answers false to every failed statement. */
  function ConsumeTs(db: Db, r: RedemptionRecord): (Db, Consumption) {
    if !Unconsumed(db, r.challengeId) || !RedemptionFits(db, r) || r.challengeId in db.deliveries
    then (db, Answer(false))
    else (Consumed(db, r), Answer(true))
  }

  /** save_receipt: INSERT OR IGNORE skips a taken reference or challenge, and the foreign key holds. */
  function SaveReceipt(db: Db, receipt: Receipt): Result<Db, StorageError> {
    if receipt.reference in db.receipts
       || exists k :: k in db.receipts && db.receipts[k].challengeId == receipt.challengeId then Ok(db)
    else if receipt.challengeId !in db.challenges then Err(ConstraintViolation)
    else Ok(db.(receipts := db.receipts[receipt.reference := ReceiptRow(receipt.challengeId, receipt)]))
  }

  /** save_delivery_outcome: INSERT OR REPLACE. */
  function SaveDelivery(db: Db, o: DeliveryOutcome): Result<Db, StorageError> {
    if o.challengeId !in db.challenges then Err(ConstraintViolation)
    else Ok(db.(deliveries := db.deliveries[o.challengeId := o]))
  }

  /** The store as an object whose methods run the statements one after the other. */
  class SqliteStore {
    var challenges: map<string, ChallengeRow>
    var redemptions: map<string, RedemptionRecord>
    var receipts: map<string, ReceiptRow>
    var deliveries: map<string, DeliveryOutcome>

    ghost function Tables(): Db
      reads this
    {
      Db(challenges, redemptions, receipts, deliveries)
    }

    constructor ()
      ensures Tables() == EMPTY
    {
      challenges, redemptions, receipts, deliveries := map[], map[], map[], map[];
    }

    method SaveChallengeRow(id: string, record: ChallengeRecord)
      modifies this
      ensures Tables() == SaveChallenge(old(Tables()), id, record)
    {
      if id !in challenges {
        challenges := challenges[id := ChallengeRow(record, None)];
      }
    }

    /** UPDATE challenges SET consumed_at = .. WHERE id = .. AND consumed_at IS NULL; the row count. */
    method UpdateConsumed(id: string, at: string) returns (changed: nat)
      modifies this
      ensures changed == if old(Unconsumed(Tables(), id)) then 1 else 0
      ensures Tables() == if old(Unconsumed(Tables(), id)) then MarkConsumed(old(Tables()), id, at) else old(Tables())
    {
      changed := 0;
      if id in challenges && challenges[id].consumedAt.None? {
        challenges := challenges[id := challenges[id].(consumedAt := Some(at))];
        changed := 1;
      }
    }

    /** INSERT INTO redemptions, refused by its constraints. */
    method InsertRedemption(r: RedemptionRecord) returns (inserted: bool)
      modifies this
      ensures inserted == old(RedemptionFits(Tables(), r))
      ensures Tables() == if inserted then old(Tables()).(redemptions := old(redemptions)[r.challengeId := r])
          else old(Tables())
    {
      inserted := r.challengeId in challenges && r.challengeId !in redemptions;
      var rest := redemptions.Keys;
      while rest != {} && inserted
        invariant rest <= redemptions.Keys
        invariant inserted ==> r.challengeId in challenges && r.challengeId !in redemptions
        invariant inserted ==> forall id :: id in redemptions && id !in rest ==>
          redemptions[id].credentialHash != r.credentialHash && redemptions[id].paymentHash != r.paymentHash
        invariant !inserted ==> !RedemptionFits(Tables(), r)
        invariant Tables() == old(Tables())
        decreases rest
      {
        var id :| id in rest;
        inserted := redemptions[id].credentialHash != r.credentialHash && redemptions[id].paymentHash != r.paymentHash;
        rest := rest - {id};
      }
      if inserted {
        redemptions := redemptions[r.challengeId := r];
      }
    }

    method InsertDelivery(o: DeliveryOutcome) returns (inserted: bool)
      requires o.challengeId in challenges
      modifies this
      ensures inserted == (o.challengeId !in old(deliveries))
      ensures Tables() == if inserted then old(Tables()).(deliveries := old(deliveries)[o.challengeId := o])
          else old(Tables())
    {
      inserted := o.challengeId !in deliveries;
      if inserted {
        deliveries := deliveries[o.challengeId := o];
      }
    }

    /** ROLLBACK: the tables as they were when the transaction began. */
    method Rollback(challenges': map<string, ChallengeRow>, redemptions': map<string, RedemptionRecord>,
                    deliveries': map<string, DeliveryOutcome>)
      modifies this
      ensures Tables() == Db(challenges', redemptions', old(receipts), deliveries')
    {
      challenges, redemptions, deliveries := challenges', redemptions', deliveries';
    }

    /** consume_redemption of the Rust store. */
    method ConsumeRedemption(r: RedemptionRecord) returns (answer: Consumption)
      modifies this
      ensures (Tables(), answer) == ConsumeRust(old(Tables()), r)
    {
      var challenges', redemptions', deliveries' := challenges, redemptions, deliveries;
      var changed := UpdateConsumed(r.challengeId, r.consumedAt);
      if changed != 1 {
        Rollback(challenges', redemptions', deliveries');
        return Answer(false);
      }
      var inserted := InsertRedemption(r);
      if !inserted {
        Rollback(challenges', redemptions', deliveries');
        return Answer(false);
      }
      inserted := InsertDelivery(PendingDelivery(r));
      if !inserted {
        // The error leaves through `?`; dropping the open transaction rolls it back.
        Rollback(challenges', redemptions', deliveries');
        return Raised(ConstraintViolation);
      }
      answer := Answer(true);
    }

    /** consumeRedemption of the TypeScript store: any failed statement rolls back and answers false. */
    method ConsumeRedemptionTs(r: RedemptionRecord) returns (answer: Consumption)
      modifies this
      ensures (Tables(), answer) == ConsumeTs(old(Tables()), r)
    {
      var challenges', redemptions', deliveries' := challenges, redemptions, deliveries;
      var changes := UpdateConsumed(r.challengeId, r.consumedAt);
      if changes != 1 {
        Rollback(challenges', redemptions', deliveries');
        return Answer(false);
      }
      var inserted := InsertRedemption(r);
      if inserted {
        inserted := InsertDelivery(PendingDelivery(r));
      }
      if !inserted {
        Rollback(challenges', redemptions', deliveries');
        return Answer(false);
      }
      answer := Answer(true);
    }

    method SaveReceiptRow(receipt: Receipt) returns (r: Result<(), StorageError>)
      modifies this
      ensures match SaveReceipt(old(Tables()), receipt)
              case Ok(db) => r == Ok(()) && Tables() == db
              case Err(e) => r == Err(e) && Tables() == old(Tables())
    {
      if receipt.reference in receipts || exists k :: k in receipts && receipts[k].challengeId == receipt.challengeId {
        return Ok(());
      }
      if receipt.challengeId !in challenges {
        return Err(ConstraintViolation);
      }
      receipts := receipts[receipt.reference := ReceiptRow(receipt.challengeId, receipt)];
      r := Ok(());
    }

    method SaveDeliveryOutcome(o: DeliveryOutcome) returns (r: Result<(), StorageError>)
      modifies this
      ensures match SaveDelivery(old(Tables()), o)
              case Ok(db) => r == Ok(()) && Tables() == db
              case Err(e) => r == Err(e) && Tables() == old(Tables())
    {
      if o.challengeId !in challenges {
        return Err(ConstraintViolation);
      }
      deliveries := deliveries[o.challengeId := o];
      r := Ok(());
    }
  }

  // ---------------------------------------------------------------- what saving amounts to

  datatype Save =
    | OfChallenge(id: string, record: ChallengeRecord)
    | OfReceipt(receipt: Receipt)
    | OfDelivery(outcome: DeliveryOutcome)

  /** The tables after one statement; a violated constraint leaves them as they were. */
  function AfterSave(db: Db, s: Save): Db {
    match s
    case OfChallenge(id, record) => SaveChallenge(db, id, record)
    case OfReceipt(receipt) => (match SaveReceipt(db, receipt) case Ok(saved) => saved case Err(_) => db)
    case OfDelivery(outcome) => (match SaveDelivery(db, outcome) case Ok(saved) => saved case Err(_) => db)
  }

  function AfterSaves(db: Db, saves: seq<Save>): Db
    decreases saves
  {
    if saves == [] then db else AfterSaves(AfterSave(db, saves[0]), saves[1..])
  }

  /** Of all the challenges ever saved under an id the first one stays, whatever else is saved. */
  lemma {:induction false} FirstChallengeStays(db: Db, saves: seq<Save>, i: nat)
    requires i < |saves| && saves[i].OfChallenge? && saves[i].id !in db.challenges
    requires forall j :: 0 <= j < i && saves[j].OfChallenge? ==> saves[j].id != saves[i].id
    decreases saves
    ensures GetChallenge(AfterSaves(db, saves), saves[i].id) == Some(saves[i].record)
  {
    if i == 0 {
      StoredChallengeStays(AfterSave(db, saves[0]), saves[1..], saves[0].id);
    } else {
      FirstChallengeStays(AfterSave(db, saves[0]), saves[1..], i - 1);
    }
  }

  lemma {:induction false} StoredChallengeStays(db: Db, saves: seq<Save>, id: string)
    requires id in db.challenges
    decreases saves
    ensures GetChallenge(AfterSaves(db, saves), id) == GetChallenge(db, id)
  {
    if saves != [] { StoredChallengeStays(AfterSave(db, saves[0]), saves[1..], id); }
  }

  predicate ForDelivery(s: Save, id: string) { s.OfDelivery? && s.outcome.challengeId == id }

  /** Of all the delivery rows saved for a stored challenge the last one stays. */
  lemma {:induction false} LastDeliveryStays(db: Db, saves: seq<Save>, i: nat, id: string)
    requires i < |saves| && ForDelivery(saves[i], id) && id in db.challenges
    requires forall j :: i < j < |saves| ==> !ForDelivery(saves[j], id)
    decreases saves
    ensures var after := AfterSaves(db, saves).deliveries; id in after && after[id] == saves[i].outcome
  {
    var next := AfterSave(db, saves[0]);
    if i == 0 {
      DeliveryStays(next, saves[1..], id);
    } else {
      LastDeliveryStays(next, saves[1..], i - 1, id);
    }
  }

  lemma {:induction false} DeliveryStays(db: Db, saves: seq<Save>, id: string)
    requires id in db.deliveries && forall j :: 0 <= j < |saves| ==> !ForDelivery(saves[j], id)
    decreases saves
    ensures var after := AfterSaves(db, saves).deliveries; id in after && after[id] == db.deliveries[id]
  {
    if saves != [] { DeliveryStays(AfterSave(db, saves[0]), saves[1..], id); }
  }

  predicate Taken(db: Db, r: Receipt) {
    r.reference in db.receipts || exists k :: k in db.receipts && db.receipts[k].challengeId == r.challengeId
  }

  /** The keys, the second unique column and the foreign key of the receipts table. */
  ghost predicate ReceiptsUnique(db: Db) {
    && (forall k :: k in db.receipts ==>
          && db.receipts[k].receipt.reference == k && db.receipts[k].receipt.challengeId == db.receipts[k].challengeId
          && db.receipts[k].challengeId in db.challenges)
    && (forall k, l :: k in db.receipts && l in db.receipts && db.receipts[k].challengeId == db.receipts[l].challengeId
          ==> k == l)
  }

  /** Whatever is saved, no two receipts share a reference or a challenge, a stored receipt stays, and
      behind every receipt that was saved for a stored challenge one holds its reference or its
      challenge: the very first of them if none did before. */
  lemma {:induction false} ReceiptsStayUnique(db: Db, saves: seq<Save>)
    requires ReceiptsUnique(db)
    decreases saves
    ensures var after := AfterSaves(db, saves);
      && ReceiptsUnique(after)
      && (forall k :: k in db.receipts ==> k in after.receipts && after.receipts[k] == db.receipts[k])
      && (forall id :: id in db.challenges ==> id in after.challenges)
      && (forall i :: 0 <= i < |saves| && saves[i].OfReceipt? && saves[i].receipt.challengeId in db.challenges ==>
            Taken(after, saves[i].receipt))
  {
    if saves != [] {
      var next := AfterSave(db, saves[0]);
      SaveKeepsReceipts(db, saves[0]);
      ReceiptsStayUnique(next, saves[1..]);
      hide ReceiptsUnique, AfterSave;
      forall i | 0 <= i < |saves| && saves[i].OfReceipt? && saves[i].receipt.challengeId in db.challenges
        ensures Taken(AfterSaves(db, saves), saves[i].receipt)
      {
        if i > 0 { assert saves[i] == saves[1..][i - 1]; }
      }
    }
  }

  lemma SaveKeepsReceipts(db: Db, s: Save)
    requires ReceiptsUnique(db)
    ensures var after := AfterSave(db, s);
      && ReceiptsUnique(after)
      && (forall k :: k in db.receipts ==> k in after.receipts && after.receipts[k] == db.receipts[k])
      && (forall id :: id in db.challenges ==> id in after.challenges)
      && (s.OfReceipt? && s.receipt.challengeId in db.challenges ==>
            && Taken(after, s.receipt)
            && (!Taken(db, s.receipt) ==> s.receipt.reference in after.receipts
                                          && after.receipts[s.receipt.reference].receipt == s.receipt))
  {}

  // ---------------------------------------------------------------- reachable tables

  /** Challenges, redemptions and deliveries agree: a challenge is consumed iff it has a redemption
      row iff it has a delivery row, the two rows name the same credential and payment, and no
      credential hash or payment hash is redeemed twice. */
  ghost predicate Linked(db: Db) {
    && (forall id :: id in db.redemptions <==> id in db.challenges && db.challenges[id].consumedAt.Some?)
    && (forall id :: id in db.redemptions <==> id in db.deliveries)
    && (forall id :: id in db.redemptions ==>
          && db.redemptions[id].challengeId == id && db.deliveries[id].challengeId == id
          && db.deliveries[id].credentialHash == db.redemptions[id].credentialHash
          && db.deliveries[id].paymentHash == db.redemptions[id].paymentHash)
    && (forall id, id' :: id in db.redemptions && id' in db.redemptions && id != id' ==>
          && db.redemptions[id].credentialHash != db.redemptions[id'].credentialHash
          && db.redemptions[id].paymentHash != db.redemptions[id'].paymentHash)
  }

  /** Every receipt belongs to the delivered row of its challenge, under that row's payment hash. */
  ghost predicate ReceiptsBacked(db: Db) {
    forall k :: k in db.receipts ==>
      var id := db.receipts[k].challengeId;
      && db.receipts[k].receipt.reference == k && db.receipts[k].receipt.challengeId == id
      && id in db.deliveries && db.deliveries[id].status == Delivered
      && db.deliveries[id].paymentHash == k && db.deliveries[id].receiptReference == Some(k)
  }

  /** On linked tables a redemption is consumed exactly when its challenge exists unconsumed and
      neither hash was redeemed before; otherwise nothing changes, and both languages agree. */
  lemma ConsumeIff(db: Db, r: RedemptionRecord)
    requires Linked(db)
    ensures ConsumeRust(db, r) == ConsumeTs(db, r)
    ensures ConsumeRust(db, r).1 == Answer(true) <==>
            && Unconsumed(db, r.challengeId)
            && forall id :: id in db.redemptions ==>
                 db.redemptions[id].credentialHash != r.credentialHash
                     && db.redemptions[id].paymentHash != r.paymentHash
    ensures ConsumeRust(db, r).1 != Answer(true) ==> ConsumeRust(db, r) == (db, Answer(false))
    ensures ConsumeRust(db, r).1 == Answer(true) ==>
              ConsumeRust(db, r).0 == Db(
                db.challenges[r.challengeId := ChallengeRow(db.challenges[r.challengeId].record, Some(r.consumedAt))],
                db.redemptions[r.challengeId := r], db.receipts,
                db.deliveries[r.challengeId := DeliveryOutcome(r.challengeId, r.credentialHash, r.paymentHash, None,
                                                               Pending, None, None, None, r.consumedAt)])
    ensures Linked(ConsumeRust(db, r).0)
  {}

  /** On arbitrary tables the languages differ exactly when a delivery row stands in the way of an
      otherwise possible redemption: Rust raises the error, TypeScript answers false. */
  lemma LanguagesDifferIffStrayDelivery(db: Db, r: RedemptionRecord)
    ensures ConsumeRust(db, r) != ConsumeTs(db, r)
            <==> Unconsumed(db, r.challengeId) && RedemptionFits(db, r) && r.challengeId in db.deliveries
  {}

  lemma RecordedLinks(db: Db, row: DeliveryOutcome)
    requires Linked(db) && row.challengeId in db.redemptions
    requires row.credentialHash == db.redemptions[row.challengeId].credentialHash
    requires row.paymentHash == db.redemptions[row.challengeId].paymentHash
    ensures row.challengeId in db.challenges && row.challengeId in db.deliveries
    ensures Linked(db.(deliveries := db.deliveries[row.challengeId := row]))
  {}

  lemma LinkedIgnoresReceipts(db: Db, db': Db)
    requires Linked(db) && db' == db.(receipts := db'.receipts)
    ensures Linked(db')
  {}

  lemma OnePaymentOneChallenge(db: Db, id: string, other: string)
    requires Linked(db) && id in db.redemptions && other in db.redemptions
    requires db.redemptions[id].paymentHash == db.redemptions[other].paymentHash
    ensures id == other
  {}

  /** What time does to tables: rows stay, a stored challenge changes by being consumed at most, and
      a delivery row once settled is never rewritten. */
  ghost predicate Evolves(db: Db, db': Db) {
    && (forall id :: id in db.challenges ==>
          && id in db'.challenges && db'.challenges[id].record == db.challenges[id].record
          && (db.challenges[id].consumedAt.Some? ==> db'.challenges[id] == db.challenges[id]))
    && (forall id :: id in db.redemptions ==> id in db'.redemptions && db'.redemptions[id] == db.redemptions[id])
    && (forall k :: k in db.receipts ==> k in db'.receipts && db'.receipts[k] == db.receipts[k])
    && (forall id :: id in db.deliveries ==>
          id in db'.deliveries && (db.deliveries[id].status != Pending ==> db'.deliveries[id] == db.deliveries[id]))
  }

  lemma EvolvesTransitive(a: Db, b: Db, c: Db)
    requires Evolves(a, b) && Evolves(b, c)
    ensures Evolves(a, c)
  {}
}
