/** What the TypeScript middleware does after its upstream handler, catch branch included. */
module Middleware {
  import opened Wrappers
  import opened Text
  import opened Json
  import opened Wire
  import opened Storage
  import opened Delivery

  // ---------------------------------------------------------------- what can throw

  /** The body of a Response: null, a stream that nobody has touched, or one that was read or locked. */
  datatype Body = NoBody | Unread | Used

  /** toProblemJson of an exception; its title is the code. */
  datatype Problem = Problem(status: int, code: string, detail: string)

  /** The null body statuses of the Fetch standard. */
  const NULL_BODY: set<int> := {101, 103, 204, 205, 304}

  datatype Settled = Returned(reply: HttpReply, body: Body) | Threw(problem: Problem)

  /** What the handler's promise settles to: no Response has a body with a null body status. */
  type Handled = s: Settled | s.Returned? && s.reply.status in NULL_BODY ==> s.body.NoBody?
    witness Threw(INTERNAL)

  /** Which of the writes behind the handler succeed: the delivery row, the receipt, the row of the
      catch branch. */
  datatype Writes = Writes(delivery: bool, receipt: bool, failure: bool)

  /** JSON.stringify of a problem, and the ISO 8601 times that the receipt schema admits. */
  datatype Js = Js(text: Problem -> string, isTime: string -> bool)

  /** The problem of every exception that is not a FiberPaidHttpError. */
  const INTERNAL := Problem(500, "internal-error", "Internal error")

  /** new Response(body, init) throws on a status outside 200 to 599, on a body with a null body
      status, and on a body that was used. */
  predicate ResponseThrows(status: int, body: Body) {
    !(200 <= status <= 599) || body.Used? || (body.Unread? && status in NULL_BODY)
  }

  /** createReceipt; None where its schema throws. */
  function CreateReceipt(js: Js, v: VerifiedRedemption): Option<Receipt> {
    match GetStr(v.settlement, "observedAt")
    case None => None
    case Some(time) =>
      if js.isTime(time) && IsPrefixedHex(v.paymentHash) && |v.paymentHash| == 66 && v.challengeId != ""
      then Some(Receipt(time, v.paymentHash, v.challengeId))
      else None
  }

  // ---------------------------------------------------------------- the outcome in closed form

  /** The delivery row of the reply is written. */
  predicate Written(js: Js, v: VerifiedRedemption, handled: Handled, writes: Writes) {
    handled.Returned? && (Success(handled.reply.status) ==> CreateReceipt(js, v).Some?) && writes.delivery
  }

  /** So is the receipt. */
  predicate Receipted(js: Js, v: VerifiedRedemption, handled: Handled, writes: Writes) {
    Written(js, v, handled, writes) && Success(handled.reply.status) && writes.receipt
  }

  /** The try block runs to its end. */
  predicate Completes(js: Js, v: VerifiedRedemption, handled: Handled, writes: Writes) {
    && Written(js, v, handled, writes)
    && (Success(handled.reply.status) ==> writes.receipt)
    && !ResponseThrows(handled.reply.status, handled.body)
  }

  function FailedOutcome(v: VerifiedRedemption, problem: Problem, now: string): DeliveryOutcome {
    DeliveryOutcome(v.challengeId, v.credentialHash, v.paymentHash, None, Failed, Some(problem.status),
                    Some(problem.code), Some("protected handler failed"), now)
  }

  function ProblemOf(handled: Handled): Problem {
    match handled case Threw(problem) => problem case Returned(_, _) => INTERNAL
  }

  function WithRow(db: Db, row: DeliveryOutcome): Db {
    db.(deliveries := db.deliveries[row.challengeId := row])
  }

  /** The tables that the try block leaves behind. */
  function Attempted(js: Js, db: Db, v: VerifiedRedemption, handled: Handled, writes: Writes, now: string): Db
    requires v.challengeId in db.challenges
  {
    if !Written(js, v, handled, writes) then db
    else
      var recorded := WithRow(db, Delivery.Outcome(v, handled.reply.status, now));
      if Receipted(js, v, handled, writes) then SaveReceipt(recorded, CreateReceipt(js, v).value).value else recorded
  }

  function Finished(js: Js, db: Db, v: VerifiedRedemption, handled: Handled, writes: Writes, now: string): Db
    requires v.challengeId in db.challenges
  {
    var attempted := Attempted(js, db, v, handled, writes, now);
    if Completes(js, v, handled, writes) || !writes.failure then attempted
    else WithRow(attempted, FailedOutcome(v, ProblemOf(handled), now))
  }

  /** The middleware's response: Headers.set and Headers.delete on a copy of the upstream's headers. */
  function Answer(lib: Lib, reply: HttpReply, receipt: Option<Receipt>): HttpReply
    requires Sound(lib)
  {
    reply.(headers := match receipt
                      case None => Without(reply.headers, PAYMENT_RECEIPT)
                      case Some(r) =>
                        Insert(Insert(reply.headers, PAYMENT_RECEIPT, ReceiptToken(lib, r)), "cache-control",
                               "private"))
  }

  function ProblemReply(js: Js, problem: Problem): HttpReply {
    HttpReply(problem.status, [("content-type", "application/problem+json"), ("cache-control", "no-store")],
              js.text(problem))
  }

  /** What the caller of the middleware gets; None when the promise is rejected. */
  function Replied(lib: Lib, js: Js, v: VerifiedRedemption, handled: Handled, writes: Writes): Option<HttpReply>
    requires Sound(lib)
  {
    if Completes(js, v, handled, writes) then
      Some(Answer(lib, handled.reply, if Success(handled.reply.status) then CreateReceipt(js, v) else None))
    else if writes.failure && !ResponseThrows(ProblemOf(handled).status, Unread) then
      Some(ProblemReply(js, ProblemOf(handled)))
    else None
  }

  // ---------------------------------------------------------------- the statements

  /** The try block, up to the exception that ends it if one does. */
  method Try(lib: Lib, js: Js, store: SqliteStore, v: VerifiedRedemption, handled: Handled, writes: Writes, now: string)
    returns (response: Result<HttpReply, Problem>)
    requires Sound(lib) && v.challengeId in store.challenges
    modifies store
    ensures store.Tables() == Attempted(js, old(store.Tables()), v, handled, writes, now)
    ensures response == if Completes(js, v, handled, writes) then Ok(Replied(lib, js, v, handled, writes).value)
                        else Err(ProblemOf(handled))
  {
    hide Insert, Without, ReceiptToken, ResponseThrows;
    if handled.Threw? {
      return Err(handled.problem);
    }
    var upstream := handled.reply;
    var delivered := Success(upstream.status);
    var receipt: Option<Receipt> := None;
    if delivered {
      receipt := CreateReceipt(js, v);
      if receipt.None? {
        return Err(INTERNAL);
      }
    }
    if !writes.delivery {
      return Err(INTERNAL);
    }
    var saved := store.SaveDeliveryOutcome(Delivery.Outcome(v, upstream.status, now));
    var headers := upstream.headers;
    if delivered {
      if !writes.receipt {
        return Err(INTERNAL);
      }
      saved := store.SaveReceiptRow(receipt.value);
      headers := Insert(headers, PAYMENT_RECEIPT, ReceiptToken(lib, receipt.value));
      headers := Insert(headers, "cache-control", "private");
    } else {
      headers := Without(headers, PAYMENT_RECEIPT);
    }
    if ResponseThrows(upstream.status, handled.body) {
      return Err(INTERNAL);
    }
    response := Ok(upstream.(headers := headers));
  }

  /** protect from the handler's reply on, on the store. */
  method Protect(lib: Lib, js: Js, store: SqliteStore, v: VerifiedRedemption, handled: Handled, writes: Writes,
                 now: string)
    returns (response: Option<HttpReply>)
    requires Sound(lib) && v.challengeId in store.challenges
    modifies store
    ensures store.Tables() == Finished(js, old(store.Tables()), v, handled, writes, now)
    ensures response == Replied(lib, js, v, handled, writes)
  {
    hide ResponseThrows, Answer;
    var attempt := Try(lib, js, store, v, handled, writes, now);
    if attempt.Ok? {
      return Some(attempt.value);
    }
    if !writes.failure {
      return None;
    }
    var saved := store.SaveDeliveryOutcome(FailedOutcome(v, attempt.error, now));
    response := if ResponseThrows(attempt.error.status, Unread) then None else Some(ProblemReply(js, attempt.error));
  }

  // ---------------------------------------------------------------- what becomes of a delivery

  /** The redemption is consumed and its delivery pending. */
  ghost predicate Pending(db: Db, v: VerifiedRedemption) {
    && Linked(db) && ReceiptsBacked(db)
    && v.challengeId in db.redemptions && db.deliveries[v.challengeId].status == Status.Pending
    && db.redemptions[v.challengeId].credentialHash == v.credentialHash
    && db.redemptions[v.challengeId].paymentHash == v.paymentHash
  }

  predicate HasReceipt(db: Db, id: string) { exists k :: k in db.receipts && db.receipts[k].challengeId == id }

  /** The upstream succeeded and its receipt was stored, but its body was used, so that its Response
      cannot be built again, and the row is rewritten. */
  predicate Stranded(js: Js, v: VerifiedRedemption, handled: Handled, writes: Writes) {
    Receipted(js, v, handled, writes) && writes.failure && handled.body.Used?
  }

  lemma PendingHasNoReceipt(db: Db, v: VerifiedRedemption)
    requires Pending(db, v)
    ensures v.challengeId in db.challenges && v.challengeId in db.deliveries
    ensures !HasReceipt(db, v.challengeId) && v.paymentHash !in db.receipts
  {
    if v.paymentHash in db.receipts {
      OnePaymentOneChallenge(db, db.receipts[v.paymentHash].challengeId, v.challengeId);
    }
  }

  lemma AttemptLeaves(js: Js, db: Db, v: VerifiedRedemption, handled: Handled, writes: Writes, now: string)
    requires Pending(db, v)
    ensures v.challengeId in db.challenges
    ensures var after := Attempted(js, db, v, handled, writes, now);
      && after.challenges == db.challenges && after.redemptions == db.redemptions
      && after.deliveries == (if Written(js, v, handled, writes)
                              then db.deliveries[v.challengeId := Delivery.Outcome(v, handled.reply.status, now)]
                              else db.deliveries)
      && after.receipts == (if Receipted(js, v, handled, writes)
                            then db.receipts[v.paymentHash := ReceiptRow(v.challengeId, CreateReceipt(js, v).value)]
                            else db.receipts)
      && (Receipted(js, v, handled, writes) ==>
            var r := CreateReceipt(js, v).value; r.reference == v.paymentHash && r.challengeId == v.challengeId)
  {
    PendingHasNoReceipt(db, v);
    hide Linked, ReceiptsBacked;
  }

  lemma RowFields(v: VerifiedRedemption, status: int, problem: Problem, now: string)
    ensures var first, last := Delivery.Outcome(v, status, now), FailedOutcome(v, problem, now);
      && first.challengeId == v.challengeId && first.credentialHash == v.credentialHash
      && first.paymentHash == v.paymentHash
      && last.challengeId == v.challengeId && last.credentialHash == v.credentialHash
      && last.paymentHash == v.paymentHash
      && first.status == (if Success(status) then Delivered else Failed) && last.status == Failed
      && (Success(status) ==> first.receiptReference == Some(v.paymentHash))
      && last.errorMessage == Some("protected handler failed") && first.errorMessage == None
  {}

  /** A delivery ends as delivered exactly when the row of a successful reply was written and not
      rewritten; a row once written is rewritten exactly when the try block fails behind it and the
      catch branch's own write succeeds. A receipt without a delivered row is left exactly when the
      delivery is stranded. */
  lemma DeliveryAfterFaults(js: Js, db: Db, v: VerifiedRedemption, handled: Handled, writes: Writes, now: string)
    requires Pending(db, v)
    ensures v.challengeId in db.challenges
    ensures var attempted := Attempted(js, db, v, handled, writes, now);
      var after := Finished(js, db, v, handled, writes, now);
      var rewritten := Written(js, v, handled, writes) && writes.failure && !Completes(js, v, handled, writes);
      && Linked(after) && v.challengeId in after.deliveries
      && (after.deliveries[v.challengeId].status == Delivered <==>
            Written(js, v, handled, writes) && Success(handled.reply.status) && !rewritten)
      && (Evolves(attempted, after) <==> !rewritten)
      && (HasReceipt(after, v.challengeId) <==> Receipted(js, v, handled, writes))
      && (ReceiptsBacked(after) <==> !Stranded(js, v, handled, writes))
  {
    PendingHasNoReceipt(db, v);
    AttemptLeaves(js, db, v, handled, writes, now);
    FinishedLinks(js, db, v, handled, writes, now);
    FinishedEvolves(js, db, v, handled, writes, now);
    FinishedReceipts(js, db, v, handled, writes, now);
    hide Attempted, Linked, ReceiptsBacked, Evolves, HasReceipt, Stranded, Written, Receipted, Completes;
  }

  /** A handler that answers 200 and has read the body of its own answer, say to log it. */
  lemma UsedBodyStrands(js: Js, record: ChallengeRecord, time: string, now: string)
    requires js.isTime(time)
    ensures var hash, settlement := "0x" + seq(64, _ => 'a'), Obj(map["observedAt" := Str(time)]);
      var redemption := RedemptionRecord("id", "credential", hash, settlement, now);
      var db := Db(map["id" := ChallengeRow(record, Some(now))], map["id" := redemption], map[],
                   map["id" := PendingDelivery(redemption)]);
      var v := VerifiedRedemption("id", "credential", hash, settlement);
      var after := Finished(js, db, v, Returned(HttpReply(200, [], "ok"), Used), Writes(true, true, true), now);
      && Pending(db, v)
      && HasReceipt(after, "id") && after.deliveries["id"].status == Failed
      && !ReceiptsBacked(after)
  {
    var hash, settlement := "0x" + seq(64, _ => 'a'), Obj(map["observedAt" := Str(time)]);
    var redemption := RedemptionRecord("id", "credential", hash, settlement, now);
    var db := Db(map["id" := ChallengeRow(record, Some(now))], map["id" := redemption], map[],
                 map["id" := PendingDelivery(redemption)]);
    var v := VerifiedRedemption("id", "credential", hash, settlement);
    var handled, writes := Returned(HttpReply(200, [], "ok"), Used), Writes(true, true, true);
    assert GetStr(settlement, "observedAt") == Some(time) && IsPrefixedHex(hash);
    assert Stranded(js, v, handled, writes);
    assert Pending(db, v);
    DeliveryAfterFaults(js, db, v, handled, writes, now);
    hide Attempted, Linked, ReceiptsBacked, HasReceipt, Pending;
  }

  lemma FinishedLinks(js: Js, db: Db, v: VerifiedRedemption, handled: Handled, writes: Writes, now: string)
    requires Pending(db, v) && v.challengeId in db.challenges
    ensures Linked(Finished(js, db, v, handled, writes, now))
  {
    hide Attempted, Linked, ReceiptsBacked, Delivery.Outcome, FailedOutcome, Receipted, Completes;
    AttemptLeaves(js, db, v, handled, writes, now);
    var status := if handled.Returned? then handled.reply.status else 0;
    var problem := ProblemOf(handled);
    RowFields(v, status, problem, now);
    LinkedRows(db, v);
    var attempted := Attempted(js, db, v, handled, writes, now);
    var before := db.(receipts := attempted.receipts);
    LinkedIgnoresReceipts(db, before);
    var first, last := Delivery.Outcome(v, status, now), FailedOutcome(v, problem, now);
    RecordedLinks(before, first);
    RecordedLinks(before, last);
    RecordedLinks(WithRow(before, first), last);
    assert attempted == before || attempted == WithRow(before, first);
  }

  lemma LinkedRows(db: Db, v: VerifiedRedemption)
    requires Pending(db, v)
    ensures v.challengeId in db.redemptions && Linked(db)
  {}

  lemma FinishedEvolves(js: Js, db: Db, v: VerifiedRedemption, handled: Handled, writes: Writes, now: string)
    requires Pending(db, v) && v.challengeId in db.challenges
    ensures Evolves(Attempted(js, db, v, handled, writes, now), Finished(js, db, v, handled, writes, now)) <==>
            !(Written(js, v, handled, writes) && writes.failure && !Completes(js, v, handled, writes))
  {
    hide Attempted, ReceiptsBacked, Linked, Delivery.Outcome, FailedOutcome, HasReceipt, Receipted, Completes;
    AttemptLeaves(js, db, v, handled, writes, now);
    PendingHasNoReceipt(db, v);
    RowFields(v, if handled.Returned? then handled.reply.status else 0, ProblemOf(handled), now);
    var attempted := Attempted(js, db, v, handled, writes, now);
    assert v.challengeId in attempted.deliveries;
  }

  lemma FinishedReceipts(js: Js, db: Db, v: VerifiedRedemption, handled: Handled, writes: Writes, now: string)
    requires Pending(db, v) && v.challengeId in db.challenges
    ensures var after := Finished(js, db, v, handled, writes, now);
      && (HasReceipt(after, v.challengeId) <==> Receipted(js, v, handled, writes))
      && (ReceiptsBacked(after) <==> !Stranded(js, v, handled, writes))
  {
    hide Attempted, Linked, Delivery.Outcome, FailedOutcome;
    AttemptLeaves(js, db, v, handled, writes, now);
    PendingHasNoReceipt(db, v);
    RowFields(v, if handled.Returned? then handled.reply.status else 0, ProblemOf(handled), now);
    var after := Finished(js, db, v, handled, writes, now);
    if Receipted(js, v, handled, writes) {
      assert v.paymentHash in after.receipts && after.receipts[v.paymentHash].challengeId == v.challengeId;
    }
  }

  lemma Throws(status: int, body: Body)
    ensures ResponseThrows(status, body) <==>
      || status < 200 || status > 599 || body.Used?
      || (body.Unread? && (status == 204 || status == 205 || status == 304))
  {}

  /** What the caller sees: the handler's own status and body when nothing fails behind it; else the
      problem that the handler threw, or an internal error with status 500, as a problem document that no
      cache keeps; and a rejected promise when even that cannot be written or answered. */
  lemma CallerSees(lib: Lib, js: Js, v: VerifiedRedemption, handled: Handled, writes: Writes)
    requires Sound(lib)
    ensures var succeeds := handled.Returned? && 200 <= handled.reply.status <= 299;
      var completes := && handled.Returned? && 200 <= handled.reply.status <= 599 && !handled.body.Used?
                       && writes.delivery && (succeeds ==> writes.receipt && CreateReceipt(js, v).Some?);
      var problem := if handled.Threw? then handled.problem else Problem(500, "internal-error", "Internal error");
      match Replied(lib, js, v, handled, writes)
      case None =>
        && !completes
        && (|| !writes.failure || problem.status < 200 || problem.status > 599
            || problem.status == 204 || problem.status == 205 || problem.status == 304)
      case Some(reply) =>
        if completes then reply.status == handled.reply.status && reply.body == handled.reply.body
        else
          && writes.failure && reply.status == problem.status && reply.body == js.text(problem)
          && reply.headers == [("content-type", "application/problem+json"), ("cache-control", "no-store")]
  {
    hide ReceiptToken, Insert, Without, CreateReceipt, ResponseThrows;
    if handled.Returned? { Throws(handled.reply.status, handled.body); }
    Throws(ProblemOf(handled).status, Unread);
  }

  /** The delivery row that is left: of the problem, by the catch branch, unless nothing fails behind the
      handler; else of the handler's status. */
  lemma RowIsLeft(js: Js, db: Db, v: VerifiedRedemption, handled: Handled, writes: Writes, now: string)
    requires v.challengeId in db.challenges
    ensures var problem := if handled.Threw? then handled.problem else Problem(500, "internal-error", "Internal error");
      var after := Finished(js, db, v, handled, writes, now);
      if !Completes(js, v, handled, writes) && writes.failure then
        after.deliveries == db.deliveries[v.challengeId :=
          DeliveryOutcome(v.challengeId, v.credentialHash, v.paymentHash, None, Failed, Some(problem.status),
                          Some(problem.code), Some("protected handler failed"), now)]
      else if Written(js, v, handled, writes) then
        var status := handled.reply.status;
        var delivered := 200 <= status < 300;
        after.deliveries == db.deliveries[v.challengeId :=
          DeliveryOutcome(v.challengeId, v.credentialHash, v.paymentHash,
                          if delivered then Some(v.paymentHash) else None, if delivered then Delivered else Failed,
                          Some(status), if delivered then None else Some("upstream-non-success"), None, now)]
      else after.deliveries == db.deliveries
  {
    hide ResponseThrows;
    if Receipted(js, v, handled, writes) {
      assert CreateReceipt(js, v).value.challengeId == v.challengeId;
    }
  }

  /** The receipt is made of the time at which the payment was observed. */
  lemma ReceiptIsMadeIff(js: Js, v: VerifiedRedemption, r: Receipt)
    ensures CreateReceipt(js, v) == Some(r) <==>
      && Get(v.settlement, "observedAt") == Some(Str(r.timestamp)) && js.isTime(r.timestamp)
      && r.reference == v.paymentHash && r.challengeId == v.challengeId && v.challengeId != ""
      && IsPrefixedHex(v.paymentHash) && |v.paymentHash| == 66
  {}

  /** The middleware's response, too, carries a receipt header exactly when it made the receipt, and
      then its own; any other header is the upstream's, hop-by-hop or not. */
  lemma AnswerHeaders(lib: Lib, reply: HttpReply, receipt: Option<Receipt>, h: (string, string))
    requires Sound(lib)
    ensures h in Answer(lib, reply, receipt).headers <==>
            if h.0 == "payment-receipt" then receipt.Some? && h.1 == ReceiptToken(lib, receipt.value)
            else if h.0 == "cache-control" && receipt.Some? then h.1 == "private"
            else h in reply.headers
  {
    hide Insert;
    match receipt
    case None => WithoutMembers(reply.headers, PAYMENT_RECEIPT, h);
    case Some(r) =>
      var token := ReceiptToken(lib, r);
      InsertMembers(reply.headers, PAYMENT_RECEIPT, token, h);
      InsertMembers(Insert(reply.headers, PAYMENT_RECEIPT, token), "cache-control", "private", h);
      assert PAYMENT_RECEIPT != "cache-control";
  }

  /** For every name the values in that response, in order. */
  lemma AnswerValues(lib: Lib, reply: HttpReply, receipt: Option<Receipt>, name: string)
    requires Sound(lib)
    ensures ValuesOf(Answer(lib, reply, receipt).headers, name) ==
            if name == "payment-receipt" then if receipt.Some? then [ReceiptToken(lib, receipt.value)] else []
            else if name == "cache-control" && receipt.Some? then ["private"]
            else ValuesOf(reply.headers, name)
  {
    hide Insert, ReceiptToken;
    match receipt
    case None => WithoutValues(reply.headers, PAYMENT_RECEIPT, name);
    case Some(r) =>
      var token := ReceiptToken(lib, r);
      InsertValues(reply.headers, PAYMENT_RECEIPT, token, name);
      InsertValues(Insert(reply.headers, PAYMENT_RECEIPT, token), "cache-control", "private", name);
      assert PAYMENT_RECEIPT != "cache-control";
  }
}
