/** The polling loop of the Fiber client, and the protocol's poll steps as its iterations. */
module InvoicePolling {
  import opened Wrappers
  import opened Json
  import opened Wire
  import opened Gateway
  import opened Protocol
  import opened GatewayProtocol
  import opened ProtocolService
  import opened InvoiceTerms
  import Invoice

  datatype PollError = InvalidPollingConfig | Rpc | InvoiceTerminal(status: string) | InvoiceTimeout(lastStatus: string)

  /** What one iteration sees: get_invoice's answer, and the time elapsed when the loop looks at it. */
  datatype Observation = Observation(answer: NodeReply, elapsed: nat)

  /** The invoice record has this status text. */
  predicate HasStatus(invoice: Json, status: string) {
    invoice.Obj? && "status" in invoice.fields && invoice.fields["status"] == Str(status)
  }

  /** The answer lets the loop go on. */
  predicate Undecided(o: Observation, timeout: nat) {
    && o.answer.Record? && o.elapsed < timeout && !HasStatus(o.answer.invoice, "Paid")
    && !HasStatus(o.answer.invoice, "Cancelled") && !HasStatus(o.answer.invoice, "Expired")
  }

  /** What the first decisive answer makes of the wait: payment wins over everything that comes with it. */
  ghost predicate Decides(o: Observation, verdict: Result<Json, PollError>) {
    match o.answer
    case RpcFailed => verdict == Err(Rpc)
    case Record(invoice) =>
      if HasStatus(invoice, "Paid") then verdict == Ok(invoice)
      else if HasStatus(invoice, "Cancelled") then verdict == Err(InvoiceTerminal("Cancelled"))
      else if HasStatus(invoice, "Expired") then verdict == Err(InvoiceTerminal("Expired"))
      else
        && verdict.Err? && verdict.error.InvoiceTimeout?
        && (if exists status :: HasStatus(invoice, status) then HasStatus(invoice, verdict.error.lastStatus)
            else verdict.error.lastStatus == "unknown")
  }

  /** The loop stops at the first observation that is not undecided. */
  predicate StopsAt(script: seq<Observation>, timeout: nat, k: nat) {
    && k < |script| && !Undecided(script[k], timeout)
    && forall i :: 0 <= i < k ==> Undecided(script[i], timeout)
  }

  /** wait_for_invoice_paid_with; None when the script ends while the loop still waits. */
  method WaitForInvoicePaid(script: seq<Observation>, timeout: nat, pollInterval: nat)
    returns (verdict: Option<Result<Json, PollError>>)
    ensures timeout == 0 || pollInterval == 0 || pollInterval > timeout ==> verdict == Some(Err(InvalidPollingConfig))
    ensures 0 < pollInterval <= timeout ==>
      match verdict
      case None => forall i :: 0 <= i < |script| ==> Undecided(script[i], timeout)
      case Some(v) => exists k: nat :: StopsAt(script, timeout, k) && Decides(script[k], v)
  {
    if timeout == 0 || pollInterval == 0 || pollInterval > timeout {
      return Some(Err(InvalidPollingConfig));
    }
    var lastStatus := "unknown";
    var k := 0;
    while k < |script|
      invariant 0 <= k <= |script|
      invariant forall i :: 0 <= i < k ==> Undecided(script[i], timeout)
    {
      if script[k].answer.RpcFailed? {
        assert StopsAt(script, timeout, k);
        return Some(Err(Rpc));
      }
      var invoice := script[k].answer.invoice;
      lastStatus := InvoiceStatus(invoice);
      if lastStatus == "Paid" {
        assert StopsAt(script, timeout, k);
        return Some(Ok(invoice));
      }
      if IsTerminal(lastStatus) {
        assert StopsAt(script, timeout, k);
        return Some(Err(InvoiceTerminal(lastStatus)));
      }
      if script[k].elapsed >= timeout {
        assert StopsAt(script, timeout, k);
        return Some(Err(InvoiceTimeout(lastStatus)));
      }
      k := k + 1;
    }
    verdict := None;
  }

  function Polls(r: nat, script: seq<Observation>, timeout: nat): seq<Step> {
    seq(|script|, i requires 0 <= i < |script| => Poll(r, script[i].answer, script[i].elapsed >= timeout))
  }

  /** The poll steps of a waiting request do nothing until the loop would stop, and its verdict then
      decides: a paid record is validated and settles, a terminal invoice is reissued, and an error
      or the timeout breaks the request off. */
  lemma PollsAreTheLoop(lib: Lib, g: Rules, w: World, r: nat, script: seq<Observation>, timeout: nat, k: nat,
                        verdict: Result<Json, PollError>)
    requires Judges(lib, g) && r in w.phases && w.phases[r].Polling? && StopsAt(script, timeout, k)
    requires Decides(script[k], verdict)
    ensures var p := w.phases[r];
      var end := Run(g, w, Polls(r, script[..k + 1], timeout));
      && r in end.phases && end.db == w.db
      && match verdict
         case Ok(invoice) =>
           (match Invoice.VerifyPaid(lib, w.config.node, p.charge, p.presented.paymentHash, invoice)
            case Ok(_) => end.phases[r].Settled? && end.phases[r].presented == p.presented
            case Err(Payment(_)) => end.phases[r] == Issuing(p.request)
            case Err(Fiber(_)) => end.phases[r] == Done(Broken))
         case Err(InvoiceTerminal(_)) => end.phases[r] == Issuing(p.request)
         case Err(_) => end.phases[r] == Done(Broken)
  {
    hide Invoice.VerifyPaid, Settlement, Run, Apply, Polls;
    PollsReach(lib, g, w, r, script, timeout, k);
  }

  lemma {:induction false} PollsReach(lib: Lib, g: Rules, w: World, r: nat, script: seq<Observation>, timeout: nat,
                                      k: nat)
    requires Judges(lib, g) && r in w.phases && w.phases[r].Polling? && StopsAt(script, timeout, k)
    ensures Run(g, w, Polls(r, script[..k + 1], timeout)) ==
            DoPoll(g, w, r, script[k].answer, script[k].elapsed >= timeout)
    decreases k
  {
    hide Run, Apply, Settlement, Invoice.VerifyPaid;
    var first := Poll(r, script[0].answer, script[0].elapsed >= timeout);
    EnabledPoll(g, w, r, script[0].answer, script[0].elapsed >= timeout);
    if k == 0 {
      assert Polls(r, script[..1], timeout) == [first];
      RunStep(g, w, first, []);
    } else {
      assert Undecided(script[0], timeout);
      assert DoPoll(g, w, r, script[0].answer, script[0].elapsed >= timeout) == w;
      var rest := Polls(r, script[1..][..k], timeout);
      assert Polls(r, script[..k + 1], timeout) == [first] + rest;
      RunStep(g, w, first, rest);
      PollsReach(lib, g, w, r, script[1..], timeout, k - 1);
    }
  }

  // ---------------------------------------------------------------- one answer

  /** What the gateway makes of one record: it waits unless the status is decisive, accepts a paid record
      exactly when it says terms that settle the charge, and reports an error of its own only when the
      record that is to be compared names no payment hash. */
  lemma JudgedBySaying(lib: Lib, config: Config, charge: Charge, presented: Credential, invoice: Json, now: int)
    ensures var judgement := Judge(lib, config, charge, presented, invoice, now);
      var d := charge.methodDetails;
      && (judgement.Paid? <==>
            HasStatus(invoice, "Paid") && presented.paymentHash == d.paymentHash
            && exists t :: Says(invoice, t) && Settles(lib, config.node, charge, t))
      && (judgement.Waiting? <==>
            !HasStatus(invoice, "Paid") && !HasStatus(invoice, "Cancelled") && !HasStatus(invoice, "Expired"))
      && (judgement.Erroneous? <==>
            && HasStatus(invoice, "Paid") && presented.paymentHash == d.paymentHash
            && GetStr(Obj(d.extensions), "invoiceCurrency") == Some(config.node.invoiceCurrency)
            && GetStr(Obj(d.extensions), "invoiceExpiresAt").Some?
               && IsText(At(invoice, ["invoice_address"]), d.invoice)
            && NoText(At(invoice, ["invoice", "data", "payment_hash"])) && NoText(At(invoice, ["payment_hash"])))
      && (judgement.Paid? ==>
            && GetStr(judgement.settlement, "status") == Some("settled")
            && GetStr(judgement.settlement, "paymentHash") == Some(d.paymentHash)
            && GetStr(judgement.settlement, "invoiceStatus") == Some("Paid")
            && GetStr(judgement.settlement, "observedAt") == Some(lib.printTime(now)))
  {
    hide Invoice.VerifyPaid, Says, Settles, At;
    PaidIff(lib, config.node, charge, presented.paymentHash, invoice);
    NodeFaultIff(lib, config.node, charge, presented.paymentHash, invoice);
  }
}
