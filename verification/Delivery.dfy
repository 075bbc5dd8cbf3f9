/** After the upstream call: the delivery row, the receipt and the response headers. */
module Delivery {
  import opened Wrappers
  import opened Text
  import opened Json
  import opened Wire
  import opened Storage
  import Base64
  import Utf8

  datatype VerifiedRedemption = VerifiedRedemption(
    challengeId: string, credentialHash: string, paymentHash: string, settlement: Json)

  /** Header names are in lower case, as HeaderName stores them. */
  type Headers = seq<(string, string)>

  datatype HttpReply = HttpReply(status: int, headers: Headers, body: string)

  const PAYMENT_RECEIPT := "payment-receipt"

  const HOP_BY_HOP: set<string> :=
    {"connection", "keep-alive", "proxy-authenticate", "proxy-authorization", "proxy-connection", "te", "trailer",
     "transfer-encoding", "upgrade"}

  predicate Success(status: int) { 200 <= status < 300 }

  // ---------------------------------------------------------------- response headers

  /** HeaderValue::to_str succeeds: visible ASCII, space and tab. */
  predicate Readable(value: string) { forall i :: 0 <= i < |value| ==> ' ' <= value[i] <= '~' || value[i] == '\t' }

  predicate NominatedIn(value: string, name: string) {
    Readable(value) && exists part :: part in Split(value, ',') && EqIgnoreAsciiCase(Utf8.Trim(part), name)
  }

  /** connection_nominates */
  predicate Nominated(headers: Headers, name: string) {
    exists h :: h in headers && h.0 == "connection" && NominatedIn(h.1, name)
  }

  /** response_header_allowed */
  predicate Allowed(headers: Headers, name: string) {
    name != "content-length" && name != PAYMENT_RECEIPT && name !in HOP_BY_HOP && !Nominated(headers, name)
  }

  /** The headers among some that the response keeps, in order; all is the upstream's full list. */
  function Kept(some: Headers, all: Headers): Headers {
    if some == [] then []
    else if Allowed(all, some[0].0) then [some[0]] + Kept(some[1..], all)
    else Kept(some[1..], all)
  }

  /** HeaderMap::insert: the new value replaces every value of that name. */
  function Insert(headers: Headers, name: string, value: string): Headers {
    Without(headers, name) + [(name, value)]
  }

  function Without(headers: Headers, name: string): Headers {
    if headers == [] then []
    else if headers[0].0 == name then Without(headers[1..], name)
    else [headers[0]] + Without(headers[1..], name)
  }

  function ReceiptToJson(r: Receipt): Json {
    Obj(map["status" := Str("success"), "method" := Str("fiber"), "timestamp" := Str(r.timestamp),
            "reference" := Str(r.reference), "challengeId" := Str(r.challengeId)])
  }

  function ReceiptToken(lib: Lib, r: Receipt): string
    requires Sound(lib)
  {
    Base64.Encode(lib.jcs(ReceiptToJson(r)))
  }

  function Response(lib: Lib, reply: HttpReply, receipt: Option<Receipt>): HttpReply
    requires Sound(lib)
  {
    var kept := Kept(reply.headers, reply.headers);
    reply.(headers := match receipt
                      case None => kept
                      case Some(r) => Insert(Insert(kept, PAYMENT_RECEIPT, ReceiptToken(lib, r)), "cache-control",
                                             "private"))
  }

  // ---------------------------------------------------------------- records

  function ReceiptOf(v: VerifiedRedemption, now: string): Receipt {
    Receipt(match GetStr(v.settlement, "observedAt") case Some(t) => t case None => now, v.paymentHash, v.challengeId)
  }

  /** The delivery row of an upstream reply. */
  function Outcome(v: VerifiedRedemption, status: int, now: string): DeliveryOutcome {
    if Success(status) then
      DeliveryOutcome(v.challengeId, v.credentialHash, v.paymentHash, Some(v.paymentHash), Delivered, Some(status),
                      None, None, now)
    else
      DeliveryOutcome(v.challengeId, v.credentialHash, v.paymentHash, None, Failed, Some(status),
                      Some("upstream-non-success"), None, now)
  }

  /** The delivery row when the upstream call itself fails. */
  function CallFailed(v: VerifiedRedemption, now: string): DeliveryOutcome {
    DeliveryOutcome(v.challengeId, v.credentialHash, v.paymentHash, None, Failed, None, Some("upstream-error"),
                    Some("upstream request failed"), now)
  }

  /** finish_upstream: the tables afterwards and the response. */
  function Finish(lib: Lib, db: Db, v: VerifiedRedemption, reply: HttpReply, now: string)
    : (Db, Result<HttpReply, StorageError>)
    requires Sound(lib)
  {
    match SaveDelivery(db, Outcome(v, reply.status, now))
    case Err(e) => (db, Err(e))
    case Ok(recorded) =>
      if !Success(reply.status) then (recorded, Ok(Response(lib, reply, None)))
      else
        match SaveReceipt(recorded, ReceiptOf(v, now))
        case Err(e) => (recorded, Err(e))
        case Ok(receipted) => (receipted, Ok(Response(lib, reply, Some(ReceiptOf(v, now)))))
  }

  method CopyHeaders(headers: Headers) returns (copied: Headers)
    ensures copied == Kept(headers, headers)
  {
    copied := [];
    var i := 0;
    while i < |headers|
      invariant 0 <= i <= |headers|
      invariant copied + Kept(headers[i..], headers) == Kept(headers, headers)
    {
      assert headers[i..][0] == headers[i] && headers[i..][1..] == headers[i + 1..];
      if Allowed(headers, headers[i].0) {
        assert copied + ([headers[i]] + Kept(headers[i + 1..], headers))
            == copied + [headers[i]] + Kept(headers[i + 1..], headers);
        copied := copied + [headers[i]];
      }
      i := i + 1;
    }
  }

  /** finish_upstream, on the locked store. */
  method FinishUpstream(lib: Lib, store: SqliteStore, v: VerifiedRedemption, reply: HttpReply, now: string)
    returns (response: Result<HttpReply, StorageError>)
    requires Sound(lib)
    modifies store
    ensures (store.Tables(), response) == Finish(lib, old(store.Tables()), v, reply, now)
  {
    hide Kept, Insert, ReceiptToken, Storage.SaveDelivery, Storage.SaveReceipt;
    var delivered := Success(reply.status);
    var receipt := if delivered then Some(ReceiptOf(v, now)) else None;
    var saved := store.SaveDeliveryOutcome(Outcome(v, reply.status, now));
    if saved.Err? {
      return Err(saved.error);
    }
    if delivered {
      saved := store.SaveReceiptRow(receipt.value);
      if saved.Err? {
        return Err(saved.error);
      }
    }
    var headers := CopyHeaders(reply.headers);
    if delivered {
      headers := Insert(headers, PAYMENT_RECEIPT, ReceiptToken(lib, receipt.value));
      headers := Insert(headers, "cache-control", "private");
    }
    response := Ok(reply.(headers := headers));
  }

  // ---------------------------------------------------------------- what a response carries

  lemma {:induction false} KeptMembers(some: Headers, all: Headers, h: (string, string))
    ensures h in Kept(some, all) <==> h in some && Allowed(all, h.0)
  {
    hide Allowed;
    if some != [] {
      KeptMembers(some[1..], all, h);
      assert some == [some[0]] + some[1..];
    }
  }

  lemma {:induction false} WithoutMembers(headers: Headers, name: string, h: (string, string))
    ensures h in Without(headers, name) <==> h in headers && h.0 != name
  {
    if headers != [] {
      WithoutMembers(headers[1..], name, h);
      assert headers == [headers[0]] + headers[1..];
    }
  }

  lemma InsertMembers(headers: Headers, name: string, value: string, h: (string, string))
    ensures h in Insert(headers, name, value) <==> h == (name, value) || (h in headers && h.0 != name)
  {
    WithoutMembers(headers, name, h);
  }

  /** A connection header of visible ASCII, spaces and tabs has this name, trimmed and in any letter case,
      among the texts that its commas separate. */
  ghost predicate Nominates(headers: Headers, name: string) {
    exists h: (string, string), parts: seq<string> ::
      && h in headers && h.0 == "connection" && Join(parts, ",") == h.1
      && (forall i :: 0 <= i < |h.1| ==> 32 <= h.1[i] as int <= 126 || h.1[i] as int == 9)
      && (forall part :: part in parts ==> ',' !in part)
      && exists part :: part in parts && Lower(Utf8.Trim(part)) == Lower(name)
  }

  lemma NominatedIff(headers: Headers, name: string)
    ensures Nominated(headers, name) <==> Nominates(headers, name)
  {
    hide Utf8.Trim, Split, Join;
    forall h: (string, string), parts: seq<string>
      ensures parts == Split(h.1, ',') <==>
              parts != [] && (forall part :: part in parts ==> ',' !in part) && Join(parts, ",") == h.1
    {
      SplitIff(h.1, ',', parts);
    }
    if Nominated(headers, name) {
      var h :| h in headers && h.0 == "connection" && NominatedIn(h.1, name);
      var parts := Split(h.1, ',');
      assert h in headers && Join(parts, ",") == h.1;
    }
  }

  /** A name that goes no further: content-length, the hop-by-hop names, and what is nominated. */
  ghost predicate Dropped(headers: Headers, name: string) {
    || name in {"content-length", "connection", "keep-alive", "proxy-authenticate", "proxy-authorization",
                "proxy-connection", "te", "trailer", "transfer-encoding", "upgrade"}
    || Nominates(headers, name)
  }

  lemma AllowedIff(headers: Headers, name: string)
    ensures Allowed(headers, name) <==> name != "payment-receipt" && !Dropped(headers, name)
  {
    hide Nominated, Nominates;
    NominatedIff(headers, name);
  }

  /** Whatever the upstream sends, a response carries a receipt header exactly when the gateway made
      a receipt, and then that receipt and no other; every other header is one the upstream sent and
      the filter allows, save the cache-control that goes with a receipt. */
  lemma ResponseHeaders(lib: Lib, reply: HttpReply, receipt: Option<Receipt>, h: (string, string))
    requires Sound(lib)
    ensures h in Response(lib, reply, receipt).headers <==>
            if h.0 == "payment-receipt" then receipt.Some? && h.1 == ReceiptToken(lib, receipt.value)
            else if h.0 == "cache-control" && receipt.Some? then h.1 == "private"
            else h in reply.headers && !Dropped(reply.headers, h.0)
  {
    hide Kept, Insert, Allowed, Dropped;
    AllowedIff(reply.headers, h.0);
    var kept := Kept(reply.headers, reply.headers);
    KeptMembers(reply.headers, reply.headers, h);
    if receipt.Some? {
      var token := ReceiptToken(lib, receipt.value);
      InsertMembers(kept, PAYMENT_RECEIPT, token, h);
      InsertMembers(Insert(kept, PAYMENT_RECEIPT, token), "cache-control", "private", h);
      assert PAYMENT_RECEIPT != "cache-control";
    }
  }

  /** The values of a name, in order. */
  function ValuesOf(headers: Headers, name: string): seq<string> {
    if headers == [] then []
    else (if headers[0].0 == name then [headers[0].1] else []) + ValuesOf(headers[1..], name)
  }

  lemma {:induction false} KeptValues(some: Headers, all: Headers, name: string)
    ensures ValuesOf(Kept(some, all), name) == if Allowed(all, name) then ValuesOf(some, name) else []
  {
    hide Allowed;
    if some != [] {
      KeptValues(some[1..], all, name);
      assert ([some[0]] + Kept(some[1..], all))[1..] == Kept(some[1..], all);
    }
  }

  lemma {:induction false} WithoutValues(headers: Headers, gone: string, name: string)
    ensures ValuesOf(Without(headers, gone), name) == if name == gone then [] else ValuesOf(headers, name)
  {
    if headers != [] {
      WithoutValues(headers[1..], gone, name);
      assert ([headers[0]] + Without(headers[1..], gone))[1..] == Without(headers[1..], gone);
    }
  }

  lemma {:induction false} AppendedValues(headers: Headers, h: (string, string), name: string)
    ensures ValuesOf(headers + [h], name) == ValuesOf(headers, name) + (if h.0 == name then [h.1] else [])
  {
    if headers == [] {
      assert headers + [h] == [h] && [h][1..] == [];
    } else {
      AppendedValues(headers[1..], h, name);
      assert (headers + [h])[1..] == headers[1..] + [h];
    }
  }

  lemma InsertValues(headers: Headers, put: string, value: string, name: string)
    ensures ValuesOf(Insert(headers, put, value), name) == if name == put then [value] else ValuesOf(headers, name)
  {
    WithoutValues(headers, put, name);
    AppendedValues(Without(headers, put), (put, value), name);
  }

  /** For every name the values in a response: one receipt and one cache-control where there is a receipt,
      and of what the upstream sent all values in order, or none. */
  lemma ResponseValues(lib: Lib, reply: HttpReply, receipt: Option<Receipt>, name: string)
    requires Sound(lib)
    ensures ValuesOf(Response(lib, reply, receipt).headers, name) ==
            if name == "payment-receipt" then if receipt.Some? then [ReceiptToken(lib, receipt.value)] else []
            else if name == "cache-control" && receipt.Some? then ["private"]
            else if Dropped(reply.headers, name) then []
            else ValuesOf(reply.headers, name)
  {
    hide Kept, Insert, Allowed, Dropped, ReceiptToken;
    AllowedIff(reply.headers, name);
    KeptValues(reply.headers, reply.headers, name);
    if receipt.Some? {
      var kept, token := Kept(reply.headers, reply.headers), ReceiptToken(lib, receipt.value);
      InsertValues(kept, PAYMENT_RECEIPT, token, name);
      InsertValues(Insert(kept, PAYMENT_RECEIPT, token), "cache-control", "private", name);
      assert PAYMENT_RECEIPT != "cache-control";
    }
  }

  /** A receipt header that the gateway makes reads, in base64url and JSON, as a success by this method for
      the redeemed challenge and payment hash, at the time at which the payment was observed, or now where
      the settlement names none. */
  lemma ReceiptReadsAs(lib: Lib, v: VerifiedRedemption, now: string)
    requires Sound(lib)
    ensures var bytes := Base64.DecodeChecked(ReceiptToken(lib, ReceiptOf(v, now)), true);
      var time := if Get(v.settlement, "observedAt").Some? && Get(v.settlement, "observedAt").value.Str?
                  then Get(v.settlement, "observedAt").value.text else now;
      && bytes.Some?
      && lib.parseJson(bytes.value) ==
         Some(Obj(map["status" := Str("success"), "method" := Str("fiber"), "reference" := Str(v.paymentHash),
                      "challengeId" := Str(v.challengeId), "timestamp" := Str(time)]))
  {
    hide Base64.Encode, Base64.Decode;
    var json := lib.jcs(ReceiptToJson(ReceiptOf(v, now)));
    var r := ReceiptOf(v, now);
    assert ReceiptToJson(r) == Obj(map["status" := Str("success"), "method" := Str("fiber"),
        "reference" := Str(r.reference), "challengeId" := Str(r.challengeId), "timestamp" := Str(r.timestamp)]);
    Base64.CheckedDecodeIsInverse(Base64.Encode(json), json, true);
  }

  /** The receipt header names one receipt. */
  lemma ReceiptTokenInjective(lib: Lib, r: Receipt, s: Receipt)
    requires Sound(lib)
    ensures ReceiptToken(lib, r) == ReceiptToken(lib, s) <==> r == s
  {
    if ReceiptToken(lib, r) == ReceiptToken(lib, s) {
      Base64.EncodeInjective(lib.jcs(ReceiptToJson(r)), lib.jcs(ReceiptToJson(s)));
      JcsInjective(lib, ReceiptToJson(r), ReceiptToJson(s));
      assert GetStr(ReceiptToJson(r), "timestamp") == Some(r.timestamp);
      assert GetStr(ReceiptToJson(r), "reference") == Some(r.reference);
      assert GetStr(ReceiptToJson(r), "challengeId") == Some(r.challengeId);
    }
  }
}
