# Fiber paid HTTP: a verified model

The repository sells HTTP requests for Fiber payments. A Rust gateway answers an unpaid request with
402 and a challenge that names a Fiber invoice; the client pays, comes back with a credential in the
`Authorization` header (the `Payment` scheme, or `L402` with a capability and a preimage), and the
gateway verifies it, consumes it once, calls the upstream, and records the delivery and a receipt in
SQLite. TypeScript packages do the same and share the formats.

This project models that core and proves what it guarantees.

**The redemption protocol** (`Gateway`, `Delivery`, `Storage`, `Protocol*`, `GatewayProtocol`,
`InvoicePolling`, `Middleware`).
`Storage` holds the four tables as a value with one function per statement, and as a class whose
methods run the statements of both languages' transactions one after the other, proved against those
functions. `Protocol` is the gateway as a state machine: any number of requests, each a phase, each
step one store lock, one answer of the node or the upstream, or one reading of the clock, in any
interleaving with time, aborted requests and restarts under another configuration. The node, the
upstream and the clients answer anything. What a request decides without the store (reading the
header, checking, judging an invoice, hashing, printing) is a record of functions, `Rules`:
`ProtocolInvariant` and `ProtocolSteps` prove an inductive invariant whatever these are, and
`ProtocolSafety` draws the results for every run. `GatewayProtocol` puts the gateway's own rules in
and proves what stands behind its calls and answers; each theorem names the rules it needs, and
`GatewayRules` has them all. `ProtocolService` and `ProtocolJourney` prove which visits are served,
so that the safety results do not hold by serving nobody, `ProtocolCustomers` that two customers do
not stand in each other's way, and `ProtocolDelivery` what is recorded of every call;
`ProtocolSpelling` shows what the exact comparison of payment hashes lets through.

**The codecs** (`Base64*`, `Hex`, `Utf8*`, `AuthParams`, `Scanners`, `ChallengeHeader`, `Wire`,
`ChargeToken`, `Fl402`, `Ingress`, `Molecule`, `X402`, `StableJson*`). base64url follows section 5 of
RFC 4648, UTF-8 section 3 of RFC 3629, quoted strings section 5.6.4 and auth-params section 11.2 of
RFC 9110, canonical JSON section 3.2 of RFC 8785, Molecule tables CKB RFC 0008. What a value looks
like on the wire is stated beside the functions that write and read it, member by member or byte by
byte: `Ingress.Describes`, `X402.Frames`, `ChallengeHeader.WellMade`, `Base64Groups`, `Utf8Points`,
`StableJsonText.PrintsAs`.

**The invoice checks and the stateful helpers** (`Quantity`, `Invoice`, `InvoiceTerms`,
`GatewayRateLimit`, `CliRateLimit`, `FlowTable`). `InvoiceTerms` says what a record of the node says,
in numbers and paths, and that the checks come to that.

Conventions. A Rust string is the sequence of its UTF-8 bytes, one char per byte; a string of
`StableJson` is a sequence of UTF-16 units. Instants are milliseconds since 1970, except in
`GatewayRateLimit` (nanoseconds of the monotonic clock). `Json.Lib` bundles the library functions the
code calls: canonical JSON, JSON parsing, HMAC, SHA-256, Blake2b and RFC 3339. `Sound` is what is
assumed of them throughout; `TimeText` (printed times hold no bar) and `IdealMac` (HMAC is injective)
are assumed only where a lemma names them. `LibModel` builds a library that meets all three, so that
they do not contradict each other (`LibModel.AssumptionsHoldTogether`). Options of a configuration are parameters.

## Claims that hold only under a condition

Several things one would like to say of the code are false as they stand. Each is stated here with
the exact condition, as an if-and-only-if where the table below says so.

- An L402 capability is not unique: the letter case of its hexadecimal signature is free, so a token
  is the only accepted one of its payload exactly when its signature holds no letter
  (`Fl402.TokenIsUniqueIff`). Single use does not depend on it, because it is enforced per challenge and
  per payment hash.
- The binding input determines the bound fields only when the request holds no bar; validation of a
  challenge alone does not forbid one (`ChallengeHeader.CollidingPair`). The gateway's own challenges
  never hold one.
- The Retry-After of the Rust limiter rounds down, so a caller who obeys it can be rejected again
  (`GatewayRateLimit.RetryAfterHonouredIff`).
- The TypeScript scanner treats vertical tab as space and loses the name `__proto__`. Where a tab
  matters is `Scanners.TabsHarmless`: inside quotes it is free, and among the separators Rust stops at
  it, which shows only when TypeScript reads a further name behind it (`Scanners.TabDiffers`,
  `Scanners.ProtoDiffers`).
- The TypeScript Molecule serializer drops an odd hexadecimal digit and takes the prefix 0X for 0x; the
  Rust one refuses both (`Molecule.SerializersDiffer`).
- Payment hashes are compared without regard to letter case when an invoice is validated, and exactly
  when a redemption is consumed. Two calls for hashes that agree up to letter case are one call exactly
  when the hashes are spelled alike (`ProtocolSafety.OneCallPerSpelling`), and two credentials whose
  hashes are spelled differently are both served (`ProtocolSpelling`).
- The two stores' transactions answer differently when a delivery row stands alone, which no run of
  the Rust gateway produces (`Storage.LanguagesDifferIffStrayDelivery`).
- In the TypeScript middleware a delivered row is not final: a failure behind it turns it into a failed
  one. A handler that has read the body of its own answer leaves a receipt without a delivered row
  (`Middleware.UsedBodyStrands`). The Rust gateway has no such branch.
- `stableJson` prints an array that holds only `undefined` like the empty array, and confuses nothing
  else (`StableJsonProof.StableJsonInjective`).
- Parsing a printed challenge restores it only when no extension has a standard name, and converting
  a charge to x402 and back only when the profile carries the whole charge.

## Model

| member | source | states |
|---|---|---|
| ProtocolSafety.AtMostOneUpstreamCall | crates/fiber-paid-http-server/src/lib.rs:645-746 | in every run, over any interleaving, restarts and secret rotation, each challenge id, each credential hash and each payment hash causes at most one upstream call, by whichever scheme the credentials came |
| GatewayProtocol.UpstreamCallsHaveProvenance | crates/fiber-paid-http-server/src/lib.rs:645-746 | behind every upstream call stand the gateway's own invoice and insertion of the challenge; the request's Authorization header, which shows the credential by Payment or as a verified capability of a challenge inserted before with a preimage of its payment hash; a check that found it echoing that challenge under a current or previous secret, unexpired and for the bound resource; a Paid report of that very invoice on the charge's address, hash, amount, currency, network, algorithm and expiry; and the consumption, in this order |
| GatewayProtocol.IssuingSecretWasCurrent | crates/fiber-paid-http-core/src/mpp.rs:165-183 | with an ideal MAC the secret that issued the challenge is among the secrets that accepted the credential, whatever is presented or judged |
| ProtocolSafety.OneCallPerSpelling | crates/fiber-paid-http-server/src/lib.rs:1570-1664 | two calls for payment hashes that differ in letter case at most are one call iff the hashes are spelled alike |
| ProtocolSpelling.BothAreServedIff | crates/fiber-paid-http-storage/src/lib.rs:191-230 | two credentials that are redeemable now, of different challenges and with different hashes, are both served in turn iff their payment hashes are spelled differently, and then two calls go out |
| ProtocolSpelling.TwoSpellingsTwoCalls | crates/fiber-paid-http-storage/src/lib.rs:191-230 | a run in which two calls go out for hashes that differ in letter case only |
| ProtocolSafety.CallsHaveHistory | crates/fiber-paid-http-server/src/lib.rs:645-746 | under any rules, each upstream call has its own insertion, presentation, check, payment report and consumption, linked by request, credential and record |
| Ingress.PresentedIff | crates/fiber-paid-http-server/src/lib.rs:1044-1112 | a header yields a credential iff it shows it: in the Payment scheme, as base64url of at most 16384 symbols of JSON that says the credential, or in the L402 scheme, as a capability that verifies now, has every named caveat and names a stored challenge, which with the caveats' payment hash is the whole credential, behind a preimage whose SHA-256 or CKB hash that payment hash is |
| ProtocolSafety.NoWriteIsDropped | crates/fiber-paid-http-storage/src/lib.rs:191-300 | in every reachable database a challenge is consumed iff it has a redemption iff it has a delivery of the same credential and payment, receipts belong to delivered rows, consuming never raises, a delivery record replaces a pending row and says what became of the call, and a receipt insert is never ignored |
| ProtocolSafety.TablesOnlyEvolve | crates/fiber-paid-http-server/src/lib.rs:1165-1236 | over any further steps no row disappears, a stored challenge changes at most by being consumed, and a delivery row that left pending is never rewritten |
| GatewayProtocol.ReceiptHeadersAreBacked | crates/fiber-paid-http-server/src/lib.rs:1165-1213 | a response carries Payment-Receipt iff the upstream status was 2xx, and then it names the one receipt stored behind the delivered row of its challenge, whatever the upstream sent |
| GatewayProtocol.SkippedChallengesAreStored | crates/fiber-paid-http-storage/src/lib.rs:133-152 | with an ideal MAC an INSERT OR IGNORE of a challenge only ever skips one with the same seven bound fields and secret as the stored row |
| ProtocolService.VisitIsServedIff | crates/fiber-paid-http-server/src/lib.rs:645-746 | from every reachable state an undisturbed visit ends with the upstream's reply and a receipt iff the upstream succeeds and the presented credential passes the checks, is paid for and was not redeemed before by challenge, credential or payment; a redeemable one adds exactly its redemption and one call; any other visit changes no table and ends where its verdict leads: on the way to a fresh challenge, broken off, or still polling |
| ProtocolJourney.PaidChallengeIsServedIff | crates/fiber-paid-http-server/src/lib.rs:972-1163 | from every reachable state, a client that asks, pays and comes back undisturbed with the Payment credential of its challenge gets the upstream's success and a receipt iff it is back within the time to live and neither hash was redeemed before |
| ProtocolJourney.PaidCapabilityIsServedIff | crates/fiber-paid-http-server/src/lib.rs:1044-1276 | the same by L402, with the capability granted with the offer and any preimage text: served iff back in time, the preimage spells 32 bytes whose SHA-256 or CKB hash, by the configured algorithm, is the payment hash, and neither hash was redeemed before |
| ProtocolCustomers.EachIsServedIff | crates/fiber-paid-http-server/src/lib.rs:645-746 | two customers who are offered challenges for different payment hashes, pay and come back in turn with credentials whose texts have different digests are each served iff back in time, with hashes not redeemed before and a succeeding upstream, whatever becomes of the other |
| ProtocolJourney.AskingStoresTheOffer | crates/fiber-paid-http-server/src/lib.rs:972-1042 | an undisturbed request without a readable credential is offered the challenge of its resource, with the expiry of the time of asking; it is stored unless its id is taken, and the answer goes out if its header prints and its capability, if any, is signed |
| ProtocolJourney.SlowOfferIsStored | crates/fiber-paid-http-server/src/lib.rs:972-1042 | with any waits in between, the invoice is judged when it arrives, the challenge dates from before it was asked for and the capability from its storing |
| ProtocolJourney.NoOfferBreaksOff | crates/fiber-paid-http-server/src/lib.rs:972-1042 | a node that refuses, or whose answer makes no offer, breaks the request off and nothing is stored |
| ProtocolJourney.OfferedHeaderParses | crates/fiber-paid-http-server/src/lib.rs:1029-1034 | that 402 answer goes out iff realm and description are usable, the token fits and a configured root key has 32 bytes, and its header parses to the offered challenge |
| GatewayProtocol.FinishUpstreamIsTwoSteps | crates/fiber-paid-http-server/src/lib.rs:1165-1213 | on a reachable state finish_upstream never fails and is the two recording steps of the state machine run in a row |
| ProtocolDelivery.FailedCallIsRecorded | crates/fiber-paid-http-server/src/lib.rs:731-745 | from every reachable state a failing upstream call ends with its challenge's row failed, without status, as upstream-error, no receipt and nothing else changed |
| ProtocolDelivery.ReceivedCallIsRecorded | crates/fiber-paid-http-server/src/lib.rs:1165-1236 | from every reachable state an answered call ends with its challenge's row delivered or failed by the status, in full, with the receipt in full on success, the response made of both, and nothing else changed |
| ProtocolDelivery.EndedRequestsAreSettled | crates/fiber-paid-http-server/src/lib.rs:645-746 | in every run a redemption whose request has ended, other than by abortion or restart, has no pending delivery row |
| ProtocolDelivery.LostIff | crates/fiber-paid-http-server/src/lib.rs:645-746 | a step loses a request iff it aborts it or restarts the gateway while it is under way |
| ProtocolSteps.StepKeeps | crates/fiber-paid-http-server/src/lib.rs:645-746 | every step of every request, every tick and every restart keeps the invariant that ties tables, phases and history together |
| ProtocolInvariant.ClaimsDiffer | crates/fiber-paid-http-server/src/lib.rs:1215-1236 | no two requests under way are about to write the same delivery row |
| InvoicePolling.WaitForInvoicePaid | crates/fiber-paid-http-fiber/src/lib.rs:127-160 | the loop stops at the first answer that is an error, Paid, terminal or late, with the verdict of that answer, in which payment outranks the timeout |
| InvoicePolling.PollsAreTheLoop | crates/fiber-paid-http-server/src/lib.rs:357-417 | the poll steps of the state machine are the iterations of that loop and lead where verify_paid's result leads |
| InvoicePolling.JudgedBySaying | crates/fiber-paid-http-server/src/lib.rs:357-417 | one record is accepted iff its status is Paid and it says terms that settle the charge, is waited for iff its status is none of Paid, Cancelled and Expired, and is the node's fault iff it is to be compared and names no payment hash |
| Gateway.CheckAcceptsIffProves | crates/fiber-paid-http-server/src/lib.rs:1114-1141 | the checks accept a charge iff the credential echoes the stored challenge, its id is bound under one of the secrets, it has not expired, the resource is the bound one and request, stored charge and payment hash are that charge's |
| Gateway.OwnChallengePassesIff | crates/fiber-paid-http-server/src/lib.rs:972-1042 | with an ideal MAC a challenge the gateway issued passes later iff it is echoed in full for the same resource with its payment hash, within its time to live, while the issuing secret is still listed |
| Gateway.SameResourceIff | crates/fiber-paid-http-server/src/lib.rs:1499-1520 | two requests have the same descriptor iff method, URL and content type agree and, unless GET or HEAD, the bodies have one digest |
| Gateway.BodyDigestIsValid | crates/fiber-paid-http-core/src/mpp.rs:190-196 | the computed body digest is the standard base64 of the body's SHA-256 between colons, and one that challenge validation accepts |
| Gateway.IssuedIsValidIff | crates/fiber-paid-http-server/src/lib.rs:988-1033 | an issued challenge can be printed iff realm and description are not empty texts and the token fits |
| Gateway.IssueFields | crates/fiber-paid-http-server/src/lib.rs:988-1033 | an issued challenge and its record, field by field: its id is the tag, under the secret, of the bound text written out, its opaque text opens to the server id, and it expires the configured seconds later |
| Gateway.SkippedInsertIsTheSameChallenge | crates/fiber-paid-http-core/src/mpp.rs:152-170 | with an ideal MAC two issued challenges share an id iff they share the secret and the seven bound fields |
| Gateway.VerifyIdIffBound | crates/fiber-paid-http-core/src/mpp.rs:172-183 | verify_challenge_id accepts iff the id is the one that binding under a listed secret gives |
| Delivery.FinishUpstream | crates/fiber-paid-http-server/src/lib.rs:1165-1213 | on the locked store: the tables and the response are those of the specification, header loop included |
| Delivery.ResponseHeaders | crates/fiber-paid-http-server/src/lib.rs:932-962 | which headers a response has, exactly: the gateway's receipt and no other, cache-control with it, and of the upstream's all but content-length, the nine hop-by-hop names and those that its connection headers nominate |
| Delivery.ResponseValues | crates/fiber-paid-http-server/src/lib.rs:932-962 | for every name the values in a response, in order |
| Delivery.ReceiptTokenInjective | crates/fiber-paid-http-server/src/lib.rs:1202-1206 | a receipt header names one receipt |
| Delivery.ReceiptReadsAs | crates/fiber-paid-http-server/src/lib.rs:1180-1206 | a receipt header reads as a success for the redeemed challenge and payment hash at the time at which the payment was observed |
| Middleware.Protect | packages/server-middleware/src/index.ts:297-345 | from the handler's promise on, the TypeScript middleware's writes and its response, or its rejection: with a handler that throws, a receipt that its schema refuses, any of the three writes failing, and a Response that cannot be built |
| Middleware.DeliveryAfterFaults | packages/server-middleware/src/index.ts:297-345 | a delivery ends as delivered iff the row of a successful reply was written and not rewritten; a row is rewritten iff the try block fails behind it and the catch branch's write succeeds; a receipt is left without a delivered row iff it was stored, the body of the reply was used and that write succeeded |
| Middleware.UsedBodyStrands | packages/server-middleware/src/index.ts:319-335 | a pending database and a 200 reply with a used body that leave such a receipt |
| Middleware.AnswerHeaders | packages/server-middleware/src/index.ts:310-322 | which headers that response has: its own receipt and no other, and everything else the upstream sent |
| Middleware.AnswerValues | packages/server-middleware/src/index.ts:310-322 | for every name the values in that response, in order |
| Middleware.CallerSees | packages/server-middleware/src/index.ts:297-345 | status and body that the caller gets in every case: the handler's own, a problem document of what was thrown, one of an internal error, or a rejection |
| Middleware.RowIsLeft | packages/server-middleware/src/index.ts:297-345 | the delivery row that is left, in full: of the handler's status, or of the problem if something failed behind it |
| Storage.SqliteStore.ConsumeRedemption | crates/fiber-paid-http-storage/src/lib.rs:191-230 | the Rust transaction, statement by statement with rollback, computes the specified tables and answer |
| Storage.SqliteStore.ConsumeRedemptionTs | packages/storage/src/index.ts:154-208 | the same for the TypeScript transaction |
| Storage.SqliteStore.InsertRedemption | crates/fiber-paid-http-storage/src/lib.rs:202-216 | a row goes in iff its key is free, neither hash is taken and the challenge exists; otherwise nothing changes |
| Storage.ReceiptsStayUnique | crates/fiber-paid-http-storage/src/lib.rs:259-267 | over any sequence of saves no two receipts share a reference or a challenge, stored receipts stay, and a receipt saved for a stored challenge finds its reference or its challenge taken afterwards |
| Storage.FirstChallengeStays | crates/fiber-paid-http-storage/src/lib.rs:133-189 | of all challenges saved under an id, in any sequence of saves, get_challenge finds the first |
| Storage.LastDeliveryStays | crates/fiber-paid-http-storage/src/lib.rs:281-300 | of all delivery rows saved for a stored challenge the last one stays |
| Storage.ConsumeIff | crates/fiber-paid-http-storage/src/lib.rs:191-230 | on linked tables consuming answers true iff the challenge exists unconsumed and neither hash was redeemed, then marks the challenge and adds the redemption and a pending row, changes nothing otherwise, keeps the tables linked, and both languages agree |
| Storage.LanguagesDifferIffStrayDelivery | packages/storage/src/index.ts:154-208 | on arbitrary tables the two languages differ iff a delivery row stands in the way of an otherwise possible redemption |
| ChallengeHeader.HeaderRoundTrip | crates/fiber-paid-http-core/src/mpp.rs:198-269 | for every valid challenge, printing then parsing restores it iff no extension has a standard name, whatever quotes, backslashes, commas or non-ASCII its values hold and whatever other scheme's challenge follows |
| ChallengeHeader.PrintedSchemeEndsHeader | crates/fiber-paid-http-core/src/mpp.rs:477-495 | a printed challenge of another scheme is such a follower |
| ChallengeHeader.SchemeIff | crates/fiber-paid-http-core/src/mpp.rs:220-269 | the scheme is read in any letter case, and no other is |
| ChallengeHeader.BindingInjective | crates/fiber-paid-http-core/src/mpp.rs:152-163 | on valid challenges with base64url requests equal binding inputs mean equal bound fields, bars in the realm or not |
| ChallengeHeader.BindingDetermines | crates/fiber-paid-http-core/src/mpp.rs:152-163 | what equal binding inputs determine without that: the last three fields, and realm and request joined |
| ChallengeHeader.CollidingPair | crates/fiber-paid-http-core/src/mpp.rs:291-343 | two different valid challenges with one binding input |
| ChallengeHeader.ValidIsSeparable | crates/fiber-paid-http-core/src/mpp.rs:291-343 | validation leaves bars to realm and request alone |
| ChallengeHeader.OnlyWellMade | crates/fiber-paid-http-core/src/mpp.rs:291-343 | a challenge can be printed iff it is well made, its digest 32 bytes in standard base64 and its opaque text base64url of canonical JSON texts included, and whatever is parsed is well made |
| AuthParams.ParsePrinted | crates/fiber-paid-http-core/src/mpp.rs:403-475 | scanning a printed parameter list reads exactly its fields and stops where another challenge begins |
| AuthParams.QuotedIff | crates/fiber-paid-http-core/src/mpp.rs:427-455 | a quoted text reads as a text iff it is that text with a backslash before some of its bytes, up to the first quote that none escapes |
| AuthParams.EscapesAgree | packages/core/src/http.ts:101-103 | the Rust escape in two passes and the TypeScript escape in one print the same |
| Utf8Points.ValidIff | crates/fiber-paid-http-core/src/mpp.rs:427-455 | a string is valid UTF-8 iff it is the encoding of code points that are no surrogates |
| Utf8Points.TrimIs | crates/fiber-paid-http-server/src/lib.rs:1044-1060 | trimming takes Unicode white space off both ends and all of it |
| Utf8Points.SplitIff | crates/fiber-paid-http-server/src/lib.rs:1044-1060 | a header is split at its first white-space character |
| Scanners.ParseAuthParams | crates/fiber-paid-http-core/src/mpp.rs:403-475 | the index-driven Rust loop computes the specified result and ends on every input |
| Scanners.NextReads | crates/fiber-paid-http-core/src/mpp.rs:403-475 | the Rust scanner reads a parameter behind any white space and commas, with any white space around its equals sign |
| Scanners.NextEnds | crates/fiber-paid-http-core/src/mpp.rs:403-475 | without an equals sign it ends iff no name is there or another parameter follows behind white space, and refuses otherwise |
| Scanners.TsParseAuthParams | packages/core/src/http.ts:105-153 | the same for the TypeScript loop |
| Scanners.ScanQuoted | crates/fiber-paid-http-core/src/mpp.rs:427-455 | the quoted branch reads the escaped text up to the closing quote, or finds none |
| Scanners.TsParsePrinted | packages/core/src/http.ts:105-153 | the TypeScript scanner reads a printed parameter list, of either language, as its fields and goes on behind it |
| Scanners.TsNextScheme | packages/core/src/http.ts:105-153 | it ends where the printed challenge of another scheme begins |
| Scanners.ScannersSimulate | packages/core/src/http.ts:105-153 | where no vertical tab matters, ASCII that TypeScript accepts is accepted by Rust with the same map, but for the name `__proto__`, which can also make it a duplicate |
| Scanners.ScannersAgreeIff | packages/core/src/http.ts:105-153 | of all ASCII that TypeScript accepts the two results are equal iff no vertical tab matters and the name `__proto__` is not read |
| Scanners.TabDiffers | packages/core/src/http.ts:105-153 | an input with a vertical tab that TypeScript reads as two parameters and Rust as one |
| Scanners.ProtoDiffers | packages/core/src/http.ts:105-153 | an input whose only parameter TypeScript accepts and loses |
| Scanners.TurnsCompare | packages/core/src/http.ts:105-153 | what a vertical tab does to one turn of both loops, wherever it stands |
| Scanners.WithoutTabs | packages/core/src/http.ts:105-153 | without a vertical tab none matters |
| ChargeToken.DecodeIffEncode | crates/fiber-paid-http-core/src/mpp.rs:132-150 | decoding accepts a token with a charge iff the token is that charge's encoding |
| ChargeToken.TokensAreUnique | crates/fiber-paid-http-core/src/mpp.rs:137-150 | no charge has two accepted tokens and no token two charges |
| ChargeToken.TokenTells | crates/fiber-paid-http-core/src/mpp.rs:132-150 | a charge has a token iff its amount is a positive decimal, its hash 32 bytes, its network and algorithm known and its texts not empty; the token is base64url of the canonical JSON that says the charge member by member |
| Base64.CheckedDecodeIsInverse | crates/fiber-paid-http-core/src/mpp.rs:137-143 | base64url as groups of six bits: decoding with the re-encoding check inverts encoding, whether or not the decoder ignores spare bits |
| Base64.TsDecodeAgrees | packages/core/src/encoding.ts:15-24 | the TypeScript decoder differs from the strict one on the empty text only |
| Base64Groups.ThreeBytes | crates/fiber-paid-http-core/src/mpp.rs:132-150 | three bytes encode as the four symbols, of one alphabet, of the sextets that make the same 24 bits, in front of the rest |
| Base64Groups.TwoBytes | crates/fiber-paid-http-core/src/mpp.rs:132-150 | two bytes at the end encode as three symbols |
| Base64Groups.OneByte | crates/fiber-paid-http-core/src/mpp.rs:132-150 | one byte at the end encodes as two symbols |
| Hex.DecodeIffLower | crates/fiber-paid-http-fl402/src/lib.rs:90-123 | hexadecimal decodes to given bytes iff it is their encoding in some mix of letter cases |
| Fl402.DecodeIffToken | crates/fiber-paid-http-fl402/src/lib.rs:69-88 | decoding accepts exactly the tokens built around a payload of the right domain |
| Fl402.AcceptedIffCaseVariantOfIssued | crates/fiber-paid-http-fl402/src/lib.rs:57-123 | a capability verifies iff it is the issued token of a current payload up to the letter case of its signature |
| GatewayProtocol.ShownCapabilityWasGranted | crates/fiber-paid-http-server/src/lib.rs:1238-1276 | in every run, if HMAC is ideal and no tag verifies that the gateway did not make before, every capability that yields a credential is a case variant of one granted before under the same root key, with an offer whose challenge id and payment hash the credential has |
| GatewayProtocol.GrantTells | crates/fiber-paid-http-server/src/lib.rs:1238-1276 | a capability is granted iff L402 is configured with a root key of 32 bytes, and its payload names the domain, the time and, as caveats, the challenge, the charge, the expiry and the resource's hash, method and URL |
| Fl402.TokenIsUniqueIff | crates/fiber-paid-http-fl402/src/lib.rs:90-123 | the issued token of a current payload is its only accepted one iff its signature holds no letter |
| Fl402.UpperCaseTwinIsAccepted | crates/fiber-paid-http-fl402/src/lib.rs:90-123 | a signature in another letter case makes a different token that is accepted |
| Fl402.ProofAcceptedIff | crates/fiber-paid-http-fl402/src/lib.rs:125-192 | a proof is accepted iff its capability is the challenge's and verifies, every caveat is the challenge's, and the preimage opens the payment hash |
| Fl402.OpensIff | crates/fiber-paid-http-fl402/src/lib.rs:178-209 | a preimage hashes to a payment hash, in any letter case, iff it spells 32 bytes whose SHA-256, under sha256, or CKB hash, under ckb_hash, has those digits |
| Ingress.PaymentHeaderRoundTrip | crates/fiber-paid-http-core/src/mpp.rs:271-289 | the Authorization header of a credential reads back as that credential iff its token fits and its flattened maps reuse no field name |
| Ingress.CredentialHashTells | crates/fiber-paid-http-core/src/mpp.rs:185-188 | the hash of a credential is the SHA-256, in hexadecimal, of the one canonical JSON text that says the credential and nothing else, which reads back as it |
| Ingress.HashesAgreeIff | crates/fiber-paid-http-core/src/mpp.rs:185-188 | two credentials share their hash iff those texts share their digest |
| Ingress.CredentialReadIff | crates/fiber-paid-http-core/src/mpp.rs:79-86 | JSON deserializes to a credential iff it says it member by member, null standing for an absent optional text |
| Ingress.CapabilityRoundTrip | crates/fiber-paid-http-server/src/lib.rs:1044-1112 | the capability issued for a stored challenge, with a preimage, reads as the credential of that challenge and payment hash if the clock is within its window and the preimage spells 32 bytes whose digest by the named algorithm is the payment hash, and is refused otherwise |
| Invoice.IssuedInvoiceStaysPayable | crates/fiber-paid-http-server/src/lib.rs:293-417 | an invoice accepted at issue passes the redemption checks unchanged, whatever its status text |
| InvoiceTerms.ChargedIff | crates/fiber-paid-http-server/src/lib.rs:293-356 | the node's answer becomes a charge iff it says an invoice of the node's currency, network and algorithm and of the asked amount, without a UDT, whose start plus a thousand times its span lies ahead and can be named by chrono; that instant is bound |
| InvoiceTerms.PaidIff | crates/fiber-paid-http-server/src/lib.rs:357-417 | a record pays for a charge iff it says terms that settle it: the charge's invoice, hash, amount, network, algorithm and script, the node's currency and the bound expiry |
| InvoiceTerms.PaidIffSameTerms | crates/fiber-paid-http-server/src/lib.rs:1570-1664 | a record pays for a charged invoice iff it says the same terms up to the letter case of hash and currency and the split of the expiry |
| Invoice.PaidRecordIsTheIssuedInvoice | crates/fiber-paid-http-server/src/lib.rs:1570-1664 | a record passes at redemption iff it denotes the issued invoice: address, hash, numeric amount, currency, network, algorithm, UDT and expiry instant |
| Invoice.VerifyPaidIffTerms | crates/fiber-paid-http-server/src/lib.rs:370-409 | the redemption checks as a conjunction over the fields that the reading functions find; InvoiceTerms.PaidIff states them by what the record says |
| Invoice.IssuingNodeAgrees | crates/fiber-paid-http-server/src/lib.rs:389-392 | a record that passes under a later configuration denotes the invoice issued under the earlier one |
| Quantity.AmountRoundTrip | crates/fiber-paid-http-fiber/src/lib.rs:57-62 | an amount goes out in hexadecimal iff it is below 2^128, and its echo reads back as the same decimal text |
| Molecule.TableRoundTrip | crates/fiber-paid-http-server/src/lib.rs:1696-1726 | the size header is the length of the bytes and the offsets recover code hash, hash type and args |
| Molecule.TableInjective | crates/fiber-paid-http-server/src/lib.rs:1696-1726 | different scripts have different bytes |
| Molecule.SerializeRust | crates/fiber-paid-http-server/src/lib.rs:1696-1726 | the appending form produces the table, or refuses |
| Molecule.SerializeTs | packages/fiber-method/src/index.ts:601-621 | the form that fills buffers in place produces the table, or refuses |
| Molecule.SerializersAgreeIff | packages/core/src/types.ts:42-46 | on scripts of the TypeScript schema, prefix 0X included, the two forms agree iff the hash type is unknown, or the table is too long for 32 bits, or both prefixes are in lower case and args has whole bytes; where they differ, Rust refuses |
| Molecule.SerializersDiffer | packages/fiber-method/src/index.ts:601-621 | a script with the prefix 0X and one with an odd digit that only TypeScript serializes |
| Molecule.SerializedReadsBack | crates/fiber-paid-http-server/src/lib.rs:1696-1726 | the Rust form serializes a script iff its texts decode, the code hash has 32 bytes, the hash type is known and the length fits, and the table reads back as those fields with kind 0, 1, 2 or 4 |
| Molecule.TsSerializedReadsBack | packages/fiber-method/src/index.ts:601-621 | so does the TypeScript form's, behind any prefix and in whole bytes |
| X402.ConversionRoundTrip | crates/fiber-paid-http-x402/src/lib.rs:23-171 | for every valid charge and timeout, converting to requirements and back restores the charge iff the profile carries all of it |
| X402.AcceptedPayloadIsTheCharge | crates/fiber-paid-http-x402/src/lib.rs:216-259 | an accepted payload names the challenge's payment hash, and its requirement reads as the challenge's charge iff the profile carries that charge |
| X402.FiberChargeToRequirements | crates/fiber-paid-http-x402/src/lib.rs:23-65 | the converter that fills its object in place computes the specified requirements |
| X402.RequirementIff | crates/fiber-paid-http-x402/src/lib.rs:23-65 | the requirement made for a charge is the one JSON value with the seven members around the fiber object written for it |
| X402.ReadIff | crates/fiber-paid-http-x402/src/lib.rs:67-171 | a JSON value reads as a charge iff it frames a fiber object that says the charge, and the charge is valid, names a recipient and has no extension of its own |
| X402.AcceptedIff | crates/fiber-paid-http-x402/src/lib.rs:216-259 | a payload is accepted iff it is of version 2, for the expected resource, pays the challenge's payment hash and nothing else, and accepted the requirement made for the charge of the challenge's token |
| GatewayRateLimit.GatewayRuntime.RateLimitRetryAfter | crates/fiber-paid-http-server/src/lib.rs:782-799 | the counters and the answer after a call, with two readings of the clock |
| GatewayRateLimit.AtMostTwiceTheMaximum | crates/fiber-paid-http-server/src/lib.rs:782-799 | at most twice the maximum is admitted in any half-open interval of one window length |
| GatewayRateLimit.TwiceTheMaximumIsReached | crates/fiber-paid-http-server/src/lib.rs:782-799 | that bound is met |
| GatewayRateLimit.RetryAfterHonouredIff | crates/fiber-paid-http-server/src/lib.rs:792-796 | a rejected caller that waits the announced seconds is sure to be admitted iff the time left was at most a second or a whole number of seconds |
| GatewayRateLimit.WindowAdmitsIff | crates/fiber-paid-http-server/src/lib.rs:782-799 | of the requests before a window closes the first max are admitted and no others |
| CliRateLimit.RateLimiter.Check | packages/cli/src/index.ts:911-935 | the closure's windows, next cleanup and reply after a call |
| CliRateLimit.SweepingChangesNoAnswer | packages/cli/src/index.ts:911-935 | for a clock that never goes back, the lazily swept map answers as one that is never swept |
| CliRateLimit.AtMostTwiceTheMaximum | packages/cli/src/index.ts:911-935 | a key is admitted at most twice the maximum in any half-open interval of one window length |
| CliRateLimit.RetryAfterIsHonoured | packages/cli/src/index.ts:929-933 | a rejected key that waits the announced seconds is admitted whoever calls in between, and no fewer seconds do |
| CliRateLimit.WindowAdmitsIff | packages/cli/src/index.ts:911-935 | of a key's calls during the window that one of them opens the first maxRequests are admitted and no others, and each reply announces the seconds left, rounded up |
| FlowTable.RetainedIffRecent | apps/evidence-api/src/index.ts:1164-1181 | after any accesses a session is retained iff at most fifteen distinct others were accessed since its last access, and at most sixteen are retained |
| FlowTable.Sessions.CurrentFlow | apps/evidence-api/src/index.ts:1164-1181 | a retained session gets back the very object of its previous access, any other a new one |
| FlowTable.SessionIdIsStable | apps/evidence-api/src/index.ts:2141-2147 | normalizing a session id, trimming included, gives it back; an id has 1 to 81 characters, so that the eviction guard always holds |
| FlowTable.SessionIdIs | apps/evidence-api/src/index.ts:2141-2147 | the id is what stands between the outer blanks if that can be an id, and default otherwise |
| StableJsonProof.StableJsonInjective | apps/evidence-api/src/battlecode.ts:1504-1513 | any two values have one canonical text iff they are the same tree up to property order once every array [undefined] in them is read as the empty array |
| StableJsonProof.LoneUndefinedCollides | apps/evidence-api/src/battlecode.ts:1504-1513 | those two arrays do share their text |
| StableJsonProof.QuoteUnique | apps/evidence-api/src/battlecode.ts:1504-1513 | quoted strings, with surrogate pairs and every escape, can be told apart from what follows them |
| StableJsonProof.DecimalUnique | apps/evidence-api/src/battlecode.ts:1504-1513 | so can safe integers |
| StableJsonText.PrintIs | apps/evidence-api/src/battlecode.ts:1504-1513 | the text of every value, told by its parts: an object lists each entry once, in the order in which the earlier name is a proper prefix or smaller at the first difference, with commas between |
| StableJsonText.StringReadsBack | apps/evidence-api/src/battlecode.ts:1504-1513 | a printed string reads back as itself by section 7 of RFC 8259 |
| StableJsonText.PieceIs | apps/evidence-api/src/battlecode.ts:1504-1513 | which units are escaped, and how: seven by a letter, other controls and lone surrogates by four digits in lower case |

## Left out

- HTTP servers, sockets, routing, CORS, metrics, health paths and graceful shutdown: input and output only.
- The rate limiter and the body limit as steps of the protocol: a request they refuse is an aborted request there.
- SQLite itself: only tables, constraints and rollback are modelled; a power loss that undoes a committed transaction under synchronous = NORMAL is not.
- Storing rows as JSON text: a stored record is read back as it was written.
- JSON numbers beyond the 53 bits of a double, and fractions: `Json.Exact` leaves them out, because canonical JSON prints numbers as doubles.
- HMAC, SHA-256, Blake2b, canonical JSON, JSON parsing and RFC 3339: functions with the assumptions of `Json.Sound`, `Json.TimeText` and `Json.IdealMac`.
- Constant-time comparison and secret lengths.
- The L402 header of the 402 answer as text: the payload of its capability is part of the offer, and its way back is modelled.
- Overflow of the clock plus the time to live, which panics; `Gateway` states the range where it matters.
- Serialization derives beyond the fields and flattened maps of `Wire` and `Ingress`; a base64 engine that ignored spare bits where the code does not re-encode.
- The TypeScript middleware before its upstream handler, which follows the Rust gateway; its writes after the handler are in `Middleware`.
- Middleware.Protect: the status text, which the Response takes over unchanged.
- The TypeScript header builder's and parser's search for the Payment scheme; only its scanner and escape are modelled.
- The TypeScript x402 conversion and invoice checks, which follow the Rust ones.
- payment_required_to_mpp and receipt_to_settle_response of the x402 crate.
- `stableJson` of numbers that are not safe integers, of values with toJSON, and of functions and symbols.
- Resetting flows in `FlowTable` changes their events, not the table.
- Fiber node behaviour: its answers are arbitrary.
- Evidence reports, the web UI, Battlecode processes and the ledger, command line commands, bootstrap probes and log redaction.
- GatewayRateLimit.AtMostTwiceTheMaximum: counts a request at the clock reading that decides it, not at the later one that restarts a window.
