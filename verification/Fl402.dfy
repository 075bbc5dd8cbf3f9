/** The F-L402 capability: a canonical payload, its base64url text and a keyed tag in hexadecimal. */
module Fl402 {
  import opened Wrappers
  import opened Text
  import opened Json
  import Base64
  import Hex

  const PREFIX := "fiber-l402-capability-v1"

  datatype Fl402Error =
    | InvalidCapability | BadSignature | Expired | CapabilityMismatch | WrongPaymentHash | WrongPreimage
    | WrongResource | WrongChallenge | WrongInvoice | WrongAmount | WrongCurrency | WrongExpiry
    | WrongIssuer | WrongRecipient | WrongNetwork | WrongHashAlgorithm | MissingField | InvalidField

  function Token(lib: Lib, payload: Json, signature: string): string
    requires Sound(lib)
  {
    PREFIX + "." + Base64.Encode(lib.jcs(payload)) + "." + signature
  }

  function Signature(lib: Lib, payload: Json, rootKey: string): string
    requires Sound(lib)
  {
    Hex.Encode(lib.hmac(rootKey, lib.jcs(payload)))
  }

  /** issue_fl402_capability */
  function Issue(lib: Lib, payload: Json, rootKey: string): Result<string, Fl402Error>
    requires Sound(lib)
  {
    if |rootKey| < 32 then Err(InvalidField)
    else if GetStr(payload, "domain").None? then Err(MissingField)
    else if GetStr(payload, "domain") != Some(PREFIX) then Err(InvalidCapability)
    else Ok(Token(lib, payload, Signature(lib, payload, rootKey)))
  }

  /** decode_fl402_capability */
  function DecodeCapability(lib: Lib, capability: string): Result<(Json, string), Fl402Error> {
    var parts := Split(capability, '.');
    if |parts| != 3 || parts[0] != PREFIX then Err(InvalidCapability)
    else
      match Base64.Decode(parts[1], true)
      case None => Err(InvalidCapability)
      case Some(bytes) =>
        match lib.parseJson(bytes)
        case None => Err(InvalidCapability)
        case Some(payload) =>
          if lib.jcs(payload) != bytes then Err(InvalidCapability)
          else if GetStr(payload, "domain").None? then Err(MissingField)
          else if GetStr(payload, "domain") != Some(PREFIX) then Err(InvalidCapability)
          else Ok((payload, parts[2]))
  }

  function Instant(lib: Lib, v: Json, field: string): Option<int> {
    match GetStr(v, field) case None => None case Some(s) => lib.parseTime(s)
  }

  /** The claims that a verified payload must make: caveats, and a window that holds the clock. */
  predicate Current(lib: Lib, payload: Json, now: int) {
    && GetObj(payload, "caveats").Some?
    && Instant(lib, GetObj(payload, "caveats").value, "expiresAt").Some?
    && Instant(lib, payload, "issuedAt").Some?
    && Instant(lib, payload, "issuedAt").value <= now <= Instant(lib, GetObj(payload, "caveats").value,
                                                                 "expiresAt").value
  }

  /** verify_fl402_capability */
  function VerifyCapability(lib: Lib, capability: string, rootKey: string, now: int): Result<Json, Fl402Error> {
    if |rootKey| < 32 then Err(InvalidField)
    else
      match DecodeCapability(lib, capability)
      case Err(e) => Err(e)
      case Ok((payload, signature)) =>
        if Hex.Decode(signature) != Some(lib.hmac(rootKey, lib.jcs(payload))) then Err(BadSignature)
        else if GetObj(payload, "caveats").None? then Err(MissingField)
        else if Instant(lib, GetObj(payload, "caveats").value, "expiresAt").None? then Err(InvalidField)
        else if Instant(lib, payload, "issuedAt").None? then Err(InvalidField)
        else if !Current(lib, payload, now) then Err(Expired)
        else Ok(payload)
  }

  /** normalize_hex */
  function NormalizeHex(value: string): Option<string> {
    var raw := Lower(TrimHexPrefix(value));
    if |raw| == 64 && All(raw, IsHexDigit) then Some("0x" + raw) else None
  }

  /** hash_payment_preimage */
  function HashPreimage(lib: Lib, preimage: string, algorithm: string): Option<string>
    requires Sound(lib)
  {
    match NormalizeHex(preimage)
    case None => None
    case Some(normalized) =>
      match Hex.Decode(TrimHexPrefix(normalized))
      case None => None
      case Some(bytes) =>
        if algorithm == "sha256" then Some("0x" + Hex.Encode(lib.sha256(bytes)))
        else if algorithm == "ckb_hash" then Some("0x" + Hex.Encode(lib.ckbHash(bytes)))
        else None
  }

  /** The challenge object that the gateway rebuilds around a presented capability. */
  datatype Presented = Presented(
    challengeId: string, capability: string, paymentHash: string, resourceHash: string, resource: string,
    invoice: string, amount: string, currency: string, expiresAt: string, issuer: string,
    fiberNodeId: Option<string>, network: string, hashAlgorithm: string)

  datatype Proof = Proof(capability: string, preimage: string, paymentHash: string, hashAlgorithm: string)

  /** verify_fl402_proof */
  function VerifyProof(lib: Lib, challenge: Presented, proof: Proof, rootKey: string, now: int)
    : Result<Json, Fl402Error>
    requires Sound(lib)
  {
    if challenge.capability != proof.capability then Err(CapabilityMismatch)
    else
      match VerifyCapability(lib, proof.capability, rootKey, now)
      case Err(e) => Err(e)
      case Ok(payload) =>
        var caveats := GetObj(payload, "caveats").value;
        if HashPreimage(lib, proof.preimage, proof.hashAlgorithm).None? then Err(InvalidField)
        else if GetStr(caveats, "paymentHash").None? then Err(MissingField)
        else
          var expected := NormalizeHex(GetStr(caveats, "paymentHash").value);
          if expected.None? || NormalizeHex(challenge.paymentHash).None? || NormalizeHex(proof.paymentHash).None? then
            Err(InvalidField)
          else if NormalizeHex(challenge.paymentHash) != expected || NormalizeHex(proof.paymentHash) != expected then
            Err(WrongPaymentHash)
          else if NormalizeHex(HashPreimage(lib, proof.preimage, proof.hashAlgorithm).value) != expected then
            Err(WrongPreimage)
          else if GetStr(caveats, "resourceHash") != Some(challenge.resourceHash) then Err(WrongResource)
          else if GetStr(caveats, "url") != Some(challenge.resource) then Err(WrongResource)
          else if GetStr(caveats, "challengeId") != Some(challenge.challengeId) then Err(WrongChallenge)
          else if GetStr(caveats, "invoice") != Some(challenge.invoice) then Err(WrongInvoice)
          else if GetStr(caveats, "amount") != Some(challenge.amount) then Err(WrongAmount)
          else if GetStr(caveats, "currency") != Some(challenge.currency) then Err(WrongCurrency)
          else if GetStr(caveats, "expiresAt") != Some(challenge.expiresAt) then Err(WrongExpiry)
          else if GetStr(caveats, "issuer") != Some(challenge.issuer) then Err(WrongIssuer)
          else if GetStr(caveats, "fiberNodeId") != challenge.fiberNodeId then Err(WrongRecipient)
          else if GetStr(caveats, "network") != Some(challenge.network) then Err(WrongNetwork)
          else if challenge.hashAlgorithm != proof.hashAlgorithm
                  || GetStr(caveats, "hashAlgorithm") != Some(proof.hashAlgorithm) then Err(WrongHashAlgorithm)
          else Ok(payload)
  }

  // ---------------------------------------------------------------- which preimages open a hash

  /** The text is these bytes in hexadecimal of any letter case, with or without the prefix 0x. */
  predicate Spells(text: string, bytes: string)
    requires IsBytes(bytes)
  {
    Lower(TrimHexPrefix(text)) == Hex.Encode(bytes)
  }

  lemma SpellsForms(digits: string, bytes: string)
    requires IsBytes(bytes)
    ensures Spells("0x" + digits, bytes) <==> Spells(digits, bytes)
    ensures !StartsWith(digits, "0x") ==> (Spells(digits, bytes) <==> Lower(digits) == Hex.Encode(bytes))
    ensures Lower(digits) == Hex.Encode(bytes) ==> Spells(digits, bytes)
  {
    assert ("0x" + digits)[2..] == digits;
    if Lower(digits) == Hex.Encode(bytes) {
      Hex.DecodeEncode(bytes);
      assert |digits| >= 2 ==> IsHexDigit(Lower(digits)[1]);
    }
  }

  /** The preimage spells 32 bytes whose digest under the named algorithm is what the hash spells. */
  ghost predicate Opens(lib: Lib, preimage: string, algorithm: string, hash: string)
    requires Sound(lib)
  {
    exists b: string :: IsBytes(b) && |b| == 32 && Spells(preimage, b)
      && (|| (algorithm == "sha256" && Spells(hash, lib.sha256(b)))
          || (algorithm == "ckb_hash" && Spells(hash, lib.ckbHash(b))))
  }

  /** A text normalizes exactly when it spells 32 bytes, and then to their digits. */
  lemma NormalizeIff(text: string)
    ensures NormalizeHex(text).Some? <==> exists b: string :: IsBytes(b) && |b| == 32 && Spells(text, b)
    ensures forall b: string :: IsBytes(b) && |b| == 32 && Spells(text, b) ==>
              NormalizeHex(text) == Some("0x" + Hex.Encode(b))
  {
    var raw := Lower(TrimHexPrefix(text));
    if NormalizeHex(text).Some? {
      Hex.DigitsDecode(raw);
      var b := Hex.Decode(raw).value;
      LowerIdempotent(TrimHexPrefix(text));
      Hex.DecodeIffLower(raw, b);
      assert Spells(text, b) && |b| == 32;
    }
    forall b: string | IsBytes(b) && |b| == 32 && Spells(text, b)
      ensures NormalizeHex(text) == Some("0x" + Hex.Encode(b))
    {
      Hex.DecodeEncode(b);
    }
  }

  /** hash_payment_preimage gives, of 32 bytes in hexadecimal, the digest under sha256 or ckb_hash. */
  lemma PreimageDigest(lib: Lib, preimage: string, algorithm: string, b: string)
    requires Sound(lib) && IsBytes(b) && |b| == 32 && Spells(preimage, b)
    ensures HashPreimage(lib, preimage, algorithm) ==
            if algorithm == "sha256" then Some("0x" + Hex.Encode(lib.sha256(b)))
            else if algorithm == "ckb_hash" then Some("0x" + Hex.Encode(lib.ckbHash(b)))
            else None
  {
    NormalizeIff(preimage);
    Hex.DecodeEncode(b);
    var digits := Hex.Encode(b);
    assert !IsHexDigit('x');
    assert ("0x" + digits)[2..] == digits;
    assert digits[1] != 'x';
    assert TrimHexPrefix("0x" + digits) == digits;
  }

  lemma HashedIsNormal(lib: Lib, preimage: string, algorithm: string)
    requires Sound(lib) && HashPreimage(lib, preimage, algorithm).Some?
    ensures NormalizeHex(preimage).Some?
  {
    hide NormalizeHex;
  }

  lemma OpensIff(lib: Lib, preimage: string, algorithm: string, hash: string)
    requires Sound(lib)
    ensures Opens(lib, preimage, algorithm, hash) <==>
            HashPreimage(lib, preimage, algorithm).Some? && HashPreimage(lib, preimage, algorithm) == NormalizeHex(hash)
  {
    hide HashPreimage, NormalizeHex, Spells;
    NormalizeIff(preimage);
    NormalizeIff(hash);
    if HashPreimage(lib, preimage, algorithm).Some? { HashedIsNormal(lib, preimage, algorithm); }
    forall b: string | IsBytes(b) && |b| == 32 && Spells(preimage, b)
      ensures HashPreimage(lib, preimage, algorithm) ==
              if algorithm == "sha256" then Some("0x" + Hex.Encode(lib.sha256(b)))
              else if algorithm == "ckb_hash" then Some("0x" + Hex.Encode(lib.ckbHash(b)))
              else None
    {
      PreimageDigest(lib, preimage, algorithm, b);
    }
    if HashPreimage(lib, preimage, algorithm).Some? && HashPreimage(lib, preimage, algorithm) == NormalizeHex(hash) {
      var b: string :| IsBytes(b) && |b| == 32 && Spells(preimage, b);
      var d: string :| IsBytes(d) && |d| == 32 && Spells(hash, d);
      SameDigits(d, if algorithm == "sha256" then lib.sha256(b) else lib.ckbHash(b));
    }
  }

  lemma SameDigits(d: string, e: string)
    requires IsBytes(d) && IsBytes(e) && "0x" + Hex.Encode(d) == "0x" + Hex.Encode(e)
    ensures d == e
  {
    assert ("0x" + Hex.Encode(d))[2..] == Hex.Encode(d) && ("0x" + Hex.Encode(e))[2..] == Hex.Encode(e);
    Hex.DecodeEncode(d);
    Hex.DecodeEncode(e);
  }

  /** A proof is accepted exactly when its capability is the challenge's and verifies, every caveat is the
      challenge's, and the preimage opens the payment hash under the algorithm that all three name. */
  lemma ProofAcceptedIff(lib: Lib, challenge: Presented, proof: Proof, rootKey: string, now: int)
    requires Sound(lib)
    ensures var verdict := VerifyCapability(lib, proof.capability, rootKey, now);
      VerifyProof(lib, challenge, proof, rootKey, now).Ok? <==>
        && challenge.capability == proof.capability && verdict.Ok?
        && var caveats := GetObj(verdict.value, "caveats").value;
           && GetStr(caveats, "paymentHash").Some?
           && Opens(lib, proof.preimage, proof.hashAlgorithm, GetStr(caveats, "paymentHash").value)
           && NormalizeHex(challenge.paymentHash) == NormalizeHex(GetStr(caveats, "paymentHash").value)
           && NormalizeHex(proof.paymentHash) == NormalizeHex(GetStr(caveats, "paymentHash").value)
           && GetStr(caveats, "resourceHash") == Some(challenge.resourceHash)
           && GetStr(caveats, "url") == Some(challenge.resource)
           && GetStr(caveats, "challengeId") == Some(challenge.challengeId)
           && GetStr(caveats, "invoice") == Some(challenge.invoice)
           && GetStr(caveats, "amount") == Some(challenge.amount)
           && GetStr(caveats, "currency") == Some(challenge.currency)
           && GetStr(caveats, "expiresAt") == Some(challenge.expiresAt)
           && GetStr(caveats, "issuer") == Some(challenge.issuer)
           && GetStr(caveats, "fiberNodeId") == challenge.fiberNodeId
           && GetStr(caveats, "network") == Some(challenge.network)
           && GetStr(caveats, "hashAlgorithm") == Some(proof.hashAlgorithm)
           && challenge.hashAlgorithm == proof.hashAlgorithm
  {
    hide HashPreimage, NormalizeHex, Opens, GetStr, DecodeCapability, Current, Hex.Decode;
    var verdict := VerifyCapability(lib, proof.capability, rootKey, now);
    if verdict.Ok? && GetStr(GetObj(verdict.value, "caveats").value, "paymentHash").Some? {
      OpensIff(lib, proof.preimage, proof.hashAlgorithm,
               GetStr(GetObj(verdict.value, "caveats").value, "paymentHash").value);
    }
    if HashPreimage(lib, proof.preimage, proof.hashAlgorithm).Some? {
      DigestNormalizes(lib, proof.preimage, proof.hashAlgorithm);
    }
  }

  /** A computed digest is in normal form. */
  lemma DigestNormalizes(lib: Lib, preimage: string, algorithm: string)
    requires Sound(lib) && HashPreimage(lib, preimage, algorithm).Some?
    ensures var d := HashPreimage(lib, preimage, algorithm); NormalizeHex(d.value) == d
  {
    NormalizeIff(preimage);
    HashedIsNormal(lib, preimage, algorithm);
    var b: string :| IsBytes(b) && |b| == 32 && Spells(preimage, b);
    PreimageDigest(lib, preimage, algorithm, b);
    var digest := if algorithm == "sha256" then lib.sha256(b) else lib.ckbHash(b);
    Hex.DecodeEncode(digest);
    LowerFixed(Hex.Encode(digest));
    SpellsForms(Hex.Encode(digest), digest);
    NormalizeIff("0x" + Hex.Encode(digest));
  }

  // ---------------------------------------------------------------- which tokens are accepted

  lemma NoDots(lib: Lib, payload: Json)
    requires Sound(lib)
    ensures '.' !in PREFIX && '.' !in Base64.Encode(lib.jcs(payload))
  {
    Base64.EncodeUsesAlphabet(lib.jcs(payload));
    assert Base64.SextetOf('.').None?;
  }

  /** Decoding accepts exactly the tokens built around a payload with the right domain. */
  lemma DecodeIffToken(lib: Lib, capability: string, payload: Json, signature: string)
    requires Sound(lib)
    ensures DecodeCapability(lib, capability) == Ok((payload, signature))
            <==> (GetStr(payload, "domain") == Some(PREFIX) && '.' !in signature
                  && capability == Token(lib, payload, signature))
  {
    hide Base64.Encode, Base64.Decode, GetStr, Split;
    if DecodeCapability(lib, capability) == Ok((payload, signature)) {
      DecodedIsToken(lib, capability, payload, signature);
    }
    if '.' !in signature && capability == Token(lib, payload, signature) {
      TokenParts(lib, payload, signature);
      Base64.StrictDecodeIsInverse(Base64.Encode(lib.jcs(payload)), lib.jcs(payload));
      JcsParses(lib, payload);
    }
  }

  lemma DecodedIsToken(lib: Lib, capability: string, payload: Json, signature: string)
    requires Sound(lib) && DecodeCapability(lib, capability) == Ok((payload, signature))
    ensures '.' !in signature && capability == Token(lib, payload, signature)
  {
    hide Base64.Encode, Base64.Decode, GetStr, Split;
    var parts := Split(capability, '.');
    SplitJoins(capability, '.');
    Base64.StrictDecodeIsInverse(parts[1], lib.jcs(payload));
    assert parts == [PREFIX, Base64.Encode(lib.jcs(payload)), signature];
    assert parts[2] in parts;
    JoinThree(PREFIX, Base64.Encode(lib.jcs(payload)), signature);
  }

  lemma TokenParts(lib: Lib, payload: Json, signature: string)
    requires Sound(lib) && '.' !in signature
    ensures Split(Token(lib, payload, signature), '.') == [PREFIX, Base64.Encode(lib.jcs(payload)), signature]
  {
    hide Base64.Encode, Split;
    var encoded := Base64.Encode(lib.jcs(payload));
    NoDots(lib, payload);
    assert Token(lib, payload, signature) == PREFIX + ['.'] + (encoded + ['.'] + signature);
    SplitFirst(PREFIX, encoded + ['.'] + signature, '.');
    SplitFirst(encoded, signature, '.');
    SplitPlain(signature, '.');
  }

  lemma JcsParses(lib: Lib, v: Json)
    requires Sound(lib)
    ensures lib.parseJson(lib.jcs(v)) == Some(v)
  {}

  lemma JoinThree(a: string, b: string, c: string)
    ensures Join([a, b, c], ".") == a + "." + b + "." + c
  {
    assert [a, b, c][1..] == [b, c];
    assert [b, c][1..] == [c];
    assert Join([c], ".") == c;
    assert Join([b, c], ".") == b + "." + c;
    assert a + "." + (b + "." + c) == a + "." + b + "." + c;
  }

  lemma HexHasNoDot(s: string)
    requires Hex.Decode(s).Some?
    ensures '.' !in s
    decreases |s|
  {
    if s != "" { HexHasNoDot(s[2..]); }
  }

  /** A capability verifies exactly when it is the issued token of a current payload, up to the
      letter case of the hexadecimal signature. */
  lemma AcceptedIffCaseVariantOfIssued(lib: Lib, capability: string, rootKey: string, now: int, payload: Json)
    requires Sound(lib) && |rootKey| >= 32
    ensures VerifyCapability(lib, capability, rootKey, now) == Ok(payload)
            <==> && Issue(lib, payload, rootKey).Ok? && Current(lib, payload, now)
                 && exists signature :: Lower(signature) == Signature(lib, payload, rootKey)
                                        && capability == Token(lib, payload, signature)
  {
    hide DecodeCapability, Token, Hex.Decode, Hex.Encode, GetStr;
    var tag := lib.hmac(rootKey, lib.jcs(payload));
    forall signature ensures Hex.Decode(signature) == Some(tag)
        <==> Lower(signature) == Signature(lib, payload, rootKey) {
      Hex.DecodeIffLower(signature, tag);
    }
    forall signature ensures Hex.Decode(signature) == Some(tag) ==> '.' !in signature {
      if Hex.Decode(signature) == Some(tag) { HexHasNoDot(signature); }
    }
    forall signature ensures DecodeCapability(lib, capability) == Ok((payload, signature))
      <==> (GetStr(payload, "domain") == Some(PREFIX) && '.' !in signature
            && capability == Token(lib, payload, signature))
    {
      DecodeIffToken(lib, capability, payload, signature);
    }
  }

  /** Under an ideal MAC the tag of an accepted capability tells its payload and the key. */
  lemma TagTellsPayload(lib: Lib, capability: string, rootKey: string, now: int, payload: Json, key: string)
    requires Sound(lib) && IdealMac(lib)
    requires VerifyCapability(lib, capability, rootKey, now).Ok?
    requires Hex.Decode(DecodeCapability(lib, capability).value.1) == Some(lib.hmac(key, lib.jcs(payload)))
    ensures VerifyCapability(lib, capability, rootKey, now) == Ok(payload) && key == rootKey
  {
    hide DecodeCapability, Hex.Decode;
    JcsInjective(lib, VerifyCapability(lib, capability, rootKey, now).value, payload);
  }

  /** A signature of another letter case makes another token, which is accepted, too. */
  lemma UpperCaseTwinIsAccepted(lib: Lib, payload: Json, rootKey: string, now: int, twin: string)
    requires Sound(lib) && Issue(lib, payload, rootKey).Ok? && Current(lib, payload, now)
    requires twin != Signature(lib, payload, rootKey) && Lower(twin) == Signature(lib, payload, rootKey)
    ensures Token(lib, payload, twin) != Issue(lib, payload, rootKey).value
    ensures VerifyCapability(lib, Token(lib, payload, twin), rootKey, now) == Ok(payload)
  {
    var head := PREFIX + "." + Base64.Encode(lib.jcs(payload)) + ".";
    assert Token(lib, payload, twin)[|head|..] == twin;
    assert Issue(lib, payload, rootKey).value[|head|..] == Signature(lib, payload, rootKey);
    hide Token, VerifyCapability, Signature, Issue;
    AcceptedIffCaseVariantOfIssued(lib, Token(lib, payload, twin), rootKey, now, payload);
  }

  lemma CaseVariants(s: string)
    requires forall i :: 0 <= i < |s| ==> IsHexDigit(s[i]) && !IsUpperLetter(s[i])
    ensures All(s, IsDigit) <==> forall t :: Lower(t) == s ==> t == s
  {
    if All(s, IsDigit) {
      forall t | Lower(t) == s ensures t == s {
        forall i | 0 <= i < |t| ensures t[i] == s[i] { assert LowerChar(t[i]) == s[i] && IsDigit(s[i]); }
      }
    } else {
      var i :| 0 <= i < |s| && !IsDigit(s[i]);
      var t := s[i := (s[i] as int - 32) as char];
      assert Lower(t) == s && t[i] != s[i];
    }
  }

  /** The issued token is the only accepted one of its payload exactly when its signature holds no
      letter. */
  lemma TokenIsUniqueIff(lib: Lib, payload: Json, rootKey: string, now: int)
    requires Sound(lib) && Issue(lib, payload, rootKey).Ok? && Current(lib, payload, now)
    ensures (forall t ::
               VerifyCapability(lib, t, rootKey, now) == Ok(payload) ==> t == Issue(lib, payload, rootKey).value)
            <==> All(Signature(lib, payload, rootKey), IsDigit)
  {
    var signature := Signature(lib, payload, rootKey);
    assert Issue(lib, payload, rootKey).value == Token(lib, payload, signature);
    Hex.DecodeEncode(lib.hmac(rootKey, lib.jcs(payload)));
    CaseVariants(signature);
    hide Token, VerifyCapability, Signature, Issue, All, Current;
    if All(signature, IsDigit) {
      forall t | VerifyCapability(lib, t, rootKey, now) == Ok(payload) ensures t == Token(lib, payload, signature) {
        AcceptedIffCaseVariantOfIssued(lib, t, rootKey, now, payload);
      }
    } else {
      var twin :| Lower(twin) == signature && twin != signature;
      UpperCaseTwinIsAccepted(lib, payload, rootKey, now, twin);
    }
  }
}
