/** The Molecule bytes of a CKB script (CKB RFC 0008): a table of code hash, hash type and args. */
module Molecule {
  import opened Wrappers
  import opened Text
  import opened Wire
  import Hex

  const U32_LIMIT: nat := 0x1_0000_0000

  function Le32(n: nat): (r: string)
    requires n < U32_LIMIT
    ensures |r| == 4 && IsBytes(r)
  {
    [(n % 256) as char, (n / 256 % 256) as char, (n / 65536 % 256) as char, (n / 16777216) as char]
  }

  function FromLe32(s: string): nat
    requires |s| == 4
  {
    s[0] as int + 256 * (s[1] as int) + 65536 * (s[2] as int) + 16777216 * (s[3] as int)
  }

  lemma Le32RoundTrip(n: nat)
    requires n < U32_LIMIT
    ensures FromLe32(Le32(n)) == n
  {
    var b := n / 256;
    var c := b / 256;
    assert n / 65536 == c && n / 16777216 == c / 256;
    assert n == b * 256 + n % 256 && b == c * 256 + b % 256 && c == c / 256 * 256 + c % 256;
  }

  function HashTypeByte(hashType: string): Option<nat> {
    var name := Lower(hashType);
    if name == "data" then Some(0)
    else if name == "type" then Some(1)
    else if name == "data1" then Some(2)
    else if name == "data2" then Some(4)
    else None
  }

  predicate Fits(codeHash: string, hashType: nat, args: string) {
    IsBytes(codeHash) && |codeHash| == 32 && hashType < 256 && IsBytes(args) && 53 + |args| < U32_LIMIT
  }

  function Table(codeHash: string, hashType: nat, args: string): (r: string)
    requires Fits(codeHash, hashType, args)
    ensures |r| == 53 + |args| && IsBytes(r)
  {
    Le32(53 + |args|) + Le32(16) + Le32(48) + Le32(49) + codeHash + [hashType as char] + Le32(|args|) + args
  }

  /** Reading a table through its own header and offsets. */
  function ReadTable(s: string): Option<(string, nat, string)> {
    if |s| < 16 || FromLe32(s[0..4]) != |s| then None
    else
      var first, second, third := FromLe32(s[4..8]), FromLe32(s[8..12]), FromLe32(s[12..16]);
      if !(first == 16 <= second && second + 1 == third && third + 4 <= |s|) then None
      else if FromLe32(s[third..third + 4]) != |s| - third - 4 then None
      else Some((s[first..second], s[second] as int, s[third + 4..]))
  }

  /** The size header is the length, and the offsets recover the three fields. */
  lemma TableRoundTrip(codeHash: string, hashType: nat, args: string)
    requires Fits(codeHash, hashType, args)
    ensures var s := Table(codeHash, hashType, args);
      FromLe32(s[0..4]) == |s| && ReadTable(s) == Some((codeHash, hashType, args))
  {
    hide Le32, FromLe32;
    var s := Table(codeHash, hashType, args);
    Le32RoundTrip(53 + |args|);
    Le32RoundTrip(16);
    Le32RoundTrip(48);
    Le32RoundTrip(49);
    Le32RoundTrip(|args|);
    assert s[0..4] == Le32(53 + |args|);
    assert s[4..8] == Le32(16);
    assert s[8..12] == Le32(48);
    assert s[12..16] == Le32(49);
    assert s[16..48] == codeHash;
    assert s[49..53] == Le32(|args|);
    assert s[53..] == args;
  }

  lemma TableInjective(c: string, h: nat, a: string, c': string, h': nat, a': string)
    requires Fits(c, h, a) && Fits(c', h', a')
    requires Table(c, h, a) == Table(c', h', a')
    ensures c == c' && h == h' && a == a'
  {
    hide Table, ReadTable;
    TableRoundTrip(c, h, a);
    TableRoundTrip(c', h', a');
  }

  /** serialize_udt_type_script as a function of its argument. */
  function Serialize(script: UdtTypeScript): Option<string> {
    match (Hex.Decode(TrimHexPrefix(script.codeHash)), Hex.Decode(TrimHexPrefix(script.args)),
           HashTypeByte(script.hashType))
    case (Some(codeHash), Some(args), Some(hashType)) =>
      if |codeHash| != 32 || 53 + |args| >= U32_LIMIT then None
      else Some("0x" + Hex.Encode(Table(codeHash, hashType, args)))
    case _ => None
  }

  /** serialize_udt_type_script: the Rust form appends to a vector. */
  method SerializeRust(script: UdtTypeScript) returns (r: Option<string>)
    ensures r == Serialize(script)
  {
    hide Le32, Hex.Decode, Hex.Encode, TrimHexPrefix;
    var codeHash := Hex.Decode(TrimHexPrefix(script.codeHash));
    if codeHash == None { return None; }
    var args := Hex.Decode(TrimHexPrefix(script.args));
    if args == None { return None; }
    if |codeHash.value| != 32 { return None; }
    var hashType := HashTypeByte(script.hashType);
    if hashType == None { return None; }
    var total := 53 + |args.value|;
    if total >= U32_LIMIT { return None; }
    var encoded := "";
    encoded := encoded + Le32(total);
    encoded := encoded + Le32(16);
    encoded := encoded + Le32(48);
    encoded := encoded + Le32(49);
    encoded := encoded + codeHash.value;
    encoded := encoded + [hashType.value as char];
    encoded := encoded + Le32(|args.value|);
    encoded := encoded + args.value;
    assert encoded == Table(codeHash.value, hashType.value, args.value);
    r := Some("0x" + Hex.Encode(encoded));
  }

  /** Buffer.copy: source into target from an offset on, in place. */
  method Copy(target: array<char>, offset: nat, source: string)
    requires offset + |source| <= target.Length
    modifies target
    ensures target[..] == old(target[..offset]) + source + old(target[offset + |source|..])
  {
    var i := 0;
    while i < |source|
      invariant i <= |source|
      invariant target[..] == old(target[..offset]) + source[..i] + old(target[offset + i..])
    {
      target[offset + i] := source[i];
      i := i + 1;
    }
    assert source[..i] == source;
  }

  /** Copy behind what is already in place. */
  method Put(target: array<char>, offset: nat, source: string, ghost before: string)
    requires offset + |source| <= target.Length && target[..offset] == before
    modifies target
    ensures target[..offset + |source|] == before + source
  {
    Copy(target, offset, source);
  }

  /** FiberUdtTypeScriptSchema */
  predicate TsSchema(script: UdtTypeScript) {
    && IsPrefixedHex(script.codeHash) && |script.codeHash| == 66
    && script.hashType != ""
    && IsPrefixedHex(script.args)
  }

  /** Buffer.from(text, "hex") on hexadecimal digits: an odd last digit is dropped. */
  function BufferFromHex(digits: string): Option<string> {
    Hex.Decode(digits[..|digits| - |digits| % 2])
  }

  /** serializeFiberUdtTypeScript as a function of its argument; None where it throws. */
  function TsSerialize(script: UdtTypeScript): Option<string> {
    if !TsSchema(script) then None
    else
      match (BufferFromHex(script.codeHash[2..]), BufferFromHex(script.args[2..]), HashTypeByte(script.hashType))
      case (Some(codeHash), Some(args), Some(hashType)) =>
        if |codeHash| == 32 && 53 + |args| < U32_LIMIT then Some("0x" + Hex.Encode(Table(codeHash, hashType, args)))
        else None
      case _ => None
  }

  /** The TypeScript form fills two buffers in place: the args vector, then the table around it. */
  method FillTable(codeHash: string, hashType: nat, args: string) returns (r: string)
    requires Fits(codeHash, hashType, args)
    ensures r == Table(codeHash, hashType, args)
  {
    var argsBytes := new char[4 + |args|](i => '\0');
    hide Le32;
    Put(argsBytes, 0, Le32(|args|), "");
    Put(argsBytes, 4, args, Le32(|args|));
    assert argsBytes[..] == argsBytes[..4 + |args|];
    var argsVector := argsBytes[..];
    var total := 4 + 3 * 4 + |codeHash| + 1 + |argsVector|;
    var encoded := new char[total](i => '\0');
    Put(encoded, 0, Le32(total), "");
    Put(encoded, 4, Le32(16), Le32(total));
    Put(encoded, 8, Le32(48), Le32(total) + Le32(16));
    Put(encoded, 12, Le32(49), Le32(total) + Le32(16) + Le32(48));
    Put(encoded, 16, codeHash, Le32(total) + Le32(16) + Le32(48) + Le32(49));
    ghost var head := Le32(total) + Le32(16) + Le32(48) + Le32(49) + codeHash;
    PutByte(encoded, 48, hashType as char, head);
    Put(encoded, 49, argsVector, head + [hashType as char]);
    assert encoded[..] == encoded[..49 + |argsVector|];
    TableEnds(head + [hashType as char], Le32(|args|), args);
    r := encoded[..];
  }

  lemma TableEnds(head: string, length: string, args: string)
    ensures head + (length + args) == head + length + args
  {}

  method PutByte(target: array<char>, offset: nat, byte: char, ghost before: string)
    requires offset < target.Length && target[..offset] == before
    modifies target
    ensures target[..offset + 1] == before + [byte]
  {
    target[offset] := byte;
  }

  /** serializeFiberUdtTypeScript */
  method SerializeTs(script: UdtTypeScript) returns (r: Option<string>)
    ensures r == TsSerialize(script)
  {
    if !TsSchema(script) { return None; }
    var codeHash := BufferFromHex(script.codeHash[2..]);
    var args := BufferFromHex(script.args[2..]);
    var hashType := HashTypeByte(script.hashType);
    if codeHash == None || args == None || hashType == None { return None; }
    // writeUInt32LE refuses a length that does not fit.
    if |codeHash.value| != 32 || 53 + |args.value| >= U32_LIMIT { return None; }
    var encoded := FillTable(codeHash.value, hashType.value, args.value);
    r := Some("0x" + Hex.Encode(encoded));
  }

  lemma TrimOnce(s: string)
    requires IsPrefixedHex(s)
    ensures TrimHexPrefix(s) == if s[1] == 'x' then s[2..] else s
  {
    var rest := s[2..];
    if |rest| >= 2 { assert IsHexDigit(s[3]) && rest[1] == s[3]; }
    assert !StartsWith(rest, "0x");
  }

  /** The text is the table of these fields, in hexadecimal, with the kind that the hash type names. */
  ghost predicate Tells(text: string, codeHash: string, hashType: string, args: string) {
    && |text| >= 2 && text[..2] == "0x" && Lower(text) == text
    && match Hex.Decode(text[2..])
       case None => false
       case Some(bytes) =>
         exists kind :: ReadTable(bytes) == Some((codeHash, kind, args))
                        && (Lower(hashType), kind) in {("data", 0), ("type", 1), ("data1", 2), ("data2", 4)}
  }

  lemma KindsAreNamed(hashType: string)
    ensures HashTypeByte(hashType).Some? <==> Lower(hashType) in {"data", "type", "data1", "data2"}
    ensures HashTypeByte(hashType).Some? ==>
              (Lower(hashType), HashTypeByte(hashType).value) in {("data", 0), ("type", 1), ("data1", 2), ("data2", 4)}
  {}

  lemma TableTells(codeHash: string, hashType: string, args: string)
    requires HashTypeByte(hashType).Some? && Fits(codeHash, HashTypeByte(hashType).value, args)
    ensures Tells("0x" + Hex.Encode(Table(codeHash, HashTypeByte(hashType).value, args)), codeHash, hashType, args)
  {
    var kind := HashTypeByte(hashType).value;
    var bytes := Table(codeHash, kind, args);
    var text := "0x" + Hex.Encode(bytes);
    KindsAreNamed(hashType);
    hide Table, ReadTable, HashTypeByte, Hex.Decode, Hex.Encode;
    TableRoundTrip(codeHash, kind, args);
    Hex.DecodeEncode(bytes);
    Hex.DecodeIffLower(Hex.Encode(bytes), bytes);
    assert text[2..] == Hex.Encode(bytes);
    assert Lower(text) == text by {
      forall i | 0 <= i < |text| ensures Lower(text)[i] == text[i] {
        if i >= 2 { assert Lower(text)[i] == Lower(Hex.Encode(bytes))[i - 2]; }
      }
    }
  }

  /** The Rust form serializes a script exactly when its texts decode, its code hash has 32 bytes, its hash
      type is known and the table's length fits; the text then reads back as those fields. */
  lemma SerializedReadsBack(script: UdtTypeScript)
    ensures var code, args := Hex.Decode(TrimHexPrefix(script.codeHash)), Hex.Decode(TrimHexPrefix(script.args));
      if code.Some? && |code.value| == 32 && args.Some? && 53 + |args.value| < 0x1_0000_0000
         && Lower(script.hashType) in {"data", "type", "data1", "data2"}
      then Serialize(script).Some? && Tells(Serialize(script).value, code.value, script.hashType, args.value)
      else Serialize(script).None?
  {
    KindsAreNamed(script.hashType);
    hide Table, HashTypeByte, Hex.Decode, Hex.Encode, TrimHexPrefix, Tells, Lower;
    if Serialize(script).Some? {
      TableTells(Hex.Decode(TrimHexPrefix(script.codeHash)).value, script.hashType,
                 Hex.Decode(TrimHexPrefix(script.args)).value);
    }
  }

  /** What the TypeScript form serializes reads back as the fields behind two characters of prefix, whole
      bytes only. */
  lemma TsSerializedReadsBack(script: UdtTypeScript)
    requires TsSerialize(script).Some?
    ensures |script.codeHash| >= 2 && |script.args| >= 2
    ensures var digits := script.args[2..];
      var code, args := Hex.Decode(script.codeHash[2..]), Hex.Decode(digits[..|digits| - |digits| % 2]);
      code.Some? && args.Some? && Tells(TsSerialize(script).value, code.value, script.hashType, args.value)
  {
    hide Table, HashTypeByte, Hex.Decode, Hex.Encode, Tells, Lower;
    var code := script.codeHash[2..];
    assert code[..64] == code;
    KindsAreNamed(script.hashType);
    TableTells(BufferFromHex(code).value, script.hashType, BufferFromHex(script.args[2..]).value);
  }

  /** A script of the schema that neither form serializes: its hash type is unknown, or its table is
      longer than 32 bits can say. */
  predicate Unserializable(script: UdtTypeScript)
    requires TsSchema(script)
  {
    HashTypeByte(script.hashType).None? || 53 + (|script.args| - 2) / 2 >= U32_LIMIT
  }

  /** On scripts that the TypeScript schema admits the Rust form gives what the TypeScript form gives
      exactly when the script is unserializable, or else both prefixes are in lower case and args has
      whole bytes: Rust refuses the prefix 0X and an odd digit, where TypeScript drops them. */
  lemma SerializersAgreeIff(script: UdtTypeScript)
    requires TsSchema(script)
    ensures TsSerialize(script).None? <==> Unserializable(script)
    ensures Serialize(script).None? || Serialize(script) == TsSerialize(script)
    ensures Serialize(script) == TsSerialize(script) <==>
            || Unserializable(script)
            || (script.codeHash[1] == 'x' && script.args[1] == 'x' && |script.args| % 2 == 0)
  {
    hide Table, HashTypeByte, IsHexDigit, Hex.Encode, Hex.Decode;
    if script.codeHash[1] == 'X' { UpperPrefixFails(script.codeHash); }
    if script.args[1] == 'X' { UpperPrefixFails(script.args); }
    TrimOnce(script.codeHash);
    TrimOnce(script.args);
    var code, args := script.codeHash[2..], script.args[2..];
    assert code[..64] == code;
    Hex.DigitsDecode(code);
    var whole := args[..|args| - |args| % 2];
    Hex.DigitsDecode(whole);
    Hex.DigitsDecode(args);
    if |args| % 2 == 0 { assert whole == args; }
  }

  /** Two scripts that only TypeScript serializes: one with the prefix 0X, one with an odd digit. */
  lemma SerializersDiffer()
    ensures var zeros := seq(64, _ => '0');
      forall script :: script in {UdtTypeScript("0X" + zeros, "data", "0x"), UdtTypeScript("0x" + zeros, "data", "0x0")}
        ==> TsSchema(script) && TsSerialize(script).Some? && Serialize(script).None?
  {
    hide Serialize, TsSerialize;
    var zeros := seq(64, _ => '0');
    assert Lower("data") == "data";
    SerializersAgreeIff(UdtTypeScript("0X" + zeros, "data", "0x"));
    SerializersAgreeIff(UdtTypeScript("0x" + zeros, "data", "0x0"));
  }

  lemma UpperPrefixFails(s: string)
    requires IsPrefixedHex(s) && s[1] == 'X'
    ensures Hex.Decode(s).None?
  {}
}
