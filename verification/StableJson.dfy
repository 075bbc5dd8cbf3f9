/** The canonical JSON printer behind the evidence API's hash commitments. */
module StableJson {
  import opened Wrappers
  import Quantity
  import Chars = Text

  /** JavaScript strings are sequences of UTF-16 code units. */
  type Unit = u: nat | u < 0x10000

  type Text = seq<Unit>

  type SafeInteger = n: int | -0x20_0000_0000_0000 < n < 0x20_0000_0000_0000

  /** A JavaScript value of JSON's kinds, or undefined; an object lists its properties in insertion order. */
  datatype Value =
    | Undefined
    | Null
    | Bool(flag: bool)
    | Integer(number: SafeInteger)
    | String(text: Text)
    | Array(items: seq<Value>)
    | Object(entries: seq<(Text, Value)>)

  /** Property names are distinct, here and below. */
  ghost predicate WellFormed(v: Value) {
    match v
    case Array(items) => forall i :: 0 <= i < |items| ==> WellFormed(items[i])
    case Object(entries) =>
      && (forall i, j :: 0 <= i < j < |entries| ==> entries[i].0 != entries[j].0)
      && forall i :: 0 <= i < |entries| ==> WellFormed(entries[i].1)
    case _ => true
  }

  function Names(entries: seq<(Text, Value)>): set<Text> { set e | e in entries :: e.0 }

  /** Property lookup. */
  function Find(entries: seq<(Text, Value)>, name: Text): Value {
    if entries == [] then Undefined else if entries[0].0 == name then entries[0].1 else Find(entries[1..], name)
  }

  /** The same tree up to the order of properties. */
  predicate Same(v: Value, w: Value) {
    match (v, w)
    case (Array(xs), Array(ys)) => |xs| == |ys| && forall i :: 0 <= i < |xs| ==> Same(xs[i], ys[i])
    case (Object(es), Object(fs)) =>
      Names(es) == Names(fs) && forall i :: 0 <= i < |es| ==> Same(es[i].1, Find(fs, es[i].0))
    case _ => v == w
  }

  // ---------------------------------------------------------------- printing

  const QUOTE: Unit := 34
  const BACKSLASH: Unit := 92
  const COMMA: Unit := 44
  const COLON: Unit := 58
  const OPEN_BRACKET: Unit := 91
  const CLOSE_BRACKET: Unit := 93
  const OPEN_BRACE: Unit := 123
  const CLOSE_BRACE: Unit := 125

  predicate IsHigh(u: Unit) { 0xD800 <= u < 0xDC00 }

  predicate IsLow(u: Unit) { 0xDC00 <= u < 0xE000 }

  function HexUnit(d: nat): Unit
    requires d < 16
  {
    if d < 10 then 48 + d else 87 + d
  }

  function HexEscape(u: Unit): Text {
    [BACKSLASH, 117, HexUnit(u / 16 / 16 / 16), HexUnit(u / 16 / 16 % 16), HexUnit(u / 16 % 16), HexUnit(u % 16)]
  }

  /** The letter of a short escape: b, t, n, f, r, the quote and the backslash; 0 for every other unit. */
  function ShortEscape(u: Unit): Unit {
    if u == 8 then 98 else if u == 9 then 116 else if u == 10 then 110 else if u == 12 then 102
    else if u == 13 then 114 else if u == QUOTE || u == BACKSLASH then u else 0
  }

  /** How many units of s the next piece of its quoted form stands for: a surrogate pair or one unit. */
  function PieceLength(s: Text): (n: nat)
    requires s != []
    ensures 1 <= n <= |s|
  {
    if |s| >= 2 && IsHigh(s[0]) && IsLow(s[1]) then 2 else 1
  }

  function Piece(s: Text): Text
    requires s != []
  {
    if PieceLength(s) == 2 then s[..2]
    else if ShortEscape(s[0]) != 0 then [BACKSLASH, ShortEscape(s[0])]
    else if s[0] < 32 || IsHigh(s[0]) || IsLow(s[0]) then HexEscape(s[0])
    else [s[0]]
  }

  function QuoteBody(s: Text): Text {
    if s == [] then [] else Piece(s) + QuoteBody(s[PieceLength(s)..])
  }

  /** JSON.stringify of a string. */
  function Quote(s: Text): Text { [QUOTE] + QuoteBody(s) + [QUOTE] }

  function Units(s: string): Text
    requires Chars.IsAscii(s)
  {
    seq(|s|, i requires 0 <= i < |s| => s[i] as int)
  }

  lemma DecimalIsAscii(n: nat)
    ensures Quantity.Canonical(Quantity.Print(n, 10), 10) && Quantity.Value(Quantity.Print(n, 10), 10) == n
    ensures Chars.IsAscii(Quantity.Print(n, 10))
  {
    Quantity.PrintIsCanonical(n, 10);
    var s := Quantity.Print(n, 10);
    forall i | 0 <= i < |s| ensures s[i] < 128 as char { assert Quantity.DigitValue(s[i]) < 10; }
  }

  /** JSON.stringify of a safe integer. */
  function Decimal(n: SafeInteger): Text {
    if n < 0 then DecimalIsAscii(-n); [45] + Units(Quantity.Print(-n, 10))
    else DecimalIsAscii(n); Units(Quantity.Print(n, 10))
  }

  /** Text.join(",") */
  function Joined(texts: seq<Text>): Text {
    if texts == [] then []
    else if |texts| == 1 then texts[0]
    else texts[0] + [COMMA] + Joined(texts[1..])
  }

  /** The order of code units, in which Array.prototype.sort sorts strings. */
  predicate Less(a: Text, b: Text) {
    b != [] && (a == [] || a[0] < b[0] || (a[0] == b[0] && Less(a[1..], b[1..])))
  }

  function Insert(e: (Text, Value), sorted: seq<(Text, Value)>): (r: seq<(Text, Value)>)
    ensures |r| == |sorted| + 1 && multiset(r) == multiset(sorted) + multiset{e}
  {
    if sorted == [] || Less(e.0, sorted[0].0) then [e] + sorted
    else
      assert sorted == [sorted[0]] + sorted[1..];
      [sorted[0]] + Insert(e, sorted[1..])
  }

  function Sorted(entries: seq<(Text, Value)>): (r: seq<(Text, Value)>)
    ensures |r| == |entries| && multiset(r) == multiset(entries)
  {
    if entries == [] then []
    else
      assert entries == [entries[0]] + entries[1..];
      Insert(entries[0], Sorted(entries[1..]))
  }

  lemma SortedMembers(entries: seq<(Text, Value)>, e: (Text, Value))
    ensures e in Sorted(entries) <==> e in entries
  {
    assert e in Sorted(entries) <==> e in multiset(Sorted(entries));
  }

  /** stableJson as a template literal shows it; only undefined itself has no text. */
  function Print(v: Value): Text {
    match v
    case Undefined => Units("undefined")
    case Null => Units("null")
    case Bool(flag) => Units(if flag then "true" else "false")
    case Integer(n) => Decimal(n)
    case String(s) => Quote(s)
    case Array(items) =>
      // Array.prototype.join shows undefined as nothing.
      [OPEN_BRACKET]
      + Joined(seq(|items|, i requires 0 <= i < |items| => if items[i].Undefined? then [] else Print(items[i])))
      + [CLOSE_BRACKET]
    case Object(entries) =>
      var sorted := Sorted(entries);
      [OPEN_BRACE]
      + Joined(seq(|sorted|, i requires 0 <= i < |sorted| =>
          SortedMembers(entries, sorted[i]);
          Quote(sorted[i].0) + [COLON] + Print(sorted[i].1)))
      + [CLOSE_BRACE]
  }

  /** stableJson */
  function StableText(v: Value): Option<Text> {
    if v.Undefined? then None else Some(Print(v))
  }
}
