/** What a printed text looks like, and how its strings read, by section 7 of RFC 8259. */
module StableJsonText {
  import opened Wrappers
  import opened StableJson
  import opened StableJsonProof
  import Quantity
  import Chars = Text

  // ---------------------------------------------------------------- the order of names

  /** a is a proper prefix of b, or holds the smaller unit at the first index where they differ. */
  predicate Before(a: Text, b: Text) {
    exists k :: 0 <= k <= |a| && k < |b| && a[..k] == b[..k] && (k == |a| || a[k] < b[k])
  }

  lemma {:induction false} LessIff(a: Text, b: Text)
    ensures Less(a, b) <==> Before(a, b)
  {
    if Before(a, b) {
      var k :| 0 <= k <= |a| && k < |b| && a[..k] == b[..k] && (k == |a| || a[k] < b[k]);
      if k > 0 {
        assert a[0] == a[..k][0] && b[0] == b[..k][0];
        assert a[1..][..k - 1] == a[..k][1..] && b[1..][..k - 1] == b[..k][1..];
      }
    }
    if b != [] && (a == [] || a[0] < b[0]) { assert a[..0] == b[..0]; }
    if a != [] && b != [] && a[0] == b[0] {
      LessIff(a[1..], b[1..]);
      if Before(a[1..], b[1..]) {
        var k :| 0 <= k <= |a| - 1 && k < |b| - 1 && a[1..][..k] == b[1..][..k]
            && (k == |a| - 1 || a[1..][k] < b[1..][k]);
        assert a[..k + 1] == [a[0]] + a[1..][..k] && b[..k + 1] == [b[0]] + b[1..][..k];
      }
    }
  }

  /** The entries, each once, by name. */
  ghost predicate Lists(entries: seq<(Text, Value)>, order: seq<(Text, Value)>) {
    multiset(order) == multiset(entries) && forall i, j :: 0 <= i < j < |order| ==> Before(order[i].0, order[j].0)
  }

  lemma SortedLists(entries: seq<(Text, Value)>)
    requires forall i, j :: 0 <= i < j < |entries| ==> entries[i].0 != entries[j].0
    ensures Lists(entries, Sorted(entries))
  {
    SortedAscends(entries);
    var order := Sorted(entries);
    forall i, j | 0 <= i < j < |order| ensures Before(order[i].0, order[j].0) { LessIff(order[i].0, order[j].0); }
  }

  // ---------------------------------------------------------------- commas

  /** Where the i-th of the texts starts when one unit stands between any two. */
  function Offset(texts: seq<Text>, i: nat): nat
    requires i <= |texts|
  {
    if i == 0 then 0 else Offset(texts, i - 1) + |texts[i - 1]| + 1
  }

  /** One of the texts stands where its offset says, behind a comma unless it is the first. */
  predicate Stands(texts: seq<Text>, t: Text, i: nat)
    requires i < |texts|
  {
    && Offset(texts, i) + |texts[i]| <= |t| && t[Offset(texts, i)..Offset(texts, i) + |texts[i]|] == texts[i]
    && (i > 0 ==> Offset(texts, i) > 0 && t[Offset(texts, i) - 1] == 44)
  }

  /** The texts one after the other with a comma between any two, and nothing else. */
  predicate Separated(texts: seq<Text>, t: Text) {
    && |t| == (if texts == [] then 0 else Offset(texts, |texts|) - 1)
    && forall i :: 0 <= i < |texts| ==> Stands(texts, t, i)
  }

  lemma {:induction false} OffsetCons(head: Text, rest: seq<Text>, i: nat)
    requires i <= |rest|
    ensures Offset([head] + rest, i + 1) == |head| + 1 + Offset(rest, i)
  {
    if i > 0 { OffsetCons(head, rest, i - 1); }
  }

  lemma {:induction false} JoinedLength(texts: seq<Text>)
    ensures |Joined(texts)| == if texts == [] then 0 else Offset(texts, |texts|) - 1
  {
    if |texts| == 1 {
      assert Offset(texts, 1) == |texts[0]| + 1;
    } else if texts != [] {
      JoinedLength(texts[1..]);
      assert texts == [texts[0]] + texts[1..];
      OffsetCons(texts[0], texts[1..], |texts[1..]|);
    }
  }

  lemma Shifted(before: Text, t: Text, from: nat, to: nat)
    requires from <= to <= |t|
    ensures (before + t)[|before| + from..|before| + to] == t[from..to]
  {}

  lemma StandsBehind(head: Text, rest: seq<Text>, t: Text, i: nat)
    requires i < |rest| && Stands(rest, t, i)
    ensures Stands([head] + rest, head + [44] + t, i + 1)
  {
    OffsetCons(head, rest, i);
    hide Offset;
    var before := head + [44];
    Shifted(before, t, Offset(rest, i), Offset(rest, i) + |rest[i]|);
    if i > 0 {
      assert (before + t)[|before| + (Offset(rest, i) - 1)] == t[Offset(rest, i) - 1];
    } else {
      assert Offset(rest, 0) == 0 by { First(rest); }
      assert (before + t)[|head|] == 44;
    }
  }

  lemma First(texts: seq<Text>)
    ensures Offset(texts, 0) == 0
  {}

  lemma {:induction false} JoinedStands(texts: seq<Text>, i: nat)
    requires i < |texts|
    ensures Stands(texts, Joined(texts), i)
  {
    hide Stands;
    if i > 0 {
      JoinedStands(texts[1..], i - 1);
      StandsBehind(texts[0], texts[1..], Joined(texts[1..]), i - 1);
      assert texts == [texts[0]] + texts[1..];
    } else {
      FirstStands(texts);
    }
  }

  lemma FirstStands(texts: seq<Text>)
    requires texts != []
    ensures Stands(texts, Joined(texts), 0)
  {
    if |texts| > 1 { assert Joined(texts)[..|texts[0]|] == texts[0]; }
  }

  lemma JoinedSeparates(texts: seq<Text>)
    ensures Separated(texts, Joined(texts))
  {
    JoinedLength(texts);
    forall i | 0 <= i < |texts| ensures Stands(texts, Joined(texts), i) { JoinedStands(texts, i); }
    hide Joined, Stands, Offset;
  }

  // ---------------------------------------------------------------- strings

  function HexValue(u: Unit): Option<nat> {
    if 48 <= u <= 57 then Some(u - 48)
    else if 97 <= u <= 102 then Some(u - 87)
    else if 65 <= u <= 70 then Some(u - 55)
    else None
  }

  /** The unit that four hexadecimal digits stand for. */
  function HexFour(t: Text): Option<Unit>
    requires |t| == 4
  {
    match (HexValue(t[0]), HexValue(t[1]), HexValue(t[2]), HexValue(t[3]))
    case (Some(a), Some(b), Some(c), Some(d)) =>
      if a < 16 && b < 16 && c < 16 && d < 16 then Some(((a * 16 + b) * 16 + c) * 16 + d) else None
    case _ => None
  }

  /** The unit that a letter after the backslash stands for: the quote, the backslash and the solidus for
      themselves, b, f, n, r and t for controls. */
  function Escaped(letter: Unit): Option<Unit> {
    if letter == 34 || letter == 92 || letter == 47 then Some(letter)
    else if letter == 98 then Some(8)
    else if letter == 102 then Some(12)
    else if letter == 110 then Some(10)
    else if letter == 114 then Some(13)
    else if letter == 116 then Some(9)
    else None
  }

  function Then(u: Unit, read: Option<(Text, Text)>): Option<(Text, Text)> {
    match read case None => None case Some((s, rest)) => Some(([u] + s, rest))
  }

  /** Reading a JSON string behind its opening quote: what it stands for, and what follows it. */
  function ReadString(t: Text): Option<(Text, Text)> {
    if t == [] || t[0] < 32 then None
    else if t[0] == 34 then Some(([], t[1..]))
    else if t[0] != 92 then Then(t[0], ReadString(t[1..]))
    else if |t| >= 6 && t[1] == 117 then
      (match HexFour(t[2..6]) case None => None case Some(u) => Then(u, ReadString(t[6..])))
    else if |t| < 2 then None
    else match Escaped(t[1]) case None => None case Some(u) => Then(u, ReadString(t[2..]))
  }

  lemma HexReadsBack(u: Unit)
    ensures HexFour(HexEscape(u)[2..]) == Some(u)
    ensures forall i :: 2 <= i < 6 ==> 48 <= HexEscape(u)[i] <= 57 || 97 <= HexEscape(u)[i] <= 102
  {
    FourDigits(u);
    HexDigitReadsBack(u / 16 / 16 / 16);
    HexDigitReadsBack(u / 16 / 16 % 16);
    HexDigitReadsBack(u / 16 % 16);
    HexDigitReadsBack(u % 16);
    hide HexUnit, HexValue;
    assert HexEscape(u)[2..] ==
        [HexUnit(u / 16 / 16 / 16), HexUnit(u / 16 / 16 % 16), HexUnit(u / 16 % 16), HexUnit(u % 16)];
  }

  lemma HexDigitReadsBack(d: nat)
    requires d < 16
    ensures HexValue(HexUnit(d)) == Some(d) && (48 <= HexUnit(d) <= 57 || 97 <= HexUnit(d) <= 102)
  {}

  /** How JSON.stringify writes the next unit: a surrogate pair and every unit that may stand for itself
      are written as they are, seven units by their letter, and the other controls and lone surrogates by
      four digits in lower case. */
  lemma PieceIs(s: Text)
    requires s != []
    ensures var p, u := Piece(s), s[0];
      var pair := |s| >= 2 && 0xD800 <= u <= 0xDBFF && 0xDC00 <= s[1] <= 0xDFFF;
      && PieceLength(s) == (if pair then 2 else 1)
      && if pair then p == [u, s[1]]
         else if u in {8, 9, 10, 12, 13, 34, 92} then |p| == 2 && p[0] == 92 && Escaped(p[1]) == Some(u)
         else if u < 32 || 0xD800 <= u <= 0xDFFF then
           && |p| == 6 && p[0] == 92 && p[1] == 117 && HexFour(p[2..6]) == Some(u)
           && forall i :: 2 <= i < 6 ==> 48 <= p[i] <= 57 || 97 <= p[i] <= 102
         else p == [u]
  {
    HexReadsBack(s[0]);
    hide HexUnit, HexFour;
    if Piece(s) == HexEscape(s[0]) { assert Piece(s)[2..6] == HexEscape(s[0])[2..]; }
  }

  lemma ReadPiece(s: Text, t: Text)
    requires s != []
    ensures ReadString(Piece(s) + t) ==
            if PieceLength(s) == 2 then Then(s[0], Then(s[1], ReadString(t))) else Then(s[0], ReadString(t))
  {
    PieceIs(s);
    hide Piece, PieceLength, HexFour;
    var p := Piece(s);
    var whole := p + t;
    if PieceLength(s) == 2 {
      assert whole == [s[0]] + ([s[1]] + t) && whole[1..] == [s[1]] + t && whole[1..][1..] == t;
    } else if |p| == 2 {
      assert whole[1] == p[1] && whole[2..] == t && p[1] != 117;
    } else if |p| == 6 {
      assert whole[1] == p[1] && whole[2..6] == p[2..6] && whole[6..] == t;
    } else {
      assert whole[1..] == t;
    }
  }

  lemma BodyStep(s: Text, t: Text)
    requires s != []
    ensures QuoteBody(s) + t == Piece(s) + (QuoteBody(s[PieceLength(s)..]) + t)
  {
    hide Piece, PieceLength;
  }

  lemma {:induction false} BodyReadsBack(s: Text, rest: Text)
    ensures ReadString(QuoteBody(s) + ([34] + rest)) == Some((s, rest))
  {
    var t := [34] + rest;
    if s == [] {
      assert QuoteBody(s) + t == t && t[1..] == rest;
    } else {
      var n := PieceLength(s);
      var tail := s[n..];
      BodyReadsBack(tail, rest);
      BodyStep(s, t);
      ReadPiece(s, QuoteBody(tail) + t);
      hide Piece, ReadString, QuoteBody;
      assert s == (if n == 2 then [s[0]] + ([s[1]] + tail) else [s[0]] + tail);
    }
  }

  /** A printed string reads back as itself, whatever follows it. */
  lemma StringReadsBack(s: Text, rest: Text)
    ensures Quote(s)[0] == 34 && ReadString((Quote(s) + rest)[1..]) == Some((s, rest))
  {
    hide QuoteBody, ReadString;
    assert (Quote(s) + rest)[1..] == QuoteBody(s) + ([34] + rest);
    BodyReadsBack(s, rest);
  }

  // ---------------------------------------------------------------- numbers

  /** What decimal digits stand for. */
  function NumberOf(t: Text): int { if t == [] then 0 else 10 * NumberOf(t[..|t| - 1]) + (t[|t| - 1] as int - 48) }

  /** Digits without a leading zero that stand for n. */
  predicate Numeral(t: Text, n: nat) {
    t != [] && (forall i :: 0 <= i < |t| ==> 48 <= t[i] <= 57) && (t[0] == 48 ==> t == [48]) && NumberOf(t) == n
  }

  lemma {:induction false} SameNumber(s: string)
    requires Chars.IsAscii(s) && Quantity.DigitsOf(s, 10)
    ensures NumberOf(Units(s)) == Quantity.Value(s, 10)
    ensures forall i :: 0 <= i < |s| ==> 48 <= Units(s)[i] <= 57
  {
    if s != "" {
      var head := s[..|s| - 1];
      assert Units(s)[..|s| - 1] == Units(head);
      SameNumber(head);
      assert Quantity.DigitValue(s[|s| - 1]) < 10;
    }
  }

  lemma PrintedNumeral(n: nat)
    requires Chars.IsAscii(Quantity.Print(n, 10))
    ensures Numeral(Units(Quantity.Print(n, 10)), n)
  {
    DecimalIsAscii(n);
    SameNumber(Quantity.Print(n, 10));
    hide Quantity.Print, NumberOf;
  }

  // ---------------------------------------------------------------- values

  /** The text of a value, told by its parts. */
  ghost predicate PrintsAs(v: Value, t: Text) {
    match v
    case Undefined => t == [117, 110, 100, 101, 102, 105, 110, 101, 100]
    case Null => t == [110, 117, 108, 108]
    case Bool(true) => t == [116, 114, 117, 101]
    case Bool(false) => t == [102, 97, 108, 115, 101]
    case Integer(n) => if n < 0 then t != [] && t[0] == 45 && Numeral(t[1..], -n) else Numeral(t, n)
    case String(s) => t != [] && t[0] == 34 && ReadString(t[1..]) == Some((s, []))
    case Array(items) =>
      exists texts: seq<Text>, body: Text ::
        && t == [91] + body + [93] && Separated(texts, body) && |texts| == |items|
        && forall i :: 0 <= i < |items| ==> texts[i] == if items[i].Undefined? then [] else Print(items[i])
    case Object(entries) =>
      exists order: seq<(Text, Value)>, texts: seq<Text>, body: Text ::
        && Lists(entries, order) && t == [123] + body + [125] && Separated(texts, body) && |texts| == |order|
        && forall i :: 0 <= i < |order| ==> texts[i] == Quote(order[i].0) + [58] + Print(order[i].1)
  }

  /** Every value prints as the JSON text of its parts: an object lists each of its entries once, by name,
      with commas between them. */
  lemma PrintIs(v: Value)
    requires WellFormed(v)
    ensures PrintsAs(v, Print(v))
  {
    hide PrintsAs;
    match v
    case Array(items) => ArrayIs(items);
    case Object(entries) => ObjectIs(entries);
    case _ => ScalarIs(v);
  }

  lemma ScalarIs(v: Value)
    requires !v.Array? && !v.Object?
    ensures PrintsAs(v, Print(v))
  {
    hide Joined, Sorted, Quantity.Print, ReadString, QuoteBody, Numeral;
    if v.Integer? {
      var n := v.number;
      DecimalIsAscii(if n < 0 then -n else n);
      PrintedNumeral(if n < 0 then -n else n);
    }
    if v.String? {
      StringReadsBack(v.text, []);
      assert Quote(v.text) + [] == Quote(v.text);
    }
  }

  lemma ArrayIs(items: seq<Value>)
    ensures PrintsAs(Array(items), Print(Array(items)))
  {
    hide Joined, Print, Separated;
    PrintArray(items);
    JoinedSeparates(ItemTexts(items));
  }

  lemma ObjectIs(entries: seq<(Text, Value)>)
    requires DistinctNames(entries)
    ensures PrintsAs(Object(entries), Print(Object(entries)))
  {
    hide Joined, Sorted, Print, Separated, Lists, Quote;
    PrintObject(entries);
    SortedLists(entries);
    JoinedSeparates(MemberTexts(Sorted(entries)));
  }
}
