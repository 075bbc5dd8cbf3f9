/** Canonical printing tells values apart up to the order of properties and one array. */
module StableJsonProof {
  import opened StableJson
  import Quantity
  import Chars = Text

  // ---------------------------------------------------------------- strings

  lemma HexUnits(d: nat, e: nat)
    requires d < 16 && e < 16
    ensures HexUnit(d) == HexUnit(e) <==> d == e
  {}

  lemma HexEscapeInjective(u: Unit, w: Unit)
    requires HexEscape(u) == HexEscape(w)
    ensures u == w
  {
    assert HexEscape(u)[2] == HexUnit(u / 16 / 16 / 16) && HexEscape(w)[2] == HexUnit(w / 16 / 16 / 16);
    assert HexEscape(u)[3] == HexUnit(u / 16 / 16 % 16) && HexEscape(w)[3] == HexUnit(w / 16 / 16 % 16);
    assert HexEscape(u)[4] == HexUnit(u / 16 % 16) && HexEscape(w)[4] == HexUnit(w / 16 % 16);
    assert HexEscape(u)[5] == HexUnit(u % 16) && HexEscape(w)[5] == HexUnit(w % 16);
    HexUnits(u / 16 / 16 / 16, w / 16 / 16 / 16);
    HexUnits(u / 16 / 16 % 16, w / 16 / 16 % 16);
    HexUnits(u / 16 % 16, w / 16 % 16);
    HexUnits(u % 16, w % 16);
    FourDigits(u);
    FourDigits(w);
  }

  lemma FourDigits(u: Unit)
    ensures u == ((u / 16 / 16 / 16 * 16 + u / 16 / 16 % 16) * 16 + u / 16 % 16) * 16 + u % 16
  {}

  /** The kinds of pieces, told apart by their first two units. */
  lemma PieceKinds(s: Text)
    requires s != []
    ensures var p := Piece(s);
      && p != [] && p[0] != QUOTE
      && (PieceLength(s) == 2 <==> IsHigh(p[0]))
      && (p[0] == BACKSLASH <==> |p| > 1 && PieceLength(s) == 1)
      && (p[0] == BACKSLASH ==> p == [BACKSLASH, ShortEscape(s[0])] || (p == HexEscape(s[0]) && ShortEscape(s[0]) == 0))
      && (PieceLength(s) == 1 && p[0] != BACKSLASH ==> p == [s[0]])
  {}

  lemma Cut(a: Text, s: Text, b: Text, t: Text)
    requires a + s == b + t && |a| == |b|
    ensures a == b && s == t
  {
    assert a == (a + s)[..|a|] && b == (b + t)[..|b|];
    assert s == (a + s)[|a|..] && t == (b + t)[|b|..];
  }

  lemma PieceUnique(a: Text, s: Text, b: Text, t: Text)
    requires a != [] && b != [] && Piece(a) + s == Piece(b) + t
    ensures PieceLength(a) == PieceLength(b) && a[..PieceLength(a)] == b[..PieceLength(b)] && s == t
  {
    PieceKinds(a);
    PieceKinds(b);
    var p, q := Piece(a), Piece(b);
    var whole := p + s;
    assert whole == q + t;
    assert whole[0] == p[0] && whole[0] == q[0];
    hide HexEscape, ShortEscape;
    if p[0] == BACKSLASH {
      assert whole[1] == p[1] && whole[1] == q[1];
      EscapeKinds(a[0]);
      EscapeKinds(b[0]);
      Cut(p, s, q, t);
      if ShortEscape(a[0]) == 0 {
        HexEscapeInjective(a[0], b[0]);
      } else {
        ShortEscapeInjective(a[0], b[0]);
      }
    } else {
      Cut(p, s, q, t);
    }
  }

  lemma EscapeKinds(u: Unit)
    ensures HexEscape(u)[1] == 117 && ShortEscape(u) != 117 && |HexEscape(u)| == 6
  {}

  lemma ShortEscapeInjective(u: Unit, w: Unit)
    requires ShortEscape(u) == ShortEscape(w) != 0
    ensures u == w
  {}

  lemma {:induction false} BodyUnique(a: Text, s: Text, b: Text, t: Text)
    requires QuoteBody(a) + ([QUOTE] + s) == QuoteBody(b) + ([QUOTE] + t)
    ensures a == b && s == t
    decreases |a| + |b|
  {
    hide Piece, PieceLength;
    if a == [] || b == [] {
      BodyHead(a, [QUOTE] + s);
      BodyHead(b, [QUOTE] + t);
      assert a == [] && b == [];
      assert QuoteBody(a) + ([QUOTE] + s) == [QUOTE] + s && QuoteBody(b) + ([QUOTE] + t) == [QUOTE] + t;
      Cut([QUOTE], s, [QUOTE], t);
    } else {
      var restA, restB := a[PieceLength(a)..], b[PieceLength(b)..];
      assert QuoteBody(a) + ([QUOTE] + s) == Piece(a) + (QuoteBody(restA) + ([QUOTE] + s));
      assert QuoteBody(b) + ([QUOTE] + t) == Piece(b) + (QuoteBody(restB) + ([QUOTE] + t));
      PieceUnique(a, QuoteBody(restA) + ([QUOTE] + s), b, QuoteBody(restB) + ([QUOTE] + t));
      BodyUnique(restA, s, restB, t);
      assert a == a[..PieceLength(a)] + restA && b == b[..PieceLength(b)] + restB;
    }
  }

  lemma BodyHead(s: Text, rest: Text)
    requires rest != [] && rest[0] == QUOTE
    ensures (QuoteBody(s) + rest)[0] == QUOTE <==> s == []
  {
    if s != [] {
      PieceKinds(s);
      assert (QuoteBody(s) + rest)[0] == Piece(s)[0];
    }
  }

  lemma QuoteUnique(a: Text, s: Text, b: Text, t: Text)
    requires Quote(a) + s == Quote(b) + t
    ensures a == b && s == t
  {
    assert Quote(a) + s == [QUOTE] + (QuoteBody(a) + ([QUOTE] + s));
    assert Quote(b) + t == [QUOTE] + (QuoteBody(b) + ([QUOTE] + t));
    Cut([QUOTE], QuoteBody(a) + ([QUOTE] + s), [QUOTE], QuoteBody(b) + ([QUOTE] + t));
    BodyUnique(a, s, b, t);
  }

  // ---------------------------------------------------------------- integers

  predicate IsDigit(u: Unit) { 48 <= u < 58 }

  predicate NoDigitAhead(s: Text) { s == [] || !IsDigit(s[0]) }

  predicate Digits(s: Text) { forall i :: 0 <= i < |s| ==> IsDigit(s[i]) }

  function RunLength(s: Text): nat { if s != [] && IsDigit(s[0]) then 1 + RunLength(s[1..]) else 0 }

  lemma {:induction false} RunEnds(a: Text, s: Text)
    requires Digits(a) && NoDigitAhead(s)
    ensures RunLength(a + s) == |a|
  {
    if a == [] {
      assert a + s == s;
    } else {
      assert (a + s)[1..] == a[1..] + s;
      RunEnds(a[1..], s);
    }
  }

  lemma RunUnique(a: Text, s: Text, b: Text, t: Text)
    requires Digits(a) && Digits(b) && NoDigitAhead(s) && NoDigitAhead(t)
    requires a + s == b + t
    ensures a == b && s == t
  {
    RunEnds(a, s);
    RunEnds(b, t);
    Cut(a, s, b, t);
  }

  lemma DecimalDigits(n: nat)
    ensures Quantity.Print(n, 10) != ""
    ensures forall i :: 0 <= i < |Quantity.Print(n, 10)| ==> '0' <= Quantity.Print(n, 10)[i] <= '9'
  {
    DecimalIsAscii(n);
    var s := Quantity.Print(n, 10);
    forall i | 0 <= i < |s| ensures '0' <= s[i] <= '9' { assert Quantity.DigitValue(s[i]) < 10; }
  }

  lemma UnitsInjective(a: string, b: string)
    requires Chars.IsAscii(a) && Chars.IsAscii(b) && Units(a) == Units(b)
    ensures a == b
  {
    forall i | 0 <= i < |a| ensures a[i] == b[i] { assert Units(a)[i] == Units(b)[i]; }
  }

  lemma NaturalUnique(n: nat, s: Text, m: nat, t: Text)
    requires NoDigitAhead(s) && NoDigitAhead(t)
    requires Chars.IsAscii(Quantity.Print(n, 10)) && Chars.IsAscii(Quantity.Print(m, 10))
    requires Units(Quantity.Print(n, 10)) + s == Units(Quantity.Print(m, 10)) + t
    ensures n == m && s == t
  {
    DecimalDigits(n);
    DecimalDigits(m);
    RunUnique(Units(Quantity.Print(n, 10)), s, Units(Quantity.Print(m, 10)), t);
    UnitsInjective(Quantity.Print(n, 10), Quantity.Print(m, 10));
    DecimalIsAscii(n);
    DecimalIsAscii(m);
  }

  lemma DecimalHead(n: SafeInteger)
    ensures Decimal(n) != [] && (if n < 0 then Decimal(n)[0] == 45 else IsDigit(Decimal(n)[0]))
  {
    DecimalDigits(if n < 0 then -n else n);
  }

  lemma AfterSign(a: Text, s: Text, b: Text, t: Text)
    requires [45] + a + s == [45] + b + t
    ensures a + s == b + t
  {
    assert [45] + a + s == [45] + (a + s) && [45] + b + t == [45] + (b + t);
    Cut([45], a + s, [45], b + t);
  }

  lemma DecimalUnique(n: SafeInteger, s: Text, m: SafeInteger, t: Text)
    requires NoDigitAhead(s) && NoDigitAhead(t)
    requires Decimal(n) + s == Decimal(m) + t
    ensures n == m && s == t
  {
    hide Units, Quantity.Print, Quantity.Canonical, Quantity.Value;
    DecimalHead(n);
    DecimalHead(m);
    assert (Decimal(n) + s)[0] == Decimal(n)[0] && (Decimal(m) + t)[0] == Decimal(m)[0];
    DecimalIsAscii(if n < 0 then -n else n);
    DecimalIsAscii(if m < 0 then -m else m);
    if n < 0 {
      AfterSign(Units(Quantity.Print(-n, 10)), s, Units(Quantity.Print(-m, 10)), t);
      NaturalUnique(-n, s, -m, t);
    } else {
      NaturalUnique(n, s, m, t);
    }
  }

  // ---------------------------------------------------------------- lists of texts

  predicate IsDelimiter(u: Unit) { u == COMMA || u == CLOSE_BRACKET || u == CLOSE_BRACE }

  predicate Ends(s: Text) { s == [] || IsDelimiter(s[0]) }

  /** Before a delimiter the two texts can be told apart. */
  ghost predicate Splits(a: Text, b: Text) {
    forall s, t {:trigger a + s, b + t} :: Ends(s) && Ends(t) && a + s == b + t ==> a == b && s == t
  }

  predicate Tame(a: Text) { a == [] || !IsDelimiter(a[0]) }

  ghost predicate Tell(xs: seq<Text>, ys: seq<Text>) {
    && (forall i :: 0 <= i < |xs| ==> Tame(xs[i])) && (forall i :: 0 <= i < |ys| ==> Tame(ys[i]))
    && forall i :: 0 <= i < |xs| && i < |ys| ==> Splits(xs[i], ys[i])
  }

  /** What follows the first of a list of texts that a bracket closes. */
  function AfterFirst(xs: seq<Text>, close: Unit, s: Text): Text
    requires xs != []
  {
    if |xs| == 1 then [close] + s else [COMMA] + (Joined(xs[1..]) + ([close] + s))
  }

  lemma Regroup(a: Text, b: Text, c: Text, d: Text)
    ensures a + b + c + d == a + (b + (c + d))
  {
    assert a + b + c + d == a + b + (c + d);
    assert a + b + (c + d) == a + (b + (c + d));
  }

  lemma JoinedCons(xs: seq<Text>, close: Unit, s: Text)
    requires xs != []
    ensures Joined(xs) + ([close] + s) == xs[0] + AfterFirst(xs, close, s)
  {
    if |xs| > 1 { Regroup(xs[0], [COMMA], Joined(xs[1..]), [close] + s); }
  }

  lemma AfterFirstUnique(xs: seq<Text>, s: Text, ys: seq<Text>, t: Text, close: Unit)
    requires (close == CLOSE_BRACKET || close == CLOSE_BRACE) && xs != [] && ys != []
    requires AfterFirst(xs, close, s) == AfterFirst(ys, close, t)
    ensures |xs| == 1 <==> |ys| == 1
    ensures if |xs| == 1 then s == t else Joined(xs[1..]) + ([close] + s) == Joined(ys[1..]) + ([close] + t)
  {
    hide Joined;
    var u, w := AfterFirst(xs, close, s), AfterFirst(ys, close, t);
    assert u[0] == w[0] && u[1..] == w[1..];
    assert |xs| == 1 ==> u[1..] == s;
    assert |ys| == 1 ==> w[1..] == t;
  }

  lemma TellTail(xs: seq<Text>, ys: seq<Text>)
    requires Tell(xs, ys) && xs != [] && ys != []
    ensures Tell(xs[1..], ys[1..])
  {
    hide Splits, Tame;
  }

  lemma {:induction false} ListUnique(xs: seq<Text>, s: Text, ys: seq<Text>, t: Text, close: Unit)
    requires close == CLOSE_BRACKET || close == CLOSE_BRACE
    requires xs != [] && ys != [] && Tell(xs, ys)
    requires Joined(xs) + ([close] + s) == Joined(ys) + ([close] + t)
    ensures xs == ys && s == t
    decreases |xs|
  {
    JoinedCons(xs, close, s);
    JoinedCons(ys, close, t);
    assert Splits(xs[0], ys[0]);
    hide Joined, Tell, Tame;
    assert xs[0] + AfterFirst(xs, close, s) == ys[0] + AfterFirst(ys, close, t);
    assert Ends(AfterFirst(xs, close, s)) && Ends(AfterFirst(ys, close, t));
    assert xs[0] == ys[0] && AfterFirst(xs, close, s) == AfterFirst(ys, close, t);
    hide Splits, AfterFirst;
    AfterFirstUnique(xs, s, ys, t, close);
    if |xs| > 1 {
      TellTail(xs, ys);
      ListUnique(xs[1..], s, ys[1..], t, close);
    }
    assert xs == [xs[0]] + xs[1..] && ys == [ys[0]] + ys[1..];
  }

  /** A bracketed list of texts splits, unless it is the list of one empty text, which looks empty. */
  lemma BracketedUnique(xs: seq<Text>, s: Text, ys: seq<Text>, t: Text, open: Unit, close: Unit)
    requires close == CLOSE_BRACKET || close == CLOSE_BRACE
    requires xs != [[]] && ys != [[]] && Tell(xs, ys)
    requires [open] + Joined(xs) + [close] + s == [open] + Joined(ys) + [close] + t
    ensures xs == ys && s == t
  {
    assert [open] + Joined(xs) + [close] + s == [open] + (Joined(xs) + ([close] + s));
    assert [open] + Joined(ys) + [close] + t == [open] + (Joined(ys) + ([close] + t));
    Cut([open], Joined(xs) + ([close] + s), [open], Joined(ys) + ([close] + t));
    ListHead(xs, close, s);
    ListHead(ys, close, t);
    if xs == [] {
      assert ys == [];
      assert Joined(xs) + ([close] + s) == [close] + s && Joined(ys) + ([close] + t) == [close] + t;
      Cut([close], s, [close], t);
    } else {
      ListUnique(xs, s, ys, t, close);
    }
  }

  lemma ListHead(xs: seq<Text>, close: Unit, s: Text)
    requires close == CLOSE_BRACKET || close == CLOSE_BRACE
    requires xs != [[]] && forall i :: 0 <= i < |xs| ==> Tame(xs[i])
    ensures (Joined(xs) + ([close] + s))[0] == close <==> xs == []
  {
    if xs != [] {
      JoinedCons(xs, close, s);
      assert Tame(xs[0]);
    }
  }

  // ---------------------------------------------------------------- values

  function ItemText(v: Value): Text { if v.Undefined? then [] else Print(v) }

  function MemberText(e: (Text, Value)): Text { Quote(e.0) + [COLON] + Print(e.1) }

  function ItemTexts(items: seq<Value>): seq<Text> {
    seq(|items|, i requires 0 <= i < |items| => ItemText(items[i]))
  }

  function MemberTexts(entries: seq<(Text, Value)>): seq<Text> {
    seq(|entries|, i requires 0 <= i < |entries| => MemberText(entries[i]))
  }

  lemma PrintArray(items: seq<Value>)
    ensures Print(Array(items)) == [OPEN_BRACKET] + Joined(ItemTexts(items)) + [CLOSE_BRACKET]
  {
    assert seq(|items|, i requires 0 <= i < |items| => if items[i].Undefined? then [] else Print(items[i]))
        == ItemTexts(items);
  }

  lemma PrintObject(entries: seq<(Text, Value)>)
    ensures Print(Object(entries)) == [OPEN_BRACE] + Joined(MemberTexts(Sorted(entries))) + [CLOSE_BRACE]
  {
    var sorted := Sorted(entries);
    forall i | 0 <= i < |sorted| ensures sorted[i] in entries { SortedMembers(entries, sorted[i]); }
    assert seq(|sorted|, i requires 0 <= i < |sorted| =>
             SortedMembers(entries, sorted[i]); Quote(sorted[i].0) + [COLON] + Print(sorted[i].1))
                 == MemberTexts(sorted);
  }

  /** No array in the tree is [undefined], which prints as the empty array. */
  ghost predicate Tidy(v: Value) {
    match v
    case Array(items) => items != [Undefined] && forall i :: 0 <= i < |items| ==> Tidy(items[i])
    case Object(entries) => forall i :: 0 <= i < |entries| ==> Tidy(entries[i].1)
    case _ => true
  }

  /** The kind of a value, as the first unit of its text shows. */
  lemma FirstUnit(v: Value)
    ensures Print(v) != []
    ensures var u := Print(v)[0];
      match v
      case Undefined => u == 117
      case Null => u == 110
      case Bool(flag) => u == if flag then 116 else 102
      case Integer(n) => u == 45 || IsDigit(u)
      case String(_) => u == QUOTE
      case Array(_) => u == OPEN_BRACKET
      case Object(_) => u == OPEN_BRACE
  {
    hide Joined, Sorted, QuoteBody, Decimal;
    if v.Integer? { DecimalHead(v.number); }
  }

  lemma ItemIsTame(v: Value)
    ensures Tame(ItemText(v)) && (ItemText(v) == [] <==> v.Undefined?)
  {
    hide Print;
    FirstUnit(v);
  }

  lemma {:induction false} ValueUnique(v: Value, s: Text, w: Value, t: Text)
    requires Tidy(v) && Tidy(w) && Ends(s) && Ends(t)
    requires Print(v) + s == Print(w) + t
    ensures Print(v) == Print(w) && s == t
    decreases v, 1
  {
    hide Print;
    FirstUnit(v);
    FirstUnit(w);
    assert (Print(v) + s)[0] == Print(v)[0] && (Print(w) + t)[0] == Print(w)[0];
    match v
    case Array(xs) =>
      assert w.Array?;
      PrintArray(xs);
      PrintArray(w.items);
      ItemsTell(v, w);
      hide Joined, Tell, ItemTexts, Tidy, Ends, Splits;
      BracketedUnique(ItemTexts(xs), s, ItemTexts(w.items), t, OPEN_BRACKET, CLOSE_BRACKET);
    case Object(es) =>
      assert w.Object?;
      PrintObject(es);
      PrintObject(w.entries);
      MembersTell(v, w);
      hide Joined, Tell, MemberTexts, Tidy, Ends, Splits;
      BracketedUnique(MemberTexts(Sorted(es)), s, MemberTexts(Sorted(w.entries)), t, OPEN_BRACE, CLOSE_BRACE);
    case _ => ScalarUnique(v, s, w, t);
  }

  lemma ScalarUnique(v: Value, s: Text, w: Value, t: Text)
    requires !v.Array? && !v.Object? && Ends(s) && Ends(t)
    requires Print(v) + s == Print(w) + t
    ensures v == w && s == t
  {
    FirstUnit(v);
    FirstUnit(w);
    assert (Print(v) + s)[0] == Print(v)[0] && (Print(w) + t)[0] == Print(w)[0];
    hide Quote, Decimal, Joined, Sorted;
    match v
    case Integer(n) => DecimalUnique(n, s, w.number, t);
    case String(a) => QuoteUnique(a, s, w.text, t);
    case _ => Cut(Print(v), s, Print(w), t);
  }

  lemma {:induction false} ItemsTell(v: Value, w: Value)
    requires v.Array? && w.Array? && Tidy(v) && Tidy(w)
    ensures Tell(ItemTexts(v.items), ItemTexts(w.items))
    ensures ItemTexts(v.items) != [[]] && ItemTexts(w.items) != [[]]
    decreases v, 0
  {
    hide Print, ItemText;
    var xs, ys := v.items, w.items;
    forall i | 0 <= i < |xs| ensures Tame(ItemText(xs[i])) && (ItemText(xs[i]) == [] <==> xs[i].Undefined?) {
      ItemIsTame(xs[i]);
    }
    forall i | 0 <= i < |ys| ensures Tame(ItemText(ys[i])) && (ItemText(ys[i]) == [] <==> ys[i].Undefined?) {
      ItemIsTame(ys[i]);
    }
    forall i | 0 <= i < |xs| && i < |ys| ensures Splits(ItemText(xs[i]), ItemText(ys[i])) { ItemSplits(xs[i], ys[i]); }
    LoneUndefined(xs);
    LoneUndefined(ys);
  }

  lemma LoneUndefined(items: seq<Value>)
    requires items != [Undefined]
    ensures ItemTexts(items) != [[]]
  {
    hide Print;
    if |items| == 1 {
      ItemIsTame(items[0]);
      assert items == [items[0]];
      assert ItemTexts(items)[0] != [];
    } else {
      assert |ItemTexts(items)| != 1;
    }
  }

  lemma {:induction false} ItemSplits(v: Value, w: Value)
    requires Tidy(v) && Tidy(w)
    ensures Splits(ItemText(v), ItemText(w))
    decreases v, 2
  {
    hide Print, Tidy;
    forall s, t {:trigger ItemText(v) + s, ItemText(w) + t} | Ends(s) && Ends(t) && ItemText(v) + s == ItemText(w) + t
      ensures ItemText(v) == ItemText(w) && s == t
    {
      ItemIsTame(v);
      ItemIsTame(w);
      if v.Undefined? || w.Undefined? {
        TextAhead(v, s);
        TextAhead(w, t);
        Cut(ItemText(v), s, ItemText(w), t);
      } else {
        ValueUnique(v, s, w, t);
      }
    }
  }

  lemma TextAhead(v: Value, s: Text)
    requires Ends(s)
    ensures Ends(ItemText(v) + s) <==> v.Undefined?
  {
    hide Print;
    ItemIsTame(v);
    if v.Undefined? { assert ItemText(v) + s == s; } else { assert (ItemText(v) + s)[0] == ItemText(v)[0]; }
  }

  lemma {:induction false} MembersTell(v: Value, w: Value)
    requires v.Object? && w.Object? && Tidy(v) && Tidy(w)
    ensures Tell(MemberTexts(Sorted(v.entries)), MemberTexts(Sorted(w.entries)))
    ensures MemberTexts(Sorted(v.entries)) != [[]] && MemberTexts(Sorted(w.entries)) != [[]]
    decreases v, 0
  {
    hide Print, Quote, Sorted;
    var es, fs := Sorted(v.entries), Sorted(w.entries);
    forall e: (Text, Value) ensures MemberText(e) != [] && MemberText(e)[0] == QUOTE { MemberHead(e); }
    NoEmptyMember(es);
    NoEmptyMember(fs);
    forall i | 0 <= i < |es| && i < |fs| ensures Splits(MemberText(es[i]), MemberText(fs[i])) {
      SortedMembers(v.entries, es[i]);
      SortedMembers(w.entries, fs[i]);
      MemberSplits(es[i], fs[i]);
    }
  }

  lemma NoEmptyMember(entries: seq<(Text, Value)>)
    ensures MemberTexts(entries) != [[]]
  {
    hide Print;
    if |entries| == 1 {
      MemberHead(entries[0]);
      assert MemberTexts(entries)[0] != [];
    } else {
      assert |MemberTexts(entries)| != 1;
    }
  }

  lemma MemberHead(e: (Text, Value))
    ensures MemberText(e) != [] && MemberText(e)[0] == QUOTE
  {
    hide Print;
  }

  lemma {:induction false} MemberSplits(e: (Text, Value), f: (Text, Value))
    requires Tidy(e.1) && Tidy(f.1)
    ensures Splits(MemberText(e), MemberText(f))
    decreases e.1, 2
  {
    hide Print, Tidy, Quote;
    forall s, t {:trigger MemberText(e) + s, MemberText(f) + t} | Ends(s) && Ends(t)
        && MemberText(e) + s == MemberText(f) + t
      ensures MemberText(e) == MemberText(f) && s == t
    {
      MemberCut(e, s, f, t);
      ValueUnique(e.1, s, f.1, t);
    }
  }

  lemma MemberCut(e: (Text, Value), s: Text, f: (Text, Value), t: Text)
    requires MemberText(e) + s == MemberText(f) + t
    ensures e.0 == f.0 && Print(e.1) + s == Print(f.1) + t
  {
    hide Print, Quote;
    assert MemberText(e) + s == Quote(e.0) + ([COLON] + (Print(e.1) + s));
    assert MemberText(f) + t == Quote(f.0) + ([COLON] + (Print(f.1) + t));
    QuoteUnique(e.0, [COLON] + (Print(e.1) + s), f.0, [COLON] + (Print(f.1) + t));
    Cut([COLON], Print(e.1) + s, [COLON], Print(f.1) + t);
  }

  // ---------------------------------------------------------------- equal texts, same trees

  lemma {:induction false} EqualTextsSameTrees(v: Value, w: Value)
    requires WellFormed(v) && WellFormed(w) && Tidy(v) && Tidy(w) && Print(v) == Print(w)
    ensures Same(v, w)
    decreases v
  {
    hide Print, ItemTexts, Sorted, Find, Names;
    FirstUnit(v);
    FirstUnit(w);
    match v
    case Array(xs) =>
      assert w.Array?;
      var ys := w.items;
      SameItemTexts(v, w);
      forall i | 0 <= i < |xs| ensures Same(xs[i], ys[i]) {
        ItemIsTame(xs[i]);
        ItemIsTame(ys[i]);
        if !xs[i].Undefined? { EqualTextsSameTrees(xs[i], ys[i]); }
      }
    case Object(es) =>
      assert w.Object?;
      SameMemberTexts(v, w);
      SamePositions(es, w.entries);
      forall i | 0 <= i < |es| ensures Same(es[i].1, Find(w.entries, es[i].0)) {
        SameTextUnderName(es, w.entries, i);
        FindTidy(w.entries, es[i].0);
        EqualTextsSameTrees(es[i].1, Find(w.entries, es[i].0));
      }
    case _ =>
      assert Print(v) + [] == Print(w) + [];
      ScalarUnique(v, [], w, []);
  }

  lemma {:induction false} FindMember(entries: seq<(Text, Value)>, e: (Text, Value))
    requires DistinctNames(entries) && e in entries
    ensures Find(entries, e.0) == e.1
  {
    if entries[0] != e {
      var i :| 0 <= i < |entries| && entries[i] == e;
      assert entries[1..][i - 1] == e;
      FindMember(entries[1..], e);
    }
  }

  lemma {:induction false} FindTidy(entries: seq<(Text, Value)>, name: Text)
    requires WellFormed(Object(entries)) && Tidy(Object(entries))
    ensures WellFormed(Find(entries, name)) && Tidy(Find(entries, name))
  {
    if entries != [] && entries[0].0 != name { FindTidy(entries[1..], name); }
  }

  /** Sorted lists that agree position by position in name and text. */
  ghost predicate Aligned(es: seq<(Text, Value)>, fs: seq<(Text, Value)>) {
    |es| == |fs| && forall k :: 0 <= k < |es| ==> es[k].0 == fs[k].0 && Print(es[k].1) == Print(fs[k].1)
  }

  lemma SamePositions(es: seq<(Text, Value)>, fs: seq<(Text, Value)>)
    requires Aligned(Sorted(es), Sorted(fs))
    ensures Names(es) == Names(fs)
  {
    hide Sorted, Print;
    SortedNames(es);
    SortedNames(fs);
    var es', fs' := Sorted(es), Sorted(fs);
    forall name ensures name in Names(es') <==> name in Names(fs') {
      if name in Names(es') { var k :| 0 <= k < |es'| && es'[k].0 == name; assert fs'[k] in fs'; }
      if name in Names(fs') { var k :| 0 <= k < |fs'| && fs'[k].0 == name; assert es'[k] in es'; }
    }
  }

  lemma SortedNames(es: seq<(Text, Value)>)
    ensures Names(Sorted(es)) == Names(es)
  {
    hide Sorted;
    forall e ensures e in Sorted(es) <==> e in es { SortedMembers(es, e); }
  }

  lemma SameTextUnderName(es: seq<(Text, Value)>, fs: seq<(Text, Value)>, i: nat)
    requires Aligned(Sorted(es), Sorted(fs)) && DistinctNames(fs) && i < |es|
    ensures Print(es[i].1) == Print(Find(fs, es[i].0))
  {
    hide Sorted, Print, Find;
    SortedMembers(es, es[i]);
    var k :| 0 <= k < |Sorted(es)| && Sorted(es)[k] == es[i];
    SortedMembers(fs, Sorted(fs)[k]);
    FindMember(fs, Sorted(fs)[k]);
  }

  lemma SameItemTexts(v: Value, w: Value)
    requires v.Array? && w.Array? && Tidy(v) && Tidy(w) && Print(v) == Print(w)
    ensures |v.items| == |w.items|
    ensures forall i :: 0 <= i < |v.items| ==> ItemText(v.items[i]) == ItemText(w.items[i])
  {
    hide Print, Tidy, Tell, Joined, ItemText;
    PrintArray(v.items);
    PrintArray(w.items);
    ItemsTell(v, w);
    assert Print(v) + [] == Print(w) + [];
    BracketedUnique(ItemTexts(v.items), [], ItemTexts(w.items), [], OPEN_BRACKET, CLOSE_BRACKET);
    assert |ItemTexts(v.items)| == |ItemTexts(w.items)|;
    forall i | 0 <= i < |v.items| ensures ItemText(v.items[i]) == ItemText(w.items[i]) {
      assert ItemTexts(v.items)[i] == ItemTexts(w.items)[i];
    }
  }

  lemma SameMemberTexts(v: Value, w: Value)
    requires v.Object? && w.Object? && Tidy(v) && Tidy(w) && Print(v) == Print(w)
    ensures Aligned(Sorted(v.entries), Sorted(w.entries))
  {
    hide Print, Tidy, Tell, Joined, Sorted, Quote;
    PrintObject(v.entries);
    PrintObject(w.entries);
    MembersTell(v, w);
    var es, fs := Sorted(v.entries), Sorted(w.entries);
    assert Print(v) + [] == Print(w) + [];
    BracketedUnique(MemberTexts(es), [], MemberTexts(fs), [], OPEN_BRACE, CLOSE_BRACE);
    assert |MemberTexts(es)| == |MemberTexts(fs)|;
    forall k | 0 <= k < |es| ensures es[k].0 == fs[k].0 && Print(es[k].1) == Print(fs[k].1) {
      assert MemberTexts(es)[k] == MemberTexts(fs)[k];
      assert MemberText(es[k]) + [] == MemberText(fs[k]) + [];
      MemberCut(es[k], [], fs[k], []);
      Cut(Print(es[k].1), [], Print(fs[k].1), []) by {
        assert Print(es[k].1) + [] == Print(es[k].1) && Print(fs[k].1) + [] == Print(fs[k].1);
      }
    }
  }

  // ---------------------------------------------------------------- same trees, equal texts

  lemma {:induction false} LessIsStrict(a: Text, b: Text)
    ensures !(Less(a, b) && Less(b, a))
    ensures a != b ==> Less(a, b) || Less(b, a)
    ensures !Less(a, a)
  {
    if a != [] && b != [] {
      LessIsStrict(a[1..], b[1..]);
      assert a == [a[0]] + a[1..] && b == [b[0]] + b[1..];
    } else if a != [] {
      LessIsStrict(a[1..], b);
    }
  }

  lemma {:induction false} LessIsTransitive(a: Text, b: Text, c: Text)
    requires Less(a, b) && Less(b, c)
    ensures Less(a, c)
  {
    if a != [] && a[0] == b[0] == c[0] { LessIsTransitive(a[1..], b[1..], c[1..]); }
  }

  ghost predicate Ascending(entries: seq<(Text, Value)>) {
    forall i, j :: 0 <= i < j < |entries| ==> Less(entries[i].0, entries[j].0)
  }

  ghost predicate DistinctNames(entries: seq<(Text, Value)>) {
    forall i, j :: 0 <= i < j < |entries| ==> entries[i].0 != entries[j].0
  }

  lemma InsertMembers(e: (Text, Value), sorted: seq<(Text, Value)>, x: (Text, Value))
    ensures x in Insert(e, sorted) <==> x == e || x in sorted
  {
    assert x in Insert(e, sorted) <==> x in multiset(Insert(e, sorted));
  }

  lemma {:induction false} InsertAscends(e: (Text, Value), sorted: seq<(Text, Value)>)
    requires Ascending(sorted) && forall x :: x in sorted ==> x.0 != e.0
    ensures Ascending(Insert(e, sorted))
  {
    hide Less;
    if sorted == [] {
    } else if Less(e.0, sorted[0].0) {
      forall j | 1 <= j < |sorted| ensures Less(e.0, sorted[j].0) { LessIsTransitive(e.0, sorted[0].0, sorted[j].0); }
    } else {
      LessIsStrict(e.0, sorted[0].0);
      InsertAscends(e, sorted[1..]);
      var rest := Insert(e, sorted[1..]);
      forall j | 0 <= j < |rest| ensures Less(sorted[0].0, rest[j].0) {
        InsertMembers(e, sorted[1..], rest[j]);
        if rest[j] != e {
          var k :| 0 <= k < |sorted[1..]| && sorted[1..][k] == rest[j];
          assert sorted[k + 1] == rest[j];
        }
      }
    }
  }

  lemma {:induction false} SortedAscends(entries: seq<(Text, Value)>)
    requires DistinctNames(entries)
    ensures Ascending(Sorted(entries))
  {
    if entries != [] {
      SortedAscends(entries[1..]);
      forall x | x in Sorted(entries[1..]) ensures x.0 != entries[0].0 {
        SortedMembers(entries[1..], x);
        var k :| 0 <= k < |entries[1..]| && entries[1..][k] == x;
        assert entries[k + 1] == x;
      }
      InsertAscends(entries[0], Sorted(entries[1..]));
    }
  }

  /** Two ascending lists with the same names have them at the same positions. */
  lemma {:induction false} AscendingNames(es: seq<(Text, Value)>, fs: seq<(Text, Value)>)
    requires Ascending(es) && Ascending(fs) && Names(es) == Names(fs)
    ensures |es| == |fs| && forall k :: 0 <= k < |es| ==> es[k].0 == fs[k].0
  {
    hide Less;
    if es != [] { assert es[0] in es && es[0].0 in Names(fs); }
    if fs != [] { assert fs[0] in fs && fs[0].0 in Names(es); }
    if es != [] && fs != [] {
      SameFirst(es, fs);
      NamesOfTail(es);
      NamesOfTail(fs);
      AscendingNames(es[1..], fs[1..]);
      assert es == [es[0]] + es[1..] && fs == [fs[0]] + fs[1..];
    }
  }

  lemma SameFirst(es: seq<(Text, Value)>, fs: seq<(Text, Value)>)
    requires Ascending(es) && Ascending(fs) && es != [] && fs != []
    requires es[0].0 in Names(fs) && fs[0].0 in Names(es)
    ensures es[0].0 == fs[0].0
  {
    hide Less;
    LessIsStrict(es[0].0, fs[0].0);
    var i :| 0 <= i < |fs| && fs[i].0 == es[0].0;
    var j :| 0 <= j < |es| && es[j].0 == fs[0].0;
  }

  lemma NamesOfTail(es: seq<(Text, Value)>)
    requires Ascending(es) && es != []
    ensures Names(es[1..]) == Names(es) - {es[0].0}
  {
    hide Less;
    LessIsStrict(es[0].0, es[0].0);
    assert es == [es[0]] + es[1..];
    forall e | e in es[1..] ensures e.0 != es[0].0 {
      var i :| 0 <= i < |es[1..]| && es[1..][i] == e;
      assert Less(es[0].0, es[i + 1].0);
    }
  }

  lemma {:induction false} SameTreesEqualTexts(v: Value, w: Value)
    requires WellFormed(v) && WellFormed(w) && Same(v, w)
    ensures Print(v) == Print(w)
    decreases v
  {
    hide Print, ItemTexts, MemberTexts, Sorted, Find, Names;
    match v
    case Array(xs) =>
      var ys := w.items;
      PrintArray(xs);
      PrintArray(ys);
      forall i | 0 <= i < |xs| ensures ItemText(xs[i]) == ItemText(ys[i]) { SameTreesEqualTexts(xs[i], ys[i]); }
      EqualItems(xs, ys);
    case Object(es) =>
      var fs := w.entries;
      PrintObject(es);
      PrintObject(fs);
      SortedAlike(es, fs);
      var es', fs' := Sorted(es), Sorted(fs);
      forall k | 0 <= k < |es'| ensures MemberText(es'[k]) == MemberText(fs'[k]) {
        SortedMembers(es, es'[k]);
        SortedMembers(fs, fs'[k]);
        FindMember(fs, fs'[k]);
        var i :| 0 <= i < |es| && es[i] == es'[k];
        SameTreesEqualTexts(es'[k].1, fs'[k].1);
      }
      EqualMembers(es', fs');
    case _ =>
  }

  lemma EqualItems(xs: seq<Value>, ys: seq<Value>)
    requires |xs| == |ys| && forall i :: 0 <= i < |xs| ==> ItemText(xs[i]) == ItemText(ys[i])
    ensures ItemTexts(xs) == ItemTexts(ys)
  {
    hide ItemText;
  }

  lemma EqualMembers(es: seq<(Text, Value)>, fs: seq<(Text, Value)>)
    requires |es| == |fs| && forall i :: 0 <= i < |es| ==> MemberText(es[i]) == MemberText(fs[i])
    ensures MemberTexts(es) == MemberTexts(fs)
  {
    hide MemberText;
  }

  lemma SortedAlike(es: seq<(Text, Value)>, fs: seq<(Text, Value)>)
    requires DistinctNames(es) && DistinctNames(fs) && Names(es) == Names(fs)
    ensures var es', fs' := Sorted(es), Sorted(fs);
      |es'| == |fs'| && forall k :: 0 <= k < |es'| ==> es'[k].0 == fs'[k].0
  {
    hide Sorted, Names;
    SortedAscends(es);
    SortedAscends(fs);
    SortedNames(es);
    SortedNames(fs);
    AscendingNames(Sorted(es), Sorted(fs));
  }

  /** Without an array [undefined] the text tells the tree. */
  lemma TidyInjective(v: Value, w: Value)
    requires WellFormed(v) && WellFormed(w) && Tidy(v) && Tidy(w)
    ensures Print(v) == Print(w) <==> Same(v, w)
  {
    hide Print, WellFormed, Tidy;
    if Same(v, w) { SameTreesEqualTexts(v, w); }
    if Print(v) == Print(w) { EqualTextsSameTrees(v, w); }
  }

  // ---------------------------------------------------------------- the array [undefined]

  /** The value with every array [undefined] in it read as the empty array. */
  function Tidied(v: Value): Value {
    match v
    case Array(items) =>
      if items == [Undefined] then Array([])
      else Array(seq(|items|, i requires 0 <= i < |items| => Tidied(items[i])))
    case Object(entries) =>
      Object(seq(|entries|, i requires 0 <= i < |entries| => (entries[i].0, Tidied(entries[i].1))))
    case _ => v
  }

  function TidiedEntries(entries: seq<(Text, Value)>): seq<(Text, Value)> {
    seq(|entries|, i requires 0 <= i < |entries| => (entries[i].0, Tidied(entries[i].1)))
  }

  lemma {:induction false} TidiedIsTidy(v: Value)
    ensures Tidy(Tidied(v)) && (WellFormed(v) ==> WellFormed(Tidied(v)))
    ensures Tidied(v).Undefined? <==> v.Undefined?
    ensures Tidy(v) ==> Tidied(v) == v
  {
    match v
    case Array(items) =>
      forall i | 0 <= i < |items| ensures Tidy(Tidied(items[i]))
        && (WellFormed(items[i]) ==> WellFormed(Tidied(items[i])))
        && (Tidied(items[i]).Undefined? <==> items[i].Undefined?) && (Tidy(items[i]) ==> Tidied(items[i]) == items[i])
      {
        TidiedIsTidy(items[i]);
      }
    case Object(entries) =>
      forall i | 0 <= i < |entries| ensures Tidy(Tidied(entries[i].1))
        && (WellFormed(entries[i].1) ==> WellFormed(Tidied(entries[i].1)))
        && (Tidy(entries[i].1) ==> Tidied(entries[i].1) == entries[i].1)
      {
        TidiedIsTidy(entries[i].1);
      }
    case _ =>
  }

  lemma {:induction false} TidiedInsert(e: (Text, Value), sorted: seq<(Text, Value)>)
    ensures TidiedEntries(Insert(e, sorted)) == Insert((e.0, Tidied(e.1)), TidiedEntries(sorted))
  {
    hide Less, Tidied;
    if sorted == [] || Less(e.0, sorted[0].0) {
      assert TidiedEntries([e] + sorted) == [(e.0, Tidied(e.1))] + TidiedEntries(sorted);
    } else {
      TidiedInsert(e, sorted[1..]);
      TidiedTail(sorted);
      TidiedTail([sorted[0]] + Insert(e, sorted[1..]));
    }
  }

  lemma TidiedTail(entries: seq<(Text, Value)>)
    requires entries != []
    ensures TidiedEntries(entries)[0] == (entries[0].0, Tidied(entries[0].1))
    ensures TidiedEntries(entries)[1..] == TidiedEntries(entries[1..])
  {
    hide Tidied;
  }

  lemma {:induction false} TidiedSorted(entries: seq<(Text, Value)>)
    ensures Sorted(TidiedEntries(entries)) == TidiedEntries(Sorted(entries))
  {
    hide Insert, Tidied;
    if entries != [] {
      TidiedTail(entries);
      TidiedSorted(entries[1..]);
      TidiedInsert(entries[0], Sorted(entries[1..]));
    }
  }

  /** Reading [undefined] as the empty array changes no text. */
  lemma {:induction false} TidiedPrintsAlike(v: Value)
    ensures Print(Tidied(v)) == Print(v)
  {
    hide Print, Sorted, Joined;
    match v
    case Array(items) =>
      PrintArray(items);
      PrintArray(Tidied(v).items);
      if items == [Undefined] {
        LoneUndefinedText();
      } else {
        forall i | 0 <= i < |items| ensures ItemText(Tidied(items[i])) == ItemText(items[i]) {
          TidiedPrintsAlike(items[i]);
          TidiedIsTidy(items[i]);
        }
        EqualItems(Tidied(v).items, items);
      }
    case Object(entries) =>
      var sorted := Sorted(entries);
      PrintObject(entries);
      PrintObject(TidiedEntries(entries));
      TidiedSorted(entries);
      forall i | 0 <= i < |sorted| ensures MemberText(TidiedEntries(sorted)[i]) == MemberText(sorted[i]) {
        SortedMembers(entries, sorted[i]);
        TidiedPrintsAlike(sorted[i].1);
      }
      EqualMembers(TidiedEntries(sorted), sorted);
    case _ =>
  }

  lemma LoneUndefinedText()
    ensures Joined(ItemTexts([Undefined])) == Joined(ItemTexts([])) == []
  {
    assert ItemTexts([Undefined]) == [[]] && ItemTexts([]) == [];
  }

  /** Two values have one canonical text exactly when they are the same tree up to the order of
      properties, once every array [undefined] in them is read as the empty array. */
  lemma StableJsonInjective(v: Value, w: Value)
    requires WellFormed(v) && WellFormed(w)
    ensures StableText(v) == StableText(w) <==> Same(Tidied(v), Tidied(w))
  {
    hide Print, WellFormed, Tidy, Tidied, Same;
    FirstUnit(v);
    FirstUnit(w);
    TidiedIsTidy(v);
    TidiedIsTidy(w);
    TidiedPrintsAlike(v);
    TidiedPrintsAlike(w);
    TidyInjective(Tidied(v), Tidied(w));
  }

  /** Such an array shares its text with the empty one. */
  lemma LoneUndefinedCollides()
    ensures StableText(Array([Undefined])) == StableText(Array([])) && !Same(Array([Undefined]), Array([]))
  {
    PrintArray([Undefined]);
    PrintArray([]);
    LoneUndefinedText();
  }
}
