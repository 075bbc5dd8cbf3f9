/** A library that meets every assumption made of Json.Lib, so that no theorem rests on a contradiction. */
module LibModel {
  import opened Wrappers
  import opened Text
  import opened Json

  /** Two texts agree, so their first characters and what follows those do. */
  lemma Strip(c: char, a: string, s: string, d: char, b: string, t: string)
    requires [c] + a + s == [d] + b + t
    ensures c == d && a + s == b + t && (a == b == "" ==> s == t)
  {
    var x, y := [c] + a + s, [d] + b + t;
    assert x[0] == c && y[0] == d;
    assert x[1..] == a + s && y[1..] == b + t;
    assert "" + s == s && "" + t == t;
  }

  lemma Regroup(a: string, b: string, s: string)
    ensures a + b + s == a + (b + s)
  {}

  function Unary(n: nat): (r: string)
    ensures r != "" && IsBytes(r) && '|' !in r
  {
    if n == 0 then "." else "1" + Unary(n - 1)
  }

  lemma {:induction false} UnaryUnique(n: nat, s: string, m: nat, t: string)
    requires Unary(n) + s == Unary(m) + t
    ensures n == m && s == t
  {
    if n == 0 || m == 0 {
      assert (Unary(n) + s)[0] == Unary(n)[0] && (Unary(m) + t)[0] == Unary(m)[0];
      assert s == (Unary(n) + s)[1..] && t == (Unary(m) + t)[1..];
    } else {
      assert (Unary(n) + s)[1..] == Unary(n - 1) + s && (Unary(m) + t)[1..] == Unary(m - 1) + t;
      UnaryUnique(n - 1, s, m - 1, t);
    }
  }

  function Signed(n: int): (r: string)
    ensures r != "" && IsBytes(r) && '|' !in r
  {
    if n < 0 then "-" + Unary(-n) else "+" + Unary(n)
  }

  lemma SignedUnique(n: int, s: string, m: int, t: string)
    requires Signed(n) + s == Signed(m) + t
    ensures n == m && s == t
  {
    hide Unary;
    var a, b := if n < 0 then -n else n, if m < 0 then -m else m;
    Strip(if n < 0 then '-' else '+', Unary(a), s, if m < 0 then '-' else '+', Unary(b), t);
    UnaryUnique(a, s, b, t);
  }

  function Spelled(x: string): (r: string)
    ensures r != "" && IsBytes(r)
  {
    if x == "" then "." else "," + (Unary(x[0] as int) + Spelled(x[1..]))
  }

  lemma {:induction false} SpelledUnique(x: string, s: string, y: string, t: string)
    requires Spelled(x) + s == Spelled(y) + t
    ensures x == y && s == t
  {
    hide Unary, Spelled;
    SpelledParts(x);
    SpelledParts(y);
    Strip(Spelled(x)[0], Spelled(x)[1..], s, Spelled(y)[0], Spelled(y)[1..], t);
    assert x == "" <==> y == "";
    if x != "" {
      var u, v := Spelled(x[1..]), Spelled(y[1..]);
      Regroup(Unary(x[0] as int), u, s);
      Regroup(Unary(y[0] as int), v, t);
      UnaryUnique(x[0] as int, u + s, y[0] as int, v + t);
      SpelledUnique(x[1..], s, y[1..], t);
      assert x == [x[0]] + x[1..] && y == [y[0]] + y[1..];
    }
  }

  lemma SpelledParts(x: string)
    ensures Spelled(x) == [Spelled(x)[0]] + Spelled(x)[1..]
    ensures if x == "" then Spelled(x)[0] == '.' && Spelled(x)[1..] == ""
            else Spelled(x)[0] == ',' && Spelled(x)[1..] == Unary(x[0] as int) + Spelled(x[1..])
  {
    hide Unary;
  }

  // ---------------------------------------------------------------- a canonical form

  /** Some name of a set, always the same one. */
  ghost function First(names: set<string>): string
    requires names != {}
  {
    var name :| name in names; name
  }

  ghost function Encode(v: Json): (r: string)
    ensures r != "" && IsBytes(r)
    decreases v, 1
  {
    match v
    case Null => "n"
    case Bool(flag) => if flag then "t" else "f"
    case Number(n) => "i" + Signed(n)
    case Str(text) => "s" + Spelled(text)
    case Arr(items) => "a" + Items(v, 0)
    case Obj(fields) => "o" + Fields(v, fields.Keys)
  }

  ghost function Items(v: Json, i: nat): (r: string)
    requires v.Arr? && i <= |v.items|
    ensures r != "" && IsBytes(r)
    decreases v, 0, |v.items| - i
  {
    if i == |v.items| then "." else "," + (Encode(v.items[i]) + Items(v, i + 1))
  }

  ghost function Fields(v: Json, names: set<string>): (r: string)
    requires v.Obj? && names <= v.fields.Keys
    ensures r != "" && IsBytes(r)
    decreases v, 0, names
  {
    if names == {} then "."
    else
      "," + (Spelled(First(names)) + (Encode(v.fields[First(names)]) + Fields(v, names - {First(names)})))
  }

  /** The first character of a value's text, which shows its kind, and the rest of the text. */
  ghost function Kind(v: Json): char {
    match v
    case Null => 'n'
    case Bool(flag) => if flag then 't' else 'f'
    case Number(_) => 'i'
    case Str(_) => 's'
    case Arr(_) => 'a'
    case Obj(_) => 'o'
  }

  ghost function Rest(v: Json): string
  {
    match v
    case Number(n) => Signed(n)
    case Str(text) => Spelled(text)
    case Arr(_) => Items(v, 0)
    case Obj(fields) => Fields(v, fields.Keys)
    case _ => ""
  }

  lemma EncodeParts(v: Json)
    ensures Encode(v) == [Kind(v)] + Rest(v)
  {
    hide Signed, Spelled, Items, Fields;
  }

  /** The text of a value tells the value and where it ends. */
  lemma {:induction false} EncodeUnique(v: Json, s: string, w: Json, t: string)
    requires Encode(v) + s == Encode(w) + t
    ensures v == w && s == t
    decreases v, 1
  {
    hide Encode, Signed, Spelled, Items, Fields;
    EncodeParts(v);
    EncodeParts(w);
    Strip(Kind(v), Rest(v), s, Kind(w), Rest(w), t);
    match v
    case Number(n) => SignedUnique(n, s, w.number, t);
    case Str(text) => SpelledUnique(text, s, w.text, t);
    case Arr(items) =>
      ItemsUnique(v, 0, s, w, t);
      assert v.items == v.items[0..] && w.items == w.items[0..];
    case Obj(fields) =>
      FieldsUnique(v, fields.Keys, s, w, w.fields.Keys, t);
      assert v.fields == w.fields;
    case _ =>
  }

  lemma {:induction false} ItemsUnique(v: Json, i: nat, s: string, w: Json, t: string)
    requires v.Arr? && i <= |v.items| && w.Arr? && i <= |w.items|
    requires Items(v, i) + s == Items(w, i) + t
    ensures v.items[i..] == w.items[i..] && s == t
    decreases v, 0, |v.items| - i
  {
    hide Encode, Items;
    ItemsParts(v, i);
    ItemsParts(w, i);
    Strip(Items(v, i)[0], Items(v, i)[1..], s, Items(w, i)[0], Items(w, i)[1..], t);
    if i < |v.items| {
      Regroup(Encode(v.items[i]), Items(v, i + 1), s);
      Regroup(Encode(w.items[i]), Items(w, i + 1), t);
      EncodeUnique(v.items[i], Items(v, i + 1) + s, w.items[i], Items(w, i + 1) + t);
      ItemsUnique(v, i + 1, s, w, t);
      assert v.items[i..] == [v.items[i]] + v.items[i + 1..] && w.items[i..] == [w.items[i]] + w.items[i + 1..];
    }
  }

  lemma ItemsParts(v: Json, i: nat)
    requires v.Arr? && i <= |v.items|
    ensures Items(v, i) == [Items(v, i)[0]] + Items(v, i)[1..]
    ensures if i == |v.items| then Items(v, i)[0] == '.' && Items(v, i)[1..] == ""
            else Items(v, i)[0] == ',' && Items(v, i)[1..] == Encode(v.items[i]) + Items(v, i + 1)
  {
    hide Encode;
  }

  lemma {:induction false} FieldsUnique(v: Json, names: set<string>, s: string,
                                        w: Json, others: set<string>, t: string)
    requires v.Obj? && names <= v.fields.Keys && w.Obj? && others <= w.fields.Keys
    requires Fields(v, names) + s == Fields(w, others) + t
    ensures names == others && s == t && forall k :: k in names ==> v.fields[k] == w.fields[k]
    decreases v, 0, names
  {
    hide Encode, Fields, Spelled, First;
    FieldsParts(v, names);
    FieldsParts(w, others);
    Strip(Fields(v, names)[0], Fields(v, names)[1..], s, Fields(w, others)[0], Fields(w, others)[1..], t);
    if names != {} {
      var k, l := First(names), First(others);
      var x, y := Fields(v, names - {k}), Fields(w, others - {l});
      Regroup(Spelled(k), Encode(v.fields[k]) + x, s);
      Regroup(Spelled(l), Encode(w.fields[l]) + y, t);
      Regroup(Encode(v.fields[k]), x, s);
      Regroup(Encode(w.fields[l]), y, t);
      SpelledUnique(k, Encode(v.fields[k]) + (x + s), l, Encode(w.fields[l]) + (y + t));
      EncodeUnique(v.fields[k], x + s, w.fields[k], y + t);
      FieldsUnique(v, names - {k}, s, w, others - {k}, t);
      assert names == names - {k} + {k} && others == others - {k} + {k};
    }
  }

  lemma FieldsParts(v: Json, names: set<string>)
    requires v.Obj? && names <= v.fields.Keys
    ensures Fields(v, names) == [Fields(v, names)[0]] + Fields(v, names)[1..]
    ensures if names == {} then Fields(v, names)[0] == '.' && Fields(v, names)[1..] == ""
            else
              var k := First(names);
              && k in names && Fields(v, names)[0] == ','
              && Fields(v, names)[1..] == Spelled(k) + (Encode(v.fields[k]) + Fields(v, names - {k}))
  {
    hide Encode, Spelled;
  }

  lemma EncodeInjective(v: Json, w: Json)
    requires Encode(v) == Encode(w)
    ensures v == w
  {
    assert Encode(v) + "" == Encode(v) && Encode(w) + "" == Encode(w);
    EncodeUnique(v, "", w, "");
  }

  // ---------------------------------------------------------------- the library

  ghost function Parse(s: string): Option<Json> {
    if exists v :: Encode(v) == s then
      var v :| Encode(v) == s; Some(v)
    else None
  }

  ghost function ParseTime(s: string): Option<int> {
    if exists t :: Signed(t) == s then
      var t :| Signed(t) == s; Some(t)
    else None
  }

  ghost function Digest(): string { seq(32, _ => '0') }

  ghost function Tag(key: string, message: string): string { Encode(Arr([Str(key), Str(message)])) }

  lemma ParseInverts(v: Json)
    ensures Parse(Encode(v)) == Some(v)
  {
    var w := Parse(Encode(v)).value;
    EncodeInjective(v, w);
  }

  lemma SignedInjective(t: int, u: int)
    requires Signed(t) == Signed(u)
    ensures t == u
  {
    assert Signed(t) + "" == Signed(t) && Signed(u) + "" == Signed(u);
    SignedUnique(t, "", u, "");
  }

  /** What is assumed of the library functions can hold all at once. */
  lemma AssumptionsHoldTogether() returns (lib: Lib)
    ensures Sound(lib) && TimeText(lib) && IdealMac(lib)
  {
    lib := Lib(v => Encode(v), s => Parse(s), (k, m) => Tag(k, m), m => Digest(), m => Digest(),
               s => ParseTime(s), t => Signed(t));
    hide Encode, Parse, Signed, ParseTime;
    forall v ensures Parse(Encode(v)) == Some(v) { ParseInverts(v); }
    forall t, u | Signed(t) == Signed(u) ensures t == u { SignedInjective(t, u); }
    TimesParse();
    NothingParses();
    forall k, m, k', m' | Tag(k, m) == Tag(k', m') ensures k == k' && m == m' { TagInjective(k, m, k', m'); }
  }

  lemma NothingParses()
    ensures Parse("") == None
  {
    hide Encode;
  }

  lemma TimesParse()
    ensures forall t :: ParseTime(Signed(t)) == Some(t)
    ensures forall s :: ParseTime(s).Some? ==> s != "" && '|' !in s
  {
    hide Signed;
    forall t ensures ParseTime(Signed(t)) == Some(t) { SignedInjective(t, ParseTime(Signed(t)).value); }
  }

  lemma TagInjective(k: string, m: string, k': string, m': string)
    requires Tag(k, m) == Tag(k', m')
    ensures k == k' && m == m'
  {
    hide Encode;
    EncodeInjective(Arr([Str(k), Str(m)]), Arr([Str(k'), Str(m')]));
    assert [Str(k), Str(m)][0] == [Str(k'), Str(m')][0] && [Str(k), Str(m)][1] == [Str(k'), Str(m')][1];
  }
}
