/** serde_json values and the library functions the crates call but do not define. */
module Json {
  import opened Wrappers
  import opened Text

  /** The integers that canonical JSON prints exactly; section 3.2.2.3 of RFC 8785 prints every number
      as a double. */
  type Exact = n: int | -0x20_0000_0000_0000 < n < 0x20_0000_0000_0000

  /** An object is a map: serde_json's Map has no duplicate keys and no significant order. */
  datatype Json =
    | Null
    | Bool(flag: bool)
    | Number(number: Exact)
    | Str(text: string)
    | Arr(items: seq<Json>)
    | Obj(fields: map<string, Json>)

  /** Value::get */
  function Get(v: Json, field: string): Option<Json> {
    if v.Obj? && field in v.fields then Some(v.fields[field]) else None
  }

  /** value.get(field).and_then(Value::as_str) */
  function GetStr(v: Json, field: string): Option<string> {
    match Get(v, field)
    case Some(Str(s)) => Some(s)
    case _ => None
  }

  /** value.get(field).filter(Value::is_object) */
  function GetObj(v: Json, field: string): Option<Json> {
    match Get(v, field)
    case Some(Obj(m)) => Some(Obj(m))
    case _ => None
  }

  /** Value::as_u64 */
  function AsU64(v: Json): Option<nat> {
    if v.Number? && 0 <= v.number then Some(v.number) else None
  }

  /** serde_jcs, serde_json, chrono and the hash crates. Instants are milliseconds since 1970. */
  datatype Lib = Lib(
    jcs: Json -> string,
    parseJson: string -> Option<Json>,
    hmac: (string, string) -> string,
    sha256: string -> string,
    ckbHash: string -> string,
    parseTime: string -> Option<int>,
    printTime: int -> string)

  /** The last instant that RFC 3339 can name with a four-digit year. */
  const LAST_INSTANT: int := 253402300799999

  /** What the code relies on: the canonical form parses back to its value, the empty text is no
      JSON, no tag is empty, digests are 32 bytes, and printed instants parse back. */
  ghost predicate Sound(lib: Lib) {
    && (forall v {:trigger lib.jcs(v)} :: IsBytes(lib.jcs(v)) && lib.parseJson(lib.jcs(v)) == Some(v))
    && lib.parseJson("").None?
    && (forall k, m {:trigger lib.hmac(k, m)} :: IsBytes(lib.hmac(k, m)) && lib.hmac(k, m) != "")
    && (forall m {:trigger lib.sha256(m)} :: IsBytes(lib.sha256(m)) && |lib.sha256(m)| == 32)
    && (forall m {:trigger lib.ckbHash(m)} :: IsBytes(lib.ckbHash(m)) && |lib.ckbHash(m)| == 32)
    && (forall t {:trigger lib.printTime(t)} :: 0 <= t <= LAST_INSTANT ==> lib.parseTime(lib.printTime(t)) == Some(t))
    && (forall t, u {:trigger lib.printTime(t), lib.printTime(u)} :: lib.printTime(t) == lib.printTime(u) ==> t == u)
  }

  /** RFC 3339 text is never empty and holds no vertical bar. */
  ghost predicate TimeText(lib: Lib) {
    && (forall s {:trigger lib.parseTime(s)} :: lib.parseTime(s).Some? ==> s != "" && '|' !in s)
    && (forall t {:trigger lib.printTime(t)} :: lib.printTime(t) != "" && '|' !in lib.printTime(t))
  }

  /** An ideal keyed hash: equal tags come from equal keys and equal messages. Tags are given no
      fixed length, which an injective hash of unbounded messages could not have. */
  ghost predicate IdealMac(lib: Lib) {
    forall k, m, k', m' {:trigger lib.hmac(k, m), lib.hmac(k', m')} ::
      lib.hmac(k, m) == lib.hmac(k', m') ==> k == k' && m == m'
  }

  lemma JcsInjective(lib: Lib, v: Json, w: Json)
    requires Sound(lib)
    requires lib.jcs(v) == lib.jcs(w)
    ensures v == w
  {
    assert lib.parseJson(lib.jcs(v)) == Some(v);
  }
}
