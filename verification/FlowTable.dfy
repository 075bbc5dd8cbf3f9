/** The evidence API's table of flows: at most sixteen sessions, the least recently used one leaves. */
module FlowTable {
  import opened Wrappers
  import opened Text
  import Scanners

  const CAPACITY := 16

  predicate IsSessionChar(c: char) { IsAlphanumeric(c) || c == '.' || c == '_' || c == ':' || c == '-' }

  /** String.prototype.trim */
  function Trim(s: string): string {
    if s == "" then ""
    else if Scanners.IsJsSpace(s[0]) then Trim(s[1..])
    else if Scanners.IsJsSpace(s[|s| - 1]) then Trim(s[..|s| - 1])
    else s
  }

  /** normalizeFlowSessionId */
  function SessionId(text: Option<string>): (id: string)
    ensures 1 <= |id| <= 81 && All(id, IsSessionChar)
  {
    match text
    case Some(s) =>
      var t := Trim(s);
      if t != "" && |t| <= 81 && IsAlphanumeric(t[0]) && All(t, IsSessionChar) then t else "default"
    case None => "default"
  }

  /** Normalizing a session id gives it back, whatever it was normalized from. */
  lemma SessionIdIsStable(text: Option<string>)
    ensures SessionId(Some(SessionId(text))) == SessionId(text)
  {
    var id := SessionId(text);
    assert IsSessionChar(id[0]) && IsSessionChar(id[|id| - 1]);
    assert Trim(id) == id;
  }

  /** WhiteSpace and LineTerminator of ECMAScript. */
  predicate IsBlank(c: char) {
    var u := c as int;
    || u in {0x9, 0xA, 0xB, 0xC, 0xD, 0x20, 0xA0, 0x1680, 0x2028, 0x2029, 0x202F, 0x205F, 0x3000, 0xFEFF}
    || 0x2000 <= u <= 0x200A
  }

  /** One to 81 letters, digits and marks, a letter or digit first. */
  predicate IsId(s: string) {
    && 1 <= |s| <= 81 && s[0] !in "._:-"
    && forall i :: 0 <= i < |s| ==>
      'a' <= s[i] <= 'z' || 'A' <= s[i] <= 'Z' || '0' <= s[i] <= '9' || s[i] in "._:-"
  }

  /** t stands in s from i on, between blanks. */
  predicate Stands(s: string, t: string, i: nat) {
    && i + |t| <= |s| && t == s[i..i + |t|]
    && (forall k :: 0 <= k < i ==> IsBlank(s[k])) && (forall k :: i + |t| <= k < |s| ==> IsBlank(s[k]))
  }

  lemma BlankBefore(s: string, t: string, i: nat)
    requires s != "" && IsBlank(s[0]) && Stands(s[1..], t, i)
    ensures Stands(s, t, i + 1)
  {
    hide IsBlank;
    forall k | 0 <= k < i + 1 ensures IsBlank(s[k]) { if k > 0 { assert s[k] == s[1..][k - 1]; } }
    forall k | i + 1 + |t| <= k < |s| ensures IsBlank(s[k]) { assert s[k] == s[1..][k - 1]; }
  }

  lemma BlankBehind(s: string, t: string, i: nat)
    requires s != "" && IsBlank(s[|s| - 1]) && Stands(s[..|s| - 1], t, i)
    ensures Stands(s, t, i)
  {
    hide IsBlank;
    forall k | 0 <= k < i ensures IsBlank(s[k]) { assert s[k] == s[..|s| - 1][k]; }
    forall k | i + |t| <= k < |s| ensures IsBlank(s[k]) { if k < |s| - 1 { assert s[k] == s[..|s| - 1][k]; } }
  }

  lemma {:induction false} TrimIs(s: string) returns (i: nat)
    ensures Stands(s, Trim(s), i)
    ensures Trim(s) != "" ==> !IsBlank(Trim(s)[0]) && !IsBlank(Trim(s)[|Trim(s)| - 1])
  {
    hide IsBlank, Stands;
    if s == "" {
      i := 0;
      Alone(s);
    } else {
      SameBlank(s[0]);
      SameBlank(s[|s| - 1]);
      if IsBlank(s[0]) {
        i := TrimIs(s[1..]);
        BlankBefore(s, Trim(s), i);
        i := i + 1;
      } else if IsBlank(s[|s| - 1]) {
        i := TrimIs(s[..|s| - 1]);
        BlankBehind(s, Trim(s), i);
      } else {
        i := 0;
        Alone(s);
      }
    }
  }

  lemma Alone(s: string)
    ensures Stands(s, s, 0)
  {}

  lemma SameBlank(c: char)
    ensures Scanners.IsJsSpace(c) <==> IsBlank(c)
  {}

  /** What is left of a text between its outer blanks. */
  ghost predicate TrimsTo(s: string, t: string) {
    && (t != "" ==> !IsBlank(t[0]) && !IsBlank(t[|t| - 1]))
    && exists i :: 0 <= i <= |s| && Stands(s, t, i)
  }

  /** A text without its outer blanks is the session's id if it can be one, and "default" is otherwise. */
  lemma SessionIdIs(text: Option<string>)
    ensures text.None? ==> SessionId(text) == "default"
    ensures text.Some? ==>
      exists t :: TrimsTo(text.value, t) && SessionId(text) == if IsId(t) then t else "default"
  {
    hide IsBlank, IsId;
    if text.Some? {
      var i := TrimIs(text.value);
      assert TrimsTo(text.value, Trim(text.value));
      IdIff(Trim(text.value));
    }
  }

  lemma IdIff(t: string)
    ensures IsId(t) <==> t != "" && |t| <= 81 && IsAlphanumeric(t[0]) && All(t, IsSessionChar)
  {}

  function Without(order: seq<string>, id: string): (rest: seq<string>)
    ensures |rest| <= |order| && id !in rest
  {
    if order == [] then []
    else if order[0] == id then Without(order[1..], id)
    else [order[0]] + Without(order[1..], id)
  }

  /** The insertion order of the map after currentFlow. */
  function Touch(order: seq<string>, id: string): seq<string> {
    if id in order then Without(order, id) + [id]
    else if |order| >= CAPACITY && order[0] != "" then order[1..] + [id]
    else order + [id]
  }

  /** The order after a history of accesses. */
  function Order(history: seq<string>): seq<string> {
    if history == [] then [] else Touch(Order(history[..|history| - 1]), history[|history| - 1])
  }

  /** The sessions accessed after the last access of id. */
  function Since(history: seq<string>, id: string): set<string> {
    if history == [] || history[|history| - 1] == id then {}
    else Since(history[..|history| - 1], id) + {history[|history| - 1]}
  }

  /** At most fifteen other sessions were accessed since. */
  predicate Recent(history: seq<string>, id: string) {
    id in history && |Since(history, id)| <= 15
  }

  function LastAccess(history: seq<string>, id: string): (i: nat)
    requires id in history
    ensures i < |history| && history[i] == id
    ensures forall j :: i < j < |history| ==> history[j] != id
  {
    if history[|history| - 1] == id then |history| - 1 else LastAccess(history[..|history| - 1], id)
  }

  function Members(order: seq<string>): set<string> { set id | id in order }

  ghost predicate Distinct(order: seq<string>) {
    forall i, j :: 0 <= i < j < |order| ==> order[i] != order[j]
  }

  // ---------------------------------------------------------------- what the order holds

  /** The order lists recent sessions by last access: behind each stand exactly the sessions accessed
      since, and since the last access of any session that is not listed sixteen others were. */
  ghost predicate Listed(history: seq<string>, order: seq<string>) {
    && Distinct(order) && |order| <= CAPACITY
    && (forall k :: 0 <= k < |order| ==> order[k] in history && Since(history, order[k]) == Members(order[k + 1..]))
    && (forall id :: id in history && id !in order ==> |Since(history, id)| >= CAPACITY)
  }

  lemma {:induction false} MembersSize(order: seq<string>)
    requires Distinct(order)
    ensures |Members(order)| == |order|
  {
    if order != [] {
      MembersSize(order[1..]);
      assert Members(order) == Members(order[1..]) + {order[0]};
    }
  }

  lemma SinceLast(history: seq<string>, id: string, other: string)
    ensures Since(history + [id], other) == if other == id then {} else Since(history, other) + {id}
  {
    assert (history + [id])[..|history|] == history;
  }

  lemma SinceGrows(history: seq<string>, id: string, other: string)
    requires other != id
    ensures |Since(history + [id], other)| >= |Since(history, other)|
  {
    SinceLast(history, id, other);
    if id in Since(history, other) { assert Since(history, other) + {id} == Since(history, other); }
  }

  lemma {:induction false} WithoutAt(order: seq<string>, m: nat)
    requires Distinct(order) && m < |order|
    ensures Without(order, order[m]) == order[..m] + order[m + 1..]
  {
    if m == 0 {
      WithoutAbsent(order[1..], order[0]);
    } else {
      assert order[1..][m - 1] == order[m];
      WithoutAt(order[1..], m - 1);
      assert order[..m] == [order[0]] + order[1..][..m - 1];
      assert order[m + 1..] == order[1..][m..];
    }
  }

  lemma {:induction false} WithoutAbsent(order: seq<string>, id: string)
    requires id !in order
    ensures Without(order, id) == order
  {
    if order != [] { WithoutAbsent(order[1..], id); }
  }

  /** The order with its m-th session moved to the end. */
  function Moved(order: seq<string>, m: nat): seq<string>
    requires m < |order|
  {
    order[..m] + order[m + 1..] + [order[m]]
  }

  lemma MovedTail(order: seq<string>, m: nat, k: nat)
    requires m < |order| && k + 1 < |order|
    ensures var j := if k < m then k else k + 1;
      Moved(order, m)[k] == order[j] && Members(Moved(order, m)[k + 1..]) == Members(order[j + 1..]) + {order[m]}
  {
    if k < m {
      assert Moved(order, m)[k + 1..] == order[k + 1..m] + order[m + 1..] + [order[m]];
      assert order[k + 1..] == order[k + 1..m] + [order[m]] + order[m + 1..];
    } else {
      assert Moved(order, m)[k + 1..] == order[k + 2..] + [order[m]];
    }
  }

  lemma MovedMembers(order: seq<string>, m: nat, id: string)
    requires m < |order|
    ensures id in Moved(order, m) <==> id in order
  {
    assert order == order[..m] + [order[m]] + order[m + 1..];
  }

  lemma MoveToEnd(history: seq<string>, order: seq<string>, m: nat)
    requires Listed(history, order) && m < |order|
    ensures Listed(history + [order[m]], Moved(order, m))
  {
    hide Since, Members;
    var id, after := order[m], Moved(order, m);
    forall k | 0 <= k < |after|
      ensures after[k] in history + [id] && Since(history + [id], after[k]) == Members(after[k + 1..])
    {
      SinceLast(history, id, after[k]);
      if k + 1 < |after| { MovedTail(order, m, k); } else { NoMembers(after[k + 1..]); }
    }
    forall other | other in history + [id] && other !in after ensures |Since(history + [id], other)| >= CAPACITY {
      MovedMembers(order, m, other);
      MovedMembers(order, m, id);
      SinceGrows(history, id, other);
    }
  }

  lemma NoMembers(order: seq<string>)
    requires order == []
    ensures Members(order) == {}
  {}

  lemma MembersAdd(order: seq<string>, k: nat, id: string)
    requires k <= |order|
    ensures Members((order + [id])[k..]) == Members(order[k..]) + {id}
  {
    assert (order + [id])[k..] == order[k..] + [id];
  }

  lemma AddToEnd(history: seq<string>, order: seq<string>, id: string)
    requires Listed(history, order) && id !in order && |order| < CAPACITY
    ensures Listed(history + [id], order + [id])
  {
    hide Since, Members;
    var after := order + [id];
    forall k | 0 <= k < |after|
      ensures after[k] in history + [id] && Since(history + [id], after[k]) == Members(after[k + 1..])
    {
      SinceLast(history, id, after[k]);
      if k < |order| { MembersAdd(order, k + 1, id); } else { NoMembers(after[k + 1..]); }
    }
    forall other | other in history + [id] && other !in after ensures |Since(history + [id], other)| >= CAPACITY {
      SinceGrows(history, id, other);
    }
  }

  lemma ReplaceOldest(history: seq<string>, order: seq<string>, id: string)
    requires Listed(history, order) && id !in order && |order| == CAPACITY
    ensures Listed(history + [id], order[1..] + [id])
  {
    hide Since, Members;
    var after := order[1..] + [id];
    forall k | 0 <= k < |after|
      ensures after[k] in history + [id] && Since(history + [id], after[k]) == Members(after[k + 1..])
    {
      SinceLast(history, id, after[k]);
      if k + 1 < |order| {
        MembersAdd(order[1..], k + 1, id);
        assert order[1..][k + 1..] == order[k + 2..];
      } else {
        NoMembers(after[k + 1..]);
      }
    }
    MembersSize(after);
    MembersAdd(order[1..], 0, id);
    assert order[1..][0..] == order[1..] && after[0..] == after;
    SinceLast(history, id, order[0]);
    forall other | other in history + [id] && other !in after ensures |Since(history + [id], other)| >= CAPACITY {
      assert order == [order[0]] + order[1..];
      if other != order[0] { SinceGrows(history, id, other); }
    }
  }

  lemma TouchLists(history: seq<string>, order: seq<string>, id: string)
    requires Listed(history, order) && "" !in order
    ensures Listed(history + [id], Touch(order, id))
  {
    hide Listed, Distinct, Without;
    ListedIsDistinct(history, order);
    if id in order {
      var m :| 0 <= m < |order| && order[m] == id;
      WithoutAt(order, m);
      assert Touch(order, id) == Moved(order, m);
      MoveToEnd(history, order, m);
    } else if |order| == CAPACITY {
      ReplaceOldest(history, order, id);
    } else {
      AddToEnd(history, order, id);
    }
  }

  lemma {:induction false} WithoutMembers(order: seq<string>, id: string, other: string)
    ensures other in Without(order, id) <==> other in order && other != id
  {
    if order != [] {
      WithoutMembers(order[1..], id, other);
      assert order == [order[0]] + order[1..];
    }
  }

  /** Only the session that an access evicts leaves the order. */
  lemma TouchMembers(order: seq<string>, id: string, other: string)
    requires Distinct(order) && |order| <= CAPACITY && (order != [] ==> order[0] != "")
    ensures other in Touch(order, id) <==>
            other == id || (other in order && !(id !in order && |order| == CAPACITY && other == order[0]))
  {
    WithoutMembers(order, id, other);
    if |order| > 0 { assert order == [order[0]] + order[1..]; }
  }

  lemma ListedIsDistinct(history: seq<string>, order: seq<string>)
    requires Listed(history, order)
    ensures Distinct(order) && |order| <= CAPACITY
  {}

  lemma {:induction false} OrderIsListed(history: seq<string>)
    requires "" !in history
    ensures Listed(history, Order(history))
  {
    if history != [] {
      var before := history[..|history| - 1];
      OrderIsListed(before);
      assert "" !in Order(before);
      hide Listed, Touch;
      TouchLists(before, Order(before), history[|history| - 1]);
      assert history == before + [history[|history| - 1]];
    }
  }

  /** After any history a session is retained exactly when at most fifteen distinct other sessions
      were accessed since its last access, and never are more than sixteen retained. */
  lemma RetainedIffRecent(history: seq<string>, id: string)
    requires "" !in history
    ensures id in Order(history) <==> Recent(history, id)
    ensures Distinct(Order(history)) && |Order(history)| <= 16
  {
    OrderIsListed(history);
    var order := Order(history);
    if id in order {
      var k :| 0 <= k < |order| && order[k] == id;
      MembersSize(order[k + 1..]);
    }
  }

  // ---------------------------------------------------------------- the table of flows

  class Flow {
    var events: seq<string>

    constructor ()
      ensures events == []
    {
      events := [];
    }
  }

  /** The k-th access was answered with the flow of the session's previous access when the session was
      then recent, and otherwise with one that no access before had been given. */
  ghost predicate AnsweredWell(history: seq<string>, returned: seq<Flow>, k: nat)
    requires k < |history| == |returned|
  {
    if Recent(history[..k], history[k]) then returned[k] == returned[LastAccess(history[..k], history[k])]
    else returned[k] !in returned[..k]
  }

  lemma AnswersKept(history: seq<string>, returned: seq<Flow>, id: string, flow: Flow)
    requires |history| == |returned| && forall k :: 0 <= k < |history| ==> AnsweredWell(history, returned, k)
    requires if Recent(history, id) then flow == returned[LastAccess(history, id)] else flow !in returned
    ensures forall k :: 0 <= k <= |history| ==> AnsweredWell(history + [id], returned + [flow], k)
  {
    hide Recent;
    forall k | 0 <= k <= |history| ensures AnsweredWell(history + [id], returned + [flow], k) {
      assert (history + [id])[..k] == history[..k];
      assert (returned + [flow])[..k] == returned[..k];
      if k < |history| {
        assert AnsweredWell(history, returned, k);
      } else {
        assert history[..k] == history && returned[..k] == returned;
      }
    }
  }

  lemma LastAccessAfter(history: seq<string>, id: string, other: string)
    requires other in history + [id]
    ensures LastAccess(history + [id], other) == if other == id then |history| else LastAccess(history, other)
  {
    assert (history + [id])[..|history|] == history;
  }

  /** The map of currentFlow after an access. */
  ghost function TableAfter(order: seq<string>, flows: map<string, Flow>, id: string, flow: Flow): map<string, Flow> {
    if id in order then flows
    else (if |order| >= CAPACITY && order[0] != "" then flows - {order[0]} else flows)[id := flow]
  }

  /** The map holds exactly the sessions of the order, each with the flow its last access was given,
      and every access was answered well. */
  ghost predicate Holds(order: seq<string>, flows: map<string, Flow>, history: seq<string>, returned: seq<Flow>) {
    && |returned| == |history| && "" !in history
    && order == Order(history)
    && (forall id :: id in flows <==> id in order)
    && (forall id :: id in flows ==> id in history && flows[id] == returned[LastAccess(history, id)])
    && (forall k :: 0 <= k < |history| ==> AnsweredWell(history, returned, k))
  }

  lemma AccessHolds(order: seq<string>, flows: map<string, Flow>, history: seq<string>, returned: seq<Flow>,
                    id: string, flow: Flow)
    requires Holds(order, flows, history, returned) && id != ""
    requires if id in flows then flow == flows[id] else flow !in returned
    ensures Holds(Touch(order, id), TableAfter(order, flows, id, flow), history + [id], returned + [flow])
  {
    hide Recent, AnsweredWell, LastAccess, Order, Distinct, Touch;
    RetainedIffRecent(history, id);
    if order != [] { assert order[0] in flows && order[0] in history; }
    AnswersKept(history, returned, id, flow);
    OrderAfter(history, id);
    forall other
      ensures other in Touch(order, id) <==>
              other == id || (other in order && !(id !in order && |order| == CAPACITY && other == order[0]))
    {
      TouchMembers(order, id, other);
    }
    forall other | other in history + [id]
      ensures LastAccess(history + [id], other) == if other == id then |history| else LastAccess(history, other)
    {
      LastAccessAfter(history, id, other);
    }
  }

  class Sessions {
    var order: seq<string>
    var flows: map<string, Flow>
    ghost var history: seq<string>
    ghost var returned: seq<Flow>

    ghost predicate Valid()
      reads this
    {
      Holds(order, flows, history, returned)
    }

    constructor ()
      ensures Valid() && history == []
    {
      order, flows, history, returned := [], map[], [], [];
    }

    /** currentFlow */
    method CurrentFlow(text: Option<string>) returns (flow: Flow)
      requires Valid()
      modifies this
      ensures Valid()
      ensures history == old(history) + [SessionId(text)] && returned == old(returned) + [flow]
      ensures |flows| <= CAPACITY
      ensures if Recent(old(history), SessionId(text))
          then flow == old(returned)[LastAccess(old(history), SessionId(text))]
              else fresh(flow) && flow.events == []
    {
      hide Recent, AnsweredWell, LastAccess, Order, Distinct, Without;
      var id := SessionId(text);
      RetainedIffRecent(history, id);
      ghost var before, table := order, flows;
      if id in flows {
        flow := flows[id];
        order := Without(order, id) + [id];
      } else {
        if |order| >= CAPACITY {
          var oldest := order[0];
          if oldest != "" {
            flows := flows - {oldest};
            order := order[1..];
          }
        }
        flow := new Flow();
        flows := flows[id := flow];
        order := order + [id];
      }
      AccessHolds(before, table, history, returned, id, flow);
      history, returned := history + [id], returned + [flow];
      RetainedIffRecent(history, id);
      TableSize(order, flows);
    }
  }

  lemma TableSize(order: seq<string>, flows: map<string, Flow>)
    requires Distinct(order) && forall id :: id in flows <==> id in order
    ensures |flows| == |order|
  {
    MembersSize(order);
    assert flows.Keys == Members(order);
  }

  lemma OrderAfter(history: seq<string>, id: string)
    ensures Order(history + [id]) == Touch(Order(history), id)
  {
    assert (history + [id])[..|history|] == history;
  }
}
