/**
 * The Tiled event simulator: `replay_run` reads the recorded event files of one run, groups
 * them by event type, sorts every group by sequence number, and sends each event's
 * `callback_data` over the websocket, group after group in a fixed order; `handle_client`
 * picks the run to replay.
 *
 * The directory listing, the decoding of each file and the websocket are parameters: the files
 * in listing order as decoded JSON values (`None` for a file that cannot be read or decoded),
 * and `sendOk(n)`, whether the `n`-th send succeeds.
 */
module EventReplay {
  import opened Wrappers
  import opened Json
  import opened PySort

  /** The order in which the groups are sent. */
  const LogicalOrder: seq<string> :=
    ["on_new_run", "on_streams_namespace", "on_new_stream", "on_node_in_stream", "on_event"]

  /** What lines 120-136 keep of one event file. */
  datatype EventRecord = EventRecord(eventType: Json, sequence: Json, callbackSequence: Json, data: Dict)

  datatype Action = SendJson(payload: Json) | Sleep(millis: nat)

  // ---------------------------------------------------------------------------------------
  // Reading the files
  // ---------------------------------------------------------------------------------------

  /** Lines 120-136 for one decoded file. An "on_event" file whose `callback_data` is not an
      object fails on `.get` with AttributeError, which the `except` clause does not catch. */
  function ParseEvent(d: Dict): Result<EventRecord>
  {
    var eventType := Get(d, "event_name");
    var sequence := GetOr(d, "sequence", JInt(0));
    if eventType == JStr("on_event") && "callback_data" in d then
      match d["callback_data"]
      case JObj(fields) => Ok(EventRecord(eventType, sequence, Get(fields, "sequence"), d))
      case _ => Raised(AttributeError)
    else Ok(EventRecord(eventType, sequence, JNull, d))
  }

  /** A decoded file that is not an object fails on `.get` with AttributeError too. */
  function ParseFile(j: Json): Result<EventRecord>
  {
    if j.JObj? then ParseEvent(j.fields) else Raised(AttributeError)
  }

  /** The loop of lines 113-138: the records of the readable files, in listing order. */
  function CollectEvents(files: seq<Option<Json>>): Result<seq<EventRecord>>
  {
    if |files| == 0 then Ok([])
    else
      var before := CollectEvents(files[..|files| - 1]);
      var last := files[|files| - 1];
      if before.Raised? then before
      else if last.None? then before
      else if ParseFile(last.value).Raised? then Raised(ParseFile(last.value).exc)
      else Ok(before.value + [ParseFile(last.value).value])
  }

  method ReadEvents(files: seq<Option<Json>>) returns (r: Result<seq<EventRecord>>)
    ensures r == CollectEvents(files)
  {
    var events: seq<EventRecord> := [];
    var i := 0;
    while i < |files|
      invariant 0 <= i <= |files|
      invariant CollectEvents(files[..i]) == Ok(events)
    {
      assert files[..i + 1][..i] == files[..i];
      var file := files[i];
      if file.Some? {
        var parsed := ParseFile(file.value);
        if parsed.Raised? {
          r := Raised(parsed.exc);
          PrefixRaises(files, i + 1);
          return;
        }
        events := events + [parsed.value];
      }
      i := i + 1;
    }
    assert files[..i] == files;
    r := Ok(events);
  }

  /** Once reading the first `n` files raises, reading all of them raises the same. */
  lemma {:induction false} PrefixRaises(files: seq<Option<Json>>, n: nat)
    requires n <= |files| && CollectEvents(files[..n]).Raised?
    ensures CollectEvents(files) == CollectEvents(files[..n])
    decreases |files| - n
  {
    if n < |files| {
      assert files[..n + 1][..n] == files[..n];
      PrefixRaises(files, n + 1);
    } else {
      assert files[..n] == files;
    }
  }

  /** The decoded files, in listing order. */
  function Decoded(files: seq<Option<Json>>): seq<Json>
  {
    if |files| == 0 then []
    else Decoded(files[..|files| - 1]) + (if files[|files| - 1].Some? then [files[|files| - 1].value] else [])
  }

  /** Reading fails exactly when a decoded file fails to parse; otherwise there is one record
      per decoded file, in order, holding that file. */
  lemma {:induction false} CollectEventsSpec(files: seq<Option<Json>>)
    ensures CollectEvents(files).Raised? <==>
      exists i :: 0 <= i < |files| && files[i].Some? && ParseFile(files[i].value).Raised?
    ensures CollectEvents(files).Ok? ==>
      var es := CollectEvents(files).value;
      && |es| == |Decoded(files)|
      && forall k :: 0 <= k < |es| ==> Decoded(files)[k] == JObj(es[k].data) && ParseFile(Decoded(files)[k]) == Ok(es[k])
  {
    if |files| > 0 {
      var init := files[..|files| - 1];
      CollectEventsSpec(init);
      assert forall i :: 0 <= i < |init| ==> init[i] == files[i];
      if CollectEvents(init).Raised? {
        var i :| 0 <= i < |init| && init[i].Some? && ParseFile(init[i].value).Raised?;
        assert files[i] == init[i];
      }
    }
  }

  // ---------------------------------------------------------------------------------------
  // Grouping (lines 141-152)
  // ---------------------------------------------------------------------------------------

  /** `x in dict` hashes `x`: a list or an object raises TypeError. */
  predicate Hashable(j: Json)
  {
    !j.JList? && !j.JObj?
  }

  /** The records of type `t`, in order. */
  function OfType(es: seq<EventRecord>, t: string): seq<EventRecord>
  {
    if |es| == 0 then []
    else OfType(es[..|es| - 1], t) + (if es[|es| - 1].eventType == JStr(t) then [es[|es| - 1]] else [])
  }

  /** Where `t` stands in `LogicalOrder`, the order of the keys of `events_by_type`. */
  function TypeIndex(t: string): (k: Option<nat>)
    ensures k.Some? ==> k.value < |LogicalOrder| && LogicalOrder[k.value] == t
    ensures k.None? <==> t !in LogicalOrder
  {
    if t == "on_new_run" then Some(0)
    else if t == "on_streams_namespace" then Some(1)
    else if t == "on_new_stream" then Some(2)
    else if t == "on_node_in_stream" then Some(3)
    else if t == "on_event" then Some(4)
    else None
  }

  /** `events_by_type` after the grouping loop: one group per listed type, in `LogicalOrder`. */
  function Groups(es: seq<EventRecord>): (g: seq<seq<EventRecord>>)
    ensures |g| == |LogicalOrder|
  {
    seq(|LogicalOrder|, k requires 0 <= k < |LogicalOrder| => OfType(es, LogicalOrder[k]))
  }

  lemma GroupsSnoc(es: seq<EventRecord>, e: EventRecord)
    ensures Groups(es + [e]) ==
      if e.eventType.JStr? && TypeIndex(e.eventType.s).Some?
      then Groups(es)[TypeIndex(e.eventType.s).value := Groups(es)[TypeIndex(e.eventType.s).value] + [e]]
      else Groups(es)
  {
    var e1 := es + [e];
    assert e1[..|es|] == es;
    var g, g1 := Groups(es), Groups(e1);
    if e.eventType.JStr? && TypeIndex(e.eventType.s).Some? {
      var ti := TypeIndex(e.eventType.s).value;
      forall k | 0 <= k < |LogicalOrder|
        ensures g1[k] == g[ti := g[ti] + [e]][k]
      {
        assert g1[k] == OfType(es, LogicalOrder[k]) + (if e.eventType == JStr(LogicalOrder[k]) then [e] else []);
      }
    } else {
      forall k | 0 <= k < |LogicalOrder|
        ensures g1[k] == g[k]
      {
        assert g1[k] == OfType(es, LogicalOrder[k]) + (if e.eventType == JStr(LogicalOrder[k]) then [e] else []);
      }
    }
  }

  /** The grouping loop: records of a listed type are appended to their group, the others are
      skipped; an unhashable event name raises. */
  method GroupByType(events: seq<EventRecord>) returns (r: Result<seq<seq<EventRecord>>>)
    ensures r == if forall i :: 0 <= i < |events| ==> Hashable(events[i].eventType)
      then Ok(Groups(events)) else Raised(TypeError)
  {
    var groups: seq<seq<EventRecord>> := [[], [], [], [], []];
    assert groups == Groups([]);
    var i := 0;
    while i < |events|
      invariant 0 <= i <= |events|
      invariant forall k :: 0 <= k < i ==> Hashable(events[k].eventType)
      invariant groups == Groups(events[..i])
    {
      var e := events[i];
      assert events[..i + 1] == events[..i] + [e];
      if !Hashable(e.eventType) {
        return Raised(TypeError);
      }
      if e.eventType.JStr? {
        var k := TypeIndex(e.eventType.s);
        if k.Some? {
          groups := groups[k.value := groups[k.value] + [e]];
        }
      }
      GroupsSnoc(events[..i], e);
      i := i + 1;
    }
    assert events[..i] == events;
    r := Ok(groups);
  }

  // ---------------------------------------------------------------------------------------
  // Sorting (lines 155-160)
  // ---------------------------------------------------------------------------------------

  /** The value a group is sorted by: for "on_event" the callback sequence unless it is None,
      then the sequence; for the other types the sequence. */
  function KeyJson(e: EventRecord, t: string): Json
  {
    if t == "on_event" && e.callbackSequence != JNull then e.callbackSequence else e.sequence
  }

  /** A sort key Python compares as an integer (a bool is an int). */
  function IntKey(j: Json): Option<int>
  {
    match j
    case JInt(i) => Some(i)
    case JBool(b) => Some(if b then 1 else 0)
    case _ => None
  }

  function KeyFn(t: string): EventRecord -> int
  {
    e => IntKey(KeyJson(e, t)).GetOr(0)
  }

  /** Sorting a group compares its keys only when it has two or more records. */
  predicate Sortable(g: seq<EventRecord>, t: string)
  {
    |g| < 2 || forall k :: 0 <= k < |g| ==> IntKey(KeyJson(g[k], t)).Some?
  }

  /** Every group sorted by its key; TypeError when some group cannot be compared. */
  function SortedGroups(groups: seq<seq<EventRecord>>): Result<seq<seq<EventRecord>>>
    requires |groups| == |LogicalOrder|
  {
    if exists k :: 0 <= k < |groups| && !Sortable(groups[k], LogicalOrder[k]) then Raised(TypeError)
    else Ok(seq(|groups|, k requires 0 <= k < |groups| => SortBy(groups[k], KeyFn(LogicalOrder[k]))))
  }

  method SortGroups(groups: seq<seq<EventRecord>>) returns (r: Result<seq<seq<EventRecord>>>)
    requires |groups| == |LogicalOrder|
    ensures r == SortedGroups(groups)
  {
    var sorted := groups;
    var k := 0;
    while k < |groups|
      invariant 0 <= k <= |groups| == |sorted|
      invariant forall j :: 0 <= j < k ==> Sortable(groups[j], LogicalOrder[j])
      invariant forall j :: 0 <= j < k ==> sorted[j] == SortBy(groups[j], KeyFn(LogicalOrder[j]))
      invariant forall j :: k <= j < |groups| ==> sorted[j] == groups[j]
    {
      if !Sortable(sorted[k], LogicalOrder[k]) {
        return Raised(TypeError);
      }
      sorted := sorted[k := SortBy(sorted[k], KeyFn(LogicalOrder[k]))];
      k := k + 1;
    }
    assert SortedGroups(groups).value == sorted;
    r := Ok(sorted);
  }

  // ---------------------------------------------------------------------------------------
  // Sending (lines 178-202)
  // ---------------------------------------------------------------------------------------

  /** The first `m` groups, one after the other. */
  function Flatten(groups: seq<seq<EventRecord>>, m: nat): seq<EventRecord>
    requires m <= |groups|
  {
    if m == 0 then [] else Flatten(groups, m - 1) + groups[m - 1]
  }

  /** What is sent for a record: its `callback_data`, `{}` when it has none. */
  function Payload(e: EventRecord): Json
  {
    GetOr(e.data, "callback_data", JObj(map[]))
  }

  /** The sends of the first `m` records, each followed by the 0.5 s sleep. */
  function Emitted(es: seq<EventRecord>, m: nat): seq<Action>
    requires m <= |es|
  {
    if m == 0 then [] else Emitted(es, m - 1) + [SendJson(Payload(es[m - 1])), Sleep(500)]
  }

  /** The number of the first send at or after `k` that fails, or `n` when none before `n` does. */
  function FirstFailure(n: nat, sendOk: nat -> bool, k: nat): (r: nat)
    requires k <= n
    ensures k <= r <= n
    ensures forall j :: k <= j < r ==> sendOk(j)
    ensures r < n ==> !sendOk(r)
    decreases n - k
  {
    if k == n then n else if !sendOk(k) then k else FirstFailure(n, sendOk, k + 1)
  }

  lemma FirstFailureIs(n: nat, sendOk: nat -> bool, s: nat)
    requires s <= n && forall j :: 0 <= j < s ==> sendOk(j)
    requires s < n ==> !sendOk(s)
    ensures FirstFailure(n, sendOk, 0) == s
  {
  }

  lemma {:induction false} FlattenGrows(groups: seq<seq<EventRecord>>, m: nat, n: nat)
    requires m <= n <= |groups|
    ensures |Flatten(groups, m)| <= |Flatten(groups, n)|
    ensures Flatten(groups, n)[..|Flatten(groups, m)|] == Flatten(groups, m)
    decreases n
  {
    if m < n {
      FlattenGrows(groups, m, n - 1);
      var a, b := Flatten(groups, m), Flatten(groups, n - 1);
      assert Flatten(groups, n) == b + groups[n - 1];
      assert (b + groups[n - 1])[..|a|] == b[..|a|];
    }
  }

  /** The nested sending loop: groups in `LogicalOrder`, records in group order; the first send
      that fails ends the replay. */
  method SendInOrder(groups: seq<seq<EventRecord>>, sendOk: nat -> bool) returns (out: seq<Action>)
    ensures var all := Flatten(groups, |groups|);
      out == Emitted(all, FirstFailure(|all|, sendOk, 0))
  {
    ghost var all := Flatten(groups, |groups|);
    out := [];
    var sent := 0;
    var ti := 0;
    while ti < |groups|
      invariant 0 <= ti <= |groups|
      invariant sent == |Flatten(groups, ti)| <= |all|
      invariant forall k :: 0 <= k < sent ==> sendOk(k)
      invariant out == Emitted(all, sent)
    {
      var group := groups[ti];
      FlattenGrows(groups, ti + 1, |groups|);
      assert all[sent..sent + |group|] == group by {
        assert all[..sent + |group|] == Flatten(groups, ti) + group;
      }
      var failed;
      out, failed := SendGroup(all, sent, group, sendOk, out);
      if failed {
        return;
      }
      sent := sent + |group|;
      ti := ti + 1;
    }
    FirstFailureIs(|all|, sendOk, sent);
  }

  /** The inner sending loop over one group, whose records are `all[start..]`: either every
      send succeeds, or the first that fails ends the replay. */
  method SendGroup(ghost all: seq<EventRecord>, start: nat, group: seq<EventRecord>, sendOk: nat -> bool,
                   out0: seq<Action>) returns (out: seq<Action>, failed: bool)
    requires start + |group| <= |all| && all[start..start + |group|] == group
    requires forall k :: 0 <= k < start ==> sendOk(k)
    requires out0 == Emitted(all, start)
    ensures !failed ==> out == Emitted(all, start + |group|) && forall k :: 0 <= k < start + |group| ==> sendOk(k)
    ensures failed ==> out == Emitted(all, FirstFailure(|all|, sendOk, 0))
  {
    out := out0;
    var j := 0;
    while j < |group|
      invariant 0 <= j <= |group|
      invariant forall k :: 0 <= k < start + j ==> sendOk(k)
      invariant out == Emitted(all, start + j)
    {
      assert all[start + j] == all[start..start + |group|][j];
      if !sendOk(start + j) {
        FirstFailureIs(|all|, sendOk, start + j);
        return out, true;
      }
      out := out + [SendJson(Payload(group[j])), Sleep(500)];
      j := j + 1;
    }
    return out, false;
  }

  // ---------------------------------------------------------------------------------------
  // replay_run
  // ---------------------------------------------------------------------------------------

  /** The records in the order they are offered to the websocket. */
  function Ordered(events: seq<EventRecord>): Result<seq<EventRecord>>
  {
    var sorted := SortedGroups(Groups(events));
    if sorted.Raised? then Raised(sorted.exc) else Ok(Flatten(sorted.value, |sorted.value|))
  }

  /** `replay_run(websocket, run_id)`: nothing for a missing directory or one without event
      files; otherwise the sends of the ordered records up to the first failing send, or the
      exception reading, grouping or sorting raised. */
  function Replay(dirExists: bool, files: seq<Option<Json>>, sendOk: nat -> bool): Result<seq<Action>>
  {
    if !dirExists || |files| == 0 then Ok([])
    else
      var events := CollectEvents(files);
      if events.Raised? then Raised(events.exc)
      else if exists i :: 0 <= i < |events.value| && !Hashable(events.value[i].eventType) then Raised(TypeError)
      else
        var ordered := Ordered(events.value);
        if ordered.Raised? then Raised(ordered.exc)
        else Ok(Emitted(ordered.value, FirstFailure(|ordered.value|, sendOk, 0)))
  }

  /** Where a record's type stands in `LogicalOrder`; -1 for a type no group collects. */
  function Rank(e: EventRecord): int
  {
    if e.eventType.JStr? && TypeIndex(e.eventType.s).Some? then TypeIndex(e.eventType.s).value else -1
  }

  predicate AllOfType(g: seq<EventRecord>, t: string)
  {
    forall k :: 0 <= k < |g| ==> g[k].eventType == JStr(t)
  }

  /** `OfType` keeps exactly the records of type `t`, each as often as it occurs. */
  lemma {:induction false} OfTypeSpec(es: seq<EventRecord>, t: string)
    ensures AllOfType(OfType(es, t), t)
    ensures forall x :: multiset(OfType(es, t))[x] == if x.eventType == JStr(t) then multiset(es)[x] else 0
  {
    if |es| > 0 {
      var init := es[..|es| - 1];
      OfTypeSpec(init, t);
      assert es == init + [es[|es| - 1]];
    }
  }

  lemma {:induction false} OfTypeConcat(a: seq<EventRecord>, b: seq<EventRecord>, t: string)
    ensures OfType(a + b, t) == OfType(a, t) + OfType(b, t)
    decreases |b|
  {
    if |b| == 0 {
      assert a + b == a;
    } else {
      var init := b[..|b| - 1];
      assert (a + b)[..|a + b| - 1] == a + init;
      OfTypeConcat(a, init, t);
    }
  }

  lemma {:induction false} OfTypeOfGroup(g: seq<EventRecord>, u: string, t: string)
    requires AllOfType(g, u)
    ensures OfType(g, t) == if u == t then g else []
  {
    if |g| > 0 {
      var init := g[..|g| - 1];
      OfTypeOfGroup(init, u, t);
      assert g == init + [g[|g| - 1]];
    }
  }

  /** Groups each of whose records has its group's type. */
  predicate Typed(gs: seq<seq<EventRecord>>)
  {
    |gs| == |LogicalOrder| && forall k :: 0 <= k < |gs| ==> AllOfType(gs[k], LogicalOrder[k])
  }

  lemma {:induction false} FlattenOfType(gs: seq<seq<EventRecord>>, m: nat, k: nat)
    requires Typed(gs) && m <= |gs| && k < |gs|
    ensures OfType(Flatten(gs, m), LogicalOrder[k]) == if k < m then gs[k] else []
  {
    if m > 0 {
      var t, u := LogicalOrder[k], LogicalOrder[m - 1];
      var before := Flatten(gs, m - 1);
      FlattenOfType(gs, m - 1, k);
      assert AllOfType(gs[m - 1], u);
      OfTypeConcat(before, gs[m - 1], t);
      OfTypeOfGroup(gs[m - 1], u, t);
      OrderDistinct(m - 1, k);
      if k < m - 1 {
        assert OfType(Flatten(gs, m), t) == gs[k] + [];
      } else if k == m - 1 {
        assert OfType(Flatten(gs, m), t) == [] + gs[k];
      } else {
        assert OfType(Flatten(gs, m), t) == [] + [];
      }
    }
  }

  /** Two positions of `LogicalOrder` hold the same type only when they are the same. */
  lemma OrderDistinct(i: nat, j: nat)
    requires i < |LogicalOrder| && j < |LogicalOrder|
    ensures LogicalOrder[i] == LogicalOrder[j] <==> i == j
  {
    TypeIndexOfOrder(i);
    TypeIndexOfOrder(j);
  }

  /** The listed types are distinct: each one's index is its position. */
  lemma TypeIndexOfOrder(k: nat)
    requires k < |LogicalOrder|
    ensures TypeIndex(LogicalOrder[k]) == Some(k)
  {
  }

  lemma {:induction false} FlattenRanks(gs: seq<seq<EventRecord>>, m: nat)
    requires Typed(gs) && m <= |gs|
    ensures forall i :: 0 <= i < |Flatten(gs, m)| ==> 0 <= Rank(Flatten(gs, m)[i]) < m
    ensures forall i, j :: 0 <= i < j < |Flatten(gs, m)| ==> Rank(Flatten(gs, m)[i]) <= Rank(Flatten(gs, m)[j])
  {
    if m > 0 {
      FlattenRanks(gs, m - 1);
      var a, g := Flatten(gs, m - 1), gs[m - 1];
      assert forall i :: 0 <= i < |g| ==> Rank(g[i]) == m - 1;
      var f := a + g;
      forall i | 0 <= i < |f|
        ensures 0 <= Rank(f[i]) < m
      {
        if i >= |a| {
          assert f[i] == g[i - |a|];
        }
      }
      forall i, j | 0 <= i < j < |f|
        ensures Rank(f[i]) <= Rank(f[j])
      {
        if j >= |a| {
          assert f[j] == g[j - |a|];
        }
      }
    }
  }

  /** Every sorted group is a permutation of the records of its type: it is typed. */
  lemma SortedGroupsTyped(events: seq<EventRecord>)
    requires SortedGroups(Groups(events)).Ok?
    ensures Typed(SortedGroups(Groups(events)).value)
    ensures forall k :: 0 <= k < |LogicalOrder| ==>
      SortedGroups(Groups(events)).value[k] == SortBy(OfType(events, LogicalOrder[k]), KeyFn(LogicalOrder[k]))
  {
    var sg := SortedGroups(Groups(events)).value;
    forall k | 0 <= k < |LogicalOrder|
      ensures AllOfType(sg[k], LogicalOrder[k])
    {
      var t := LogicalOrder[k];
      var g := OfType(events, t);
      SortBySpec(g, KeyFn(t));
      OfTypeSpec(events, t);
      forall i | 0 <= i < |sg[k]|
        ensures sg[k][i].eventType == JStr(t)
      {
        assert sg[k][i] in multiset(g);
      }
    }
  }

  /** The sending order of `replay_run` is by type, in `LogicalOrder`: no record of an
      unlisted type is sent. */
  lemma OrderedByType(events: seq<EventRecord>)
    requires Ordered(events).Ok?
    ensures var l := Ordered(events).value;
      && (forall i :: 0 <= i < |l| ==> 0 <= Rank(l[i]))
      && (forall i, j :: 0 <= i < j < |l| ==> Rank(l[i]) <= Rank(l[j]))
  {
    var sg := SortedGroups(Groups(events)).value;
    SortedGroupsTyped(events);
    FlattenRanks(sg, |sg|);
  }

  /** Every record of a listed type is sent exactly as often as it was read. */
  lemma OrderedKeepsEvents(events: seq<EventRecord>)
    requires Ordered(events).Ok?
    ensures var l := Ordered(events).value;
      forall x :: multiset(l)[x] == if Rank(x) >= 0 then multiset(events)[x] else 0
  {
    var l := Ordered(events).value;
    OrderedByType(events);
    forall x
      ensures multiset(l)[x] == if Rank(x) >= 0 then multiset(events)[x] else 0
    {
      if Rank(x) >= 0 {
        var t := LogicalOrder[Rank(x)];
        OrderedWithinType(events, Rank(x));
        OfTypeSpec(l, t);
        OfTypeSpec(events, t);
      }
    }
  }

  /** Within a type, the records sent are that type's records sorted by their key: ordered,
      a permutation, and stable (records with equal keys keep their reading order). */
  lemma OrderedWithinType(events: seq<EventRecord>, k: nat)
    requires Ordered(events).Ok? && k < |LogicalOrder|
    ensures var l, t := Ordered(events).value, LogicalOrder[k];
      && OfType(l, t) == SortBy(OfType(events, t), KeyFn(t))
      && SortedBy(OfType(l, t), KeyFn(t))
      && multiset(OfType(l, t)) == multiset(OfType(events, t))
      && forall c :: WithKey(OfType(l, t), KeyFn(t), c) == WithKey(OfType(events, t), KeyFn(t), c)
  {
    var sg := SortedGroups(Groups(events)).value;
    SortedGroupsTyped(events);
    FlattenOfType(sg, |sg|, k);
    SortBySpec(OfType(events, LogicalOrder[k]), KeyFn(LogicalOrder[k]));
  }

  /** The `m` sends of `Emitted`: the payload of the `k`-th record, then the half-second sleep. */
  lemma {:induction false} EmittedSpec(es: seq<EventRecord>, m: nat)
    requires m <= |es|
    ensures |Emitted(es, m)| == 2 * m
    ensures forall k :: 0 <= k < m ==>
      Emitted(es, m)[2 * k] == SendJson(Payload(es[k])) && Emitted(es, m)[2 * k + 1] == Sleep(500)
  {
    if m > 0 {
      EmittedSpec(es, m - 1);
    }
  }

  method ReplayRun(dirExists: bool, files: seq<Option<Json>>, sendOk: nat -> bool) returns (r: Result<seq<Action>>)
    ensures r == Replay(dirExists, files, sendOk)
  {
    if !dirExists || |files| == 0 {
      return Ok([]);
    }
    var events := ReadEvents(files);
    if events.Raised? {
      return Raised(events.exc);
    }
    var groups := GroupByType(events.value);
    if groups.Raised? {
      return Raised(groups.exc);
    }
    var sorted := SortGroups(groups.value);
    if sorted.Raised? {
      return Raised(sorted.exc);
    }
    var out := SendInOrder(sorted.value, sendOk);
    r := Ok(out);
  }

  /** What a replay that does not raise sends: the ordered records' payloads, one by one, each
      followed by the half-second sleep, up to and excluding the first send that fails
      (`FirstFailure`), which ends the replay. */
  lemma ReplaySends(dirExists: bool, files: seq<Option<Json>>, sendOk: nat -> bool)
    requires dirExists && |files| > 0 && Replay(dirExists, files, sendOk).Ok?
    ensures CollectEvents(files).Ok? && Ordered(CollectEvents(files).value).Ok?
    ensures var l := Ordered(CollectEvents(files).value).value;
      var acts := Replay(dirExists, files, sendOk).value;
      var n := FirstFailure(|l|, sendOk, 0);
      && |acts| == 2 * n
      && forall k :: 0 <= k < n ==> acts[2 * k] == SendJson(Payload(l[k])) && acts[2 * k + 1] == Sleep(500)
  {
    ReplayIsEmitted(dirExists, files, sendOk);
    var l := Ordered(CollectEvents(files).value).value;
    EmittedSpec(l, FirstFailure(|l|, sendOk, 0));
  }

  lemma ReplayIsEmitted(dirExists: bool, files: seq<Option<Json>>, sendOk: nat -> bool)
    requires dirExists && |files| > 0 && Replay(dirExists, files, sendOk).Ok?
    ensures CollectEvents(files).Ok? && Ordered(CollectEvents(files).value).Ok?
    ensures var l := Ordered(CollectEvents(files).value).value;
      Replay(dirExists, files, sendOk) == Ok(Emitted(l, FirstFailure(|l|, sendOk, 0)))
  {
  }

  // ---------------------------------------------------------------------------------------
  // handle_client and list_available_runs
  // ---------------------------------------------------------------------------------------

  /** An entry of the log directory: its name, whether it is a directory, and how many `*.json`
      files it holds. */
  datatype LogEntry = LogEntry(name: string, isDir: bool, jsonFiles: nat)

  /** What `replay_run` finds for a run: whether its directory exists, and its event files. */
  datatype RunFiles = RunFiles(dirExists: bool, files: seq<Option<Json>>)

  /** `list_available_runs`: the directories holding at least one JSON file, in listing order. */
  function AvailableRuns(entries: seq<LogEntry>): (runs: seq<string>)
    ensures forall x :: x in runs <==> exists e :: e in entries && e.name == x && e.isDir && e.jsonFiles > 0
    ensures |runs| == 0 <==> forall e :: e in entries ==> !e.isDir || e.jsonFiles == 0
  {
    if |entries| == 0 then []
    else
      var e := entries[0];
      assert entries == [e] + entries[1..];
      (if e.isDir && e.jsonFiles > 0 then [e.name] else []) + AvailableRuns(entries[1..])
  }

  /** The run replayed: the configured run when it is available, else the first one. */
  function SelectRun(runs: seq<string>, specified: Option<string>): (r: string)
    requires |runs| > 0
    ensures r in runs
    ensures specified.Some? && specified.value in runs ==> r == specified.value
    ensures (specified.None? || specified.value !in runs) ==> r == runs[0]
  {
    if specified.Some? && specified.value in runs then specified.value else runs[0]
  }

  /** The message sent when there is nothing to replay. */
  const NoRunsError: Json :=
    JObj(map["type" := JStr("error"), "message" := JStr("No run directories found")])

  /** `handle_client(websocket, path)`: nothing on a path other than the stream path; the
      error message when no run is available; otherwise the replay of the selected run. */
  function HandleClient(path: string, streamPath: string, entries: seq<LogEntry>, specified: Option<string>,
                        runFiles: string -> RunFiles, sendOk: nat -> bool): Result<seq<Action>>
  {
    if path != streamPath then Ok([])
    else
      var runs := AvailableRuns(entries);
      if |runs| == 0 then Ok([SendJson(NoRunsError)])
      else
        var run := runFiles(SelectRun(runs, specified));
        Replay(run.dirExists, run.files, sendOk)
  }

  /** A client on the stream path gets either the error message, when no directory of the log
      holds a JSON file, or the replay of such a directory, the configured one when it is one. */
  lemma HandleClientSpec(path: string, streamPath: string, entries: seq<LogEntry>, specified: Option<string>,
                         runFiles: string -> RunFiles, sendOk: nat -> bool)
    ensures path != streamPath ==> HandleClient(path, streamPath, entries, specified, runFiles, sendOk) == Ok([])
    ensures path == streamPath && (forall e :: e in entries ==> !e.isDir || e.jsonFiles == 0) ==>
      HandleClient(path, streamPath, entries, specified, runFiles, sendOk) == Ok([SendJson(NoRunsError)])
    ensures path == streamPath && (exists e :: e in entries && e.isDir && e.jsonFiles > 0) ==>
      exists e :: e in entries && e.isDir && e.jsonFiles > 0
        && (specified.Some? && specified.value in AvailableRuns(entries) ==> e.name == specified.value)
        && HandleClient(path, streamPath, entries, specified, runFiles, sendOk)
           == Replay(runFiles(e.name).dirExists, runFiles(e.name).files, sendOk)
  {
    var runs := AvailableRuns(entries);
    if path == streamPath {
      if |runs| > 0 {
        var name := SelectRun(runs, specified);
        var e :| e in entries && e.name == name && e.isDir && e.jsonFiles > 0;
      }
    }
  }
}
