/**
 What the two JSON documents say about an API, as sequences of nodes: the
 capabilities of the instrumentation receipt, found by USR, and the calls of the
 run model, found by name (load_instrumentation and load_model in
 components/conformance/src/main.c).
 */
module ConformanceTraces {
  import opened Wrappers
  import opened FirstMatchLedger
  import opened Conformance

  /** A capability row; each member may be missing. */
  datatype Capability = Capability(library: Option<string>, usr: Option<string>, hasEnv: Option<bool>) {
    predicate Concerns(wanted: string) { library == Some(wanted) }

    /** Rows of other libraries are passed over; the others must name a known API and say whether it takes an env. */
    predicate Reads(wanted: string, usrs: seq<string>) {
      library.Some? && (Concerns(wanted) ==> usr.Some? && usr.value in usrs && hasEnv.Some?)
    }
  }

  /** A node of the run model; each member may be missing. */
  datatype CallNode = CallNode(domain: Option<string>, name: Option<string>, kind: Option<string>,
                               arguments: Option<string>, result: Option<string>)
  {
    predicate IsCall() { domain == Some("call") }

    predicate Reads() { domain.Some? && (IsCall() ==> name.Some? && kind.Some?) }

    predicate Is(wanted: string, wantedKind: string) { IsCall() && name == Some(wanted) && kind == Some(wantedKind) }

    /** What was logged for the call: its arguments on entry, its result on exit. */
    function Logged(wantedKind: string): Option<string> { if wantedKind == ENTER then arguments else result }
  }

  const ENTER := "call-enter"
  const EXIT := "call-exit"

  /** Empty text and a dash stand for nothing logged. */
  predicate Meaningful(value: string) { value != "" && value != "-" }

  predicate AllRead(rows: seq<Capability>, library: string, usrs: seq<string>) {
    forall j :: 0 <= j < |rows| ==> rows[j].Reads(library, usrs)
  }

  predicate AllNodesRead(nodes: seq<CallNode>) { forall j :: 0 <= j < |nodes| ==> nodes[j].Reads() }

  function ApiNames(apis: seq<Api>): (r: seq<string>)
    ensures |r| == |apis| && forall i :: 0 <= i < |r| ==> r[i] == apis[i].name
  {
    seq(|apis|, i requires 0 <= i < |apis| => apis[i].name)
  }

  /** No earlier row has this row's key, so searches end here. */
  predicate IsFirst(keys: seq<string>, i: nat)
    requires i < |keys|
  {
    keys[i] !in keys[..i]
  }

  lemma FirstMeans(keys: seq<string>, i: nat, key: string)
    requires i < |keys|
    ensures i == FirstIndex(keys, key) <==> IsFirst(keys, i) && keys[i] == key
  {
    if IsFirst(keys, i) && keys[i] == key {
      FirstIndexUnique(keys, key, i);
    }
  }

  // ----- the instrumentation receipt -----

  predicate Listed(rows: seq<Capability>, library: string, usr: string) {
    exists j :: 0 <= j < |rows| && rows[j].Concerns(library) && rows[j].usr == Some(usr)
  }

  /** The last row about an API has the say. */
  predicate LastTraced(rows: seq<Capability>, library: string, usr: string) {
    rows != [] &&
    var last := rows[|rows| - 1];
    if last.Concerns(library) && last.usr == Some(usr) then last.hasEnv == Some(true)
    else LastTraced(rows[..|rows| - 1], library, usr)
  }

  function Instrumented(rows: seq<Capability>, library: string, usrs: seq<string>, i: nat): Trace
    requires i < |usrs|
  {
    if !IsFirst(usrs, i) then NO_TRACE
    else NO_TRACE.(seen := Listed(rows, library, usrs[i]), applicable := LastTraced(rows, library, usrs[i]))
  }

  lemma InstrumentedStep(rows: seq<Capability>, n: nat, library: string, usrs: seq<string>, i: nat)
    requires n < |rows| && i < |usrs|
    ensures var before := Instrumented(rows[..n], library, usrs, i);
            var after := Instrumented(rows[..n + 1], library, usrs, i);
            after == if rows[n].Concerns(library) && rows[n].usr.Some? && i == FirstIndex(usrs, rows[n].usr.value)
                     then before.(seen := true, applicable := rows[n].hasEnv == Some(true)) else before
  {
    var now := rows[..n + 1];
    assert now[..n] == rows[..n] && now[n] == rows[n];
    if rows[n].usr.Some? {
      FirstMeans(usrs, i, rows[n].usr.value);
    }
    ListedStep(rows, n, library, usrs[i]);
  }

  lemma ListedStep(rows: seq<Capability>, n: nat, library: string, usr: string)
    requires n < |rows|
    ensures Listed(rows[..n + 1], library, usr) <==>
            Listed(rows[..n], library, usr) || (rows[n].Concerns(library) && rows[n].usr == Some(usr))
  {
    assert forall j :: 0 <= j < n ==> rows[..n + 1][j] == rows[..n][j];
    assert rows[..n + 1][n] == rows[n];
    if Listed(rows[..n], library, usr) {
      var j :| 0 <= j < n && rows[..n][j].Concerns(library) && rows[..n][j].usr == Some(usr);
      assert rows[..n + 1][j].Concerns(library);
    }
  }

  /** Row j is about the API; later ones of that kind override it. */
  ghost predicate IsAbout(row: Capability, library: string, usr: string) {
    row.library == Some(library) && row.usr == Some(usr)
  }

  /** An API is applicable if and only if the last row about it says it takes an environment. */
  lemma {:induction false} LastTracedMeans(rows: seq<Capability>, library: string, usr: string)
    ensures LastTraced(rows, library, usr) <==>
            exists j :: 0 <= j < |rows| && IsAbout(rows[j], library, usr) && rows[j].hasEnv == Some(true)
                        && forall k :: j < k < |rows| ==> !IsAbout(rows[k], library, usr)
  {
    if rows != [] {
      var n := |rows| - 1;
      var before := rows[..n];
      LastTracedMeans(before, library, usr);
      assert forall j :: 0 <= j < n ==> before[j] == rows[j];
      if LastTraced(before, library, usr) && !IsAbout(rows[n], library, usr) {
        var j :| 0 <= j < n && IsAbout(before[j], library, usr) && before[j].hasEnv == Some(true)
                 && forall k :: j < k < n ==> !IsAbout(before[k], library, usr);
        assert IsAbout(rows[j], library, usr);
      }
    }
  }

  // ----- the run model -----

  function Calls(nodes: seq<CallNode>, name: string, kind: string): nat {
    if nodes == [] then 0
    else Calls(nodes[..|nodes| - 1], name, kind) + if nodes[|nodes| - 1].Is(name, kind) then 1 else 0
  }

  /** The last call of the kind that logs anything at all has the say. */
  predicate LastLogged(nodes: seq<CallNode>, name: string, kind: string) {
    nodes != [] &&
    var last := nodes[|nodes| - 1];
    if last.Is(name, kind) && last.Logged(kind).Some? then Meaningful(last.Logged(kind).value)
    else LastLogged(nodes[..|nodes| - 1], name, kind)
  }

  /** The node tells of an entry into the named function, or an exit from it. */
  ghost predicate Enters(node: CallNode, name: string) {
    node.domain == Some("call") && node.name == Some(name) && node.kind == Some("call-enter")
  }

  ghost predicate Exits(node: CallNode, name: string) {
    node.domain == Some("call") && node.name == Some(name) && node.kind == Some("call-exit")
  }

  /** Something is known to be logged: neither nothing nor a dash. */
  ghost predicate Something(logged: Option<string>) { logged.Some? && logged.value != "" && logged.value != "-" }

  ghost function EntriesOf(nodes: seq<CallNode>, name: string): set<nat> {
    set k: nat | k < |nodes| && Enters(nodes[k], name)
  }

  ghost function ExitsOf(nodes: seq<CallNode>, name: string): set<nat> {
    set k: nat | k < |nodes| && Exits(nodes[k], name)
  }

  lemma IsMeans(node: CallNode, name: string)
    ensures node.Is(name, ENTER) <==> Enters(node, name)
    ensures node.Is(name, EXIT) <==> Exits(node, name)
  {
  }

  lemma {:induction false} CallsCount(nodes: seq<CallNode>, name: string)
    ensures Calls(nodes, name, ENTER) == |EntriesOf(nodes, name)| && Calls(nodes, name, EXIT) == |ExitsOf(nodes, name)|
  {
    hide Enters, Exits, EntriesOf, ExitsOf, CallNode.Is;
    if nodes == [] {
      SetsGrow(nodes, name);
    } else {
      var n := |nodes| - 1;
      CallsCount(nodes[..n], name);
      IsMeans(nodes[n], name);
      SetsGrow(nodes, name);
    }
  }

  lemma SetsGrow(nodes: seq<CallNode>, name: string)
    ensures nodes == [] ==> EntriesOf(nodes, name) == ExitsOf(nodes, name) == {}
    ensures nodes != [] ==>
              var n := |nodes| - 1;
              && EntriesOf(nodes, name) == EntriesOf(nodes[..n], name) + (if Enters(nodes[n], name) then {n} else {})
              && ExitsOf(nodes, name) == ExitsOf(nodes[..n], name) + (if Exits(nodes[n], name) then {n} else {})
              && n !in EntriesOf(nodes[..n], name) && n !in ExitsOf(nodes[..n], name)
  {
    hide Enters, Exits;
  }

  /** Arguments count as logged if and only if the last entry that has any logs something. */
  lemma {:induction false} ArgumentsLogged(nodes: seq<CallNode>, name: string)
    ensures LastLogged(nodes, name, ENTER) <==>
            exists k :: 0 <= k < |nodes| && Enters(nodes[k], name) && Something(nodes[k].arguments)
                        && forall m :: k < m < |nodes| ==> !Enters(nodes[m], name) || nodes[m].arguments.None?
  {
    if nodes != [] {
      var n := |nodes| - 1;
      var before := nodes[..n];
      ArgumentsLogged(before, name);
      assert forall k :: 0 <= k < n ==> before[k] == nodes[k];
      if LastLogged(before, name, ENTER) && !(Enters(nodes[n], name) && nodes[n].arguments.Some?) {
        var k :| 0 <= k < n && Enters(before[k], name) && Something(before[k].arguments)
                 && forall m :: k < m < n ==> !Enters(before[m], name) || before[m].arguments.None?;
        assert Enters(nodes[k], name);
      }
    }
  }

  /** And results likewise, at the exits. */
  lemma {:induction false} ResultsLogged(nodes: seq<CallNode>, name: string)
    ensures LastLogged(nodes, name, EXIT) <==>
            exists k :: 0 <= k < |nodes| && Exits(nodes[k], name) && Something(nodes[k].result)
                        && forall m :: k < m < |nodes| ==> !Exits(nodes[m], name) || nodes[m].result.None?
  {
    assert ENTER[6] != EXIT[6];
    if nodes != [] {
      var n := |nodes| - 1;
      var before := nodes[..n];
      ResultsLogged(before, name);
      assert forall k :: 0 <= k < n ==> before[k] == nodes[k];
      if LastLogged(before, name, EXIT) && !(Exits(nodes[n], name) && nodes[n].result.Some?) {
        var k :| 0 <= k < n && Exits(before[k], name) && Something(before[k].result)
                 && forall m :: k < m < n ==> !Exits(before[m], name) || before[m].result.None?;
        assert Exits(nodes[k], name);
      }
    }
  }

  /** A trace with the calls of one name added; a row whose name is taken by an earlier one gets none of them. */
  function WithCalls(trace: Trace, nodes: seq<CallNode>, names: seq<string>, i: nat): Trace
    requires i < |names|
  {
    if !IsFirst(names, i) then trace
    else trace.(enters := Calls(nodes, names[i], ENTER), exits := Calls(nodes, names[i], EXIT),
                arguments := LastLogged(nodes, names[i], ENTER), result := LastLogged(nodes, names[i], EXIT))
  }

  lemma NoCallsYet(trace: Trace, names: seq<string>, i: nat)
    requires i < |names| && trace.enters == trace.exits == 0 && !trace.arguments && !trace.result
    ensures WithCalls(trace, [], names, i) == trace
  {
  }

  /** How one node changes the row its name leads to. */
  function Counted(trace: Trace, node: CallNode): Trace {
    var value := node.Logged(if node.kind == Some(ENTER) then ENTER else EXIT);
    if node.kind == Some(ENTER) then
      trace.(enters := trace.enters + 1, arguments := if value.Some? then Meaningful(value.value) else trace.arguments)
    else if node.kind == Some(EXIT) then
      trace.(exits := trace.exits + 1, result := if value.Some? then Meaningful(value.value) else trace.result)
    else trace
  }

  lemma KindsDiffer()
    ensures ENTER != EXIT
  {
    assert ENTER[6] != EXIT[6];
  }

  lemma WithCallsStep(trace: Trace, nodes: seq<CallNode>, n: nat, names: seq<string>, i: nat)
    requires n < |nodes| && i < |names|
    ensures WithCalls(trace, nodes[..n + 1], names, i) ==
            if nodes[n].IsCall() && nodes[n].name.Some? && i == FirstIndex(names, nodes[n].name.value)
            then Counted(WithCalls(trace, nodes[..n], names, i), nodes[n]) else WithCalls(trace, nodes[..n], names, i)
  {
    hide Calls, LastLogged, IsFirst, CallNode.Logged, Meaningful, ENTER, EXIT;
    NodeStep(nodes, n, names[i], ENTER);
    NodeStep(nodes, n, names[i], EXIT);
    KindsDiffer();
    if nodes[n].name.Some? {
      FirstMeans(names, i, nodes[n].name.value);
    }
  }

  lemma NodeStep(nodes: seq<CallNode>, n: nat, name: string, kind: string)
    requires n < |nodes|
    ensures Calls(nodes[..n + 1], name, kind) ==
            Calls(nodes[..n], name, kind) + if nodes[n].Is(name, kind) then 1 else 0
    ensures LastLogged(nodes[..n + 1], name, kind) <==>
            if nodes[n].Is(name, kind) && nodes[n].Logged(kind).Some? then Meaningful(nodes[n].Logged(kind).value)
            else LastLogged(nodes[..n], name, kind)
  {
    var now := nodes[..n + 1];
    assert now[..n] == nodes[..n] && now[n] == nodes[n];
  }
}
