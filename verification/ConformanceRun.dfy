/** The ledger from first manifest to receipt, and what a passing receipt is worth. */
module ConformanceRun {
  import opened Wrappers
  import opened Text
  import opened Fields
  import opened FirstMatchLedger
  import opened Conformance
  import opened ConformanceTraces
  import opened FaultManifest
  import opened ConformanceEngine

  /** Every input of one run; a JSON document without usable rows is None. */
  datatype Input = Input(
    apis: seq<Line>, tests: seq<Line>, contracts: seq<Line>, faults: seq<Line>, outcomes: seq<Line>,
    platform: string, macros: seq<Line>,
    library: string, instrumentation: Option<seq<Capability>>, model: Option<seq<CallNode>>)
  {
    predicate ApisFit() { ApiManifestFits(Rows(apis)) }

    function FreshApis(): (r: seq<Api>)
      requires ApisFit()
      ensures |r| == |Rows(apis)| && forall i :: 0 <= i < |r| ==> r[i] == FreshApi(Rows(apis)[i])
    {
      seq(|Rows(apis)|, i requires 0 <= i < |Rows(apis)| => FreshApi(Rows(apis)[i]))
    }

    function ApiUsrs(): seq<string>
      requires ApisFit()
    {
      Usrs(FreshApis())
    }

    predicate ManifestsTick() {
      ApisFit() && Ticks(ApiUsrs(), Rows(tests), TEST_FIELDS) && Ticks(ApiUsrs(), Rows(contracts), CONTRACT_FIELDS)
    }

    /** The API table once all manifests are in. */
    function Manifested(): (r: seq<Api>)
      requires ManifestsTick()
      ensures |r| == |FreshApis()|
      ensures forall i :: 0 <= i < |r| ==>
                r[i] == AfterContracts(AfterTests(FreshApis()[i], ApiUsrs(), Rows(tests), i),
                                       ApiUsrs(), Rows(contracts), i)
    {
      seq(|FreshApis()|, i requires 0 <= i < |FreshApis()| =>
        AfterContracts(AfterTests(FreshApis()[i], ApiUsrs(), Rows(tests), i), ApiUsrs(), Rows(contracts), i))
    }

    predicate DocumentsRead()
      requires ApisFit()
    {
      && instrumentation.Some? && AllRead(instrumentation.value, library, ApiUsrs())
      && model.Some? && AllNodesRead(model.value)
    }

    /** What the documents say about API i. */
    function TraceAt(i: nat): Trace
      requires ApisFit() && DocumentsRead() && i < |FreshApis()|
    {
      WithCalls(Instrumented(instrumentation.value, library, ApiUsrs(), i), model.value, ApiNames(FreshApis()), i)
    }

    /** The API table with the traces. */
    function Table(): (r: seq<Api>)
      requires ManifestsTick() && DocumentsRead()
      ensures |r| == |FreshApis()| && forall i :: 0 <= i < |r| ==> r[i] == Manifested()[i].(trace := TraceAt(i))
    {
      seq(|FreshApis()|, i requires 0 <= i < |FreshApis()| => Manifested()[i].(trace := TraceAt(i)))
    }

    predicate FaultsFit()
      requires ManifestsTick()
    {
      FaultManifestFits(Rows(faults), Manifested(), PlatformColumns(platform), macros)
    }

    predicate Loads() { ManifestsTick() && FaultsFit() && DocumentsRead() && OutcomeLines(outcomes) }

    function Expected(): seq<Fault>
      requires ManifestsTick() && FaultsFit()
    {
      Keys(ManifestFaults(Rows(faults), Manifested(), PlatformColumns(platform), macros))
    }

    function Findings(): nat
      requires Loads()
    {
      ApiFindings(Table()) + FaultFindings(Expected(), outcomes)
    }
  }

  /** What an API's runtime trace must show. */
  predicate TraceSatisfies(t: Trace, faultTest: bool, requireArguments: bool, requireResult: bool) {
    && t.seen
    && (t.applicable ==> t.enters > 0 && t.enters == t.exits)
    && (faultTest ==> t.enters > 0)
    && (requireArguments ==> t.arguments)
    && (requireResult ==> t.result)
  }

  /** Conformance in terms of the inputs alone. */
  ghost predicate Conforms(input: Input) {
    input.Loads() &&
    var usrs, tests, contracts := input.ApiUsrs(), Rows(input.tests), Rows(input.contracts);
    // API identities: one list, three times, without repeats.
    && Distinct(usrs)
    && multiset(Column(tests, TEST_FIELDS, 1)) == multiset(usrs)
    && multiset(Column(contracts, CONTRACT_FIELDS, 1)) == multiset(usrs)
    // Runtime traces meet what the manifests ask for.
    && (forall i :: 0 <= i < |usrs| ==>
          TraceSatisfies(input.TraceAt(i), Says(tests, TEST_FIELDS, usrs[i], 2, "fault"),
                         Says(contracts, CONTRACT_FIELDS, usrs[i], 2, "true"),
                         Says(contracts, CONTRACT_FIELDS, usrs[i], 3, "true")))
    // Fault outcomes: exactly the expected ones, once each, all passing.
    && Distinct(input.Expected())
    && multiset(FaultsOf(input.outcomes)) == multiset(input.Expected())
    && AllPass(input.outcomes)
  }

  lemma ApiFindingsMean(input: Input, i: nat)
    requires input.Loads() && i < |input.Table()|
    ensures ApiFindingsOf(input.Table()[i]) == 0 <==>
            && Ticked(input.ApiUsrs(), Rows(input.tests), TEST_FIELDS, i)
            && Ticked(input.ApiUsrs(), Rows(input.contracts), CONTRACT_FIELDS, i)
            && TraceSatisfies(input.TraceAt(i), Says(Rows(input.tests), TEST_FIELDS, input.ApiUsrs()[i], 2, "fault"),
                              Says(Rows(input.contracts), CONTRACT_FIELDS, input.ApiUsrs()[i], 2, "true"),
                              Says(Rows(input.contracts), CONTRACT_FIELDS, input.ApiUsrs()[i], 3, "true"))
  {
    hide Says, Ticked;
    var a := input.Table()[i];
    assert a.trace == input.TraceAt(i);
  }

  /** A run without findings is exactly a conforming one. */
  lemma NoFindingsMeansConforming(input: Input)
    requires input.Loads()
    ensures input.Findings() == 0 <==> Conforms(input)
  {
    hide Says, Ticked, TraceSatisfies, FaultFindings;
    var usrs, tests, contracts, table := input.ApiUsrs(), Rows(input.tests), Rows(input.contracts), input.Table();
    NoFaultFindings(input.Expected(), input.outcomes);
    IdentitiesAgree(usrs, tests, contracts);
    forall i | 0 <= i < |table|
      ensures ApiFindingsOf(table[i]) == 0 <==>
              && Ticked(usrs, tests, TEST_FIELDS, i) && Ticked(usrs, contracts, CONTRACT_FIELDS, i)
              && TraceSatisfies(input.TraceAt(i), Says(tests, TEST_FIELDS, usrs[i], 2, "fault"),
                                Says(contracts, CONTRACT_FIELDS, usrs[i], 2, "true"),
                                Says(contracts, CONTRACT_FIELDS, usrs[i], 3, "true"))
    {
      ApiFindingsMean(input, i);
    }
  }

  /** The receipt's two fault numbers are exchanged; they read right exactly when every expected fault was observed. */
  lemma FaultNumbersAgree(input: Input)
    requires input.Loads()
    ensures MarkedCount(input.Expected(), FaultsOf(input.outcomes)) == |input.Expected()| <==>
            forall i :: 0 <= i < |input.Expected()| ==> Marked(input.Expected(), FaultsOf(input.outcomes), i)
    ensures input.Findings() == 0 ==> MarkedCount(input.Expected(), FaultsOf(input.outcomes)) == |input.Expected()|
  {
    AllMarkedCount(input.Expected(), FaultsOf(input.outcomes));
  }

  method Run(input: Input) returns (loaded: bool, receipt: Receipt)
    ensures loaded <==> input.Loads()
    ensures loaded ==>
              && receipt.findings == input.Findings()
              && receipt.apis == |Rows(input.apis)|
              && receipt.traceApplicable == Traced(input.Table(), 0) && receipt.invoked == Traced(input.Table(), 1)
              && receipt.faultCases == MarkedCount(input.Expected(), FaultsOf(input.outcomes))
              && receipt.faultOutcomesObserved == |input.Expected()|
    ensures loaded && receipt.passed <==> Conforms(input)
    // The exchanged numbers are equal exactly when every expected fault was observed.
    ensures loaded ==>
              (receipt.faultCases == receipt.faultOutcomesObserved <==>
               forall i :: 0 <= i < |input.Expected()| ==> Marked(input.Expected(), FaultsOf(input.outcomes), i))
    ensures loaded && receipt.passed ==> receipt.faultCases == receipt.faultOutcomesObserved
  {
    hide Conforms, Input.Loads, Input.ManifestsTick, Input.DocumentsRead, Input.Manifested, Input.Table,
         Input.ApiUsrs, Input.Expected, Input.FaultsFit, FaultsOf, MarkedCount, Marked, FaultFindings, OutcomeLines;
    receipt := Receipt(0, 0, 0, 0, 0, 0, false);
    var ledger := new Ledger();
    LoadsMeans(input);
    loaded := LoadManifests(ledger, input);
    if !loaded {
      return;
    }
    loaded := LoadRest(ledger, input);
    if !loaded {
      return;
    }
    NoFindingsMeansConforming(input);
    FaultNumbersAgree(input);
    TableCovers(input);
    var valid := ledger.Validate();
    receipt := ledger.WriteReceipt();
  }

  lemma LoadsMeans(input: Input)
    ensures input.Loads() <==>
            input.ManifestsTick() && input.FaultsFit() && input.DocumentsRead() && OutcomeLines(input.outcomes)
    ensures Conforms(input) ==> input.Loads()
  {
  }

  lemma TableCovers(input: Input)
    requires input.Loads()
    ensures |input.Table()| == |Rows(input.apis)|
    ensures input.Findings() == ApiFindings(input.Table()) + FaultFindings(input.Expected(), input.outcomes)
  {
  }

  method LoadManifests(ledger: Ledger, input: Input) returns (loaded: bool)
    requires ledger.apis == []
    modifies ledger`apis
    ensures loaded <==> input.ManifestsTick()
    ensures loaded ==> ledger.apis == input.Manifested()
  {
    loaded := ledger.LoadApiManifest(input.apis);
    if !loaded {
      return;
    }
    assert ledger.apis == input.FreshApis();
    hide Ticks, AfterTests, AfterContracts, ApiManifestFits;
    loaded := ledger.LoadTestManifest(input.tests);
    if !loaded {
      return;
    }
    FlagsIndependent(ledger.apis, input);
    loaded := ledger.LoadContractManifest(input.contracts);
    if !loaded {
      return;
    }
    assert ledger.apis == input.Manifested();
  }

  /** The unit-test manifest leaves the conformance flags clear. */
  lemma FlagsIndependent(apis: seq<Api>, input: Input)
    requires input.ApisFit() && TestsRecorded(input.FreshApis(), apis, input.ApiUsrs(), Rows(input.tests))
    ensures forall i :: 0 <= i < |apis| ==>
              !apis[i].conformanceSeen && !apis[i].requireArguments && !apis[i].requireResult
  {
  }

  /** No manifest touches a name, a USR or a trace. */
  lemma ManifestsKeepIdentity(input: Input)
    requires input.ManifestsTick()
    ensures Usrs(input.Manifested()) == input.ApiUsrs() && ApiNames(input.Manifested()) == ApiNames(input.FreshApis())
    ensures forall i :: 0 <= i < |input.Manifested()| ==> input.Manifested()[i].trace == NO_TRACE
  {
    hide Ticked, TickedSays;
  }

  /** Both JSON documents. */
  method LoadTraces(ledger: Ledger, input: Input) returns (loaded: bool)
    requires input.ManifestsTick() && ledger.apis == input.Manifested()
    modifies ledger`apis
    ensures loaded <==> input.DocumentsRead()
    ensures loaded ==> ledger.apis == input.Table()
  {
    hide Input.ManifestsTick, Input.Manifested, Input.ApiUsrs, CapabilitiesRecorded, CallsRecorded, AllRead,
         AllNodesRead, Instrumented, WithCalls, Input.TraceAt;
    ManifestsKeepIdentity(input);
    ghost var start := ledger.apis;
    loaded := ledger.LoadInstrumentation(input.instrumentation, input.library);
    if !loaded {
      return;
    }
    ghost var middle := ledger.apis;
    InstrumentationKeepsIdentity(start, middle, input.instrumentation.value, input.library);
    loaded := ledger.LoadModel(input.model);
    if !loaded {
      return;
    }
    TableIs(input, middle, ledger.apis);
  }

  lemma InstrumentationKeepsIdentity(start: seq<Api>, now: seq<Api>, rows: seq<Capability>, library: string)
    requires CapabilitiesRecorded(start, now, rows, library)
    ensures ApiNames(now) == ApiNames(start)
    ensures forall i :: 0 <= i < |now| ==>
              && now[i].trace.enters == now[i].trace.exits == 0
              && !now[i].trace.arguments && !now[i].trace.result
  {
  }

  lemma TableIs(input: Input, middle: seq<Api>, now: seq<Api>)
    requires input.ManifestsTick() && input.DocumentsRead()
    requires CapabilitiesRecorded(input.Manifested(), middle, input.instrumentation.value, input.library)
    requires CallsRecorded(middle, now, input.model.value)
    ensures now == input.Table()
  {
    hide Instrumented, WithCalls, AfterTests, AfterContracts, Input.Manifested;
    ManifestsKeepIdentity(input);
    InstrumentationKeepsIdentity(input.Manifested(), middle, input.instrumentation.value, input.library);
  }

  /** The fault manifest, both documents, the outcomes, and the findings they leave for the last pass to complete. */
  method LoadRest(ledger: Ledger, input: Input) returns (loaded: bool)
    requires input.ManifestsTick() && ledger.apis == input.Manifested()
    requires ledger.faults == [] && ledger.outcomesObserved == 0 && ledger.findings == 0
    modifies ledger
    ensures loaded <==> input.Loads()
    ensures loaded ==>
              && ledger.apis == input.Table()
              && ledger.findings + MissingFaults(ledger.faults) == FaultFindings(input.Expected(), input.outcomes)
              && ledger.outcomesObserved == MarkedCount(input.Expected(), FaultsOf(input.outcomes))
              && |ledger.faults| == |input.Expected()|
  {
    hide ManifestFaults, FaultManifestFits, OutcomeLines, OutcomesRecorded, Input.ManifestsTick, Input.Manifested,
         Input.DocumentsRead, Input.Table, TestsRecorded, ContractsRecorded, FaultsOf;
    loaded := ledger.LoadFaultManifest(input.faults, input.platform, input.macros);
    if !loaded {
      return;
    }
    var rows, table, columns := Rows(input.faults), ledger.apis, PlatformColumns(input.platform);
    FitsMeansAdmitted(rows, table, columns, input.macros);
    FreshFaults(rows, table, columns, input.macros);
    loaded := LoadTraces(ledger, input);
    if !loaded {
      return;
    }
    ghost var expected := ledger.faults;
    loaded := ledger.LoadOutcomes(input.outcomes);
    if !loaded {
      return;
    }
    MissingIsUnmarked(expected, ledger.faults, FaultsOf(input.outcomes));
    SameKeys(expected, ledger.faults, FaultsOf(input.outcomes));
  }

  /** An API is credited with the calls of its name exactly if it is the first of that name, or there are none. */
  lemma CallsGoToTheFirst(input: Input, j: nat)
    requires input.ApisFit() && input.DocumentsRead() && j < |input.FreshApis()|
    ensures var names, nodes := ApiNames(input.FreshApis()), input.model.value;
            && (input.TraceAt(j).enters == Calls(nodes, names[j], ENTER)
                <==> IsFirst(names, j) || Calls(nodes, names[j], ENTER) == 0)
            && (input.TraceAt(j).exits == Calls(nodes, names[j], EXIT)
                <==> IsFirst(names, j) || Calls(nodes, names[j], EXIT) == 0)
            && (!IsFirst(names, j) ==> input.TraceAt(j).enters == input.TraceAt(j).exits == 0)
  {
    hide ApiManifestFits, Calls, LastLogged, AllRead, AllNodesRead, Listed, LastTraced;
  }

  /** So one that shares an earlier one's name never has any, and cannot conform if it needs some. */
  lemma SharedNameGetsNoCalls(input: Input, i: nat, j: nat)
    requires input.Loads() && i < j < |input.FreshApis()| && input.FreshApis()[i].name == input.FreshApis()[j].name
    ensures input.TraceAt(j).enters == input.TraceAt(j).exits == 0
    ensures input.TraceAt(j).applicable ==> !Conforms(input)
    ensures Says(Rows(input.tests), TEST_FIELDS, input.ApiUsrs()[j], 2, "fault") ==> !Conforms(input)
  {
    hide Says, Ticks, FaultManifestFits, OutcomeLines, Input.Expected;
    assert ApiNames(input.FreshApis())[..j][i] == ApiNames(input.FreshApis())[j];
  }

  lemma FitsMeansAdmitted(rows: seq<Line>, apis: seq<Api>, columns: Columns, macros: seq<Line>)
    requires columns.Columns? ==> columns.platform < FAULT_FIELDS && columns.conditional < FAULT_FIELDS
    requires FaultManifestFits(rows, apis, columns, macros)
    ensures columns.Columns? && AllAdmitted(rows, apis, columns, macros)
  {
  }

  lemma SameKeys(start: seq<ExpectedFault>, now: seq<ExpectedFault>, presented: seq<Fault>)
    requires OutcomesRecorded(start, now, presented)
    ensures Keys(now) == Keys(start) && |now| == |Keys(start)|
  {
  }

  lemma {:induction false} FreshFaults(rows: seq<Line>, apis: seq<Api>, columns: Columns, macros: seq<Line>)
    requires columns.Columns? && columns.platform < FAULT_FIELDS && columns.conditional < FAULT_FIELDS
    requires AllAdmitted(rows, apis, columns, macros)
    ensures forall i :: 0 <= i < |ManifestFaults(rows, apis, columns, macros)| ==>
              !ManifestFaults(rows, apis, columns, macros)[i].observed
  {
    if rows != [] {
      var n := |rows| - 1;
      AdmittedPrefix(rows, n, apis, columns, macros);
      FreshFaults(rows[..n], apis, columns, macros);
    }
  }

  // ----- exchanged numbers -----

  /** A line without a tab, newline or NUL inside its fields. */
  predicate PlainFields(parts: seq<string>) {
    |parts| >= 1 && forall i :: 0 <= i < |parts| ==> '\t' !in parts[i] && '\n' !in parts[i] && '\0' !in parts[i]
  }

  function RowOf(parts: seq<string>): Line
    requires |parts| >= 1
  {
    if '\0' in Join(parts, '\t') then "" else Join(parts, '\t')
  }

  lemma RowOfReads(parts: seq<string>)
    requires PlainFields(parts)
    ensures TabFields(RowOf(parts), |parts|) == parts
  {
    JoinAvoids(parts, '\t', '\0');
    TabFieldsOfJoin(parts, "", |parts|);
    assert Join(parts, '\t') + "" == Join(parts, '\t');
  }

  const API_PARTS := ["f", "u", "h", "r", "p"]
  const TEST_PARTS := ["f", "u", "fault", "t"]
  const CONTRACT_PARTS := ["f", "u", "false", "false"]
  const FAULT_PARTS := ["f", "u", "d", "s", "E", "E", "E", "n", "", "", ""]

  /** One API with one expected fault, and no outcome line at all. */
  function MissingOutcome(): Input {
    Input(["", RowOf(API_PARTS)], ["", RowOf(TEST_PARTS)], ["", RowOf(CONTRACT_PARTS)], ["", RowOf(FAULT_PARTS)], [],
          "linux", [], "l", Some([Capability(Some("l"), Some("u"), Some(false))]), Some([]))
  }

  const MISSING_FAULT := Fault("f", "d", "E")

  lemma PartsArePlain()
    ensures PlainFields(API_PARTS) && PlainFields(TEST_PARTS) && PlainFields(CONTRACT_PARTS) && PlainFields(FAULT_PARTS)
  {
  }

  lemma MissingOutcomeRows()
    ensures var input := MissingOutcome();
            && Rows(input.apis) == [RowOf(API_PARTS)] && Rows(input.tests) == [RowOf(TEST_PARTS)]
            && Rows(input.contracts) == [RowOf(CONTRACT_PARTS)] && Rows(input.faults) == [RowOf(FAULT_PARTS)]
  {
    hide RowOf;
    assert MissingOutcome().apis[1..] == [RowOf(API_PARTS)];
    assert MissingOutcome().tests[1..] == [RowOf(TEST_PARTS)];
    assert MissingOutcome().contracts[1..] == [RowOf(CONTRACT_PARTS)];
    assert MissingOutcome().faults[1..] == [RowOf(FAULT_PARTS)];
  }

  lemma OneRowFits(parts: seq<string>)
    requires PlainFields(parts) && |parts| == API_FIELDS && |parts[0]| == |parts[1]| == 1
    ensures ApiRowFits(RowOf(parts)) && FreshApi(RowOf(parts)).usr == parts[1]
  {
    hide TabFields, RowOf;
    RowOfReads(parts);
  }

  lemma MissingOutcomeApis()
    ensures var input := MissingOutcome();
            input.ApisFit() && |input.FreshApis()| == 1 && input.ApiUsrs() == ["u"]
  {
    hide RowOf, PlainFields, ApiRowFits, FreshApi;
    PartsArePlain();
    MissingOutcomeRows();
    assert API_PARTS[1] == "u";
    OneRowFits(API_PARTS);
    assert MissingOutcome().FreshApis()[0] == FreshApi(RowOf(API_PARTS));
  }

  /** A manifest of one row for the only API. */
  lemma OneRowTicks(parts: seq<string>)
    requires PlainFields(parts) && |parts| == 4 && parts[1] == "u"
    ensures Ticks(["u"], [RowOf(parts)], 4) && Ticked(["u"], [RowOf(parts)], 4, 0)
    ensures forall k :: 0 <= k < 4 ==> FieldAt(RowOf(parts), 4, k) == parts[k]
    ensures forall k, word :: 0 <= k < 4 ==> (Says([RowOf(parts)], 4, "u", k, word) <==> parts[k] == word)
  {
    hide TabFields, RowOf;
    RowOfReads(parts);
    var row := RowOf(parts);
    assert Column([row], 4, 1) == ["u"];
    forall k, word | 0 <= k < 4 ensures Says([row], 4, "u", k, word) <==> parts[k] == word {
      assert [row][0] == row && FieldAt(row, 4, 1) == "u" && FieldAt(row, 4, k) == parts[k];
    }
  }

  lemma MissingOutcomeLoads()
    ensures MissingOutcome().Loads() && MissingOutcome().Expected() == [MISSING_FAULT]
  {
    hide Ticks, Ticked, Says, RowOf, TabFields, HasFields, FaultManifestFits, ManifestFaults, FieldAt, PlainFields,
         PlatformColumns, Rows, Input.ApisFit, Input.FreshApis, Input.ApiUsrs, Input.Manifested;
    var input := MissingOutcome();
    PartsArePlain();
    MissingOutcomeRows();
    MissingOutcomeApis();
    OneRowTicks(TEST_PARTS);
    OneRowTicks(CONTRACT_PARTS);
    MissingOutcomeIsFault();
    OneFault(FAULT_PARTS, input.Manifested());
    assert input.DocumentsRead();
  }

  lemma MissingOutcomeIsFault()
    requires MissingOutcome().ManifestsTick()
    requires |MissingOutcome().FreshApis()| == 1 && MissingOutcome().ApiUsrs() == ["u"]
    requires Ticked(["u"], [RowOf(TEST_PARTS)], 4, 0) && Says([RowOf(TEST_PARTS)], 4, "u", 2, "fault")
    ensures var apis := MissingOutcome().Manifested();
            |apis| == 1 && Usrs(apis) == ["u"] && apis[0].faultTest
  {
    hide Ticks, Ticked, Says, RowOf, Input.ApisFit, Input.FreshApis, Rows;
    MissingOutcomeRows();
    ManifestsKeepIdentity(MissingOutcome());
  }

  /** A fault row whose Linux column holds one unconditional symbol. */
  lemma {:induction false} OneFault(parts: seq<string>, apis: seq<Api>)
    requires |apis| == 1 && Usrs(apis) == ["u"] && apis[0].faultTest
    requires PlainFields(parts) && |parts| == FAULT_FIELDS
    requires parts[0] == "f" && parts[1] == "u" && parts[2] == "d" && parts[4] == "E" && parts[8] == ""
    ensures var rows, columns := [RowOf(parts)], PlatformColumns("linux");
            && FaultManifestFits(rows, apis, columns, [])
            && Keys(ManifestFaults(rows, apis, columns, [])) == [MISSING_FAULT]
  {
    hide TabFields, RowOf, Tokens, PlainFields, PlatformColumns;
    LinuxColumns();
    RowOfReads(parts);
    OneToken();
    var row, columns := RowOf(parts), PlatformColumns("linux");
    assert RowSymbols(row, columns, []) == Keep(["E"], "", []);
    assert ["E"][1..] == [];
    assert RowSymbols(row, columns, []) == ["E"];
    assert RowFaults(row, ["E"]) == [ExpectedFault(MISSING_FAULT, false)];
    assert RowAdmitted(row, apis, columns, []);
    assert [row][..0] == [];
    assert ManifestFaults([row], apis, columns, []) == [] + RowFaults(row, ["E"]);
  }

  lemma LinuxColumns()
    ensures PlatformColumns("linux") == Columns(4, 8)
  {
  }

  lemma OneToken()
    ensures Tokens("E") == ["E"] && Tokens("") == []
  {
    hide Tokens;
    TokensStep("E", 1);
    NoTokens("");
    assert "E"[..1] == "E";
  }

  /** The receipt of that run claims one observed outcome for no case at all. */
  method MissingOutcomeReadsAsObserved() returns (receipt: Receipt)
    ensures receipt.faultCases == 0 && receipt.faultOutcomesObserved == 1
    ensures !receipt.passed
  {
    hide Input.Loads, Input.Expected, Conforms, Input.Findings;
    MissingOutcomeLoads();
    MissingOutcomeMarks();
    var loaded;
    loaded, receipt := Run(MissingOutcome());
  }

  lemma MissingOutcomeMarks()
    ensures MarkedCount([MISSING_FAULT], FaultsOf(MissingOutcome().outcomes)) == 0
    ensures !Marked([MISSING_FAULT], FaultsOf(MissingOutcome().outcomes), 0)
  {
    NothingMarkedYet([MISSING_FAULT]);
  }

  // ----- shared names -----

  function Listing(usr: string): Capability { Capability(Some("l"), Some(usr), Some(true)) }

  function CallOf(name: string, kind: string): CallNode { CallNode(Some("call"), Some(name), Some(kind), None, None) }

  function TestParts(name: string, usr: string): seq<string> { [name, usr, "unit", "t"] }

  function ContractParts(name: string, usr: string): seq<string> { [name, usr, "false", "false"] }

  function ApiParts(name: string, usr: string): seq<string> { [name, usr, "h", "r", "p"] }

  /** Two traced APIs, f and one more, and one call of each, from entry to exit. */
  function TwoApis(second: string): Input {
    Input(["", RowOf(ApiParts("f", "u")), RowOf(ApiParts(second, "v"))],
          ["", RowOf(TestParts("f", "u")), RowOf(TestParts(second, "v"))],
          ["", RowOf(ContractParts("f", "u")), RowOf(ContractParts(second, "v"))],
          [""], [], "linux", [], "l", Some([Listing("u"), Listing("v")]),
          Some([CallOf("f", ENTER), CallOf("f", EXIT), CallOf(second, ENTER), CallOf(second, EXIT)]))
  }

  const TWO_USRS := ["u", "v"]

  predicate ShortName(name: string) { name == "f" || name == "g" }

  lemma TwoPartsArePlain(name: string, usr: string)
    requires ShortName(name) && usr in TWO_USRS
    ensures PlainFields(ApiParts(name, usr)) && PlainFields(TestParts(name, usr))
    ensures PlainFields(ContractParts(name, usr))
  {
  }

  lemma TwoApisRows(second: string)
    ensures var input := TwoApis(second);
            && Rows(input.apis) == [RowOf(ApiParts("f", "u")), RowOf(ApiParts(second, "v"))]
            && Rows(input.tests) == [RowOf(TestParts("f", "u")), RowOf(TestParts(second, "v"))]
            && Rows(input.contracts) == [RowOf(ContractParts("f", "u")), RowOf(ContractParts(second, "v"))]
            && Rows(input.faults) == []
  {
    hide RowOf;
    var input := TwoApis(second);
    assert input.apis[1..] == [RowOf(ApiParts("f", "u")), RowOf(ApiParts(second, "v"))];
    assert input.tests[1..] == [RowOf(TestParts("f", "u")), RowOf(TestParts(second, "v"))];
    assert input.contracts[1..] == [RowOf(ContractParts("f", "u")), RowOf(ContractParts(second, "v"))];
  }

  lemma TwoApisFit(second: string)
    requires ShortName(second)
    ensures var input := TwoApis(second);
            && input.ApisFit() && |input.FreshApis()| == 2
            && input.FreshApis()[0] == Api("f", "u", false, false, false, false, false, NO_TRACE)
            && input.FreshApis()[1] == Api(second, "v", false, false, false, false, false, NO_TRACE)
            && input.ApiUsrs() == TWO_USRS && ApiNames(input.FreshApis()) == ["f", second]
  {
    hide RowOf, PlainFields, ApiRowFits, FreshApi, TabFields;
    TwoApisRows(second);
    OneApiRow("f", "u");
    OneApiRow(second, "v");
  }

  lemma OneApiRow(name: string, usr: string)
    requires ShortName(name) && usr in TWO_USRS
    ensures ApiRowFits(RowOf(ApiParts(name, usr)))
    ensures FreshApi(RowOf(ApiParts(name, usr))) == Api(name, usr, false, false, false, false, false, NO_TRACE)
  {
    hide RowOf, PlainFields, TabFields;
    TwoPartsArePlain(name, usr);
    RowOfReads(ApiParts(name, usr));
  }

  /** A manifest with one row for each of the two APIs, both saying the same. */
  lemma TwoRowsTick(a: seq<string>, b: seq<string>)
    requires PlainFields(a) && PlainFields(b) && |a| == |b| == 4 && a[1] == "u" && b[1] == "v" && a[2..] == b[2..]
    ensures var rows := [RowOf(a), RowOf(b)];
            && Ticks(TWO_USRS, rows, 4) && Ticked(TWO_USRS, rows, 4, 0) && Ticked(TWO_USRS, rows, 4, 1)
            && forall usr, k, word :: 2 <= k < 4 && Says(rows, 4, usr, k, word) ==> word == a[k]
  {
    hide TabFields, RowOf, PlainFields;
    RowOfReads(a);
    RowOfReads(b);
    var rows := [RowOf(a), RowOf(b)];
    assert Column(rows, 4, 1) == TWO_USRS;
    assert "u"[0] != "v"[0];
    assert a[2] == a[2..][0] && a[3] == a[2..][1] && b[2] == b[2..][0] && b[3] == b[2..][1];
  }

  /** Once the manifests are in, nothing but traces is asked of either API. */
  lemma TwoApisManifested(second: string)
    requires ShortName(second)
    ensures var input := TwoApis(second);
            && input.ManifestsTick() && |input.Manifested()| == 2
            && input.Manifested()[0] == Api("f", "u", true, false, true, false, false, NO_TRACE)
            && input.Manifested()[1] == Api(second, "v", true, false, true, false, false, NO_TRACE)
  {
    hide RowOf, Ticks, Ticked, Says, Rows, AfterTests, AfterContracts, Input.ApisFit, Input.FreshApis, Input.ApiUsrs;
    TwoApisFit(second);
    TwoManifestsTick(second);
    var input := TwoApis(second);
    NothingAsked(input.FreshApis()[0], Rows(input.tests), Rows(input.contracts), 0);
    NothingAsked(input.FreshApis()[1], Rows(input.tests), Rows(input.contracts), 1);
  }

  /** A pair of manifests that ticks both APIs and asks for nothing. */
  predicate AsksNothing(tests: seq<Line>, contracts: seq<Line>) {
    && Ticks(TWO_USRS, tests, 4) && Ticks(TWO_USRS, contracts, 4)
    && forall i :: 0 <= i < 2 ==>
         && Ticked(TWO_USRS, tests, 4, i) && Ticked(TWO_USRS, contracts, 4, i)
         && !Says(tests, 4, TWO_USRS[i], 2, "fault")
         && !Says(contracts, 4, TWO_USRS[i], 2, "true") && !Says(contracts, 4, TWO_USRS[i], 3, "true")
  }

  lemma TwoManifestsTick(second: string)
    requires ShortName(second)
    ensures AsksNothing(Rows(TwoApis(second).tests), Rows(TwoApis(second).contracts))
  {
    hide RowOf, PlainFields, Ticks, Ticked, Says, Rows;
    TwoApisRows(second);
    TwoPartsArePlain("f", "u");
    TwoPartsArePlain(second, "v");
    TwoRowsTick(TestParts("f", "u"), TestParts(second, "v"));
    TwoRowsTick(ContractParts("f", "u"), ContractParts(second, "v"));
    assert "unit"[0] != "fault"[0] && "false"[0] != "true"[0];
  }

  lemma NothingAsked(a: Api, tests: seq<Line>, contracts: seq<Line>, i: nat)
    requires i < 2 && AsksNothing(tests, contracts) && !a.faultTest && !a.requireArguments && !a.requireResult
    ensures AfterContracts(AfterTests(a, TWO_USRS, tests, i), TWO_USRS, contracts, i)
            == a.(tested := true, conformanceSeen := true)
  {
    hide Ticks, Ticked, Says;
  }

  lemma TwoCalls(second: string, name: string, kind: string)
    requires ShortName(second) && (kind == ENTER || kind == EXIT)
    ensures Calls(TwoApis(second).model.value, name, kind)
            == (if name == "f" then 1 else 0) + if name == second then 1 else 0
    ensures !LastLogged(TwoApis(second).model.value, name, kind)
  {
    hide Calls, LastLogged, RowOf, ApiParts, TestParts, ContractParts, Listing;
    assert ENTER[6] != EXIT[6];
    FourNodes(TwoApis(second).model.value, name, kind);
  }

  lemma FourNodes(nodes: seq<CallNode>, name: string, kind: string)
    requires |nodes| == 4 && forall i :: 0 <= i < 4 ==> nodes[i].Logged(kind) == None
    ensures Calls(nodes, name, kind)
            == One(nodes[0].Is(name, kind)) + One(nodes[1].Is(name, kind))
               + One(nodes[2].Is(name, kind)) + One(nodes[3].Is(name, kind))
    ensures !LastLogged(nodes, name, kind)
  {
    hide CallNode.Is, CallNode.Logged;
    NodeStep(nodes, 0, name, kind);
    NodeStep(nodes, 1, name, kind);
    NodeStep(nodes, 2, name, kind);
    NodeStep(nodes, 3, name, kind);
    assert nodes[..4] == nodes && nodes[..0] == [];
  }

  lemma TwoApisTraces(second: string)
    requires ShortName(second)
    ensures var input, shared := TwoApis(second), second == "f";
            && input.ApisFit() && input.DocumentsRead() && |input.FreshApis()| == 2
            && input.TraceAt(0) == (if shared then Trace(true, true, 2, 2, false, false)
                                    else Trace(true, true, 1, 1, false, false))
            && input.TraceAt(1) == (if shared then Trace(true, true, 0, 0, false, false)
                                    else Trace(true, true, 1, 1, false, false))
  {
    hide RowOf, ApiParts, TestParts, ContractParts, Listing, CallOf, Input.ApisFit, Input.FreshApis, Input.ApiUsrs,
         Input.DocumentsRead, Input.TraceAt;
    TwoApisFit(second);
    TraceFrom(TwoApis(second), second, 0);
    TraceFrom(TwoApis(second), second, 1);
  }

  lemma TraceFrom(input: Input, second: string, i: nat)
    requires ShortName(second) && i < 2 && input.ApisFit() && |input.FreshApis()| == 2
    requires input.ApiUsrs() == TWO_USRS && ApiNames(input.FreshApis()) == ["f", second]
    requires input.library == "l" && input.instrumentation == TwoApis(second).instrumentation
    requires input.model == TwoApis(second).model
    ensures input.DocumentsRead()
    ensures var n := if second != "f" then 1 else if i == 0 then 2 else 0;
            input.TraceAt(i) == Trace(true, true, n, n, false, false)
  {
    hide RowOf, ApiParts, TestParts, ContractParts, WithCalls, Instrumented, AllRead, Listing, Input.ApisFit,
         Input.FreshApis, Input.ApiUsrs;
    BothListed();
    CreditedCalls(second, i);
  }

  lemma CreditedCalls(second: string, i: nat)
    requires ShortName(second) && i < 2
    ensures var n := if second != "f" then 1 else if i == 0 then 2 else 0;
            WithCalls(NO_TRACE.(seen := true, applicable := true), TwoApis(second).model.value, ["f", second], i)
            == Trace(true, true, n, n, false, false)
  {
    hide Calls, LastLogged, TwoApis;
    var names := ["f", second];
    TwoCalls(second, names[i], ENTER);
    TwoCalls(second, names[i], EXIT);
    assert names[..0] == [] && names[..1] == ["f"];
  }

  lemma TwoApisLoad(second: string)
    requires ShortName(second)
    ensures var input := TwoApis(second);
            input.Loads() && input.Expected() == [] && FaultFindings(input.Expected(), input.outcomes) == 0
  {
    hide RowOf, ApiParts, TestParts, ContractParts, Listing, CallOf, Rows, Input.ManifestsTick, Input.ApisFit,
         Input.FreshApis, Input.ApiUsrs, Input.Manifested, Input.DocumentsRead, Input.TraceAt, PlatformColumns;
    TwoApisManifested(second);
    TwoApisTraces(second);
    TwoApisRows(second);
    LinuxColumns();
    NoFaultsExpected(TwoApis(second).Manifested());
    NothingPresented();
  }

  lemma NoFaultsExpected(apis: seq<Api>)
    ensures FaultManifestFits([], apis, PlatformColumns("linux"), [])
    ensures Keys(ManifestFaults([], apis, PlatformColumns("linux"), [])) == []
  {
    LinuxColumns();
  }

  lemma NothingPresented()
    ensures OutcomeLines([]) && FaultFindings([], []) == 0
  {
  }

  /** Under two names the APIs conform; under one, the second is missing its call, and nothing else is amiss. */
  lemma OnlyTheNameCounts(second: string)
    requires ShortName(second)
    ensures var input := TwoApis(second);
            && input.Loads() && input.Findings() == (if second == "f" then 1 else 0)
            && (Conforms(input) <==> second != "f")
  {
    hide RowOf, ApiParts, TestParts, ContractParts, Listing, CallOf, Rows, Input.ManifestsTick, Input.ApisFit,
         Input.FreshApis, Input.ApiUsrs, Input.Manifested, Input.DocumentsRead, Input.TraceAt, Input.FaultsFit,
         Input.Expected, FaultFindings, Conforms;
    TwoApisLoad(second);
    TwoApisManifested(second);
    TwoApisTraces(second);
    NoFindingsMeansConforming(TwoApis(second));
    TwoRowsFind(TwoApis(second).Table());
  }

  lemma TwoRowsFind(apis: seq<Api>)
    requires |apis| == 2
    ensures ApiFindings(apis) == ApiFindingsOf(apis[0]) + ApiFindingsOf(apis[1])
  {
    hide ApiFindingsOf;
    ApiFindingsStep(apis, 0);
    ApiFindingsStep(apis, 1);
    assert apis[..2] == apis && apis[..0] == [];
  }

  /** Both runs, from the manifests to the receipt. */
  method SharedNameFailsTheRun() returns (shared: Receipt, distinct: Receipt)
    ensures shared.findings == 1 && !shared.passed
    ensures distinct.findings == 0 && distinct.passed
  {
    hide Input.Loads, Conforms, Input.Findings, TwoApis;
    OnlyTheNameCounts("f");
    OnlyTheNameCounts("g");
    var loaded;
    loaded, shared := Run(TwoApis("f"));
    loaded, distinct := Run(TwoApis("g"));
  }

  lemma BothListed()
    ensures var rows := [Listing("u"), Listing("v")];
            && AllRead(rows, "l", TWO_USRS)
            && forall i :: 0 <= i < 2 ==>
                 Instrumented(rows, "l", TWO_USRS, i) == NO_TRACE.(seen := true, applicable := true)
  {
    var rows := [Listing("u"), Listing("v")];
    assert "u"[0] != "v"[0];
    assert rows[0].Concerns("l") && rows[1].Concerns("l");
    assert rows[..1] == [Listing("u")];
  }
}
