/** What the ledger's tables mean in terms of the text and the documents they come from. */
module ConformanceMeaning {
  import opened Wrappers
  import opened Text
  import opened Fields
  import opened FirstMatchLedger
  import opened Conformance
  import opened ConformanceTraces
  import opened FaultManifest
  import opened ConformanceEngine
  import opened ConformanceRun

  // ----- rows as text -----

  /** The row is these fields with tabs between them, up to the end of its line. */
  ghost predicate Spells(row: Line, parts: seq<string>) {
    && |parts| >= 1 && (forall i :: 0 <= i < |parts| ==> '\t' !in parts[i] && '\n' !in parts[i])
    && exists ending: string :: row == Join(parts, '\t') + ending && (ending == "" || ending[0] == '\n')
  }

  lemma EveryRowSpells(row: Line) returns (parts: seq<string>)
    ensures Spells(row, parts)
  {
    var shown := BeforeNewline(row);
    parts := Split(shown, '\t');
    JoinOfSplit(shown, '\t');
    PiecesAvoid(shown, '\t', '\n');
    assert row == shown + row[|shown|..];
  }

  /** A row has the fields asked for if there are enough of them, and each is found at its place. */
  lemma SpelledFields(row: Line, parts: seq<string>, count: nat)
    requires Spells(row, parts)
    ensures HasFields(row, count) <==> |parts| >= count
    ensures HasFields(row, count) ==> forall k :: 0 <= k < count ==> FieldAt(row, count, k) == parts[k]
  {
    hide TabFields;
    var ending: string :| row == Join(parts, '\t') + ending && (ending == "" || ending[0] == '\n');
    TabFieldsOfJoin(parts, ending, count);
  }

  /** The API manifest: the name first, the USR second; both must fit their slots. */
  lemma ApiRowMeans(row: Line, parts: seq<string>)
    requires Spells(row, parts)
    ensures ApiRowFits(row) <==> |parts| >= 5 && |parts[0]| < 256 && |parts[1]| < 1024
    ensures ApiRowFits(row) ==> FreshApi(row).name == parts[0] && FreshApi(row).usr == parts[1]
  {
    hide TabFields, Spells;
    SpelledFields(row, parts, API_FIELDS);
  }

  // ----- outcome lines -----

  /** The three fields from the sixth on name the fault, the tenth says how the wrapper did. */
  lemma OutcomeLineMeans(line: Line, parts: seq<string>)
    requires Spells(line, parts)
    ensures OutcomeLine(line) <==> |parts| >= 10 && parts[0] == "P101WRAPPER"
    ensures OutcomeLine(line) ==>
              FaultOf(line) == Fault(parts[5], parts[6], parts[7]) && (Passes(line) <==> parts[9] == "PASS")
  {
    hide TabFields, Spells;
    SpelledFields(line, parts, OUT_FIELDS);
  }

  /**
   Without outcome lines every expected fault is a finding. A line that names one for the first time takes that
   finding back, unless the wrapper did not pass; any other line is a finding more.
   */
  lemma OneMoreOutcome(expected: seq<Fault>, lines: seq<Line>, line: Line, parts: seq<string>)
    requires OutcomeLines(lines) && OutcomeLine(line) && Spells(line, parts)
    ensures FaultFindings(expected, []) == |expected|
    ensures |parts| >= 10 && OutcomeLines(lines + [line])
    ensures var fault := Fault(parts[5], parts[6], parts[7]);
            FaultFindings(expected, lines + [line]) - FaultFindings(expected, lines)
            == if fault !in expected || fault in FaultsOf(lines) then 1
               else if parts[9] == "PASS" then -1 else 0
  {
    hide TabFields, Spells, HasFields, OutcomeLine, Passes, FaultOf;
    OutcomeLineMeans(line, parts);
    NothingMarkedYet(expected);
    var all := lines + [line];
    assert forall j :: 0 <= j < |lines| ==> all[j] == lines[j];
    assert all[|lines|] == line && all[..|lines|] == lines;
    assert FaultsOf(all) == FaultsOf(lines) + [FaultOf(line)];
    assert FaultsOf(all)[..|lines|] == FaultsOf(lines);
    MarkedCountStep(expected, FaultsOf(lines), FaultOf(line));
  }

  // ----- the fault manifest -----

  /** Some macro line defines the symbol: it is followed by a blank, a tab or the end of the line. */
  ghost predicate Defined(macros: seq<Line>, symbol: string) {
    exists j, after: char, rest: string :: 0 <= j < |macros| && macros[j] == "#define " + symbol + [after] + rest
                                           && (after == ' ' || after == '\t' || after == '\n')
  }

  /** A symbol is available unless it is listed as conditional and no macro of a searchable length defines it. */
  lemma AvailableIf(symbol: string, conditional: string, macros: seq<Line>)
    ensures Available(symbol, conditional, macros) <==>
            (symbol in Tokens(conditional) ==> |symbol| < 264 && Defined(macros, symbol))
  {
    hide Tokens;
    var text := "#define " + symbol;
    forall j | 0 <= j < |macros| && DefinesSymbol(macros[j], symbol) ensures Defined(macros, symbol) {
      assert macros[j] == text + [macros[j][|text|]] + macros[j][|text| + 1..];
    }
    forall j, after: char, rest: string
      | 0 <= j < |macros| && macros[j] == text + [after] + rest && (after == ' ' || after == '\t' || after == '\n')
      ensures DefinesSymbol(macros[j], symbol)
    {
      assert macros[j][|text|] == after;
    }
  }

  /** Where a platform's symbols and its conditional symbols stand in a row; other platforms are not supported. */
  ghost predicate Stands(platform: string, symbols: nat, conditional: nat) {
    || (platform == "linux" && symbols == 4 && conditional == 8)
    || (platform == "macos" && symbols == 5 && conditional == 9)
    || (platform == "freebsd" && symbols == 6 && conditional == 10)
  }

  /** What one row of the fault manifest leads to expect, and when it is taken in. */
  lemma FaultRowMeans(row: Line, parts: seq<string>, platform: string, symbols: nat, conditional: nat,
                      apis: seq<Api>, macros: seq<Line>)
    requires Spells(row, parts) && Stands(platform, symbols, conditional)
    ensures PlatformColumns(platform).Columns?
    ensures RowAdmitted(row, apis, PlatformColumns(platform), macros) <==>
            && |parts| >= 11
            && (exists i :: 0 <= i < |apis| && apis[i].usr == parts[1] && apis[i].faultTest
                            && forall h :: 0 <= h < i ==> apis[h].usr != parts[1])
            && forall symbol :: symbol in Keep(Tokens(parts[symbols]), parts[conditional], macros) ==>
                 |parts[0]| < 256 && |parts[2]| < 256 && |symbol| < 256
    ensures RowAdmitted(row, apis, PlatformColumns(platform), macros) ==>
              var kept := Keep(Tokens(parts[symbols]), parts[conditional], macros);
              var faults := RowFaults(row, RowSymbols(row, PlatformColumns(platform), macros));
              && |faults| == |kept|
              && forall k :: 0 <= k < |kept| ==>
                   faults[k] == ExpectedFault(Fault(parts[0], parts[2], kept[k]), false)
  {
    hide TabFields, Spells, Tokens, Keep;
    SpelledFields(row, parts, FAULT_FIELDS);
    if |parts| >= 11 {
      var kept := Keep(Tokens(parts[symbols]), parts[conditional], macros);
      assert RowSymbols(row, PlatformColumns(platform), macros) == kept;
      FirstWithUsr(apis, parts[1]);
    }
  }

  lemma FirstWithUsr(apis: seq<Api>, usr: string)
    ensures var f := FirstIndex(Usrs(apis), usr);
            && f <= |apis|
            && forall i :: 0 <= i < |apis| ==>
                 (i == f <==> apis[i].usr == usr && forall h :: 0 <= h < i ==> apis[h].usr != usr)
  {
    var usrs, f := Usrs(apis), FirstIndex(Usrs(apis), usr);
    assert forall h :: 0 <= h < f ==> usrs[..f][h] == apis[h].usr;
  }

  /** Rows add up, in their order. */
  lemma OneMoreFaultRow(rows: seq<Line>, row: Line, apis: seq<Api>, columns: Columns, macros: seq<Line>)
    requires columns.Columns? && columns.platform < FAULT_FIELDS && columns.conditional < FAULT_FIELDS
    requires AllAdmitted(rows, apis, columns, macros) && RowAdmitted(row, apis, columns, macros)
    ensures ManifestFaults([], apis, columns, macros) == [] && AllAdmitted(rows + [row], apis, columns, macros)
    ensures ManifestFaults(rows + [row], apis, columns, macros)
         == ManifestFaults(rows, apis, columns, macros) + RowFaults(row, RowSymbols(row, columns, macros))
  {
    hide RowAdmitted, RowFaults, RowSymbols;
    assert (rows + [row])[..|rows|] == rows;
  }

  /** The whole manifest: a known platform, every row taken in, and all their faults within the table, row by row. */
  lemma FaultManifestMeans(rows: seq<Line>, apis: seq<Api>, platform: string, macros: seq<Line>)
    ensures PlatformColumns(platform).Unsupported? <==>
            platform != "linux" && platform != "macos" && platform != "freebsd"
    ensures FaultManifestFits(rows, apis, PlatformColumns(platform), macros) <==>
            && (platform == "linux" || platform == "macos" || platform == "freebsd")
            && (forall j :: 0 <= j < |rows| ==> RowAdmitted(rows[j], apis, PlatformColumns(platform), macros))
            && |ManifestFaults(rows, apis, PlatformColumns(platform), macros)| <= 8192
  {
    hide ManifestFaults, RowAdmitted;
  }

  // ----- traces -----

  /** No API before row i has its name. */
  ghost predicate FirstOfName(apis: seq<Api>, i: nat)
    requires i < |apis|
  {
    forall h :: 0 <= h < i ==> apis[h].name != apis[i].name
  }

  /** What the run model says about an API: all calls of its name, or none if an earlier API has the name. */
  lemma CallsMean(input: Input, i: nat)
    requires input.ApisFit() && input.DocumentsRead() && i < |input.FreshApis()|
    ensures var trace, nodes, name := input.TraceAt(i), input.model.value, input.FreshApis()[i].name;
            if !FirstOfName(input.FreshApis(), i) then
              trace.enters == trace.exits == 0 && !trace.arguments && !trace.result
            else
              && trace.enters == |EntriesOf(nodes, name)| && trace.exits == |ExitsOf(nodes, name)|
              && (trace.arguments <==>
                    exists k :: 0 <= k < |nodes| && Enters(nodes[k], name) && Something(nodes[k].arguments)
                                && forall m :: k < m < |nodes| ==>
                                     !Enters(nodes[m], name) || nodes[m].arguments.None?)
              && (trace.result <==>
                    exists k :: 0 <= k < |nodes| && Exits(nodes[k], name) && Something(nodes[k].result)
                                && forall m :: k < m < |nodes| ==> !Exits(nodes[m], name) || nodes[m].result.None?)
  {
    hide ApiManifestFits, Calls, LastLogged, AllRead, AllNodesRead, Listed, LastTraced, Enters, Exits, EntriesOf,
         ExitsOf, Something;
    var nodes, names := input.model.value, ApiNames(input.FreshApis());
    CallsCount(nodes, names[i]);
    ArgumentsLogged(nodes, names[i]);
    ResultsLogged(nodes, names[i]);
    assert forall h :: 0 <= h < i ==> names[..i][h] == input.FreshApis()[h].name;
  }

  /** What the instrumentation receipt says about an API, in the rows of its library and USR; the last has the say. */
  lemma CapabilitiesMean(input: Input, i: nat)
    requires input.ApisFit() && input.DocumentsRead() && i < |input.FreshApis()|
    ensures var trace, rows, usr := input.TraceAt(i), input.instrumentation.value, input.ApiUsrs()[i];
            if exists h :: 0 <= h < i && input.ApiUsrs()[h] == usr then !trace.seen && !trace.applicable
            else
              && (trace.seen <==> exists j :: 0 <= j < |rows| && IsAbout(rows[j], input.library, usr))
              && (trace.applicable <==>
                    exists j :: 0 <= j < |rows| && IsAbout(rows[j], input.library, usr)
                                && rows[j].hasEnv == Some(true)
                                && forall k :: j < k < |rows| ==> !IsAbout(rows[k], input.library, usr))
  {
    hide ApiManifestFits, Calls, LastLogged, AllRead, AllNodesRead, LastTraced;
    var rows, usrs := input.instrumentation.value, input.ApiUsrs();
    LastTracedMeans(rows, input.library, usrs[i]);
    assert forall h :: 0 <= h < i ==> usrs[..i][h] == usrs[h];
  }

  /** An API whose contract wants arguments or a result logged does not conform while only nothing or a dash is. */
  lemma SilentCallsDoNotConform(input: Input, i: nat)
    requires input.Loads() && i < |input.FreshApis()|
    ensures var nodes, name, usr := input.model.value, input.FreshApis()[i].name, input.ApiUsrs()[i];
            && (Says(Rows(input.contracts), CONTRACT_FIELDS, usr, 2, "true")
                && (forall k :: 0 <= k < |nodes| && Enters(nodes[k], name) ==> !Something(nodes[k].arguments)) ==>
                  !Conforms(input))
            && (Says(Rows(input.contracts), CONTRACT_FIELDS, usr, 3, "true")
                && (forall k :: 0 <= k < |nodes| && Exits(nodes[k], name) ==> !Something(nodes[k].result)) ==>
                  !Conforms(input))
  {
    hide Says, Ticks, FaultManifestFits, OutcomeLines, Input.Expected, Input.TraceAt, Enters, Exits, Something;
    CallsMean(input, i);
  }

  /** Which documents can be read at all. */
  lemma DocumentsMean(input: Input)
    requires input.ApisFit()
    ensures input.DocumentsRead() <==>
            && input.instrumentation.Some? && input.model.Some?
            && (forall j :: 0 <= j < |input.instrumentation.value| ==>
                  var row := input.instrumentation.value[j];
                  && row.library.Some?
                  && (row.library.value == input.library ==>
                        row.usr.Some? && row.usr.value in input.ApiUsrs() && row.hasEnv.Some?))
            && (forall k :: 0 <= k < |input.model.value| ==>
                  var node := input.model.value[k];
                  node.domain.Some? && (node.domain.value == "call" ==> node.name.Some? && node.kind.Some?))
  {
    hide ApiManifestFits;
    if input.instrumentation.Some? && input.model.Some? {
      assert forall j :: 0 <= j < |input.instrumentation.value| ==>
               (input.instrumentation.value[j].Concerns(input.library)
                <==> input.instrumentation.value[j].library == Some(input.library));
      assert forall k :: 0 <= k < |input.model.value| ==>
               (input.model.value[k].IsCall() <==> input.model.value[k].domain == Some("call"));
    }
  }

  // ----- counting -----

  /** The eight things an API can be found lacking in. */
  function Lacks(a: Api): (r: seq<bool>)
    ensures |r| == 8
  {
    [!a.tested, !a.conformanceSeen, !a.trace.seen, a.trace.applicable && a.trace.enters == 0,
     a.trace.applicable && a.trace.enters != a.trace.exits, a.faultTest && a.trace.enters == 0,
     a.requireArguments && !a.trace.arguments, a.requireResult && !a.trace.result]
  }

  ghost function Lacking(apis: seq<Api>): set<(nat, nat)> {
    set i: nat, k: nat | i < |apis| && k < 8 && Lacks(apis[i])[k] :: (i, k)
  }

  ghost function Raised(i: nat, flags: seq<bool>, n: nat): set<(nat, nat)>
    requires n <= |flags|
  {
    set k: nat | k < n && flags[k] :: (i, k)
  }

  function Raises(flags: seq<bool>, n: nat): nat
    requires n <= |flags|
  {
    if n == 0 then 0 else Raises(flags, n - 1) + One(flags[n - 1])
  }

  lemma {:induction false} RaisedCount(i: nat, flags: seq<bool>, n: nat)
    requires n <= |flags|
    ensures |Raised(i, flags, n)| == Raises(flags, n)
  {
    if n > 0 {
      RaisedCount(i, flags, n - 1);
      assert Raised(i, flags, n) == Raised(i, flags, n - 1) + if flags[n - 1] then {(i, (n - 1) as nat)} else {};
    }
  }

  lemma ApiFindingsRaised(a: Api)
    ensures ApiFindingsOf(a) == Raises(Lacks(a), 8)
  {
    var flags := Lacks(a);
    assert Raises(flags, 1) == One(flags[0]);
    assert Raises(flags, 2) == One(flags[0]) + One(flags[1]);
    assert Raises(flags, 4) == Raises(flags, 2) + One(flags[2]) + One(flags[3]);
    assert Raises(flags, 6) == Raises(flags, 4) + One(flags[4]) + One(flags[5]);
  }

  /** Each lack of each API is one finding. */
  lemma {:induction false} FindingsCountLacks(apis: seq<Api>)
    ensures ApiFindings(apis) == |Lacking(apis)|
  {
    hide Lacks, ApiFindingsOf;
    if apis != [] {
      var n := |apis| - 1;
      FindingsCountLacks(apis[..n]);
      RaisedCount(n, Lacks(apis[n]), 8);
      ApiFindingsRaised(apis[n]);
      LackingGrows(apis, n);
    }
  }

  lemma LackingGrows(apis: seq<Api>, n: nat)
    requires |apis| == n + 1
    ensures Lacking(apis) == Lacking(apis[..n]) + Raised(n, Lacks(apis[n]), 8)
    ensures Lacking(apis[..n]) !! Raised(n, Lacks(apis[n]), 8)
  {
    hide Lacks;
  }

  ghost function Invoked(apis: seq<Api>, entries: nat): set<nat> {
    set i: nat | i < |apis| && apis[i].trace.applicable && apis[i].trace.enters >= entries
  }

  /** How many APIs take an environment, and how many of them were entered. */
  lemma {:induction false} TracedCounts(apis: seq<Api>, entries: nat)
    ensures Traced(apis, entries) == |Invoked(apis, entries)|
  {
    if apis != [] {
      var n := |apis| - 1;
      TracedCounts(apis[..n], entries);
      assert Invoked(apis, entries) ==
             Invoked(apis[..n], entries)
             + if apis[n].trace.applicable && apis[n].trace.enters >= entries then {n as nat} else {};
    }
  }
}
