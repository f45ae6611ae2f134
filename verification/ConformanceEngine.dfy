/** The loops of components/conformance/src/main.c over one table of state. */
module ConformanceEngine {
  import opened Wrappers
  import opened Text
  import opened Fields
  import opened FirstMatchLedger
  import opened Conformance
  import opened ConformanceTraces
  import opened FaultManifest

  class Ledger {
    var apis: seq<Api>
    var faults: seq<ExpectedFault>
    var outcomesObserved: nat
    var findings: nat

    constructor ()
      ensures apis == [] && faults == [] && outcomesObserved == 0 && findings == 0
    {
      apis, faults, outcomesObserved, findings := [], [], 0, 0;
    }

    method LoadApiManifest(lines: seq<Line>) returns (loaded: bool)
      requires apis == []
      modifies this`apis
      ensures loaded <==> ApiManifestFits(Rows(lines))
      ensures loaded ==> |apis| == |Rows(lines)| && forall i :: 0 <= i < |apis| ==> apis[i] == FreshApi(Rows(lines)[i])
    {
      var rows := Rows(lines);
      for n := 0 to |rows|
        invariant |apis| == n <= MAX_APIS
        invariant forall i :: 0 <= i < n ==> ApiRowFits(rows[i]) && apis[i] == FreshApi(rows[i])
      {
        var fields := SplitLine(rows[n], API_FIELDS);
        if |fields| != API_FIELDS || |apis| >= MAX_APIS {
          return false;
        }
        if |fields[0]| >= MAX_NAME || |fields[1]| >= MAX_USR {
          return false;
        }
        apis := apis + [Api(fields[0], fields[1], false, false, false, false, false, NO_TRACE)];
      }
      return true;
    }

    /** find_api: the first row with this USR, or the count. */
    method FindApi(usr: string) returns (f: nat)
      ensures f == FirstIndex(Usrs(apis), usr) && f <= |apis|
    {
      f := 0;
      while f < |apis| && apis[f].usr != usr
        invariant f <= |apis| && usr !in Usrs(apis)[..f]
      {
        assert Usrs(apis)[..f + 1] == Usrs(apis)[..f] + [apis[f].usr];
        f := f + 1;
      }
      if f < |apis| {
        FirstIndexUnique(Usrs(apis), usr, f);
      } else {
        assert Usrs(apis)[..f] == Usrs(apis);
      }
    }

    method LoadTestManifest(lines: seq<Line>) returns (loaded: bool)
      requires forall i :: 0 <= i < |apis| ==> !apis[i].tested && !apis[i].faultTest
      modifies this`apis
      ensures Usrs(apis) == Usrs(old(apis))
      ensures loaded <==> Ticks(Usrs(apis), Rows(lines), TEST_FIELDS)
      ensures loaded ==> TestsRecorded(old(apis), apis, Usrs(apis), Rows(lines))
    {
      var rows := Rows(lines);
      ghost var usrs, start := Usrs(apis), apis;
      hide TestsRecorded, Ticks, AllAccepted, AllHaveFields, Column, TabFields, Accepted;
      NoRowsYet(start, usrs);
      for n := 0 to |rows|
        invariant Usrs(apis) == usrs && |start| == |usrs| && AllHaveFields(rows[..n], TEST_FIELDS)
        invariant AllAccepted(usrs, Column(rows[..n], TEST_FIELDS, 1)) && TestsRecorded(start, apis, usrs, rows[..n])
      {
        var fields := SplitLine(rows[n], TEST_FIELDS);
        if |fields| != TEST_FIELDS {
          MissingFields(usrs, rows, TEST_FIELDS, n);
          return false;
        }
        RowJoins(rows, TEST_FIELDS, n);
        TicksPrefix(usrs, rows, TEST_FIELDS, n);
        var f := FindApi(fields[1]);
        TestsRecordedStep(start, apis, usrs, rows, n);
        if f == |apis| || apis[f].tested {
          return false;
        }
        var a := apis[f].(tested := true);
        if fields[2] == "fault" {
          a := a.(faultTest := true);
        }
        apis := apis[f := a];
      }
      assert rows[..|rows|] == rows;
      AllTicked(usrs, rows, TEST_FIELDS);
      return true;
    }

    method LoadContractManifest(lines: seq<Line>) returns (loaded: bool)
      requires forall i :: 0 <= i < |apis| ==>
                 !apis[i].conformanceSeen && !apis[i].requireArguments && !apis[i].requireResult
      modifies this`apis
      ensures Usrs(apis) == Usrs(old(apis))
      ensures loaded <==> Ticks(Usrs(apis), Rows(lines), CONTRACT_FIELDS)
      ensures loaded ==> ContractsRecorded(old(apis), apis, Usrs(apis), Rows(lines))
    {
      var rows := Rows(lines);
      ghost var usrs, start := Usrs(apis), apis;
      hide ContractsRecorded, Ticks, AllAccepted, AllHaveFields, Column, TabFields, Accepted;
      NoRowsYet(start, usrs);
      for n := 0 to |rows|
        invariant Usrs(apis) == usrs && |start| == |usrs| && AllHaveFields(rows[..n], CONTRACT_FIELDS)
        invariant AllAccepted(usrs, Column(rows[..n], CONTRACT_FIELDS, 1))
        invariant ContractsRecorded(start, apis, usrs, rows[..n])
      {
        var fields := SplitLine(rows[n], CONTRACT_FIELDS);
        if |fields| != CONTRACT_FIELDS {
          MissingFields(usrs, rows, CONTRACT_FIELDS, n);
          return false;
        }
        RowJoins(rows, CONTRACT_FIELDS, n);
        TicksPrefix(usrs, rows, CONTRACT_FIELDS, n);
        var f := FindApi(fields[1]);
        ContractsRecordedStep(start, apis, usrs, rows, n);
        if f == |apis| || apis[f].conformanceSeen {
          return false;
        }
        apis := apis[f := apis[f].(conformanceSeen := true, requireArguments := fields[2] == "true",
                                   requireResult := fields[3] == "true")];
      }
      assert rows[..|rows|] == rows;
      AllTicked(usrs, rows, CONTRACT_FIELDS);
      return true;
    }

    method FindMacro(macros: seq<Line>, symbol: string) returns (found: bool)
      ensures found <==> MacroPresent(macros, symbol)
    {
      var expected := "#define " + symbol;
      if |expected| >= MAX_NAME + MACRO_EXTRA {
        return false;
      }
      for j := 0 to |macros|
        invariant forall k :: 0 <= k < j ==> !DefinesSymbol(macros[k], symbol)
      {
        if DefinesSymbol(macros[j], symbol) {
          return true;
        }
      }
      return false;
    }

    /** Cuts the next comma token out of a buffer, in place. */
    method NextToken(buffer: array<char>, cursor: nat, ghost rest: string)
      returns (symbol: string, next: nat, ghost tail: string)
      requires rest != "" && Remaining(buffer[..], cursor, rest)
      modifies buffer
      ensures next < buffer.Length && Remaining(buffer[..], next, tail)
      ensures Tokens(rest) == [symbol] + Tokens(tail) && |tail| < |rest|
    {
      assert buffer[..][cursor..][|rest|] == '\0';
      var end := PieceEnd(COMMAS, buffer, cursor, cursor + |rest|);
      ghost var original := buffer[..];
      TokenCut(original, cursor, end, rest);
      hide Tokens, CString;
      tail := if end - cursor < |rest| then rest[end - cursor + 1..] else "";
      if buffer[end] == ',' {
        buffer[end] := '\0';
        next := end + 1;
      } else {
        next := end;
      }
      assert buffer[..] == original[end := '\0'];
      symbol := CString(buffer[..], cursor);
    }

    /** One more expected fault, if it fits; start holds the table before the row, all the symbols the row keeps. */
    method ExpectSymbol(row: Line, wrapper: string, domain: string, symbol: string, ghost conditional: string,
                        ghost macros: seq<Line>, ghost start: seq<ExpectedFault>, ghost kept: seq<string>,
                        ghost later: seq<string>, ghost all: seq<string>)
      returns (loaded: bool, ghost now: seq<string>)
      requires HasFields(row, FAULT_FIELDS) && Available(symbol, conditional, macros)
      requires wrapper == FieldAt(row, FAULT_FIELDS, 0) && domain == FieldAt(row, FAULT_FIELDS, 2)
      requires kept + Keep([symbol] + later, conditional, macros) == all
      requires faults == start + RowFaults(row, kept) && |faults| <= MAX_FAULTS && AllFit(RowFaults(row, kept))
      modifies this`faults
      ensures loaded ==>
                && now + Keep(later, conditional, macros) == all
                && faults == start + RowFaults(row, now) && |faults| <= MAX_FAULTS && AllFit(RowFaults(row, now))
      ensures !loaded ==> !AllFit(RowFaults(row, all)) || |start| + |RowFaults(row, all)| > MAX_FAULTS
    {
      SymbolStep(row, kept, symbol, later, all, conditional, macros);
      hide HasFields, FieldAt, Available, RowFaults, AllFit, Keep, Fits;
      var fault := ExpectedFault(Fault(wrapper, domain, symbol), false);
      now := kept + [symbol];
      if |faults| >= MAX_FAULTS || !Fits(fault) {
        return false, now;
      }
      faults := faults + [fault];
      loaded := true;
    }

    /** The expansion loop for one row: one expected fault for each available symbol, while there is room. */
    method ExpandRow(row: Line, platform: string, conditional: string, wrapper: string, domain: string,
                     macros: seq<Line>)
      returns (loaded: bool)
      requires HasFields(row, FAULT_FIELDS) && '\0' !in platform
      requires wrapper == FieldAt(row, FAULT_FIELDS, 0) && domain == FieldAt(row, FAULT_FIELDS, 2)
      requires |faults| <= MAX_FAULTS
      modifies this`faults
      ensures var more := RowFaults(row, Keep(Tokens(platform), conditional, macros));
              && (loaded <==> AllFit(more) && |old(faults)| + |more| <= MAX_FAULTS)
              && (loaded ==> faults == old(faults) + more)
    {
      hide Tokens, HasFields, FieldAt, Available, RowFaults, AllFit, Keep, Fits, Remaining, CString, MacroPresent;
      var buffer := NewBuffer(platform);
      var cursor: nat := 0;
      ghost var rest, all := platform, Keep(Tokens(platform), conditional, macros);
      ghost var kept: seq<string> := [];
      NoRowFaults(row);
      AllRemains(buffer[..], platform);
      assert kept + all == all;
      while buffer[cursor] != '\0'
        invariant cursor < buffer.Length && Remaining(buffer[..], cursor, rest)
        invariant kept + Keep(Tokens(rest), conditional, macros) == all
        invariant faults == old(faults) + RowFaults(row, kept) && |faults| <= MAX_FAULTS && AllFit(RowFaults(row, kept))
        decreases |rest|
      {
        RemainingEmpty(buffer[..], cursor, rest);
        var symbol;
        symbol, cursor, rest := NextToken(buffer, cursor, rest);
        var listed := ListContains(conditional, symbol);
        var available := true;
        if listed {
          available := FindMacro(macros, symbol);
        }
        AvailableMeans(symbol, conditional, macros);
        if available {
          loaded, kept :=
            ExpectSymbol(row, wrapper, domain, symbol, conditional, macros, old(faults), kept, Tokens(rest), all);
          if !loaded {
            return false;
          }
        } else {
          SymbolStep(row, kept, symbol, Tokens(rest), all, conditional, macros);
        }
      }
      RemainingEmpty(buffer[..], cursor, rest);
      NoTokens(rest);
      KeepNothing(conditional, macros);
      assert kept + [] == kept;
      return true;
    }

    method LoadFaultManifest(lines: seq<Line>, platform: string, macros: seq<Line>) returns (loaded: bool)
      requires faults == []
      modifies this`faults
      ensures loaded <==> FaultManifestFits(Rows(lines), apis, PlatformColumns(platform), macros)
      ensures loaded ==> faults == ManifestFaults(Rows(lines), apis, PlatformColumns(platform), macros)
    {
      var columns := PlatformColumns(platform);
      if columns.Unsupported? {
        return false;
      }
      var rows := Rows(lines);
      hide RowAdmitted, AllAdmitted, ManifestFaults, FaultManifestFits, RowFaults, TabFields, AllFit;
      NothingAdmittedYet(apis, columns, macros);
      for n := 0 to |rows|
        invariant AllAdmitted(rows[..n], apis, columns, macros)
        invariant faults == ManifestFaults(rows[..n], apis, columns, macros) && |faults| <= MAX_FAULTS
      {
        var fields := SplitLine(rows[n], FAULT_FIELDS);
        RowVerdict(rows, n, apis, columns, macros);
        if |fields| != FAULT_FIELDS {
          return false;
        }
        var f := FindApi(fields[1]);
        if f == |apis| || !apis[f].faultTest {
          return false;
        }
        FieldsHaveNoNul(rows[n], FAULT_FIELDS, columns.platform);
        loaded := ExpandRow(rows[n], fields[columns.platform], fields[columns.conditional], fields[0], fields[2],
                            macros);
        if !loaded {
          return false;
        }
      }
      assert rows[..|rows|] == rows;
      return true;
    }

    method FindFault(fault: Fault) returns (f: nat)
      ensures f == FirstIndex(Keys(faults), fault) && f <= |faults|
    {
      f := 0;
      while f < |faults| && faults[f].fault != fault
        invariant f <= |faults| && fault !in Keys(faults)[..f]
      {
        assert Keys(faults)[..f + 1] == Keys(faults)[..f] + [faults[f].fault];
        f := f + 1;
      }
      if f < |faults| {
        FirstIndexUnique(Keys(faults), fault, f);
      } else {
        assert Keys(faults)[..f] == Keys(faults);
      }
    }

    /** One well-formed outcome line: a finding, a tick, or both. */
    method TakeOutcome(fields: seq<string>, ghost start: seq<ExpectedFault>, ghost base: nat,
                       ghost lines: seq<Line>, ghost n: nat)
      requires n < |lines| && OutcomeLine(lines[n]) && OutcomeLines(lines[..n + 1])
      requires fields == TabFields(lines[n], OUT_FIELDS)
      requires OutcomeState(start, faults, outcomesObserved, findings, base, lines[..n])
      modifies this`faults, this`outcomesObserved, this`findings
      ensures OutcomeState(start, faults, outcomesObserved, findings, base, lines[..n + 1])
    {
      hide OutcomeState, OutcomeLines, TabFields, OutcomeLine, FaultOf, Passes, Keys, FirstIndex, One;
      OutcomeFields(lines[n]);
      var key, failed := Fault(fields[5], fields[6], fields[7]), fields[9] != "PASS";
      var f := FindFault(key);
      if f == |faults| || faults[f].observed {
        OutcomeRejected(start, faults, outcomesObserved, findings, base, lines, n);
        findings := findings + 1;
      } else {
        OutcomeTicks(start, faults, outcomesObserved, findings, base, lines, n, f);
        Finding(failed);
        faults := faults[f := faults[f].(observed := true)];
        outcomesObserved := outcomesObserved + 1;
      }
    }

    /** Unlike the manifests, outcomes have no header line, and a line out of place is a finding, not an error. */
    method LoadOutcomes(lines: seq<Line>) returns (loaded: bool)
      requires outcomesObserved == 0 && forall i :: 0 <= i < |faults| ==> !faults[i].observed
      modifies this`faults, this`outcomesObserved, this`findings
      ensures loaded <==> OutcomeLines(lines)
      ensures loaded ==>
                && OutcomesRecorded(old(faults), faults, FaultsOf(lines))
                && findings == old(findings) + Rejections(Keys(faults), FaultsOf(lines)) + Failures(Keys(faults), lines)
                && outcomesObserved == MarkedCount(Keys(faults), FaultsOf(lines))
    {
      ghost var start, base := faults, findings;
      NoOutcomesYet(start, base);
      hide OutcomeState, OutcomeLines, TabFields, OutcomeLine, FaultOf, Passes, Keys, FirstIndex, FaultsOf,
           Rejections, Failures, MarkedCount, OutcomesRecorded;
      for n := 0 to |lines|
        invariant OutcomeState(start, faults, outcomesObserved, findings, base, lines[..n])
      {
        var fields := SplitLine(lines[n], OUT_FIELDS);
        OutcomeVerdict(start, faults, outcomesObserved, findings, base, lines, n);
        if |fields| != OUT_FIELDS {
          return false;
        }
        if fields[0] != "P101WRAPPER" {
          return false;
        }
        TakeOutcome(fields, start, base, lines, n);
      }
      assert lines[..|lines|] == lines;
      OutcomesDone(start, faults, outcomesObserved, findings, base, lines);
      return true;
    }

    /** find_api_name: the first row with this name, or the count. */
    method FindApiName(name: string) returns (f: nat)
      ensures f == FirstIndex(ApiNames(apis), name) && f <= |apis|
    {
      f := 0;
      while f < |apis| && apis[f].name != name
        invariant f <= |apis| && name !in ApiNames(apis)[..f]
      {
        assert ApiNames(apis)[..f + 1] == ApiNames(apis)[..f] + [apis[f].name];
        f := f + 1;
      }
      if f < |apis| {
        FirstIndexUnique(ApiNames(apis), name, f);
      } else {
        assert ApiNames(apis)[..f] == ApiNames(apis);
      }
    }

    /** A receipt that cannot be read, is of another kind or did not pass has no rows at all. */
    method LoadInstrumentation(document: Option<seq<Capability>>, library: string) returns (loaded: bool)
      requires forall i :: 0 <= i < |apis| ==> apis[i].trace == NO_TRACE
      modifies this`apis
      ensures loaded <==> document.Some? && AllRead(document.value, library, Usrs(old(apis)))
      ensures loaded ==> CapabilitiesRecorded(old(apis), apis, document.value, library)
    {
      hide CapabilitiesRecorded, AllRead, Capability.Reads, Capability.Concerns, Usrs, FirstIndex;
      if document.None? {
        return false;
      }
      var rows := document.value;
      ghost var start := apis;
      CapabilitiesStart(start, library);
      for n := 0 to |rows|
        invariant Usrs(apis) == Usrs(start) && AllRead(rows[..n], library, Usrs(start))
        invariant CapabilitiesRecorded(start, apis, rows[..n], library)
      {
        var row := rows[n];
        RowReads(rows, n, library, Usrs(start));
        CapabilitiesNext(start, apis, rows, n, library);
        if row.library.None? {
          return false;
        }
        if row.library.value == library {
          if row.usr.None? {
            return false;
          }
          var f := FindApi(row.usr.value);
          if f == |apis| {
            return false;
          }
          var api := apis[f].(trace := apis[f].trace.(seen := true));
          if row.hasEnv.None? {
            return false;
          }
          apis := apis[f := api.(trace := api.trace.(applicable := row.hasEnv.value))];
        }
      }
      assert rows[..|rows|] == rows;
      return true;
    }

    /** Nodes of other domains and unknown names are passed over. */
    method LoadModel(document: Option<seq<CallNode>>) returns (loaded: bool)
      requires forall i :: 0 <= i < |apis| ==>
                 && apis[i].trace.enters == apis[i].trace.exits == 0
                 && !apis[i].trace.arguments && !apis[i].trace.result
      modifies this`apis
      ensures loaded <==> document.Some? && AllNodesRead(document.value)
      ensures loaded ==> CallsRecorded(old(apis), apis, document.value)
    {
      hide CallsRecorded, AllNodesRead, CallNode.Reads, CallNode.IsCall, ApiNames, FirstIndex, Counted;
      if document.None? {
        return false;
      }
      var nodes := document.value;
      ghost var start := apis;
      CallsStart(start);
      for n := 0 to |nodes|
        invariant ApiNames(apis) == ApiNames(start) && AllNodesRead(nodes[..n])
        invariant CallsRecorded(start, apis, nodes[..n])
      {
        var node := nodes[n];
        NodeReads(nodes, n);
        CallsNext(start, apis, nodes, n);
        if node.domain.None? {
          return false;
        }
        if node.domain.value == "call" {
          if node.name.None? || node.kind.None? {
            return false;
          }
          var f := FindApiName(node.name.value);
          if f < |apis| {
            CountCall(f, node);
          }
        }
      }
      assert nodes[..|nodes|] == nodes;
      return true;
    }

    /** One call of a known API: two comparisons, one after the other. */
    method CountCall(f: nat, node: CallNode)
      requires f < |apis| && node.kind.Some?
      modifies this`apis
      ensures apis == old(apis)[f := old(apis)[f].(trace := Counted(old(apis)[f].trace, node))]
    {
      assert ENTER[6] != EXIT[6];
      var trace := apis[f].trace;
      if node.kind.value == ENTER {
        trace := trace.(enters := trace.enters + 1);
        if node.arguments.Some? {
          trace := trace.(arguments := Meaningful(node.arguments.value));
        }
      }
      if node.kind.value == EXIT {
        trace := trace.(exits := trace.exits + 1);
        if node.result.Some? {
          trace := trace.(result := Meaningful(node.result.value));
        }
      }
      apis := apis[f := apis[f].(trace := trace)];
    }

    method Finding(raised: bool)
      modifies this`findings
      ensures findings == old(findings) + One(raised)
    {
      if raised {
        findings := findings + 1;
      }
    }

    /** The conditions one API has to meet, each a finding of its own. */
    method ValidateApi(a: Api)
      modifies this`findings
      ensures findings == old(findings) + ApiFindingsOf(a)
    {
      Finding(!a.tested);
      Finding(!a.conformanceSeen);
      Finding(!a.trace.seen);
      Finding(a.trace.applicable && a.trace.enters == 0);
      Finding(a.trace.applicable && a.trace.enters != a.trace.exits);
      Finding(a.faultTest && a.trace.enters == 0);
      Finding(a.requireArguments && !a.trace.arguments);
      Finding(a.requireResult && !a.trace.result);
    }

    method Validate() returns (valid: bool)
      modifies this`findings
      ensures findings == old(findings) + ApiFindings(apis) + MissingFaults(faults)
      ensures valid <==> findings == 0
    {
      TotalsStart();
      hide ApiFindings, ApiFindingsOf, MissingFaults;
      for index := 0 to |apis|
        invariant findings == old(findings) + ApiFindings(apis[..index])
      {
        ApiFindingsStep(apis, index);
        ValidateApi(apis[index]);
      }
      assert apis[..|apis|] == apis;
      for index := 0 to |faults|
        invariant findings == old(findings) + ApiFindings(apis) + MissingFaults(faults[..index])
      {
        MissingFaultsStep(faults, index);
        Finding(!faults[index].observed);
      }
      assert faults[..|faults|] == faults;
      valid := findings == 0;
    }

    /** The receipt as printed: the two fault numbers stand under each other's names. */
    method WriteReceipt() returns (receipt: Receipt)
      ensures receipt.apis == |apis| && receipt.findings == findings && (receipt.passed <==> findings == 0)
      ensures receipt.traceApplicable == Traced(apis, 0) && receipt.invoked == Traced(apis, 1)
      ensures receipt.faultCases == outcomesObserved && receipt.faultOutcomesObserved == |faults|
    {
      var traced, invoked := 0, 0;
      for index := 0 to |apis|
        invariant traced == Traced(apis[..index], 0) && invoked == Traced(apis[..index], 1)
      {
        assert apis[..index + 1][..index] == apis[..index];
        if apis[index].trace.applicable {
          traced := traced + 1;
          if apis[index].trace.enters > 0 {
            invoked := invoked + 1;
          }
        }
      }
      assert apis[..|apis|] == apis;
      receipt := Receipt(|apis|, traced, invoked, outcomesObserved, |faults|, findings, findings == 0);
    }
  }

  // ----- the two documents -----

  /** Every API has the traces that the rows so far give it. */
  predicate CapabilitiesRecorded(start: seq<Api>, now: seq<Api>, rows: seq<Capability>, library: string) {
    && |now| == |start|
    && forall i :: 0 <= i < |now| ==> now[i] == start[i].(trace := Instrumented(rows, library, Usrs(start), i))
  }

  lemma CapabilitiesStart(start: seq<Api>, library: string)
    requires forall i :: 0 <= i < |start| ==> start[i].trace == NO_TRACE
    ensures CapabilitiesRecorded(start, start, [], library) && AllRead([], library, Usrs(start))
  {
  }

  /** Whether row n can be read, and what that means for all of them. */
  lemma RowReads(rows: seq<Capability>, n: nat, library: string, usrs: seq<string>)
    requires n < |rows| && AllRead(rows[..n], library, usrs)
    ensures AllRead(rows[..n + 1], library, usrs) <==> rows[n].Reads(library, usrs)
    ensures !rows[n].Reads(library, usrs) ==> !AllRead(rows, library, usrs)
    ensures rows[n].Reads(library, usrs) <==>
            && rows[n].library.Some?
            && (rows[n].library.value == library ==>
                  rows[n].usr.Some? && FirstIndex(usrs, rows[n].usr.value) < |usrs| && rows[n].hasEnv.Some?)
  {
    hide Capability.Reads;
    assert forall j :: 0 <= j < n ==> rows[..n + 1][j] == rows[..n][j];
    assert rows[..n + 1][n] == rows[n];
    RowReadsMeans(rows[n], library, usrs);
  }

  lemma RowReadsMeans(row: Capability, library: string, usrs: seq<string>)
    ensures row.Reads(library, usrs) <==>
            && row.library.Some?
            && (row.library.value == library ==>
                  row.usr.Some? && FirstIndex(usrs, row.usr.value) < |usrs| && row.hasEnv.Some?)
  {
  }

  /** Row n changes the API its USR leads to, and no other. */
  lemma CapabilitiesNext(start: seq<Api>, now: seq<Api>, rows: seq<Capability>, n: nat, library: string)
    requires n < |rows| && CapabilitiesRecorded(start, now, rows[..n], library) && Usrs(now) == Usrs(start)
    ensures |now| == |start| == |Usrs(start)|
    ensures rows[n].library != Some(library) ==> CapabilitiesRecorded(start, now, rows[..n + 1], library)
    ensures rows[n].library == Some(library) && rows[n].usr.Some? && rows[n].hasEnv.Some? ==>
              var f := FirstIndex(Usrs(start), rows[n].usr.value);
              f < |now| ==>
                var next := now[f := now[f].(trace := now[f].trace.(seen := true, applicable := rows[n].hasEnv.value))];
                CapabilitiesRecorded(start, next, rows[..n + 1], library) && Usrs(next) == Usrs(start)
  {
    hide Instrumented, FirstIndex;
    forall i | 0 <= i < |start|
      ensures var before, after := Instrumented(rows[..n], library, Usrs(start), i),
                                   Instrumented(rows[..n + 1], library, Usrs(start), i);
              after == if rows[n].Concerns(library) && rows[n].usr.Some?
                          && i == FirstIndex(Usrs(start), rows[n].usr.value)
                       then before.(seen := true, applicable := rows[n].hasEnv == Some(true)) else before
    {
      InstrumentedStep(rows, n, library, Usrs(start), i);
    }
  }

  /** Every API has the calls that the nodes so far give it. */
  predicate CallsRecorded(start: seq<Api>, now: seq<Api>, nodes: seq<CallNode>) {
    && |now| == |start|
    && forall i :: 0 <= i < |now| ==> now[i] == start[i].(trace := WithCalls(start[i].trace, nodes, ApiNames(start), i))
  }

  lemma CallsStart(start: seq<Api>)
    requires forall i :: 0 <= i < |start| ==>
               && start[i].trace.enters == start[i].trace.exits == 0
               && !start[i].trace.arguments && !start[i].trace.result
    ensures CallsRecorded(start, start, []) && AllNodesRead([])
  {
    hide WithCalls;
    forall i | 0 <= i < |start| ensures WithCalls(start[i].trace, [], ApiNames(start), i) == start[i].trace {
      NoCallsYet(start[i].trace, ApiNames(start), i);
    }
  }

  lemma NodeReads(nodes: seq<CallNode>, n: nat)
    requires n < |nodes| && AllNodesRead(nodes[..n])
    ensures AllNodesRead(nodes[..n + 1]) <==> nodes[n].Reads()
    ensures !nodes[n].Reads() ==> !AllNodesRead(nodes)
    ensures nodes[n].Reads() <==>
            nodes[n].domain.Some? && (nodes[n].domain.value == "call" ==> nodes[n].name.Some? && nodes[n].kind.Some?)
  {
    hide CallNode.Reads;
    assert forall j :: 0 <= j < n ==> nodes[..n + 1][j] == nodes[..n][j];
    assert nodes[..n + 1][n] == nodes[n];
    NodeReadsMeans(nodes[n]);
  }

  lemma NodeReadsMeans(node: CallNode)
    ensures node.Reads() <==>
            node.domain.Some? && (node.domain.value == "call" ==> node.name.Some? && node.kind.Some?)
  {
  }

  /** Node n counts for the API its name leads to, and for no other. */
  lemma CallsNext(start: seq<Api>, now: seq<Api>, nodes: seq<CallNode>, n: nat)
    requires n < |nodes| && CallsRecorded(start, now, nodes[..n]) && ApiNames(now) == ApiNames(start)
    ensures |now| == |start| == |ApiNames(start)|
    ensures nodes[n].domain != Some("call") ==> CallsRecorded(start, now, nodes[..n + 1])
    ensures nodes[n].domain == Some("call") && nodes[n].name.Some? ==>
              var f := FirstIndex(ApiNames(start), nodes[n].name.value);
              if f < |now| then
                var next := now[f := now[f].(trace := Counted(now[f].trace, nodes[n]))];
                CallsRecorded(start, next, nodes[..n + 1]) && ApiNames(next) == ApiNames(start)
              else CallsRecorded(start, now, nodes[..n + 1])
  {
    hide WithCalls, FirstIndex, Counted;
    forall i | 0 <= i < |start|
      ensures WithCalls(start[i].trace, nodes[..n + 1], ApiNames(start), i) ==
              if nodes[n].IsCall() && nodes[n].name.Some? && i == FirstIndex(ApiNames(start), nodes[n].name.value)
              then Counted(WithCalls(start[i].trace, nodes[..n], ApiNames(start), i), nodes[n])
              else WithCalls(start[i].trace, nodes[..n], ApiNames(start), i)
    {
      WithCallsStep(start[i].trace, nodes, n, ApiNames(start), i);
    }
  }

  const COMMAS := Style(',', false)

  lemma TokenCut(original: seq<char>, cursor: nat, end: nat, rest: string)
    requires cursor <= |original| && original[cursor..] == rest + "\0" && '\0' !in rest && rest != ""
    requires cursor <= end <= cursor + |rest|
    requires forall k :: cursor <= k < end ==> original[k] != ','
    requires original[end] == '\0' || original[end] == ','
    ensures var n := end - cursor;
            var tail := if n < |rest| then rest[n + 1..] else "";
            && '\0' !in tail && |tail| < |rest|
            && Tokens(rest) == [rest[..n]] + Tokens(tail)
            && CString(original[end := '\0'], cursor) == rest[..n]
            && (original[end] == ',' <==> n < |rest|)
            && original[end := '\0'][if n < |rest| then end + 1 else end..] == tail + "\0"
  {
    var n := end - cursor;
    forall k | 0 <= k <= |rest|
      ensures original[cursor + k] == (rest + "\0")[k]
      ensures k < |rest| ==> original[cursor + k] == rest[k] != '\0'
    {
      assert original[cursor..][k] == original[cursor + k];
      assert k < |rest| ==> rest[k] in rest;
    }
    hide Tokens, CString;
    forall k | 0 <= k < n ensures rest[k] != ',' {
      assert original[cursor + k] == rest[k];
    }
    TextCut(rest, n);
    BufferCut(original, cursor, end, rest);
  }

  lemma TextCut(rest: string, n: nat)
    requires rest != "" && '\0' !in rest && n <= |rest|
    requires forall k :: 0 <= k < n ==> rest[k] != ','
    requires n < |rest| ==> rest[n] == ','
    ensures var tail := if n < |rest| then rest[n + 1..] else "";
            '\0' !in tail && |tail| < |rest| && Tokens(rest) == [rest[..n]] + Tokens(tail)
  {
    TokensStep(rest, n);
    NoTokens("");
  }

  /** Ending the token where it ends leaves the token before the cut and the rest of the text after it. */
  lemma BufferCut(original: seq<char>, cursor: nat, end: nat, rest: string)
    requires cursor <= end <= cursor + |rest| && |original| == cursor + |rest| + 1
    requires forall k :: 0 <= k <= |rest| ==> original[cursor + k] == (rest + "\0")[k]
    requires forall k :: 0 <= k < end - cursor ==> original[cursor + k] == rest[k] != '\0'
    ensures var n := end - cursor;
            var tail := if n < |rest| then rest[n + 1..] else "";
            && CString(original[end := '\0'], cursor) == rest[..n]
            && original[end := '\0'][if n < |rest| then end + 1 else end..] == tail + "\0"
  {
    var n, cut := end - cursor, original[end := '\0'];
    forall k | cursor <= k < end ensures cut[k] == rest[k - cursor] != '\0' {
      assert original[cursor + (k - cursor)] == rest[k - cursor];
    }
    CStringIs(cut, cursor, end);
    assert cut[cursor..end] == rest[..n];
    if n < |rest| {
      forall k | end + 1 <= k < |cut| ensures cut[k] == (rest[n + 1..] + "\0")[k - end - 1] {
        assert original[cursor + (k - cursor)] == (rest + "\0")[k - cursor];
      }
      assert cut[end + 1..] == rest[n + 1..] + "\0";
    } else {
      assert cut[end..] == "\0";
    }
  }

  lemma NoRowFaults(row: Line)
    requires HasFields(row, FAULT_FIELDS)
    ensures RowFaults(row, []) == [] && AllFit([])
  {
  }

  lemma KeepNothing(conditional: string, macros: seq<Line>)
    ensures Keep([], conditional, macros) == []
  {
  }

  /** What is left of a token buffer: rest, from cursor to the terminator. */
  predicate Remaining(buffer: seq<char>, cursor: nat, rest: string) {
    cursor < |buffer| && '\0' !in rest && buffer[cursor..] == rest + "\0"
  }

  lemma AllRemains(buffer: seq<char>, text: string)
    requires buffer == text + "\0" && '\0' !in text
    ensures Remaining(buffer, 0, text)
  {
    assert buffer[0..] == buffer;
  }

  lemma RemainingEmpty(buffer: seq<char>, cursor: nat, rest: string)
    requires Remaining(buffer, cursor, rest)
    ensures cursor < |buffer| && (buffer[cursor] == '\0' <==> rest == "")
  {
  }

  lemma KeepUnfolds(symbol: string, later: seq<string>, conditional: string, macros: seq<Line>)
    ensures Keep([symbol] + later, conditional, macros) ==
            (if Available(symbol, conditional, macros) then [symbol] else []) + Keep(later, conditional, macros)
  {
  }

  lemma RowFaultsGrow(row: Line, kept: seq<string>, symbol: string, more: seq<string>)
    requires HasFields(row, FAULT_FIELDS)
    ensures var fault := ExpectedFault(Fault(FieldAt(row, FAULT_FIELDS, 0), FieldAt(row, FAULT_FIELDS, 2), symbol),
                                       false);
            var all := kept + [symbol] + more;
            && |RowFaults(row, all)| > |kept|
            && (AllFit(RowFaults(row, all)) ==> Fits(fault))
            && RowFaults(row, kept + [symbol]) == RowFaults(row, kept) + [fault]
            && (AllFit(RowFaults(row, kept)) && Fits(fault) ==> AllFit(RowFaults(row, kept + [symbol])))
  {
    var all := kept + [symbol] + more;
    assert all[|kept|] == symbol;
    assert RowFaults(row, all)[|kept|].fault.symbol == symbol;
  }

  /** One more symbol of a row, kept or passed over. */
  lemma SymbolStep(row: Line, kept: seq<string>, symbol: string, later: seq<string>, all: seq<string>,
                   conditional: string, macros: seq<Line>)
    requires HasFields(row, FAULT_FIELDS) && kept + Keep([symbol] + later, conditional, macros) == all
    ensures var fault := ExpectedFault(Fault(FieldAt(row, FAULT_FIELDS, 0), FieldAt(row, FAULT_FIELDS, 2), symbol),
                                       false);
            if Available(symbol, conditional, macros) then
              && kept + [symbol] + Keep(later, conditional, macros) == all
              && |RowFaults(row, all)| > |kept|
              && (AllFit(RowFaults(row, all)) ==> Fits(fault))
              && RowFaults(row, kept + [symbol]) == RowFaults(row, kept) + [fault]
              && (AllFit(RowFaults(row, kept)) && Fits(fault) ==> AllFit(RowFaults(row, kept + [symbol])))
            else kept + Keep(later, conditional, macros) == all
  {
    hide Keep, RowFaults, AllFit, Fits, Available, HasFields, FieldAt;
    KeepUnfolds(symbol, later, conditional, macros);
    if Available(symbol, conditional, macros) {
      var more := Keep(later, conditional, macros);
      assert kept + ([symbol] + more) == kept + [symbol] + more;
      RowFaultsGrow(row, kept, symbol, more);
    } else {
      assert kept + ([] + Keep(later, conditional, macros)) == kept + Keep(later, conditional, macros);
    }
  }

  lemma AvailableMeans(symbol: string, conditional: string, macros: seq<Line>)
    ensures Available(symbol, conditional, macros) <==>
            symbol !in Tokens(conditional) || MacroPresent(macros, symbol)
  {
  }

  predicate FaultManifestFits(rows: seq<Line>, apis: seq<Api>, columns: Columns, macros: seq<Line>)
    requires columns.Columns? ==> columns.platform < FAULT_FIELDS && columns.conditional < FAULT_FIELDS
  {
    columns.Columns? && AllAdmitted(rows, apis, columns, macros) &&
    |ManifestFaults(rows, apis, columns, macros)| <= MAX_FAULTS
  }

  lemma NothingAdmittedYet(apis: seq<Api>, columns: Columns, macros: seq<Line>)
    requires columns.Columns? && columns.platform < FAULT_FIELDS && columns.conditional < FAULT_FIELDS
    ensures AllAdmitted([], apis, columns, macros) && ManifestFaults([], apis, columns, macros) == []
    ensures forall rows :: FaultManifestFits(rows, apis, columns, macros) <==>
                           AllAdmitted(rows, apis, columns, macros) &&
                           |ManifestFaults(rows, apis, columns, macros)| <= MAX_FAULTS
  {
  }

  /** What row n decides: the whole manifest is refused, or the list of expected faults grows by the row's. */
  lemma RowVerdict(rows: seq<Line>, n: nat, apis: seq<Api>, columns: Columns, macros: seq<Line>)
    requires columns.Columns? && columns.platform < FAULT_FIELDS && columns.conditional < FAULT_FIELDS
    requires n < |rows| && AllAdmitted(rows[..n], apis, columns, macros)
    ensures !HasFields(rows[n], FAULT_FIELDS) ==> !FaultManifestFits(rows, apis, columns, macros)
    ensures HasFields(rows[n], FAULT_FIELDS) ==>
              var f := FirstIndex(Usrs(apis), FieldAt(rows[n], FAULT_FIELDS, 1));
              var more := RowFaults(rows[n], RowSymbols(rows[n], columns, macros));
              var before := ManifestFaults(rows[..n], apis, columns, macros);
              if f < |apis| && apis[f].faultTest && AllFit(more) && |before| + |more| <= MAX_FAULTS then
                && AllAdmitted(rows[..n + 1], apis, columns, macros)
                && ManifestFaults(rows[..n + 1], apis, columns, macros) == before + more
              else !FaultManifestFits(rows, apis, columns, macros)
  {
    AdmittedPrefix(rows, n, apis, columns, macros);
    assert rows[..n + 1][..n] == rows[..n];
    if AllAdmitted(rows, apis, columns, macros) {
      assert RowAdmitted(rows[n], apis, columns, macros);
      ManifestGrows(rows, n + 1, apis, columns, macros);
    }
  }

  lemma FieldsHaveNoNul(row: Line, count: nat, k: nat)
    requires HasFields(row, count) && k < count
    ensures '\0' !in FieldAt(row, count, k)
  {
    var text := BeforeNewline(row);
    assert forall c :: c in text ==> c in row;
    PiecesAvoid(text, '\t', '\0');
  }

  lemma {:induction false} PiecesAvoid(s: string, separator: char, c: char)
    requires c !in s
    ensures forall i :: 0 <= i < |Split(s, separator)| ==> c !in Split(s, separator)[i]
    decreases |s|
  {
    var k := IndexOf(s, separator);
    assert forall x :: x in s[..k] ==> x in s;
    if k < |s| {
      assert forall x :: x in s[k + 1..] ==> x in s;
      PiecesAvoid(s[k + 1..], separator, c);
    }
  }

  /** The table after the unit-test rows, from what it was before. */
  ghost predicate TestsRecorded(start: seq<Api>, now: seq<Api>, usrs: seq<string>, rows: seq<Line>) {
    && |now| == |start| == |usrs| && AllHaveFields(rows, TEST_FIELDS)
    && forall i :: 0 <= i < |now| ==> now[i] == AfterTests(start[i], usrs, rows, i)
  }

  ghost predicate ContractsRecorded(start: seq<Api>, now: seq<Api>, usrs: seq<string>, rows: seq<Line>) {
    && |now| == |start| == |usrs| && AllHaveFields(rows, CONTRACT_FIELDS)
    && forall i :: 0 <= i < |now| ==> now[i] == AfterContracts(start[i], usrs, rows, i)
  }

  lemma NoRowsYet(start: seq<Api>, usrs: seq<string>)
    requires usrs == Usrs(start)
    ensures forall rows: seq<Line>, count :: rows == [] ==> AllHaveFields(rows, count)
    ensures AllAccepted(usrs, Column([], TEST_FIELDS, 1)) && AllAccepted(usrs, Column([], CONTRACT_FIELDS, 1))
    ensures (forall i :: 0 <= i < |start| ==> !start[i].tested && !start[i].faultTest) ==>
              TestsRecorded(start, start, usrs, [])
    ensures (forall i :: 0 <= i < |start| ==>
               !start[i].conformanceSeen && !start[i].requireArguments && !start[i].requireResult) ==>
              ContractsRecorded(start, start, usrs, [])
  {
  }

  lemma MissingFields(usrs: seq<string>, rows: seq<Line>, count: nat, n: nat)
    requires n < |rows| && count > 1 && |TabFields(rows[n], count)| != count
    ensures !Ticks(usrs, rows, count)
  {
  }

  lemma TestsRecordedStep(start: seq<Api>, now: seq<Api>, usrs: seq<string>, rows: seq<Line>, n: nat)
    requires n < |rows| && usrs == Usrs(now) && TestsRecorded(start, now, usrs, rows[..n])
    requires AllHaveFields(rows[..n + 1], TEST_FIELDS)
    ensures HasFields(rows[n], TEST_FIELDS)
    ensures var f := FirstIndex(usrs, FieldAt(rows[n], TEST_FIELDS, 1));
            var accepted := Accepted(usrs, Column(rows[..n + 1], TEST_FIELDS, 1), n);
            && (accepted <==> f < |now| && !now[f].tested)
            && (accepted ==>
                  var a := now[f].(tested := true);
                  var b := if FieldAt(rows[n], TEST_FIELDS, 2) == "fault" then a.(faultTest := true) else a;
                  Usrs(now[f := b]) == usrs && TestsRecorded(start, now[f := b], usrs, rows[..n + 1]))
  {
    TickStep(usrs, rows, TEST_FIELDS, n);
    var f := FirstIndex(usrs, FieldAt(rows[n], TEST_FIELDS, 1));
    if Accepted(usrs, Column(rows[..n + 1], TEST_FIELDS, 1), n) {
      var a := now[f].(tested := true);
      var b := if FieldAt(rows[n], TEST_FIELDS, 2) == "fault" then a.(faultTest := true) else a;
      forall i | 0 <= i < |now| ensures now[f := b][i] == AfterTests(start[i], usrs, rows[..n + 1], i) {
        WordStep(usrs, rows, TEST_FIELDS, n, i, 2, "fault");
      }
    }
  }

  lemma ContractsRecordedStep(start: seq<Api>, now: seq<Api>, usrs: seq<string>, rows: seq<Line>, n: nat)
    requires n < |rows| && usrs == Usrs(now) && ContractsRecorded(start, now, usrs, rows[..n])
    requires AllHaveFields(rows[..n + 1], CONTRACT_FIELDS)
    ensures HasFields(rows[n], CONTRACT_FIELDS)
    ensures var f := FirstIndex(usrs, FieldAt(rows[n], CONTRACT_FIELDS, 1));
            var accepted := Accepted(usrs, Column(rows[..n + 1], CONTRACT_FIELDS, 1), n);
            && (accepted <==> f < |now| && !now[f].conformanceSeen)
            && (accepted ==>
                  var b := now[f].(conformanceSeen := true,
                                   requireArguments := FieldAt(rows[n], CONTRACT_FIELDS, 2) == "true",
                                   requireResult := FieldAt(rows[n], CONTRACT_FIELDS, 3) == "true");
                  Usrs(now[f := b]) == usrs && ContractsRecorded(start, now[f := b], usrs, rows[..n + 1]))
  {
    TickStep(usrs, rows, CONTRACT_FIELDS, n);
    var f := FirstIndex(usrs, FieldAt(rows[n], CONTRACT_FIELDS, 1));
    if Accepted(usrs, Column(rows[..n + 1], CONTRACT_FIELDS, 1), n) {
      var b := now[f].(conformanceSeen := true,
                       requireArguments := FieldAt(rows[n], CONTRACT_FIELDS, 2) == "true",
                       requireResult := FieldAt(rows[n], CONTRACT_FIELDS, 3) == "true");
      forall i | 0 <= i < |now| ensures now[f := b][i] == AfterContracts(start[i], usrs, rows[..n + 1], i) {
        WordStep(usrs, rows, CONTRACT_FIELDS, n, i, 2, "true");
        WordStep(usrs, rows, CONTRACT_FIELDS, n, i, 3, "true");
      }
    }
  }

  lemma AllTicked(usrs: seq<string>, rows: seq<Line>, count: nat)
    requires count > 1 && AllHaveFields(rows, count) && AllAccepted(usrs, Column(rows, count, 1))
    ensures Ticks(usrs, rows, count)
  {
  }

  lemma RowJoins(rows: seq<Line>, count: nat, n: nat)
    requires n < |rows| && AllHaveFields(rows[..n], count) && HasFields(rows[n], count)
    ensures AllHaveFields(rows[..n + 1], count)
  {
  }

  /** How the rows read so far bear on the whole manifest. */
  lemma TicksPrefix(usrs: seq<string>, rows: seq<Line>, count: nat, n: nat)
    requires count > 1 && n < |rows| && AllHaveFields(rows[..n], count) && AllHaveFields(rows[..n + 1], count)
    requires AllAccepted(usrs, Column(rows[..n], count, 1))
    ensures Accepted(usrs, Column(rows[..n + 1], count, 1), n) ==> AllAccepted(usrs, Column(rows[..n + 1], count, 1))
    ensures Ticks(usrs, rows, count) ==> Accepted(usrs, Column(rows[..n + 1], count, 1), n)
  {
    var now := Column(rows[..n + 1], count, 1);
    assert rows[..n + 1][..n] == rows[..n];
    ColumnPrefix(rows[..n + 1], count, 1, n);
    forall j | 0 <= j < n ensures Accepted(usrs, now, j) {
      assert Accepted(usrs, Column(rows[..n], count, 1), j);
      assert now[..n][..j] == now[..j];
    }
    if Ticks(usrs, rows, count) {
      ColumnPrefix(rows, count, 1, n + 1);
      var keys := Column(rows, count, 1);
      assert Accepted(usrs, keys, n);
      assert keys[..n + 1][..n] == keys[..n];
    }
  }

  // ----- outcomes -----

  /** A fault is observed exactly when some outcome line ticked it. */
  ghost predicate OutcomesRecorded(start: seq<ExpectedFault>, now: seq<ExpectedFault>, presented: seq<Fault>) {
    && |now| == |start|
    && forall i :: 0 <= i < |now| ==>
         now[i] == ExpectedFault(start[i].fault, Marked(Keys(start), presented, i))
  }

  /** Flags, counter and findings after some outcome lines. */
  ghost predicate OutcomeState(start: seq<ExpectedFault>, now: seq<ExpectedFault>, observed: nat, findings: nat,
                               base: nat, lines: seq<Line>)
  {
    && OutcomeLines(lines)
    && OutcomesRecorded(start, now, FaultsOf(lines))
    && Keys(now) == Keys(start)
    && findings == base + Rejections(Keys(start), FaultsOf(lines)) + Failures(Keys(start), lines)
    && observed == MarkedCount(Keys(start), FaultsOf(lines))
  }

  lemma NoOutcomesYet(start: seq<ExpectedFault>, base: nat)
    requires forall i :: 0 <= i < |start| ==> !start[i].observed
    ensures OutcomeState(start, start, 0, base, base, [])
  {
    NothingMarkedYet(Keys(start));
  }

  lemma OutcomesDone(start: seq<ExpectedFault>, now: seq<ExpectedFault>, observed: nat, findings: nat,
                     base: nat, lines: seq<Line>)
    requires OutcomeState(start, now, observed, findings, base, lines)
    ensures OutcomeLines(lines) && Keys(now) == Keys(start)
    ensures OutcomesRecorded(start, now, FaultsOf(lines))
    ensures findings == base + Rejections(Keys(now), FaultsOf(lines)) + Failures(Keys(now), lines)
    ensures observed == MarkedCount(Keys(now), FaultsOf(lines))
  {
  }

  lemma OutcomeVerdict(start: seq<ExpectedFault>, now: seq<ExpectedFault>, observed: nat, findings: nat,
                       base: nat, lines: seq<Line>, n: nat)
    requires n < |lines| && OutcomeState(start, now, observed, findings, base, lines[..n])
    ensures OutcomeLine(lines[n]) <==>
            |TabFields(lines[n], OUT_FIELDS)| == OUT_FIELDS && TabFields(lines[n], OUT_FIELDS)[0] == "P101WRAPPER"
    ensures if OutcomeLine(lines[n]) then OutcomeLines(lines[..n + 1]) else !OutcomeLines(lines)
  {
    var longer := lines[..n + 1];
    if OutcomeLine(lines[n]) {
      forall j | 0 <= j < n + 1 ensures OutcomeLine(longer[j]) {
        assert j < n ==> lines[..n][j] == lines[j];
      }
    }
  }

  /** A ticking line sets one flag; a rejected one sets none. */
  lemma OutcomeFlags(start: seq<ExpectedFault>, now: seq<ExpectedFault>, presented: seq<Fault>, key: Fault)
    requires OutcomesRecorded(start, now, presented)
    ensures var keys, after := Keys(start), presented + [key];
            var f := FirstIndex(keys, key);
            && (Accepted(keys, after, |presented|) <==> f < |now| && !now[f].observed)
            && (if f < |now| && !now[f].observed then
                  var next := now[f := now[f].(observed := true)];
                  OutcomesRecorded(start, next, after) && Keys(next) == Keys(now)
                else OutcomesRecorded(start, now, after))
  {
  }

  /** The counters move with it. */
  lemma OutcomeCounts(keys: seq<Fault>, lines: seq<Line>, n: nat)
    requires n < |lines| && OutcomeLines(lines[..n]) && OutcomeLine(lines[n]) && OutcomeLines(lines[..n + 1])
    ensures FaultsOf(lines[..n + 1]) == FaultsOf(lines[..n]) + [FaultOf(lines[n])]
    ensures var before, after := FaultsOf(lines[..n]), FaultsOf(lines[..n + 1]);
            var accepted := Accepted(keys, after, n);
            && Rejections(keys, after) == Rejections(keys, before) + One(!accepted)
            && Failures(keys, lines[..n + 1]) == Failures(keys, lines[..n]) + One(accepted && !Passes(lines[n]))
            && MarkedCount(keys, after) == MarkedCount(keys, before) + One(accepted)
  {
    var now := lines[..n + 1];
    assert now[..n] == lines[..n] && now[n] == lines[n];
    FaultsOfPrefix(now, n);
    var after := FaultsOf(now);
    assert after[..n] == FaultsOf(lines[..n]);
    assert after == after[..n] + [after[n]];
    MarkedCountStep(keys, after[..n], after[n]);
  }

  lemma OutcomeRejected(start: seq<ExpectedFault>, now: seq<ExpectedFault>, observed: nat, findings: nat,
                        base: nat, lines: seq<Line>, n: nat)
    requires n < |lines| && OutcomeLine(lines[n]) && OutcomeLines(lines[..n + 1])
    requires OutcomeState(start, now, observed, findings, base, lines[..n])
    requires var f := FirstIndex(Keys(now), FaultOf(lines[n])); f == |now| || now[f].observed
    ensures OutcomeState(start, now, observed, findings + 1, base, lines[..n + 1])
  {
    hide OutcomesRecorded, FaultsOf, Rejections, Failures, MarkedCount, Accepted, TabFields, FaultOf, Passes,
         OutcomeLines, OutcomeLine;
    OutcomeCounts(Keys(start), lines, n);
    OutcomeFlags(start, now, FaultsOf(lines[..n]), FaultOf(lines[n]));
  }

  lemma OutcomeTicks(start: seq<ExpectedFault>, now: seq<ExpectedFault>, observed: nat, findings: nat,
                     base: nat, lines: seq<Line>, n: nat, f: nat)
    requires n < |lines| && OutcomeLine(lines[n]) && OutcomeLines(lines[..n + 1])
    requires OutcomeState(start, now, observed, findings, base, lines[..n])
    requires f == FirstIndex(Keys(now), FaultOf(lines[n])) && f < |now| && !now[f].observed
    ensures OutcomeState(start, now[f := now[f].(observed := true)], observed + 1,
                         findings + One(!Passes(lines[n])), base, lines[..n + 1])
  {
    hide OutcomesRecorded, FaultsOf, Rejections, Failures, MarkedCount, Accepted, TabFields, FaultOf, Passes,
         OutcomeLines, OutcomeLine;
    OutcomeCounts(Keys(start), lines, n);
    OutcomeFlags(start, now, FaultsOf(lines[..n]), FaultOf(lines[n]));
  }

  lemma OutcomeFields(line: Line)
    requires OutcomeLine(line)
    ensures |TabFields(line, OUT_FIELDS)| == OUT_FIELDS
    ensures var fields := TabFields(line, OUT_FIELDS);
            FaultOf(line) == Fault(fields[5], fields[6], fields[7]) && (Passes(line) <==> fields[9] == "PASS")
  {
  }

  // ----- totals -----

  function One(condition: bool): nat { if condition then 1 else 0 }

  function ApiFindingsOf(a: Api): nat {
    One(!a.tested) + One(!a.conformanceSeen) + One(!a.trace.seen)
    + One(a.trace.applicable && a.trace.enters == 0) + One(a.trace.applicable && a.trace.enters != a.trace.exits)
    + One(a.faultTest && a.trace.enters == 0)
    + One(a.requireArguments && !a.trace.arguments) + One(a.requireResult && !a.trace.result)
  }

  function ApiFindings(apis: seq<Api>): (n: nat)
    ensures n == 0 <==> forall i :: 0 <= i < |apis| ==> ApiFindingsOf(apis[i]) == 0
  {
    if apis == [] then 0
    else
      var rest := apis[..|apis| - 1];
      assert forall i :: 0 <= i < |rest| ==> rest[i] == apis[i];
      ApiFindings(rest) + ApiFindingsOf(apis[|apis| - 1])
  }

  function MissingFaults(faults: seq<ExpectedFault>): nat {
    if faults == [] then 0 else MissingFaults(faults[..|faults| - 1]) + One(!faults[|faults| - 1].observed)
  }

  lemma TotalsStart()
    ensures ApiFindings([]) == 0 && MissingFaults([]) == 0
  {
  }

  lemma ApiFindingsStep(apis: seq<Api>, n: nat)
    requires n < |apis|
    ensures ApiFindings(apis[..n + 1]) == ApiFindings(apis[..n]) + ApiFindingsOf(apis[n])
  {
    hide ApiFindingsOf;
    assert apis[..n + 1][..n] == apis[..n];
  }

  lemma MissingFaultsStep(faults: seq<ExpectedFault>, n: nat)
    requires n < |faults|
    ensures MissingFaults(faults[..n + 1]) == MissingFaults(faults[..n]) + One(!faults[n].observed)
  {
    assert faults[..n + 1][..n] == faults[..n];
  }

  /** How many traced APIs were entered at least so often. */
  function Traced(apis: seq<Api>, entries: nat): (n: nat)
    ensures n <= |apis|
  {
    if apis == [] then 0
    else
      var a := apis[|apis| - 1];
      Traced(apis[..|apis| - 1], entries) + One(a.trace.applicable && a.trace.enters >= entries)
  }

  datatype Receipt = Receipt(apis: nat, traceApplicable: nat, invoked: nat, faultCases: nat,
                             faultOutcomesObserved: nat, findings: nat, passed: bool)

  /** Missing faults are the unmarked ones. */
  lemma {:induction false} MissingIsUnmarked(start: seq<ExpectedFault>, now: seq<ExpectedFault>, presented: seq<Fault>)
    requires OutcomesRecorded(start, now, presented)
    ensures MissingFaults(now) == |now| - MarkedCount(Keys(start), presented)
  {
    if now != [] {
      var n := |now| - 1;
      var shorter := start[..n];
      assert Keys(shorter) == Keys(start)[..n];
      forall i | 0 <= i < n
        ensures now[..n][i] == ExpectedFault(shorter[i].fault, Marked(Keys(shorter), presented, i))
      {
        assert Keys(start)[..n][..i] == Keys(start)[..i];
        assert now[i] == ExpectedFault(start[i].fault, Marked(Keys(start), presented, i));
      }
      MissingIsUnmarked(shorter, now[..n], presented);
    }
  }
}
