/**
 The wrapper-conformance ledger of components/conformance/src/main.c: manifests
 fill bounded tables, first-match lookups set flags, and findings are counted.
 Lines are the text fgets returns, header included.
 */
module Conformance {
  import opened Fields
  import opened FirstMatchLedger

  const MAX_APIS: nat := 2048
  const MAX_NAME: nat := 256
  const MAX_USR: nat := 1024
  const MAX_FAULTS: nat := 8192
  const MACRO_EXTRA: nat := 16
  const API_FIELDS: nat := 5
  const TEST_FIELDS: nat := 4
  const CONTRACT_FIELDS: nat := 4
  const FAULT_FIELDS: nat := 11
  const OUT_FIELDS: nat := 10

  datatype Api = Api(name: string, usr: string, tested: bool, faultTest: bool, conformanceSeen: bool,
                     requireArguments: bool, requireResult: bool, trace: Trace)

  /** What instrumentation and the run model record about one API. */
  datatype Trace = Trace(seen: bool, applicable: bool, enters: nat, exits: nat, arguments: bool, result: bool)

  datatype Fault = Fault(wrapper: string, domain: string, symbol: string)

  datatype ExpectedFault = ExpectedFault(fault: Fault, observed: bool)

  function Rows(lines: seq<Line>): seq<Line> { if lines == [] then [] else lines[1..] }

  function Usrs(apis: seq<Api>): (r: seq<string>)
    ensures |r| == |apis| && forall i :: 0 <= i < |r| ==> r[i] == apis[i].usr
  {
    seq(|apis|, i requires 0 <= i < |apis| => apis[i].usr)
  }

  predicate HasFields(row: Line, count: nat) { |TabFields(row, count)| == count }

  function FieldAt(row: Line, count: nat, k: nat): string
    requires HasFields(row, count) && k < count
  {
    TabFields(row, count)[k]
  }

  predicate AllHaveFields(rows: seq<Line>, count: nat) {
    forall j :: 0 <= j < |rows| ==> HasFields(rows[j], count)
  }

  /** Column k of a manifest whose rows all have count fields. */
  function Column(rows: seq<Line>, count: nat, k: nat): (r: seq<string>)
    requires k < count && AllHaveFields(rows, count)
    ensures |r| == |rows| && forall j :: 0 <= j < |r| ==> r[j] == FieldAt(rows[j], count, k)
  {
    seq(|rows|, j requires 0 <= j < |rows| => FieldAt(rows[j], count, k))
  }

  const NO_TRACE := Trace(false, false, 0, 0, false, false)

  predicate ApiRowFits(row: Line) {
    HasFields(row, API_FIELDS) && |FieldAt(row, API_FIELDS, 0)| < MAX_NAME && |FieldAt(row, API_FIELDS, 1)| < MAX_USR
  }

  predicate ApiManifestFits(rows: seq<Line>) {
    |rows| <= MAX_APIS && forall j :: 0 <= j < |rows| ==> ApiRowFits(rows[j])
  }

  function FreshApi(row: Line): Api
    requires ApiRowFits(row)
  {
    Api(FieldAt(row, API_FIELDS, 0), FieldAt(row, API_FIELDS, 1), false, false, false, false, false, NO_TRACE)
  }

  /** A manifest whose USR column ticks API rows by first match, without a miss or a repeat. */
  predicate Ticks(usrs: seq<string>, rows: seq<Line>, count: nat)
    requires count > 1
  {
    AllHaveFields(rows, count) && AllAccepted(usrs, Column(rows, count, 1))
  }

  /** The flag a manifest with such a USR column leaves on row i. */
  predicate Ticked(usrs: seq<string>, rows: seq<Line>, count: nat, i: nat)
    requires i < |usrs| && count > 1 && AllHaveFields(rows, count)
  {
    Marked(usrs, Column(rows, count, 1), i)
  }

  /** Some row for this USR has the given word in column k. */
  predicate Says(rows: seq<Line>, count: nat, usr: string, k: nat, word: string)
    requires count > 1 && k < count && AllHaveFields(rows, count)
  {
    exists j :: 0 <= j < |rows| && FieldAt(rows[j], count, 1) == usr && FieldAt(rows[j], count, k) == word
  }

  /** API i after the unit-test manifest. */
  function AfterTests(a: Api, usrs: seq<string>, rows: seq<Line>, i: nat): Api
    requires i < |usrs| && AllHaveFields(rows, TEST_FIELDS)
  {
    a.(tested := Ticked(usrs, rows, TEST_FIELDS, i), faultTest := TickedSays(usrs, rows, TEST_FIELDS, i, 2, "fault"))
  }

  /** API i after the conformance manifest. */
  function AfterContracts(a: Api, usrs: seq<string>, rows: seq<Line>, i: nat): Api
    requires i < |usrs| && AllHaveFields(rows, CONTRACT_FIELDS)
  {
    a.(conformanceSeen := Ticked(usrs, rows, CONTRACT_FIELDS, i),
       requireArguments := TickedSays(usrs, rows, CONTRACT_FIELDS, i, 2, "true"),
       requireResult := TickedSays(usrs, rows, CONTRACT_FIELDS, i, 3, "true"))
  }

  // ----- outcome lines -----

  predicate OutcomeLine(line: Line) {
    HasFields(line, OUT_FIELDS) && FieldAt(line, OUT_FIELDS, 0) == "P101WRAPPER"
  }

  predicate OutcomeLines(lines: seq<Line>) { forall j :: 0 <= j < |lines| ==> OutcomeLine(lines[j]) }

  function FaultOf(line: Line): Fault
    requires OutcomeLine(line)
  {
    Fault(FieldAt(line, OUT_FIELDS, 5), FieldAt(line, OUT_FIELDS, 6), FieldAt(line, OUT_FIELDS, 7))
  }

  function FaultsOf(lines: seq<Line>): (r: seq<Fault>)
    requires OutcomeLines(lines)
    ensures |r| == |lines| && forall j :: 0 <= j < |r| ==> r[j] == FaultOf(lines[j])
  {
    seq(|lines|, j requires 0 <= j < |lines| => FaultOf(lines[j]))
  }

  predicate Passes(line: Line)
    requires OutcomeLine(line)
  {
    FieldAt(line, OUT_FIELDS, 9) == "PASS"
  }

  function Keys(faults: seq<ExpectedFault>): (r: seq<Fault>)
    ensures |r| == |faults| && forall i :: 0 <= i < |r| ==> r[i] == faults[i].fault
  {
    seq(|faults|, i requires 0 <= i < |faults| => faults[i].fault)
  }

  /** Lines that tick an expected fault but do not say PASS. */
  function Failures(expected: seq<Fault>, lines: seq<Line>): nat
    requires OutcomeLines(lines)
  {
    if lines == [] then 0
    else
      var n := |lines| - 1;
      Failures(expected, lines[..n]) +
        if Accepted(expected, FaultsOf(lines), n) && !Passes(lines[n]) then 1 else 0
  }

  predicate AllPass(lines: seq<Line>)
    requires OutcomeLines(lines)
  {
    forall j :: 0 <= j < |lines| ==> Passes(lines[j])
  }

  lemma {:induction false} NoFailures(expected: seq<Fault>, lines: seq<Line>)
    requires OutcomeLines(lines) && AllAccepted(expected, FaultsOf(lines))
    ensures Failures(expected, lines) == 0 <==> AllPass(lines)
  {
    if lines != [] {
      var n := |lines| - 1;
      AcceptedPrefix(expected, lines, n);
      NoFailures(expected, lines[..n]);
      assert Accepted(expected, FaultsOf(lines), n);
      AllPassSplit(lines);
    }
  }

  lemma AcceptedPrefix(expected: seq<Fault>, lines: seq<Line>, n: nat)
    requires OutcomeLines(lines) && n <= |lines| && AllAccepted(expected, FaultsOf(lines))
    ensures AllAccepted(expected, FaultsOf(lines[..n]))
  {
    FaultsOfPrefix(lines, n);
    forall j | 0 <= j < n ensures Accepted(expected, FaultsOf(lines[..n]), j) {
      assert Accepted(expected, FaultsOf(lines), j);
      assert FaultsOf(lines)[..n][..j] == FaultsOf(lines)[..j];
    }
  }

  lemma AllPassSplit(lines: seq<Line>)
    requires OutcomeLines(lines) && lines != []
    ensures AllPass(lines) <==> AllPass(lines[..|lines| - 1]) && Passes(lines[|lines| - 1])
  {
  }

  lemma FaultsOfPrefix(lines: seq<Line>, n: nat)
    requires OutcomeLines(lines) && n <= |lines|
    ensures FaultsOf(lines[..n]) == FaultsOf(lines)[..n]
  {
  }

  /** Every finding the fault part of the ledger raises, over both loops. */
  function FaultFindings(expected: seq<Fault>, lines: seq<Line>): nat
    requires OutcomeLines(lines)
  {
    var presented := FaultsOf(lines);
    Rejections(expected, presented) + Failures(expected, lines) + (|expected| - MarkedCount(expected, presented))
  }

  /** No finding means: no fault expected twice, outcomes are a permutation of the expected faults, all PASS. */
  lemma NoFaultFindings(expected: seq<Fault>, lines: seq<Line>)
    requires OutcomeLines(lines)
    ensures FaultFindings(expected, lines) == 0 <==>
            Distinct(expected) && multiset(FaultsOf(lines)) == multiset(expected) && AllPass(lines)
  {
    var presented := FaultsOf(lines);
    NoRejections(expected, presented);
    AllMarkedCount(expected, presented);
    NothingLeftIffPermutation(expected, presented);
    if AllAccepted(expected, presented) {
      NoFailures(expected, lines);
    }
  }

  /**
   Both manifests load and no API lacks either identity: exactly when each USR column permutes the API's, free of
   repeats.
   */
  lemma IdentitiesAgree(usrs: seq<string>, tests: seq<Line>, contracts: seq<Line>)
    requires AllHaveFields(tests, TEST_FIELDS) && AllHaveFields(contracts, CONTRACT_FIELDS)
    ensures Ticks(usrs, tests, TEST_FIELDS) && Ticks(usrs, contracts, CONTRACT_FIELDS) &&
            (forall i :: 0 <= i < |usrs| ==>
               Ticked(usrs, tests, TEST_FIELDS, i) && Ticked(usrs, contracts, CONTRACT_FIELDS, i))
       <==> Distinct(usrs) &&
            multiset(Column(tests, TEST_FIELDS, 1)) == multiset(usrs) &&
            multiset(Column(contracts, CONTRACT_FIELDS, 1)) == multiset(usrs)
  {
    var t, c := Column(tests, TEST_FIELDS, 1), Column(contracts, CONTRACT_FIELDS, 1);
    NothingLeftIffPermutation(usrs, t);
    NothingLeftIffPermutation(usrs, c);
    forall i | 0 <= i < |usrs|
      ensures Marked(usrs, t, i) <==> Ticked(usrs, tests, TEST_FIELDS, i)
      ensures Marked(usrs, c, i) <==> Ticked(usrs, contracts, CONTRACT_FIELDS, i)
    {
    }
  }

  // ----- one manifest row -----

  lemma ColumnPrefix(rows: seq<Line>, count: nat, k: nat, n: nat)
    requires k < count && n <= |rows| && AllHaveFields(rows, count)
    ensures AllHaveFields(rows[..n], count) && Column(rows[..n], count, k) == Column(rows, count, k)[..n]
  {
  }

  /** Row n ticks API f; nothing else moves. */
  lemma TickStep(usrs: seq<string>, rows: seq<Line>, count: nat, n: nat)
    requires count > 1 && n < |rows| && AllHaveFields(rows[..n + 1], count)
    ensures AllHaveFields(rows[..n], count) && HasFields(rows[n], count)
    ensures var f := FirstIndex(usrs, FieldAt(rows[n], count, 1));
            && (Accepted(usrs, Column(rows[..n + 1], count, 1), n) <==>
                f < |usrs| && !Ticked(usrs, rows[..n], count, f))
            && (forall i :: 0 <= i < |usrs| ==>
                  (Ticked(usrs, rows[..n + 1], count, i) <==> Ticked(usrs, rows[..n], count, i) || i == f))
  {
    var now := rows[..n + 1];
    assert now[..n] == rows[..n] && now[n] == rows[n];
    ColumnPrefix(now, count, 1, n);
    var keys := Column(now, count, 1);
    OneStep(usrs, keys, n);
    assert keys[..n + 1] == keys;
    forall i | 0 <= i < |usrs|
      ensures Ticked(usrs, now, count, i) <==> Marked(usrs, keys, i)
      ensures Ticked(usrs, rows[..n], count, i) <==> Marked(usrs, keys[..n], i)
    {
    }
  }

  predicate TickedSays(usrs: seq<string>, rows: seq<Line>, count: nat, i: nat, k: nat, word: string)
    requires i < |usrs| && count > 1 && k < count && AllHaveFields(rows, count)
  {
    Ticked(usrs, rows, count, i) && Says(rows, count, usrs[i], k, word)
  }

  lemma SaysGrows(rows: seq<Line>, count: nat, n: nat, usr: string, k: nat, word: string)
    requires count > 1 && k < count && n < |rows|
    requires AllHaveFields(rows[..n + 1], count) && AllHaveFields(rows[..n], count)
    requires HasFields(rows[n], count)
    ensures Says(rows[..n + 1], count, usr, k, word) <==>
            Says(rows[..n], count, usr, k, word) ||
            (FieldAt(rows[n], count, 1) == usr && FieldAt(rows[n], count, k) == word)
  {
    var now, before := rows[..n + 1], rows[..n];
    assert forall j :: 0 <= j < n ==> now[j] == before[j];
    assert now[n] == rows[n];
    if Says(before, count, usr, k, word) {
      var j :| 0 <= j < n && FieldAt(before[j], count, 1) == usr && FieldAt(before[j], count, k) == word;
      assert FieldAt(now[j], count, 1) == usr;
    }
  }

  lemma SaysNeedsKey(rows: seq<Line>, count: nat, usr: string, k: nat, word: string)
    requires count > 1 && k < count && AllHaveFields(rows, count) && Says(rows, count, usr, k, word)
    ensures usr in Column(rows, count, 1)
  {
  }

  /** Only the row that ticks an API has a say about it. */
  lemma WordStep(usrs: seq<string>, rows: seq<Line>, count: nat, n: nat, i: nat, k: nat, word: string)
    requires count > 1 && k < count && n < |rows| && AllHaveFields(rows[..n + 1], count) && i < |usrs|
    requires Accepted(usrs, Column(rows[..n + 1], count, 1), n)
    ensures AllHaveFields(rows[..n], count) && HasFields(rows[n], count)
    ensures TickedSays(usrs, rows[..n + 1], count, i, k, word) <==>
            if i == FirstIndex(usrs, FieldAt(rows[n], count, 1)) then FieldAt(rows[n], count, k) == word
            else TickedSays(usrs, rows[..n], count, i, k, word)
  {
    TickStep(usrs, rows, count, n);
    SaysGrows(rows, count, n, usrs[i], k, word);
    var f := FirstIndex(usrs, FieldAt(rows[n], count, 1));
    if i == f {
      if Says(rows[..n], count, usrs[i], k, word) {
        SaysNeedsKey(rows[..n], count, usrs[i], k, word);
      }
    } else if Ticked(usrs, rows[..n], count, i) && usrs[i] == FieldAt(rows[n], count, 1) {
      FirstIndexUnique(usrs, usrs[i], i);
    }
  }
}
