/** Which faults a platform's manifest rows lead the ledger to expect. */
module FaultManifest {
  import opened Fields
  import opened FirstMatchLedger
  import opened Conformance

  datatype Columns = Unsupported | Columns(platform: nat, conditional: nat)

  function PlatformColumns(platform: string): (c: Columns)
    ensures c.Columns? ==> c.platform < FAULT_FIELDS && c.conditional < FAULT_FIELDS
  {
    if platform == "linux" then Columns(4, 8)
    else if platform == "macos" then Columns(5, 9)
    else if platform == "freebsd" then Columns(6, 10)
    else Unsupported
  }

  predicate DefinesSymbol(line: Line, symbol: string) {
    var expected := "#define " + symbol;
    expected <= line && |expected| < |line| && line[|expected|] in " \t\n"
  }

  /** A symbol too long for the search pattern counts as absent. */
  predicate MacroPresent(macros: seq<Line>, symbol: string) {
    |"#define " + symbol| < MAX_NAME + MACRO_EXTRA && exists j :: 0 <= j < |macros| && DefinesSymbol(macros[j], symbol)
  }

  predicate Available(symbol: string, conditional: string, macros: seq<Line>) {
    symbol in Tokens(conditional) ==> MacroPresent(macros, symbol)
  }

  /** The symbols that stay: all but conditional ones without a macro, in order. */
  function Keep(symbols: seq<string>, conditional: string, macros: seq<Line>): seq<string> {
    if symbols == [] then []
    else (if Available(symbols[0], conditional, macros) then [symbols[0]] else [])
         + Keep(symbols[1..], conditional, macros)
  }

  /** Every available symbol stays as often as it is listed, and no other stays. */
  lemma {:induction false} KeepIsFilter(symbols: seq<string>, conditional: string, macros: seq<Line>)
    ensures forall s :: multiset(Keep(symbols, conditional, macros))[s] ==
                        if Available(s, conditional, macros) then multiset(symbols)[s] else 0
  {
    hide Available;
    if symbols != [] {
      KeepIsFilter(symbols[1..], conditional, macros);
      assert symbols == [symbols[0]] + symbols[1..];
    }
  }

  /** What comes first in the list comes first in the result. */
  lemma {:induction false} KeepKeepsOrder(before: seq<string>, after: seq<string>, conditional: string,
                                          macros: seq<Line>)
    ensures Keep(before + after, conditional, macros) ==
            Keep(before, conditional, macros) + Keep(after, conditional, macros)
    decreases |before|
  {
    hide Available;
    if before == [] {
      assert before + after == after;
    } else {
      KeepKeepsOrder(before[1..], after, conditional, macros);
      assert (before + after)[1..] == before[1..] + after;
    }
  }

  function RowFaults(row: Line, symbols: seq<string>): (r: seq<ExpectedFault>)
    requires HasFields(row, FAULT_FIELDS)
    ensures |r| == |symbols|
    ensures forall i :: 0 <= i < |r| ==>
              r[i] == ExpectedFault(Fault(FieldAt(row, FAULT_FIELDS, 0), FieldAt(row, FAULT_FIELDS, 2), symbols[i]),
                                    false)
  {
    seq(|symbols|, i requires 0 <= i < |symbols| =>
      ExpectedFault(Fault(FieldAt(row, FAULT_FIELDS, 0), FieldAt(row, FAULT_FIELDS, 2), symbols[i]), false))
  }

  function RowSymbols(row: Line, columns: Columns, macros: seq<Line>): seq<string>
    requires HasFields(row, FAULT_FIELDS) && columns.Columns?
    requires columns.platform < FAULT_FIELDS && columns.conditional < FAULT_FIELDS
  {
    Keep(Tokens(FieldAt(row, FAULT_FIELDS, columns.platform)), FieldAt(row, FAULT_FIELDS, columns.conditional), macros)
  }

  predicate Fits(f: ExpectedFault) {
    |f.fault.wrapper| < MAX_NAME && |f.fault.domain| < MAX_NAME && |f.fault.symbol| < MAX_NAME
  }

  predicate AllFit(faults: seq<ExpectedFault>) { forall i :: 0 <= i < |faults| ==> Fits(faults[i]) }

  /** The row names an API that the unit-test manifest lists as a fault test, and its faults fit their slots. */
  predicate RowAdmitted(row: Line, apis: seq<Api>, columns: Columns, macros: seq<Line>)
    requires columns.Columns? && columns.platform < FAULT_FIELDS && columns.conditional < FAULT_FIELDS
  {
    && HasFields(row, FAULT_FIELDS)
    && (var f := FirstIndex(Usrs(apis), FieldAt(row, FAULT_FIELDS, 1)); f < |apis| && apis[f].faultTest)
    && AllFit(RowFaults(row, RowSymbols(row, columns, macros)))
  }

  predicate AllAdmitted(rows: seq<Line>, apis: seq<Api>, columns: Columns, macros: seq<Line>)
    requires columns.Columns? && columns.platform < FAULT_FIELDS && columns.conditional < FAULT_FIELDS
  {
    forall j :: 0 <= j < |rows| ==> RowAdmitted(rows[j], apis, columns, macros)
  }

  /** Everything the rows lead to expect, row by row. */
  function ManifestFaults(rows: seq<Line>, apis: seq<Api>, columns: Columns, macros: seq<Line>): seq<ExpectedFault>
    requires columns.Columns? && columns.platform < FAULT_FIELDS && columns.conditional < FAULT_FIELDS
    requires AllAdmitted(rows, apis, columns, macros)
  {
    if rows == [] then []
    else
      var n := |rows| - 1;
      assert forall j :: 0 <= j < n ==> rows[..n][j] == rows[j];
      assert RowAdmitted(rows[n], apis, columns, macros);
      ManifestFaults(rows[..n], apis, columns, macros) + RowFaults(rows[n], RowSymbols(rows[n], columns, macros))
  }

  lemma AdmittedPrefix(rows: seq<Line>, n: nat, apis: seq<Api>, columns: Columns, macros: seq<Line>)
    requires columns.Columns? && columns.platform < FAULT_FIELDS && columns.conditional < FAULT_FIELDS
    requires n <= |rows|
    ensures AllAdmitted(rows, apis, columns, macros) ==> AllAdmitted(rows[..n], apis, columns, macros)
    ensures n < |rows| ==>
              (AllAdmitted(rows[..n + 1], apis, columns, macros) <==>
               AllAdmitted(rows[..n], apis, columns, macros) && RowAdmitted(rows[n], apis, columns, macros))
  {
    assert forall j :: 0 <= j < n ==> rows[..n][j] == rows[j];
    if n < |rows| {
      assert forall j :: 0 <= j < n + 1 ==> rows[..n + 1][j] == rows[j];
      if AllAdmitted(rows[..n], apis, columns, macros) && RowAdmitted(rows[n], apis, columns, macros) {
        var now := rows[..n + 1];
        forall j | 0 <= j < n + 1 ensures RowAdmitted(now[j], apis, columns, macros) {
          assert j < n ==> RowAdmitted(rows[..n][j], apis, columns, macros);
        }
      }
      if AllAdmitted(rows[..n + 1], apis, columns, macros) {
        assert RowAdmitted(rows[..n + 1][n], apis, columns, macros);
        forall j | 0 <= j < n ensures RowAdmitted(rows[..n][j], apis, columns, macros) {
          assert RowAdmitted(rows[..n + 1][j], apis, columns, macros);
        }
      }
    }
  }

  lemma OneMoreRow(rows: seq<Line>, n: nat, apis: seq<Api>, columns: Columns, macros: seq<Line>)
    requires columns.Columns? && columns.platform < FAULT_FIELDS && columns.conditional < FAULT_FIELDS
    requires n < |rows| && AllAdmitted(rows[..n + 1], apis, columns, macros)
    ensures AllAdmitted(rows[..n], apis, columns, macros)
    ensures |ManifestFaults(rows[..n], apis, columns, macros)| <= |ManifestFaults(rows[..n + 1], apis, columns, macros)|
  {
    hide AllAdmitted, RowAdmitted, RowFaults, RowSymbols;
    AdmittedPrefix(rows, n, apis, columns, macros);
    assert rows[..n + 1][..n] == rows[..n];
  }

  lemma AllRows(rows: seq<Line>)
    ensures rows[..|rows|] == rows
  {
  }

  /** More rows never make the list of expected faults shorter. */
  lemma {:induction false} ManifestGrows(rows: seq<Line>, n: nat, apis: seq<Api>, columns: Columns, macros: seq<Line>)
    requires columns.Columns? && columns.platform < FAULT_FIELDS && columns.conditional < FAULT_FIELDS
    requires n <= |rows| && AllAdmitted(rows, apis, columns, macros)
    ensures AllAdmitted(rows[..n], apis, columns, macros)
    ensures |ManifestFaults(rows[..n], apis, columns, macros)| <= |ManifestFaults(rows, apis, columns, macros)|
    decreases |rows| - n
  {
    hide AllAdmitted, ManifestFaults;
    if n < |rows| {
      ManifestGrows(rows, n + 1, apis, columns, macros);
      OneMoreRow(rows, n, apis, columns, macros);
    } else {
      AllRows(rows);
    }
  }
}
