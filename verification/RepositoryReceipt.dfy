/**
 The repository test receipt: components/repository-receipt/src/main.c. Result files
 are listed in whatever order the directory yields, sorted in place, and read.
 */
module RepositoryReceipt {
  import opened Wrappers
  import opened Text
  import opened Fields

  const MAX_RECORDS: nat := 256

  // ----- strcmp order -----

  predicate Leq(a: string, b: string) {
    a == "" || (b != "" && (a[0] < b[0] || (a[0] == b[0] && Leq(a[1..], b[1..]))))
  }

  /** b continues a, or at the first place where they differ a has the smaller character. */
  ghost predicate InOrder(a: string, b: string) {
    a <= b || exists k :: 0 <= k < |a| && k < |b| && a[..k] == b[..k] && a[k] < b[k]
  }

  lemma {:induction false} LeqMeans(a: string, b: string)
    ensures Leq(a, b) <==> InOrder(a, b)
  {
    if a != "" && b != "" && a[0] == b[0] {
      var s, t := a[1..], b[1..];
      LeqMeans(s, t);
      assert a == [a[0]] + s && b == [b[0]] + t;
      assert a <= b <==> s <= t;
      forall k | 0 <= k < |s| && k < |t| && s[..k] == t[..k] && s[k] < t[k] ensures InOrder(a, b) {
        assert a[..k + 1] == [a[0]] + s[..k] && b[..k + 1] == [b[0]] + t[..k];
        assert a[k + 1] < b[k + 1];
      }
      forall k | 0 <= k < |a| && k < |b| && a[..k] == b[..k] && a[k] < b[k] ensures InOrder(s, t) {
        assert s[..k - 1] == a[..k][1..] && t[..k - 1] == b[..k][1..];
        assert s[k - 1] < t[k - 1];
      }
    } else if a != "" && b != "" && a[0] < b[0] {
      assert a[..0] == b[..0];
    }
  }

  lemma {:induction false} LeqTotal(a: string, b: string)
    ensures Leq(a, b) || Leq(b, a)
  {
    if a != "" && b != "" && a[0] == b[0] {
      LeqTotal(a[1..], b[1..]);
    }
  }

  lemma {:induction false} LeqAntisymmetric(a: string, b: string)
    requires Leq(a, b) && Leq(b, a)
    ensures a == b
  {
    if a != "" {
      LeqAntisymmetric(a[1..], b[1..]);
      assert a == [a[0]] + a[1..] && b == [b[0]] + b[1..];
    }
  }

  lemma {:induction false} LeqTransitive(a: string, b: string, c: string)
    requires Leq(a, b) && Leq(b, c)
    ensures Leq(a, c)
  {
    if a != "" && a[0] == b[0] && b[0] == c[0] {
      LeqTransitive(a[1..], b[1..], c[1..]);
    }
  }

  ghost predicate Sorted(s: seq<string>) { forall i, j :: 0 <= i < j < |s| ==> Leq(s[i], s[j]) }

  lemma HeadIsLeast(s: seq<string>, x: string)
    requires Sorted(s) && x in s
    ensures Leq(s[0], x)
  {
    var i :| 0 <= i < |s| && s[i] == x;
    LeqReflexive(s[0]);
  }

  lemma TailMultiset(s: seq<string>)
    requires s != []
    ensures multiset(s[1..]) == multiset(s) - multiset{s[0]}
  {
    assert s == [s[0]] + s[1..];
  }

  lemma TailSorted(s: seq<string>)
    requires s != [] && Sorted(s)
    ensures Sorted(s[1..])
  {
  }

  /** There is only one sorted arrangement of given names. */
  lemma {:induction false} SortedIsUnique(a: seq<string>, b: seq<string>)
    requires Sorted(a) && Sorted(b) && multiset(a) == multiset(b)
    ensures a == b
  {
    hide Sorted, Leq;
    assert |a| == |multiset(a)| == |multiset(b)| == |b|;
    if a != [] {
      assert a[0] in multiset(b) && b[0] in multiset(a);
      HeadIsLeast(b, a[0]);
      HeadIsLeast(a, b[0]);
      LeqAntisymmetric(a[0], b[0]);
      TailMultiset(a);
      TailMultiset(b);
      TailSorted(a);
      TailSorted(b);
      SortedIsUnique(a[1..], b[1..]);
      assert a == [a[0]] + a[1..] && b == [b[0]] + b[1..];
    }
  }

  lemma LeqReflexive(a: string)
    ensures Leq(a, a)
  {
  }

  /** Shifts larger paths up and drops the held one where it belongs. */
  method InsertPath(paths: array<string>, index: nat)
    requires index < paths.Length && Sorted(paths[..index])
    modifies paths
    ensures Sorted(paths[..index + 1]) && multiset(paths[..]) == multiset(old(paths[..]))
  {
    hide Sorted, Leq;
    var held := paths[index];
    var cursor := index;
    while cursor > 0 && !Leq(paths[cursor - 1], held)
      invariant cursor <= index
      invariant forall k :: 0 <= k < cursor ==> paths[k] == old(paths[k])
      invariant forall k :: cursor < k <= index ==> paths[k] == old(paths[k - 1])
      invariant forall k :: index < k < paths.Length ==> paths[k] == old(paths[k])
      invariant cursor < index ==> !Leq(old(paths[cursor]), held)
    {
      paths[cursor] := paths[cursor - 1];
      cursor := cursor - 1;
    }
    paths[cursor] := held;
    Inserted(old(paths[..]), paths[..], index, cursor);
  }

  lemma InsertSorted(sorted: seq<string>, held: string, cursor: nat)
    requires Sorted(sorted) && cursor <= |sorted|
    requires cursor > 0 ==> Leq(sorted[cursor - 1], held)
    requires cursor < |sorted| ==> !Leq(sorted[cursor], held)
    ensures var after := sorted[..cursor] + [held] + sorted[cursor..];
            Sorted(after) && multiset(after) == multiset(sorted) + multiset{held}
  {
    var after := sorted[..cursor] + [held] + sorted[cursor..];
    assert sorted == sorted[..cursor] + sorted[cursor..];
    forall i, j | 0 <= i < j < |after| ensures Leq(after[i], after[j]) {
      InsertedInOrder(sorted, held, cursor, i, j);
    }
  }

  /** Two places of the longer sequence, seen in the shorter one. */
  lemma InsertedInOrder(sorted: seq<string>, held: string, cursor: nat, i: nat, j: nat)
    requires Sorted(sorted) && cursor <= |sorted|
    requires cursor > 0 ==> Leq(sorted[cursor - 1], held)
    requires cursor < |sorted| ==> !Leq(sorted[cursor], held)
    requires i < j <= |sorted|
    ensures var after := sorted[..cursor] + [held] + sorted[cursor..];
            Leq(after[i], after[j])
  {
    hide Leq;
    var a, b := if i < cursor then i else i - 1, if j < cursor then j else j - 1;
    if i < cursor && j == cursor {
      if i < cursor - 1 {
        LeqTransitive(sorted[i], sorted[cursor - 1], held);
      }
    } else if i == cursor {
      LeqTotal(held, sorted[cursor]);
      if cursor < b {
        LeqTransitive(held, sorted[cursor], sorted[b]);
      }
    } else {
      assert 0 <= a < b < |sorted|;
    }
  }

  /** Insertion sort in place. */
  method SortPaths(paths: array<string>)
    modifies paths
    ensures Sorted(paths[..]) && multiset(paths[..]) == multiset(old(paths[..]))
  {
    var index := if paths.Length == 0 then 0 else 1;
    while index < paths.Length
      invariant index <= paths.Length && (paths.Length > 0 ==> index >= 1)
      invariant Sorted(paths[..index])
      invariant multiset(paths[..]) == multiset(old(paths[..]))
    {
      InsertPath(paths, index);
      index := index + 1;
    }
    assert paths[..index] == paths[..];
  }

  lemma InsertionShape(before: seq<string>, after: seq<string>, index: nat, cursor: nat)
    requires cursor <= index < |before| == |after|
    requires forall k :: 0 <= k < cursor ==> after[k] == before[k]
    requires after[cursor] == before[index]
    requires forall k :: cursor < k <= index ==> after[k] == before[k - 1]
    requires forall k :: index < k < |after| ==> after[k] == before[k]
    ensures after[..index + 1] == before[..index][..cursor] + [before[index]] + before[..index][cursor..]
    ensures after == after[..index + 1] + before[index + 1..]
    ensures before == before[..index] + [before[index]] + before[index + 1..]
  {
  }

  lemma SameParts(before: seq<string>, after: seq<string>, sorted: seq<string>, held: string, now: seq<string>,
                  rest: seq<string>)
    requires before == sorted + [held] + rest && after == now + rest
    requires multiset(now) == multiset(sorted) + multiset{held}
    ensures multiset(after) == multiset(before)
  {
  }

  lemma Inserted(before: seq<string>, after: seq<string>, index: nat, cursor: nat)
    requires cursor <= index < |before| == |after| && Sorted(before[..index])
    requires forall k :: 0 <= k < cursor ==> after[k] == before[k]
    requires after[cursor] == before[index]
    requires forall k :: cursor < k <= index ==> after[k] == before[k - 1]
    requires forall k :: index < k < |after| ==> after[k] == before[k]
    requires cursor > 0 ==> Leq(before[cursor - 1], before[index])
    requires cursor < index ==> !Leq(before[cursor], before[index])
    ensures Sorted(after[..index + 1]) && multiset(after) == multiset(before)
  {
    hide Sorted, Leq;
    var sorted, held := before[..index], before[index];
    InsertSorted(sorted, held, cursor);
    var now, rest := sorted[..cursor] + [held] + sorted[cursor..], before[index + 1..];
    InsertionShape(before, after, index, cursor);
    SameParts(before, after, sorted, held, now, rest);
  }

  // ----- one result file -----

  const MAX_PATH: nat := 4096

  datatype Record = Record(repository: string, unit: string, fuzz: string, testLog: string, fuzzLog: string,
                           seconds: nat)

  const LONG_MAX: nat := 0x7FFF_FFFF_FFFF_FFFF

  predicate IsSpace(c: char) { c == ' ' || c == '\t' || c == '\n' || c as int == 11 || c as int == 12 || c == '\r' }

  function SkipSpace(s: string): string { if s != "" && IsSpace(s[0]) then SkipSpace(s[1..]) else s }

  /**
   strtol in base ten, up to the end of the text: spaces, a sign and digits, for a number that is not negative and
   fits.
   */
  function Duration(text: string): Option<nat> {
    var signed := SkipSpace(text);
    var hasSign := signed != "" && (signed[0] == '-' || signed[0] == '+');
    var digits := if hasSign then signed[1..] else signed;
    if digits == "" || !AllDigits(digits) || DigitsValue(digits) > LONG_MAX then None
    else if signed[0] == '-' && DigitsValue(digits) > 0 then None
    else Some(DigitsValue(digits))
  }

  /** Spaces, tabs, line ends of either kind, vertical tabs and form feeds. */
  predicate AllSpace(s: string) {
    forall i :: 0 <= i < |s| ==> s[i] in " \t\n\r" || s[i] as int == 11 || s[i] as int == 12
  }

  /** The text is blanks, perhaps a sign, and digits that stand for the number. */
  ghost predicate Reads(text: string, blanks: string, sign: string, digits: string, seconds: nat) {
    && text == blanks + sign + digits && AllSpace(blanks) && (sign == "" || sign == "+" || sign == "-")
    && digits != "" && (forall i :: 0 <= i < |digits| ==> digits[i] in "0123456789")
    && AllDigits(digits) && DigitsValue(digits) == seconds
  }

  /** A duration is read exactly from such text, if it fits and no minus sign makes it negative. */
  lemma DurationMeans(text: string, seconds: nat)
    ensures Duration(text) == Some(seconds) <==>
            seconds <= 0x7FFF_FFFF_FFFF_FFFF &&
            exists blanks, sign, digits ::
              Reads(text, blanks, sign, digits, seconds) && (sign == "-" ==> seconds == 0)
  {
    hide Duration, Reads;
    if Duration(text) == Some(seconds) {
      var blanks, sign, digits := ReadDuration(text, seconds);
      assert Reads(text, blanks, sign, digits, seconds);
    }
    forall blanks, sign, digits
      | Reads(text, blanks, sign, digits, seconds) && (sign == "-" ==> seconds == 0) && seconds <= LONG_MAX
      ensures Duration(text) == Some(seconds)
    {
      DurationOf(text, blanks, sign, digits, seconds);
    }
  }

  lemma ReadDuration(text: string, seconds: nat) returns (blanks: string, sign: string, digits: string)
    requires Duration(text) == Some(seconds)
    ensures Reads(text, blanks, sign, digits, seconds) && (sign == "-" ==> seconds == 0) && seconds <= LONG_MAX
  {
    hide SkipSpace, AllSpace, AllDigits, DigitsValue;
    blanks := SpaceSplit(text);
    var signed := SkipSpace(text);
    sign := if signed[0] == '-' || signed[0] == '+' then signed[..1] else "";
    digits := signed[|sign|..];
    DigitsAre(digits);
    assert signed == sign + digits;
    assert blanks + (sign + digits) == blanks + sign + digits;
  }

  lemma DurationOf(text: string, blanks: string, sign: string, digits: string, seconds: nat)
    requires Reads(text, blanks, sign, digits, seconds) && (sign == "-" ==> seconds == 0) && seconds <= LONG_MAX
    ensures Duration(text) == Some(seconds)
  {
    hide SkipSpace, AllSpace, DigitsValue;
    var signed := sign + digits;
    assert blanks + sign + digits == blanks + signed;
    assert IsDigit(digits[0]) && signed[|sign|..] == digits;
    SkipsTo(blanks, signed);
  }

  lemma {:induction false} SpaceSplit(s: string) returns (blanks: string)
    ensures s == blanks + SkipSpace(s) && AllSpace(blanks)
  {
    blanks := "";
    if s != "" && IsSpace(s[0]) {
      var more := SpaceSplit(s[1..]);
      blanks := [s[0]] + more;
      assert s == [s[0]] + s[1..];
    }
  }

  lemma {:induction false} SkipsTo(blanks: string, rest: string)
    requires AllSpace(blanks) && rest != "" && !IsSpace(rest[0])
    ensures SkipSpace(blanks + rest) == rest
  {
    if blanks == "" {
      assert blanks + rest == rest;
    } else {
      SkipsTo(blanks[1..], rest);
      assert (blanks + rest)[1..] == blanks[1..] + rest;
    }
  }

  /** Seconds as printf writes them are read back, as long as they fit. */
  lemma DurationReadsBack(seconds: nat)
    ensures Duration(Decimal(seconds)) == if seconds <= LONG_MAX then Some(seconds) else None
  {
    DecimalDenotes(seconds);
    assert IsDigit(Decimal(seconds)[0]);
  }

  /** Text up to the first line-end character. */
  function BeforeLineEnd(s: string): string {
    if s == "" || s[0] == '\r' || s[0] == '\n' then "" else [s[0]] + BeforeLineEnd(s[1..])
  }

  lemma {:induction false} LineEndCuts(text: string, ending: string)
    requires '\r' !in text && '\n' !in text && (ending == "" || ending[0] == '\r' || ending[0] == '\n')
    ensures BeforeLineEnd(text + ending) == text
  {
    if text == "" {
      assert text + ending == ending;
    } else {
      LineEndCuts(text[1..], ending);
      assert (text + ending)[1..] == text[1..] + ending;
    }
  }

  lemma {:induction false} LineEndFound(s: string)
    ensures var text := BeforeLineEnd(s);
            && text <= s && '\r' !in text && '\n' !in text
            && (|text| == |s| || s[|text|] == '\r' || s[|text|] == '\n')
  {
    if s != "" && s[0] != '\r' && s[0] != '\n' {
      LineEndFound(s[1..]);
      assert s == [s[0]] + s[1..];
    }
  }

  /** The record a result file holds: one line, exactly six pipe-separated fields that fit, and a duration. */
  function RecordOf(lines: seq<Line>): Option<Record> {
    if |lines| != 1 || Count(lines[0], '|') != RESULT_FIELDS - 1 then None
    else
      var f := (JoinOfSplit(lines[0], '|'); Split(lines[0], '|'));
      var seconds := Duration(BeforeLineEnd(f[5]));
      if seconds.None? || exists i :: 0 <= i < 5 && |f[i]| >= MAX_PATH then None
      else Some(Record(f[0], f[1], f[2], f[3], f[4], seconds.value))
  }

  /** The line is these six fields with pipes between them; the last one is a duration up to the end of the line. */
  ghost predicate Holds(line: Line, f: seq<string>, text: string, ending: string, seconds: nat) {
    && |f| == 6 && (forall i :: 0 <= i < 6 ==> '|' !in f[i]) && line == Join(f, '|')
    && f[5] == text + ending && '\r' !in text && '\n' !in text
    && (ending == "" || ending[0] == '\r' || ending[0] == '\n')
    && Duration(text) == Some(seconds)
  }

  /** A result file holds a record exactly if it is one such line and its other fields fit their slots. */
  lemma RecordMeans(lines: seq<Line>, record: Record)
    ensures RecordOf(lines) == Some(record) <==>
            |lines| == 1 &&
            exists f, text, ending ::
              && Holds(lines[0], f, text, ending, record.seconds)
              && f[..5] == [record.repository, record.unit, record.fuzz, record.testLog, record.fuzzLog]
              && forall i :: 0 <= i < 5 ==> |f[i]| < 4096
  {
    hide Duration, BeforeLineEnd, Split, Join, Count;
    if RecordOf(lines) == Some(record) {
      var f := (JoinOfSplit(lines[0], '|'); Split(lines[0], '|'));
      LineEndFound(f[5]);
      var text := BeforeLineEnd(f[5]);
      assert f[5] == text + f[5][|text|..];
      assert Holds(lines[0], f, text, f[5][|text|..], record.seconds);
    }
    if |lines| == 1 {
      forall f, text, ending
        | && Holds(lines[0], f, text, ending, record.seconds)
          && f[..5] == [record.repository, record.unit, record.fuzz, record.testLog, record.fuzzLog]
          && forall i :: 0 <= i < 5 ==> |f[i]| < 4096
        ensures RecordOf(lines) == Some(record)
      {
        PipesUndoJoin(f);
        LineEndCuts(text, ending);
        assert forall i :: 0 <= i < 5 ==> f[i] == f[..5][i];
      }
    }
  }

  method LoadResult(lines: seq<Line>) returns (record: Option<Record>)
    ensures record == RecordOf(lines)
  {
    hide Split, CString, Count;
    if |lines| != 1 {
      return None;
    }
    var buffer := NewBuffer(lines[0]);
    var ok, starts := SplitPipes(buffer);
    if !ok {
      return None;
    }
    ghost var parts := Split(lines[0], '|');
    var f := seq(RESULT_FIELDS, i requires 0 <= i < RESULT_FIELDS reads buffer => CString(buffer[..], starts[i]));
    assert f == parts;
    var seconds := Duration(BeforeLineEnd(f[5]));
    if seconds.None? || exists i :: 0 <= i < 5 && |f[i]| >= MAX_PATH {
      return None;
    }
    return Some(Record(f[0], f[1], f[2], f[3], f[4], seconds.value));
  }

  // ----- the whole directory -----

  predicate IsResultName(name: string) {
    |name| >= 7 && name[|name| - 7..] == ".result"
  }

  /** The result files among directory entries. */
  function ResultNames(entries: seq<string>): seq<string> {
    if entries == [] then []
    else
      var last := entries[|entries| - 1];
      ResultNames(entries[..|entries| - 1]) + if IsResultName(last) then [last] else []
  }

  lemma {:induction false} ResultNamesCount(entries: seq<string>, name: string)
    ensures multiset(ResultNames(entries))[name] == if IsResultName(name) then multiset(entries)[name] else 0
  {
    if entries != [] {
      var n := |entries| - 1;
      ResultNamesCount(entries[..n], name);
      assert entries == entries[..n] + [entries[n]];
    }
  }

  /** Every entry that ends in .result is collected, as often as it is there, and nothing else is. */
  lemma ResultNamesMean(entries: seq<string>, name: string)
    ensures multiset(ResultNames(entries))[name] ==
            if exists stem: string :: name == stem + ".result" then multiset(entries)[name] else 0
  {
    ResultNamesCount(entries, name);
    if IsResultName(name) {
      assert name == name[..|name| - 7] + ".result";
    }
  }

  lemma ResultNamesIgnoreOrder(a: seq<string>, b: seq<string>)
    requires multiset(a) == multiset(b)
    ensures multiset(ResultNames(a)) == multiset(ResultNames(b))
  {
    forall name ensures multiset(ResultNames(a))[name] == multiset(ResultNames(b))[name] {
      ResultNamesCount(a, name);
      ResultNamesCount(b, name);
    }
  }

  predicate Fails(r: Record) { r.unit == "FAIL" || r.unit == "MISSING" || r.fuzz == "FAIL" }

  datatype Receipt = Refused | Written(passed: bool, records: seq<Record>)

  /** What the result files hold, by name. */
  type Files = string -> seq<Line>

  /** The receipt that belongs to sorted names. */
  function ReceiptFor(names: seq<string>, files: Files): Receipt {
    if |names| > MAX_RECORDS || exists i :: 0 <= i < |names| && RecordOf(files(names[i])).None? then Refused
    else
      var records := seq(|names|, i requires 0 <= i < |names| => RecordOf(files(names[i])).value);
      Written(names != [] && forall i :: 0 <= i < |records| ==> !Fails(records[i]), records)
  }

  /** The receipt depends on which result files there are, never on the order in which the directory lists them. */
  lemma ReceiptIgnoresDirectoryOrder(a: seq<string>, b: seq<string>, sortedA: seq<string>, sortedB: seq<string>,
                                     files: Files)
    requires multiset(a) == multiset(b)
    requires Sorted(sortedA) && multiset(sortedA) == multiset(ResultNames(a))
    requires Sorted(sortedB) && multiset(sortedB) == multiset(ResultNames(b))
    ensures ReceiptFor(sortedA, files) == ReceiptFor(sortedB, files)
  {
    ResultNamesIgnoreOrder(a, b);
    SortedIsUnique(sortedA, sortedB);
  }

  /**
   A passing receipt covers at least one file, and every listed file's record is clean. A receipt is written whenever
   every file holds a record and there are not too many, and lists them in order.
   */
  lemma PassingReceiptMeans(names: seq<string>, files: Files)
    ensures var r := ReceiptFor(names, files);
            r.Written? && r.passed <==>
              && 0 < |names| <= 256
              && forall i :: 0 <= i < |names| ==>
                   var record := RecordOf(files(names[i]));
                   && record.Some? && record.value.unit != "FAIL" && record.value.unit != "MISSING"
                   && record.value.fuzz != "FAIL"
    ensures var r := ReceiptFor(names, files);
            && (r.Written? <==> |names| <= 256 && forall i :: 0 <= i < |names| ==> RecordOf(files(names[i])).Some?)
            && (r.Written? ==>
                  && |r.records| == |names|
                  && forall i :: 0 <= i < |names| ==> RecordOf(files(names[i])) == Some(r.records[i]))
  {
    var r := ReceiptFor(names, files);
    if r.Written? {
      assert forall i :: 0 <= i < |names| ==> r.records[i] == RecordOf(files(names[i])).value;
    }
  }

  /** Collecting stops at the table's end; a directory with more result files is refused. */
  method CollectNames(entries: seq<string>) returns (names: seq<string>, overflow: bool)
    ensures overflow <==> |ResultNames(entries)| > MAX_RECORDS
    ensures !overflow ==> names == ResultNames(entries)
    ensures |names| <= MAX_RECORDS
  {
    names := [];
    for index := 0 to |entries|
      invariant names == ResultNames(entries[..index]) && |names| <= MAX_RECORDS
    {
      assert entries[..index + 1][..index] == entries[..index];
      if IsResultName(entries[index]) {
        if |names| >= MAX_RECORDS {
          NamesGrow(entries, index + 1);
          return names, true;
        }
        names := names + [entries[index]];
      }
    }
    assert entries[..|entries|] == entries;
    return names, false;
  }

  lemma {:induction false} NamesGrow(entries: seq<string>, n: nat)
    requires n <= |entries|
    ensures |ResultNames(entries[..n])| <= |ResultNames(entries)|
    decreases |entries| - n
  {
    if n < |entries| {
      assert entries[..n + 1][..n] == entries[..n];
      NamesGrow(entries, n + 1);
    } else {
      assert entries[..n] == entries;
    }
  }

  method LoadResults(names: seq<string>, files: Files) returns (loaded: bool, records: seq<Record>)
    requires |names| <= MAX_RECORDS
    ensures loaded <==> forall i :: 0 <= i < |names| ==> RecordOf(files(names[i])).Some?
    ensures loaded ==> |records| == |names|
    ensures loaded ==> forall i :: 0 <= i < |names| ==> RecordOf(files(names[i])) == Some(records[i])
  {
    records := [];
    for index := 0 to |names|
      invariant |records| == index
      invariant forall i :: 0 <= i < index ==>
                  RecordOf(files(names[i])) == Some(records[i])
    {
      var record := LoadResult(files(names[index]));
      if record.None? {
        return false, records;
      }
      records := records + [record.value];
    }
    loaded := true;
  }

  method MakeReceipt(entries: seq<string>, files: Files)
    returns (receipt: Receipt, ghost sorted: seq<string>)
    ensures Sorted(sorted)
    ensures |ResultNames(entries)| <= MAX_RECORDS ==>
              multiset(sorted) == multiset(ResultNames(entries)) && receipt == ReceiptFor(sorted, files)
    ensures |ResultNames(entries)| > MAX_RECORDS ==> receipt == Refused
  {
    var names, overflow := CollectNames(entries);
    var paths := new string[|names|](i requires 0 <= i < |names| => names[i]);
    assert paths[..] == names;
    SortPaths(paths);
    sorted := paths[..];
    SameLength(sorted, names);
    assert (exists i :: 0 <= i < |sorted| && RecordOf(files(sorted[i])).None?) ==>
             ReceiptFor(sorted, files) == Refused;
    hide RecordOf, Sorted, Fails, ReceiptFor, ResultNames;
    var loaded, records := LoadResults(paths[..], files);
    if !loaded || overflow {
      return Refused, sorted;
    }
    ReceiptAssembles(sorted, files, records);
    var passed := Verdict(records);
    receipt := Written(passed, records);
  }

  /** Something must have been tested, and nothing may have failed. */
  method Verdict(records: seq<Record>) returns (passed: bool)
    ensures passed <==> records != [] && forall i :: 0 <= i < |records| ==> !Fails(records[i])
  {
    passed := |records| > 0;
    for index := 0 to |records|
      invariant passed <==> |records| > 0 && forall i :: 0 <= i < index ==> !Fails(records[i])
    {
      if Fails(records[index]) {
        passed := false;
      }
    }
  }

  lemma ReceiptAssembles(names: seq<string>, files: Files, records: seq<Record>)
    requires |records| == |names| <= MAX_RECORDS
    requires forall i :: 0 <= i < |names| ==> RecordOf(files(names[i])) == Some(records[i])
    ensures ReceiptFor(names, files) ==
            Written(records != [] && forall i :: 0 <= i < |records| ==> !Fails(records[i]), records)
  {
    hide RecordOf, Fails;
    forall i | 0 <= i < |names| ensures RecordOf(files(names[i])).value == records[i] {
      assert RecordOf(files(names[i])) == Some(records[i]);
    }
    assert seq(|names|, i requires 0 <= i < |names| => RecordOf(files(names[i])).value) == records;
  }

  lemma SameLength(a: seq<string>, b: seq<string>)
    requires multiset(a) == multiset(b)
    ensures |a| == |b|
  {
    assert |a| == |multiset(a)| && |b| == |multiset(b)|;
  }
}
