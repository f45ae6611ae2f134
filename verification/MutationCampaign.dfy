/**
 The whole mutation run: candidate selection (candidates.c), the campaign and its
 exit status (main.c), and the report's counters (output.c).
 */
module MutationCampaign {
  import opened Wrappers
  import opened FileTree
  import opened TreeCopy
  import opened MutationFiles
  import opened MutationCommand
  import opened MutationExecution

  const EXIT_FINDINGS := 1
  const EXIT_TROUBLE := 2

  /** One record of the C analysis; only some describe a mutation. */
  datatype Record = Record(isMutation: bool, kind: nat, path: string, line: nat, start: nat, end: nat,
                           name: string, replacement: string)

  // ----- candidate selection -----

  predicate Selects(operators: seq<nat>, record: Record) {
    record.isMutation && (operators == [] || record.kind in operators)
  }

  /** The selected records, in order. */
  function Selected(operators: seq<nat>, records: seq<Record>): seq<Record> {
    if records == [] then []
    else
      var last := records[|records| - 1];
      Selected(operators, records[..|records| - 1]) + if Selects(operators, last) then [last] else []
  }

  function First<T>(s: seq<T>, n: nat): seq<T> { if |s| <= n then s else s[..n] }

  /** The record's candidate, at the canonical path; a zeroed one when there is none. */
  function CandidateOf(record: Record, realpath: Realpath): Candidate {
    match realpath(record.path)
    case None => Candidate("", 0, 0, 0, "", "", 0)
    case Some(path) =>
      Candidate(path, record.line, record.start, record.end, record.name, record.replacement, record.kind)
  }

  function CandidatesOf(records: seq<Record>, realpath: Realpath): (r: seq<Candidate>)
    ensures |r| == |records| && forall i :: 0 <= i < |r| ==> r[i] == CandidateOf(records[i], realpath)
  {
    seq(|records|, i requires 0 <= i < |records| => CandidateOf(records[i], realpath))
  }

  predicate Resolvable(records: seq<Record>, realpath: Realpath) {
    forall i :: 0 <= i < |records| ==> realpath(records[i].path).Some?
  }

  method OperatorSelected(operators: seq<nat>, kind: nat) returns (selected: bool)
    ensures selected <==> operators == [] || kind in operators
  {
    selected := |operators| == 0;
    if selected {
      return;
    }
    for index := 0 to |operators|
      invariant !selected && kind !in operators[..index]
    {
      if operators[index] == kind {
        return true;
      }
    }
  }

  /** The candidate table: a fixed capacity, filled in order. */
  class Candidates {
    var items: seq<Candidate>
    const capacity: nat
    const operators: seq<nat>

    constructor (capacity: nat, operators: seq<nat>)
      ensures items == [] && this.capacity == capacity && this.operators == operators
    {
      items, this.capacity, this.operators := [], capacity, operators;
    }

    method Observe(record: Record, realpath: Realpath) returns (keepGoing: bool)
      modifies this
      ensures !Selects(operators, record) || |old(items)| >= capacity ==> items == old(items) && keepGoing
      ensures Selects(operators, record) && |old(items)| < capacity ==>
                items == old(items) + [CandidateOf(record, realpath)] && (keepGoing <==> realpath(record.path).Some?)
    {
      var selected := OperatorSelected(operators, record.kind);
      if !record.isMutation || !selected {
        return true;
      }
      if |items| >= capacity {
        return true;
      }
      items := items + [CandidateOf(record, realpath)];
      keepGoing := realpath(record.path).Some?;
    }

    /** The analysis hands every record to Observe until told to stop. */
    method Scan(records: seq<Record>, realpath: Realpath) returns (ok: bool)
      requires items == []
      modifies this
      ensures ok <==> Resolvable(First(Selected(operators, records), capacity), realpath)
      ensures ok ==> items == CandidatesOf(First(Selected(operators, records), capacity), realpath)
    {
      ok := true;
      ghost var chosen: seq<Record> := [];
      for index := 0 to |records|
        invariant ok && chosen == First(Selected(operators, records[..index]), capacity)
        invariant Resolvable(chosen, realpath) && items == CandidatesOf(chosen, realpath)
      {
        ChoiceStep(operators, records, index, capacity, realpath);
        hide Selected, First, CandidateOf, Selects;
        ok := Observe(records[index], realpath);
        if !ok {
          return;
        }
        chosen := First(Selected(operators, records[..index + 1]), capacity);
      }
      assert records[..|records|] == records;
    }
  }

  /**
   One more record: it joins the table if it is selected and there is room; a record that cannot be resolved ends
   the scan.
   */
  lemma ChoiceStep(operators: seq<nat>, records: seq<Record>, index: nat, capacity: nat, realpath: Realpath)
    requires index < |records|
    ensures var before, after := First(Selected(operators, records[..index]), capacity),
                                 First(Selected(operators, records[..index + 1]), capacity);
            if Selects(operators, records[index]) && |before| < capacity then
              && after == before + [records[index]]
              && (realpath(records[index].path).None? ==>
                    !Resolvable(First(Selected(operators, records), capacity), realpath))
            else after == before
  {
    assert records[..index + 1][..index] == records[..index];
    var before, after := First(Selected(operators, records[..index]), capacity),
                         First(Selected(operators, records[..index + 1]), capacity);
    SelectionGrows(operators, records, index + 1, capacity);
    if Selects(operators, records[index]) && |before| < capacity {
      assert First(Selected(operators, records), capacity)[|before|] == records[index];
    }
  }

  /** Later records never disturb what is already in the table. */
  lemma {:induction false} SelectionGrows(operators: seq<nat>, records: seq<Record>, index: nat, capacity: nat)
    requires index <= |records|
    ensures First(Selected(operators, records[..index]), capacity) <= First(Selected(operators, records), capacity)
    decreases |records| - index
  {
    if index < |records| {
      assert records[..index + 1][..index] == records[..index];
      SelectionGrows(operators, records, index + 1, capacity);
    } else {
      assert records[..index] == records;
    }
  }

  /** The selected records stand at certain places, in order: mutations of an allowed kind, of any if none is given. */
  lemma {:induction false} SelectedMeans(operators: seq<nat>, records: seq<Record>) returns (places: seq<nat>)
    ensures |places| == |Selected(operators, records)|
    ensures forall a, b :: 0 <= a < b < |places| ==> places[a] < places[b]
    ensures forall a :: 0 <= a < |places| ==>
              places[a] < |records| && Selected(operators, records)[a] == records[places[a]]
    ensures forall i :: 0 <= i < |records| ==>
              (i in places <==> records[i].isMutation && (operators == [] || records[i].kind in operators))
  {
    hide Selects;
    places := [];
    if records != [] {
      var n := |records| - 1;
      var before := SelectedMeans(operators, records[..n]);
      assert Selected(operators, records) ==
             Selected(operators, records[..n]) + if Selects(operators, records[n]) then [records[n]] else [];
      places := before + if Selects(operators, records[n]) then [n] else [];
      SelectsMeans(operators, records[n]);
      hide Selected;
      assert forall i :: 0 <= i < n ==> (i in places <==> i in before) && records[..n][i] == records[i];
      assert n in places <==> Selects(operators, records[n]);
    }
  }

  lemma SelectsMeans(operators: seq<nat>, record: Record)
    ensures Selects(operators, record) <==> record.isMutation && (operators == [] || record.kind in operators)
  {
  }

  // ----- verdict -----

  function ExitStatus(results: seq<MutantResult>): int {
    if exists i :: 0 <= i < |results| && results[i].outcome == Inconclusive then EXIT_TROUBLE
    else if exists i :: 0 <= i < |results| && results[i].outcome == Survived then EXIT_FINDINGS
    else 0
  }

  /** The order in which mutants ran does not matter. */
  lemma ExitStatusIgnoresOrder(a: seq<MutantResult>, b: seq<MutantResult>)
    requires multiset(a) == multiset(b)
    ensures ExitStatus(a) == ExitStatus(b)
  {
    forall x | x in a ensures x in b { assert x in multiset(a); }
    forall x | x in b ensures x in a { assert x in multiset(b); }
    assert forall i :: 0 <= i < |a| ==> a[i] in b;
    assert forall i :: 0 <= i < |b| ==> b[i] in a;
  }

  method FoldExitStatus(results: seq<MutantResult>) returns (exit: int)
    ensures exit == ExitStatus(results)
  {
    exit := 0;
    for index := 0 to |results|
      invariant exit == ExitStatus(results[..index])
    {
      assert forall i :: 0 <= i < index ==> results[..index][i] == results[..index + 1][i];
      assert results[..index + 1][index] == results[index];
      var outcome := results[index].outcome;
      if outcome == Inconclusive {
        exit := EXIT_TROUBLE;
      } else if outcome == Survived && exit == 0 {
        exit := EXIT_FINDINGS;
      }
    }
    assert results[..|results|] == results;
  }

  datatype Counters = Counters(selected: nat, killed: nat, survived: nat, inconclusive: nat)

  datatype ReportOutcome = Clean | Findings | ToolError

  function CountOutcome(results: seq<MutantResult>, outcome: Outcome): (n: nat)
    ensures n > 0 <==> exists i :: 0 <= i < |results| && results[i].outcome == outcome
  {
    if results == [] then 0
    else
      var rest := results[..|results| - 1];
      assert forall i :: 0 <= i < |rest| ==> results[i] == rest[i];
      CountOutcome(rest, outcome) + if results[|results| - 1].outcome == outcome then 1 else 0
  }

  lemma CountsStart(results: seq<MutantResult>)
    ensures forall outcome :: CountOutcome(results[..0], outcome) == 0
    ensures results[..|results|] == results
  {
  }

  lemma CountStep(results: seq<MutantResult>, n: nat, outcome: Outcome)
    requires n < |results|
    ensures CountOutcome(results[..n + 1], outcome) ==
            CountOutcome(results[..n], outcome) + if results[n].outcome == outcome then 1 else 0
  {
    assert results[..n + 1][..n] == results[..n];
  }

  /** What the exit status asks of the results, in terms of the counters. */
  lemma CountsDecide(results: seq<MutantResult>)
    ensures ExitStatus(results) == if CountOutcome(results, Inconclusive) > 0 then EXIT_TROUBLE
                                   else if CountOutcome(results, Survived) > 0 then EXIT_FINDINGS else 0
  {
    hide CountOutcome;
  }

  /** The report counts every mutant once, and its outcome says what the exit status says. */
  method ReportResults(results: seq<MutantResult>) returns (counters: Counters, outcome: ReportOutcome)
    ensures counters.killed == CountOutcome(results, Killed) && counters.survived == CountOutcome(results, Survived)
    ensures counters.inconclusive == CountOutcome(results, Inconclusive)
    ensures counters.selected == |results| == counters.killed + counters.survived + counters.inconclusive
    ensures outcome == match ExitStatus(results) case 0 => Clean case 1 => Findings case _ => ToolError
  {
    hide CountOutcome, ExitStatus;
    CountsStart(results);
    var killed, survived, inconclusive := 0, 0, 0;
    for index := 0 to |results|
      invariant killed == CountOutcome(results[..index], Killed)
      invariant survived == CountOutcome(results[..index], Survived)
      invariant inconclusive == CountOutcome(results[..index], Inconclusive)
      invariant killed + survived + inconclusive == index
    {
      CountStep(results, index, Killed);
      CountStep(results, index, Survived);
      CountStep(results, index, Inconclusive);
      if results[index].outcome == Killed {
        killed := killed + 1;
      } else if results[index].outcome == Survived {
        survived := survived + 1;
      } else {
        inconclusive := inconclusive + 1;
      }
    }
    CountsDecide(results);
    counters := Counters(|results|, killed, survived, inconclusive);
    outcome := if inconclusive > 0 then ToolError else if survived > 0 then Findings else Clean;
  }

  // ----- the campaign -----

  /** Everything outside the tool's control, for one run of it; commands(i) is how commands behave for mutant i. */
  datatype Campaign = Campaign(
    projectArgument: string, operators: seq<nat>, maxMutants: nat, listOnly: bool,
    analysisOk: bool, analysisNoted: bool, records: seq<Record>,
    realpath: Realpath, database: string -> Option<Command>, test: seq<string>,
    baseline: Commands, commands: nat -> Commands, suffixes: nat -> string, listFails: bool, reportFails: bool)
  {
    function Chosen(): seq<Record> { First(Selected(operators, records), maxMutants) }

    function Candidates(): seq<Candidate> { CandidatesOf(Chosen(), realpath) }

    predicate Scanned() { analysisOk && Resolvable(Chosen(), realpath) }

    /** Listing prints the candidates and runs nothing. */
    predicate ListsCleanly() { Scanned() && listOnly && !analysisNoted && !listFails }

    /** There is something to execute; the baseline goes first. */
    predicate Starts() { Scanned() && !listOnly && !analysisNoted && Candidates() != [] }

    function BaselineCall(t: Tree): Call { Call(t, projectArgument, test) }

    /** The baseline runs in the project itself, and may leave anything there or anywhere else. */
    function AfterBaseline(t: Tree): Tree { baseline(BaselineCall(t)).nodes }

    predicate BaselinePasses(t: Tree) {
      baseline(BaselineCall(t)).run.Passes() && !baseline(BaselineCall(t)).run.Errs()
    }

    predicate Known() { realpath(projectArgument).Some? }

    function Project(): string { if Known() then realpath(projectArgument).value else "" }

    function JobAt(i: nat): Job
      requires i < |Candidates()|
    {
      JobOf(Project(), Candidates()[i], Scratch(suffixes(i)), Setting(realpath, database, test, commands(i)))
    }

    /** The tree in which mutant i is built: t with a scratch directory. */
    function World(t: Tree, i: nat): Tree { t[Scratch(suffixes(i)) := Directory] }

    /** Every mutant can be judged. */
    predicate Finishes(t: Tree) {
      Known() && forall i :: 0 <= i < |Candidates()| ==> Judgeable(t, JobAt(i))
    }

    predicate Ends(t: Tree, i: nat, outcome: Outcome)
      requires i < |Candidates()| && Finishes(t)
    {
      assert Judgeable(t, JobAt(i));
      JobAt(i).Verdict(World(t, i)).outcome == outcome
    }

    /** How the test command ended for mutant i. */
    function TestRunAt(t: Tree, i: nat): Run
      requires i < |Candidates()| && Finishes(t)
    {
      assert Judgeable(t, JobAt(i));
      JobAt(i).TestRun(World(t, i))
    }

    /** The test command of mutant i was seen to end in failure. */
    predicate SeenToFail(t: Tree, i: nat)
      requires i < |Candidates()| && Finishes(t)
    {
      TestRunAt(t, i).Fails()
    }

    predicate LosesTest(t: Tree, i: nat)
      requires i < |Candidates()| && Finishes(t)
    {
      TestRunAt(t, i).Lost?
    }

    /** An error is on record when the last mutant is done. */
    predicate NotedAtEnd(t: Tree)
      requires Candidates() != [] && Finishes(t)
    {
      assert Judgeable(t, JobAt(|Candidates()| - 1));
      JobAt(|Candidates()| - 1).Noted(World(t, |Candidates()| - 1))
    }

    /** All mutants are executed and reported, and no error is on record in the end. */
    predicate Carries(t: Tree) {
      && Starts() && BaselinePasses(t)
      && Finishes(AfterBaseline(t)) && !NotedAtEnd(AfterBaseline(t)) && !reportFails
    }

    /** What a successful campaign comes down to, in terms of its inputs. */
    predicate KillsAll(t: Tree) {
      Carries(t) && forall i :: 0 <= i < |Candidates()| ==> Ends(AfterBaseline(t), i, Killed)
    }

    /** And one with survivors. */
    predicate HasSurvivors(t: Tree) {
      && Carries(t)
      && (forall i :: 0 <= i < |Candidates()| ==> !Ends(AfterBaseline(t), i, Inconclusive))
      && (exists i :: 0 <= i < |Candidates()| && Ends(AfterBaseline(t), i, Survived))
    }
  }

  /**
   The candidates are the first selected records, as many as are wanted: each names the canonical path, the place and
   the text of its record, and what replaces it.
   */
  lemma CandidatesMean(c: Campaign) returns (places: seq<nat>)
    ensures |c.Candidates()| == if |places| < c.maxMutants then |places| else c.maxMutants
    ensures forall a, b :: 0 <= a < b < |places| ==> places[a] < places[b]
    ensures forall a :: 0 <= a < |places| ==> places[a] < |c.records|
    ensures forall i :: 0 <= i < |c.records| ==>
              (i in places <==> c.records[i].isMutation && (c.operators == [] || c.records[i].kind in c.operators))
    ensures c.Scanned() <==>
            c.analysisOk && forall k :: 0 <= k < |c.Candidates()| ==> c.realpath(c.records[places[k]].path).Some?
    ensures c.Scanned() ==> forall k :: 0 <= k < |c.Candidates()| ==>
              var candidate, record := c.Candidates()[k], c.records[places[k]];
              && c.realpath(record.path) == Some(candidate.path)
              && candidate.start == record.start && candidate.end == record.end && candidate.line == record.line
              && candidate.original == record.name && candidate.replacement == record.replacement
              && candidate.kind == record.kind
  {
    places := SelectedMeans(c.operators, c.records);
    hide Selected;
    assert forall k :: 0 <= k < |c.Candidates()| ==> c.Chosen()[k] == c.records[places[k]];
  }

  predicate AllLocated(t: Tree, c: Campaign) {
    c.Known() ==> forall i :: 0 <= i < |c.Candidates()| ==> Located(t, c.Project(), c.Candidates()[i])
  }

  /** Each mutant has a scratch directory whose name is one word, and its commands write nowhere else. */
  ghost predicate AllConfined(c: Campaign) {
    forall i: nat :: '/' !in c.suffixes(i) && Confined(c.commands(i), Scratch(c.suffixes(i)))
  }

  /**
   Candidates lie in the project, also when the baseline is done with it. The baseline may do anything at all to the
   file system, the commands of a mutant only below its scratch directory.
   */
  ghost predicate Sound(t: Tree, c: Campaign) {
    && WellFormed(t) && Confined(c.baseline, []) && AllConfined(c)
    && (c.Starts() ==> AllLocated(c.AfterBaseline(t), c))
  }

  ghost predicate SameBelow(before: Tree, now: Tree, root: Path) {
    forall x: Path :: SameAt(before, now, root + x)
  }

  lemma ProjectSurvivesMutant(before: Tree, after: Tree, project: string, c: Candidate, suffix: string)
    requires WellFormed(before) && Located(before, project, c)
    requires SameOutside(before, after, Scratch(suffix))
    requires Scratch(suffix) in before ==> after == before
    ensures SameBelow(before, after, Resolve(project))
  {
    var temp, p := Scratch(suffix), Resolve(project);
    if temp !in before {
      assert temp[..1] == ["tmp"] && temp[..2] == temp;
      VacantWithoutChildren(before, temp);
      forall x: Path ensures SameAt(before, after, p + x) {
        assert p <= p + x;
        assert Apart(p, temp) by {
          assert p != temp[..1] && p != temp[..2];
        }
        ApartBelow(p, temp, p + x, temp);
      }
    }
  }

  lemma SameBelowTransitive(a: Tree, b: Tree, c: Tree, root: Path)
    requires SameBelow(a, b, root) && SameBelow(b, c, root)
    ensures SameBelow(a, c, root)
  {
    forall x: Path ensures SameAt(a, c, root + x) {
      assert SameAt(a, b, root + x) && SameAt(b, c, root + x);
    }
  }

  lemma LocatedAlike(before: Tree, now: Tree, project: string, c: Candidate)
    requires Located(before, project, c) && SameBelow(before, now, Resolve(project))
    ensures Located(now, project, c)
  {
    var p, q := Resolve(project), Resolve(c.path);
    assert p + [] == p && p + q[|p|..] == q;
    assert SameAt(before, now, p + []) && SameAt(before, now, p + q[|p|..]);
  }

  /** A verdict depends on the project only. */
  lemma JudgedAlike(before: Tree, now: Tree, j: Job, result: MutantResult, calls: seq<Call>)
    requires SameBelow(before, now, j.project) && Judged(now, j, result, calls)
    ensures Judged(before, j, result, calls)
  {
    var p, copy, mutant := j.project, j.Copy(), calls[0].nodes;
    assert SameAt(before, now, p + j.r);
    forall x: Path ensures MutantAt(before, mutant, p, copy, j.r, j.candidate, x) {
      assert SameAt(before, now, p + x);
      assert MutantAt(now, mutant, p, copy, j.r, j.candidate, x);
    }
  }

  predicate AllKilled(results: seq<MutantResult>) {
    forall i :: 0 <= i < |results| ==> results[i].outcome == Killed
  }

  lemma CleanMeansKilled(results: seq<MutantResult>)
    ensures ExitStatus(results) == 0 <==> AllKilled(results)
    ensures ExitStatus(results) == EXIT_FINDINGS <==>
            && (forall i :: 0 <= i < |results| ==> results[i].outcome != Inconclusive)
            && (exists i :: 0 <= i < |results| && results[i].outcome == Survived)
    ensures ExitStatus(results) == 0 || ExitStatus(results) == EXIT_FINDINGS || ExitStatus(results) == EXIT_TROUBLE
  {
    forall i | 0 <= i < |results| && ExitStatus(results) == 0 ensures results[i].outcome == Killed {
      assert results[i].outcome != Inconclusive && results[i].outcome != Survived;
    }
  }

  /** The mutants judged so far were the right ones, each against the untouched project. */
  ghost predicate AllJudged(before: Tree, c: Campaign, results: seq<MutantResult>, calls: seq<seq<Call>>) {
    && |results| == |calls| <= |c.Candidates()|
    && forall i :: 0 <= i < |results| ==> Judged(before, c.JobAt(i), results[i], calls[i])
  }

  /** Without stray failures, every verdict so far is the one the inputs determine. */
  ghost predicate AllCarried(t: Tree, c: Campaign, results: seq<MutantResult>, calls: seq<seq<Call>>) {
    && |results| == |calls| <= |c.Candidates()|
    && forall i :: 0 <= i < |results| ==> Carried(t, c.JobAt(i), results[i], calls[i])
  }

  lemma JudgedStep(before: Tree, now: Tree, c: Campaign, results: seq<MutantResult>, calls: seq<seq<Call>>,
                   result: MutantResult, more: seq<Call>)
    requires AllJudged(before, c, results, calls) && |results| < |c.Candidates()|
    requires SameBelow(before, now, Resolve(c.Project())) && Carried(now, c.JobAt(|results|), result, more)
    ensures AllJudged(before, c, results + [result], calls + [more])
  {
    hide Judged, Campaign.Candidates, Judgeable, AllJudged, SameBelow, Job.Verdict, Job.Calls;
    JudgedAlike(before, now, c.JobAt(|results|), result, more);
    AllJudgedStep(before, c, results, calls, result, more);
  }

  lemma AllJudgedStep(before: Tree, c: Campaign, results: seq<MutantResult>, calls: seq<seq<Call>>,
                      result: MutantResult, more: seq<Call>)
    requires AllJudged(before, c, results, calls) && |results| < |c.Candidates()|
    requires Judged(before, c.JobAt(|results|), result, more)
    ensures AllJudged(before, c, results + [result], calls + [more])
  {
    hide Judged, Campaign.Candidates, Campaign.JobAt;
  }

  lemma CarriedStep(t: Tree, c: Campaign, results: seq<MutantResult>, calls: seq<seq<Call>>,
                    result: MutantResult, more: seq<Call>)
    requires AllCarried(t, c, results, calls) && |results| < |c.Candidates()|
    requires Carried(t, c.JobAt(|results|), result, more)
    ensures AllCarried(t, c, results + [result], calls + [more])
  {
    hide Carried, Campaign.Candidates;
  }

  function Flat(calls: seq<seq<Call>>): seq<Call> {
    if calls == [] then [] else Flat(calls[..|calls| - 1]) + calls[|calls| - 1]
  }

  lemma FlatStep(start: seq<Call>, calls: seq<seq<Call>>, more: seq<Call>)
    ensures start + Flat([]) == start
    ensures start + Flat(calls + [more]) == start + Flat(calls) + more
  {
    assert (calls + [more])[..|calls|] == calls;
  }

  /** What is known once some mutants have been executed, all to the end. */
  ghost predicate Progress(start: Tree, c: Campaign, now: Tree, faulty: bool, results: seq<MutantResult>,
                           calls: seq<seq<Call>>, error: bool)
  {
    && WellFormed(now) && AllJudged(start, c, results, calls)
    && (c.Known() ==> SameBelow(start, now, Resolve(c.Project())))
    && (!faulty ==> now == start && AllCarried(start, c, results, calls))
    && (results != [] ==>
          && c.Known() && calls[|calls| - 1] != []
          && error == NotedBy(c.JobAt(|results| - 1), calls[|calls| - 1]))
  }

  lemma ProgressStarts(t: Tree, c: Campaign, faulty: bool, error: bool)
    requires WellFormed(t)
    ensures Progress(t, c, t, faulty, [], [], error)
  {
  }

  lemma ProgressMeans(start: Tree, c: Campaign, now: Tree, faulty: bool, results: seq<MutantResult>,
                      calls: seq<seq<Call>>, error: bool)
    requires Progress(start, c, now, faulty, results, calls, error)
    ensures WellFormed(now) && AllJudged(start, c, results, calls) && |results| == |calls|
    ensures c.Known() ==> SameBelow(start, now, Resolve(c.Project()))
    ensures !faulty ==> now == start && AllCarried(start, c, results, calls)
    ensures results != [] ==>
              && c.Known() && calls[|calls| - 1] != []
              && error == NotedBy(c.JobAt(|results| - 1), calls[|calls| - 1])
  {
  }

  lemma StillLocated(start: Tree, now: Tree, c: Campaign, i: nat)
    requires i < |c.Candidates()| && c.Known() && AllLocated(start, c) && SameBelow(start, now, Resolve(c.Project()))
    ensures Located(now, c.Project(), c.Candidates()[i])
  {
    LocatedAlike(start, now, c.Project(), c.Candidates()[i]);
  }

  lemma NotFinished(t: Tree, c: Campaign, i: nat)
    requires i < |c.Candidates()| && (c.Known() ==> !Judgeable(t, c.JobAt(i)))
    ensures !c.Finishes(t)
  {
  }

  lemma AllFinish(t: Tree, c: Campaign, results: seq<MutantResult>, calls: seq<seq<Call>>)
    requires AllCarried(t, c, results, calls) && |results| == |c.Candidates()| && c.Known()
    ensures c.Finishes(t)
  {
    forall i | 0 <= i < |results| ensures Judgeable(t, c.JobAt(i)) {
      assert Carried(t, c.JobAt(i), results[i], calls[i]);
    }
  }

  /** The next mutant, executed to the end or not. */
  lemma ProgressStep(start: Tree, c: Campaign, before: Tree, after: Tree, faulty: bool, results: seq<MutantResult>,
                     calls: seq<seq<Call>>, error: bool, result: MutantResult, more: seq<Call>, error': bool)
    requires |results| < |c.Candidates()| && Progress(start, c, before, faulty, results, calls, error)
    requires AllLocated(start, c) && c.Known()
    requires WellFormed(after) && SameOutside(before, after, Scratch(c.suffixes(|results|)))
    requires !faulty || Scratch(c.suffixes(|results|)) in before ==> after == before
    ensures SameBelow(start, after, Resolve(c.Project()))
    ensures Carried(before, c.JobAt(|results|), result, more) && more != []
            && error' == NotedBy(c.JobAt(|results|), more) ==>
              Progress(start, c, after, faulty, results + [result], calls + [more], error')
  {
    hide WellFormed, SameBelow, AllJudged, AllCarried, Carried, Located, Judged, Judgeable, Scratch, SameOutside,
         NotedBy, Resolve, Campaign.Candidates;
    LocatedAlike(start, before, c.Project(), c.Candidates()[|results|]);
    ProjectSurvivesMutant(before, after, c.Project(), c.Candidates()[|results|], c.suffixes(|results|));
    SameBelowTransitive(start, before, after, Resolve(c.Project()));
    if Carried(before, c.JobAt(|results|), result, more) {
      JudgedStep(start, before, c, results, calls, result, more);
      if !faulty {
        CarriedStep(start, c, results, calls, result, more);
      }
    }
  }

  /** One execution per candidate, stopping at the first that cannot be completed. */
  method ExecuteAll(fs: FileSystem, shell: Shell, c: Campaign, candidates: seq<Candidate>)
    returns (completed: bool, results: seq<MutantResult>, ghost calls: seq<seq<Call>>)
    requires WellFormed(fs.nodes) && AllLocated(fs.nodes, c) && AllConfined(c)
    requires candidates == c.Candidates()
    modifies fs, shell
    ensures WellFormed(fs.nodes) && (!fs.faulty ==> fs.nodes == old(fs.nodes))
    ensures c.Known() ==> SameBelow(old(fs.nodes), fs.nodes, Resolve(c.Project()))
    ensures |calls| == |results| <= |candidates| && (completed <==> |results| == |candidates|)
    ensures AllJudged(old(fs.nodes), c, results, calls)
    ensures !fs.faulty ==> AllCarried(old(fs.nodes), c, results, calls)
    ensures !fs.faulty && candidates != [] ==> (completed <==> c.Finishes(old(fs.nodes)))
    // The error on record is the last mutant's, whatever happened before.
    ensures completed && candidates != [] ==>
              c.Known() && calls[|calls| - 1] != [] && fs.error == NotedBy(c.JobAt(|results| - 1), calls[|calls| - 1])
    ensures completed ==> shell.calls == old(shell.calls) + Flat(calls)
  {
    hide WellFormed, SameBelow, AllJudged, AllCarried, AllLocated, Carried, Located, Judged, Judgeable, Scratch,
         SameOutside, NotedBy, Resolve, Flat, Campaign.Candidates, Progress, JobOf, Campaign.Finishes, Confined;
    completed, results, calls := true, [], [];
    ghost var start := fs.nodes;
    ProgressStarts(start, c, fs.faulty, fs.error);
    FlatStep(shell.calls, [], []);
    for index := 0 to |candidates|
      invariant completed && |results| == index == |calls|
      invariant Progress(start, c, fs.nodes, fs.faulty, results, calls, fs.error)
      invariant shell.calls == old(shell.calls) + Flat(calls)
    {
      ghost var before, error := fs.nodes, fs.error;
      ProgressMeans(start, c, before, fs.faulty, results, calls, error);
      if c.Known() {
        StillLocated(start, before, c, index);
      }
      var result;
      ghost var more;
      completed, result, more :=
        Execute(fs, shell, c.projectArgument, candidates[index], c.suffixes(index),
                Setting(c.realpath, c.database, c.test, c.commands(index)));
      if c.Known() {
        ProgressStep(start, c, before, fs.nodes, fs.faulty, results, calls, error, result, more, fs.error);
      }
      if !completed {
        if !fs.faulty {
          NotFinished(start, c, index);
        }
        return;
      }
      FlatStep(old(shell.calls), calls, more);
      results, calls := results + [result], calls + [more];
    }
    ProgressMeans(start, c, fs.nodes, fs.faulty, results, calls, fs.error);
    if !fs.faulty && candidates != [] {
      AllFinish(start, c, results, calls);
    }
  }

  /** The verdicts that were carried out are those the inputs determine. */
  lemma CarriedOutcomes(t: Tree, c: Campaign, results: seq<MutantResult>, calls: seq<seq<Call>>)
    requires AllCarried(t, c, results, calls) && |results| == |c.Candidates()| > 0 && c.Finishes(t)
    ensures forall i :: 0 <= i < |results| ==>
              && (c.Ends(t, i, Killed) <==> results[i].outcome == Killed)
              && (c.Ends(t, i, Survived) <==> results[i].outcome == Survived)
              && (c.Ends(t, i, Inconclusive) <==> results[i].outcome == Inconclusive)
    ensures calls[|calls| - 1] != [] ==>
              (NotedBy(c.JobAt(|results| - 1), calls[|calls| - 1]) <==> c.NotedAtEnd(t))
  {
    hide Carried, Campaign.Ends, Campaign.NotedAtEnd, Campaign.JobAt, NotedBy, Campaign.Candidates, Campaign.Finishes;
    forall i | 0 <= i < |results|
      ensures c.Ends(t, i, Killed) <==> results[i].outcome == Killed
      ensures c.Ends(t, i, Survived) <==> results[i].outcome == Survived
      ensures c.Ends(t, i, Inconclusive) <==> results[i].outcome == Inconclusive
    {
      CarriedOutcome(t, c, i, results[i], calls[i]);
    }
    CarriedNote(t, c, results[|results| - 1], calls[|calls| - 1]);
  }

  lemma CarriedOutcome(t: Tree, c: Campaign, i: nat, result: MutantResult, calls: seq<Call>)
    requires i < |c.Candidates()| && c.Finishes(t) && Carried(t, c.JobAt(i), result, calls)
    ensures forall outcome :: c.Ends(t, i, outcome) <==> result.outcome == outcome
  {
    hide Judged, Judgeable, Job.Verdict, Job.Completes, Campaign.Candidates;
  }

  lemma CarriedNote(t: Tree, c: Campaign, result: MutantResult, calls: seq<Call>)
    requires c.Candidates() != [] && c.Finishes(t) && Carried(t, c.JobAt(|c.Candidates()| - 1), result, calls)
    ensures calls != [] ==> (NotedBy(c.JobAt(|c.Candidates()| - 1), calls) <==> c.NotedAtEnd(t))
  {
    hide Judged, Judgeable, Job.Verdict, Job.Completes, Campaign.Candidates, Job.Noted, Job.Calls, NotedBy;
    var n := |c.Candidates()| - 1;
    LastCallNotes(c.World(t, n), c.JobAt(n), t);
  }

  lemma LastCallNotes(world: Tree, j: Job, t: Tree)
    requires Judgeable(t, j) && world == t[j.temp := Directory]
    ensures j.Calls(world) != [] && (NotedBy(j, j.Calls(world)) <==> j.Noted(world))
  {
  }

  /** The tree that mutants are judged against. */
  function BaselineLeaves(t: Tree, c: Campaign): Tree { if c.Starts() then c.AfterBaseline(t) else t }

  predicate ExecutesAll(c: Campaign, results: seq<MutantResult>) { results != [] && |results| == |c.Candidates()| }

  /** What the exit status says about the mutants that were executed. */
  ghost predicate StatusFits(t: Tree, c: Campaign, results: seq<MutantResult>, calls: seq<seq<Call>>, exit: int) {
    && AllJudged(BaselineLeaves(t, c), c, results, calls)
    && (results != [] ==> c.Starts() && c.BaselinePasses(t))
    // Of all errors recorded on the way only the last mutant's and the report's reach the status.
    && (ExecutesAll(c, results) ==>
          && calls[|calls| - 1] != []
          && exit == if NotedBy(c.JobAt(|results| - 1), calls[|calls| - 1]) || c.reportFails then EXIT_TROUBLE
                     else ExitStatus(results))
    && (!ExecutesAll(c, results) ==> exit == if c.ListsCleanly() then 0 else EXIT_TROUBLE)
  }

  /** The exit status that the inputs determine. */
  predicate Decided(t: Tree, c: Campaign, exit: int) {
    && (exit == 0 <==> c.ListsCleanly() || c.KillsAll(t))
    && (exit == EXIT_FINDINGS <==> c.HasSurvivors(t))
    && (exit == 0 || exit == EXIT_FINDINGS || exit == EXIT_TROUBLE)
  }

  lemma NothingExecuted(t: Tree, c: Campaign)
    requires !c.Starts() || !c.BaselinePasses(t)
    ensures var exit := if c.ListsCleanly() then 0 else EXIT_TROUBLE;
            StatusFits(t, c, [], [], exit) && Decided(t, c, exit)
  {
    hide Campaign.Candidates, Campaign.Scanned, Campaign.Finishes, Campaign.AfterBaseline, Campaign.BaselinePasses,
         Campaign.NotedAtEnd, Campaign.Ends;
  }

  lemma PartlyExecuted(t: Tree, c: Campaign, results: seq<MutantResult>, calls: seq<seq<Call>>)
    requires c.Starts() && c.BaselinePasses(t) && |results| < |c.Candidates()|
    requires AllJudged(c.AfterBaseline(t), c, results, calls)
    ensures StatusFits(t, c, results, calls, EXIT_TROUBLE)
    ensures !c.Finishes(c.AfterBaseline(t)) ==> Decided(t, c, EXIT_TROUBLE)
  {
    hide AllJudged, Campaign.Candidates, Campaign.Scanned, Campaign.Finishes, Campaign.AfterBaseline,
         Campaign.BaselinePasses, Campaign.NotedAtEnd, Campaign.Ends;
  }

  lemma FullyExecuted(t: Tree, c: Campaign, results: seq<MutantResult>, calls: seq<seq<Call>>, error: bool, exit: int)
    requires c.Starts() && c.BaselinePasses(t) && |results| == |calls| == |c.Candidates()|
    requires AllJudged(c.AfterBaseline(t), c, results, calls) && calls[|calls| - 1] != []
    requires error == (NotedBy(c.JobAt(|results| - 1), calls[|calls| - 1]) || c.reportFails)
    requires exit == if error then EXIT_TROUBLE else ExitStatus(results)
    ensures StatusFits(t, c, results, calls, exit)
    ensures AllCarried(c.AfterBaseline(t), c, results, calls) && c.Finishes(c.AfterBaseline(t)) ==> Decided(t, c, exit)
  {
    hide AllJudged, AllCarried, NotedBy, Campaign.Ends, Campaign.Finishes, Campaign.NotedAtEnd,
         Campaign.AfterBaseline, Campaign.BaselinePasses, Campaign.Candidates, Campaign.Scanned, Campaign.JobAt,
         ExitStatus;
    CleanMeansKilled(results);
    if AllCarried(c.AfterBaseline(t), c, results, calls) && c.Finishes(c.AfterBaseline(t)) {
      CarriedOutcomes(c.AfterBaseline(t), c, results, calls);
      OutcomesDecide(t, c, results, error);
    }
  }

  lemma OutcomesDecide(t: Tree, c: Campaign, results: seq<MutantResult>, error: bool)
    requires c.Starts() && c.BaselinePasses(t) && |results| == |c.Candidates()| && c.Finishes(c.AfterBaseline(t))
    requires error == (c.NotedAtEnd(c.AfterBaseline(t)) || c.reportFails)
    requires forall i :: 0 <= i < |results| ==>
               && (c.Ends(c.AfterBaseline(t), i, Killed) <==> results[i].outcome == Killed)
               && (c.Ends(c.AfterBaseline(t), i, Survived) <==> results[i].outcome == Survived)
               && (c.Ends(c.AfterBaseline(t), i, Inconclusive) <==> results[i].outcome == Inconclusive)
    ensures c.KillsAll(t) <==> !error && AllKilled(results)
    ensures c.HasSurvivors(t) <==> !error && ExitStatus(results) == EXIT_FINDINGS
  {
    hide Campaign.Ends, Campaign.Finishes, Campaign.NotedAtEnd, Campaign.AfterBaseline, Campaign.BaselinePasses,
         Campaign.Candidates, ExitStatus, Campaign.Starts;
    CleanMeansKilled(results);
  }

  lemma CampaignStarts(t: Tree, c: Campaign)
    requires Sound(t, c)
    ensures WellFormed(t) && Confined(c.baseline, []) && AllConfined(c)
    ensures c.Starts() ==> AllLocated(c.AfterBaseline(t), c)
    ensures SameBelow(t, t, Resolve(c.Project()))
    ensures c.AfterBaseline(t) == c.baseline(c.BaselineCall(t)).nodes
  {
  }

  lemma ScanMeans(t: Tree, c: Campaign)
    ensures c.Scanned() <==>
            c.analysisOk && Resolvable(First(Selected(c.operators, c.records), c.maxMutants), c.realpath)
    ensures c.Candidates() == CandidatesOf(First(Selected(c.operators, c.records), c.maxMutants), c.realpath)
    ensures c.Starts() <==> c.Scanned() && !c.listOnly && !c.analysisNoted && c.Candidates() != []
    ensures c.ListsCleanly() <==> c.Scanned() && c.listOnly && !c.analysisNoted && !c.listFails
    ensures c.BaselinePasses(t) <==>
            c.baseline(Call(t, c.projectArgument, c.test)).run == Finished(0, false)
    ensures c.AfterBaseline(t) == c.baseline(Call(t, c.projectArgument, c.test)).nodes
  {
  }

  method RunCampaign(fs: FileSystem, shell: Shell, c: Campaign)
    returns (exit: int, results: seq<MutantResult>, ghost calls: seq<seq<Call>>)
    requires Sound(fs.nodes, c) && !fs.error
    modifies fs, shell
    // Nothing but the baseline command touches the project, and nothing else stays behind.
    ensures c.Known() ==> SameBelow(BaselineLeaves(old(fs.nodes), c), fs.nodes, Resolve(c.Project()))
    ensures !fs.faulty ==> fs.nodes == BaselineLeaves(old(fs.nodes), c)
    // What was executed, and what the status makes of it.
    ensures StatusFits(old(fs.nodes), c, results, calls, exit)
    ensures ExecutesAll(c, results) ==>
              shell.calls == old(shell.calls) + [Call(old(fs.nodes), c.projectArgument, c.test)] + Flat(calls)
    // Without anything to execute, no command is run at all.
    ensures !c.Starts() ==> shell.calls == old(shell.calls)
    // Without stray failures the inputs alone decide.
    ensures !fs.faulty ==> Decided(old(fs.nodes), c, exit)
  {
    hide Sound, SameBelow, AllLocated, AllConfined, WellFormed, Flat, Campaign.Candidates, Campaign.Scanned,
         Campaign.AfterBaseline, Resolve, Confined, Campaign.BaselinePasses, Campaign.BaselineCall, Campaign.Starts,
         Campaign.ListsCleanly, SameOutside, StatusFits, Decided, Campaign.Project, Campaign.Known;
    exit, results, calls := EXIT_TROUBLE, [], [];
    ghost var start := fs.nodes;
    CampaignStarts(start, c);
    ScanMeans(start, c);
    if !c.Starts() || !c.BaselinePasses(start) {
      NothingExecuted(start, c);
    }
    var table := new Candidates(c.maxMutants, c.operators);
    var scanned := table.Scan(c.records, c.realpath);
    fs.error := c.analysisNoted;
    if !scanned || !c.analysisOk {
      return;
    }
    if c.listOnly {
      fs.error := fs.error || c.listFails;
      exit := if fs.error then EXIT_TROUBLE else 0;
      return;
    }
    if |table.items| == 0 {
      return;
    }
    BaselineCallIs(start, c);
    var baseline := shell.Spawn(fs, c.baseline, [], c.projectArgument, c.test);
    SameBelowSelf(fs.nodes, Resolve(c.Project()));
    if !baseline.Passes() || fs.error {
      return;
    }
    exit, results, calls := RunMutants(fs, shell, c, table.items, start);
  }

  lemma BaselineCallIs(t: Tree, c: Campaign)
    ensures c.BaselineCall(t) == Call(t, c.projectArgument, c.test)
  {
  }

  lemma SameBelowSelf(t: Tree, root: Path)
    ensures SameBelow(t, t, root)
  {
  }

  /** After a passing baseline: execute, report, and fold. */
  method RunMutants(fs: FileSystem, shell: Shell, c: Campaign, candidates: seq<Candidate>, ghost start: Tree)
    returns (exit: int, results: seq<MutantResult>, ghost calls: seq<seq<Call>>)
    requires c.Starts() && c.BaselinePasses(start) && candidates == c.Candidates() && fs.nodes == c.AfterBaseline(start)
    requires WellFormed(fs.nodes) && AllLocated(fs.nodes, c) && AllConfined(c)
    modifies fs, shell
    ensures c.Known() ==> SameBelow(old(fs.nodes), fs.nodes, Resolve(c.Project()))
    ensures !fs.faulty ==> fs.nodes == old(fs.nodes)
    ensures StatusFits(start, c, results, calls, exit)
    ensures ExecutesAll(c, results) ==> shell.calls == old(shell.calls) + Flat(calls)
    ensures !fs.faulty ==> Decided(start, c, exit)
  {
    hide SameBelow, AllLocated, AllConfined, WellFormed, Flat, Campaign.Candidates, Campaign.Scanned,
         Campaign.AfterBaseline, Campaign.BaselinePasses, Campaign.Finishes, StatusFits, Decided, AllJudged,
         AllCarried, NotedBy, ExitStatus, Campaign.JobAt, Campaign.Project, Campaign.Known, Resolve;
    exit := EXIT_TROUBLE;
    var completed;
    completed, results, calls := ExecuteAll(fs, shell, c, candidates);
    if !completed {
      PartlyExecuted(start, c, results, calls);
      return;
    }
    var counters, outcome := ReportResults(results);
    fs.error := fs.error || c.reportFails;
    exit := FoldExitStatus(results);
    if fs.error {
      exit := EXIT_TROUBLE;
    }
    FullyExecuted(start, c, results, calls, fs.error, exit);
  }

  // ----- what success is worth -----

  /**
   A campaign that exits 0 has seen every mutant fail its tests exactly if the test command of no mutant but the
   last was lost: a lost one counts as a kill, and copying the project for the next mutant takes its error back.
   */
  lemma SuccessMeansTested(t: Tree, c: Campaign)
    requires c.KillsAll(t)
    ensures var after, n := c.AfterBaseline(t), |c.Candidates()|;
            ((forall i :: 0 <= i < n ==> c.SeenToFail(after, i))
             <==> (forall i :: 0 <= i < n - 1 ==> !c.LosesTest(after, i)))
  {
    hide Campaign.Candidates, Campaign.AfterBaseline, Campaign.BaselinePasses, Campaign.SeenToFail,
         Campaign.LosesTest, Campaign.Finishes, Campaign.Ends, Campaign.NotedAtEnd;
    var after, n := c.AfterBaseline(t), |c.Candidates()|;
    forall i | 0 <= i < n ensures c.SeenToFail(after, i) <==> !c.LosesTest(after, i) {
      KilledMeans(c, after, i);
    }
    LastIsSeen(c, after);
  }

  /** A mutant's logged calls show a kill: it compiled, and its test command ended badly or was never seen to end. */
  ghost predicate ShowsKill(commands: Commands, calls: seq<Call>) {
    |calls| == 2 && (commands(calls[1]).run == Lost || EndsBadly(commands(calls[1]).run))
  }

  ghost predicate ShowsSurvivor(commands: Commands, calls: seq<Call>) {
    |calls| == 2 && EndsWell(commands(calls[1]).run)
  }

  /** An error is on record after the run. */
  ghost predicate LeavesError(run: Run) {
    run == Lost || run == TimedOut(true) || exists status: nat :: run == Finished(status, true)
  }

  /** When all mutants were executed, the logged calls and the way they ended decide the exit status. */
  lemma LogDecides(t: Tree, c: Campaign, results: seq<MutantResult>, calls: seq<seq<Call>>, exit: int)
    requires StatusFits(t, c, results, calls, exit) && ExecutesAll(c, results)
    ensures |calls| == |c.Candidates()| > 0 && forall i :: 0 <= i < |calls| ==>
              && 1 <= |calls[i]| <= 2 && (|calls[i]| == 2 <==> EndsWell(c.commands(i)(calls[i][0]).run))
    ensures var n := |calls| - 1;
            var error := LeavesError(c.commands(n)(calls[n][|calls[n]| - 1]).run) || c.reportFails;
            && (exit == 0 <==> !error && forall i :: 0 <= i < |calls| ==> ShowsKill(c.commands(i), calls[i]))
            && (exit == 1 <==>
                  && !error && (exists i :: 0 <= i < |calls| && ShowsSurvivor(c.commands(i), calls[i]))
                  && forall i :: 0 <= i < |calls| ==>
                       ShowsKill(c.commands(i), calls[i]) || ShowsSurvivor(c.commands(i), calls[i]))
            && (exit == 0 || exit == 1 || exit == 2)
  {
    hide Campaign.Candidates, Campaign.AfterBaseline, Campaign.BaselinePasses, Campaign.Starts, Campaign.JobAt, Judged,
         ExitStatus, NotedBy, ShowsKill, ShowsSurvivor, LeavesError, EndsWell;
    CleanMeansKilled(results);
    forall i | 0 <= i < |calls|
      ensures 1 <= |calls[i]| <= 2 && (|calls[i]| == 2 <==> EndsWell(c.commands(i)(calls[i][0]).run))
      ensures results[i].outcome == Killed <==> ShowsKill(c.commands(i), calls[i])
      ensures results[i].outcome == Survived <==> ShowsSurvivor(c.commands(i), calls[i])
    {
      CallsShow(BaselineLeaves(t, c), c, i, results[i], calls[i]);
    }
    NotedMeans(c, |calls| - 1, calls[|calls| - 1]);
  }

  lemma CallsShow(t: Tree, c: Campaign, i: nat, result: MutantResult, calls: seq<Call>)
    requires i < |c.Candidates()| && Judged(t, c.JobAt(i), result, calls)
    ensures 1 <= |calls| <= 2 && (|calls| == 2 <==> EndsWell(c.commands(i)(calls[0]).run))
    ensures result.outcome == Killed <==> ShowsKill(c.commands(i), calls)
    ensures result.outcome == Survived <==> ShowsSurvivor(c.commands(i), calls)
  {
    hide Campaign.Candidates, IsMutant, Classify, RelativePath, EndsWell, EndsBadly, Run.Passes;
    var compile := c.commands(i)(calls[0]).run;
    OutcomeMeaning(compile, if |calls| == 2 then c.commands(i)(calls[1]).run else compile);
  }

  lemma NotedMeans(c: Campaign, i: nat, calls: seq<Call>)
    requires i < |c.Candidates()| && calls != []
    ensures NotedBy(c.JobAt(i), calls) <==> LeavesError(c.commands(i)(calls[|calls| - 1]).run)
  {
    hide Campaign.Candidates, RelativePath;
  }

  /** The same about the commands that were run, whatever calls failed for no visible reason on the way. */
  lemma ExitZeroMeansTested(t: Tree, c: Campaign, results: seq<MutantResult>, calls: seq<seq<Call>>)
    requires StatusFits(t, c, results, calls, 0) && ExecutesAll(c, results)
    ensures |calls| == |results| && forall i :: 0 <= i < |calls| ==> |calls[i]| == 2
    ensures (forall i :: 0 <= i < |calls| ==> c.commands(i)(calls[i][1]).run.Fails())
            <==> (forall i :: 0 <= i < |calls| - 1 ==> !c.commands(i)(calls[i][1]).run.Lost?)
  {
    hide Campaign.Candidates, Campaign.AfterBaseline, Campaign.BaselinePasses, Campaign.Starts, Campaign.JobAt, Judged,
         ExitStatus, NotedBy;
    CleanMeansKilled(results);
    forall i | 0 <= i < |calls|
      ensures |calls[i]| == 2
      ensures c.commands(i)(calls[i][1]).run.Fails() <==> !c.commands(i)(calls[i][1]).run.Lost?
    {
      KillIsLogged(BaselineLeaves(t, c), c, i, results[i], calls[i]);
    }
    LostIsNoted(c, |calls| - 1, calls[|calls| - 1]);
  }

  lemma KillIsLogged(t: Tree, c: Campaign, i: nat, result: MutantResult, calls: seq<Call>)
    requires i < |c.Candidates()| && Judged(t, c.JobAt(i), result, calls) && result.outcome == Killed
    ensures |calls| == 2
    ensures c.commands(i)(calls[1]).run.Fails() <==> !c.commands(i)(calls[1]).run.Lost?
  {
    hide Campaign.Candidates, IsMutant, Classify, RelativePath;
    var compile := c.commands(i)(calls[0]).run;
    OutcomeMeaning(compile, if |calls| == 2 then c.commands(i)(calls[1]).run else compile);
  }

  lemma LostIsNoted(c: Campaign, i: nat, calls: seq<Call>)
    requires i < |c.Candidates()| && |calls| == 2 && !NotedBy(c.JobAt(i), calls)
    ensures !c.commands(i)(calls[1]).run.Lost?
  {
    hide Campaign.Candidates, RelativePath;
  }

  lemma KilledMeans(c: Campaign, t: Tree, i: nat)
    requires i < |c.Candidates()| && c.Finishes(t) && c.Ends(t, i, Killed)
    ensures c.SeenToFail(t, i) <==> !c.LosesTest(t, i)
  {
    hide Campaign.Candidates, Job.Ready, Classify;
    assert Judgeable(t, c.JobAt(i));
    var j, world := c.JobAt(i), c.World(t, i);
    OutcomeMeaning(j.CompileRun(world), j.TestRun(world));
  }

  lemma LastIsSeen(c: Campaign, t: Tree)
    requires c.Candidates() != [] && c.Finishes(t) && !c.NotedAtEnd(t) && c.Ends(t, |c.Candidates()| - 1, Killed)
    ensures !c.LosesTest(t, |c.Candidates()| - 1)
  {
    hide Campaign.Candidates, Job.Ready, Classify;
    assert Judgeable(t, c.JobAt(|c.Candidates()| - 1));
    var j, world := c.JobAt(|c.Candidates()| - 1), c.World(t, |c.Candidates()| - 1);
    OutcomeMeaning(j.CompileRun(world), j.TestRun(world));
  }

  /** Two mutants of one small project; the test command of the first is never spawned. */
  function LostTest(): Campaign {
    var file := Render(["p", "a"]);
    var record := Record(true, 0, file, 1, 0, 1, "x", "y");
    Campaign(Render(["p"]), [], 2, false, true, false, [record, record],
             (text: string) => Some(text), (text: string) => Some(Command(Render(["p"]), ["cc"])), ["run"],
             (call: Call) => Reply(Finished(0, false), call.nodes),
             (i: nat) => (call: Call) => Reply(LostTestRun(i, call.arguments), call.nodes),
             (i: nat) => "0", false, false)
  }

  function LostTestRun(i: nat, words: seq<string>): Run {
    if words != [] && words[|words| - 1] == "-fsyntax-only" then Finished(0, false)
    else if i == 0 then Lost
    else Finished(1, false)
  }

  const SMALL_PROJECT: Tree :=
    map[[] := Directory, ["tmp"] := Directory, ["p"] := Directory, ["p", "a"] := Regular("x")]

  const SMALL_CANDIDATE := Candidate(Render(["p", "a"]), 1, 0, 1, "x", "y", 0)

  lemma LostTestCandidates()
    ensures LostTest().Candidates() == [SMALL_CANDIDATE, SMALL_CANDIDATE] && LostTest().Scanned()
  {
    var record := Record(true, 0, Render(["p", "a"]), 1, 0, 1, "x", "y");
    assert [record, record][..1] == [record] && [record][..0] == [];
    assert Selected([], []) == [] && Selected([], [record]) == [record];
    assert LostTest().Chosen() == [record, record];
  }

  lemma SmallPaths()
    ensures CleanPath(["p"]) && CleanPath(["p", "a"])
    ensures Resolve(Render(["p"])) == ["p"] && Resolve(Render(["p", "a"])) == ["p", "a"]
  {
    hide Render, Resolve;
    assert CleanName("p") && CleanName("a");
    ResolveRender(["p"]);
    ResolveRender(["p", "a"]);
  }

  lemma SmallTree()
    ensures WellFormed(SMALL_PROJECT)
  {
    assert CleanName("p") && CleanName("a") && CleanName("tmp");
    hide CleanName;
    assert Parent(["p", "a"]) == ["p"];
    assert Parent(["p"]) == [];
    assert Parent(["tmp"]) == [];
  }

  lemma LostTestLocated()
    ensures WellFormed(SMALL_PROJECT) && Located(SMALL_PROJECT, Render(["p"]), SMALL_CANDIDATE)
  {
    hide WellFormed, Render, Resolve, CleanPath;
    SmallTree();
    SmallPaths();
    assert ["p"] != ["tmp"];
  }

  lemma LostTestJob(i: nat)
    requires i < |LostTest().Candidates()| == 2
    ensures var c, t := LostTest(), SMALL_PROJECT;
            && Judgeable(t, c.JobAt(i)) && c.JobAt(i).CompileRun(c.World(t, i)) == Finished(0, false)
            && c.JobAt(i).TestRun(c.World(t, i)) == if i == 0 then Lost else Finished(1, false)
  {
    hide Mutable, Job.CompileRun, Job.TestRun, LostTestRun, Resolve, Render;
    LostTestJobIs(i);
    var c, t := LostTest(), SMALL_PROJECT;
    SmallFileIsMutable(c.World(t, i));
    LostTestRuns(c.JobAt(i), c.World(t, i), i);
  }

  lemma LostTestJobIs(i: nat)
    requires i < |LostTest().Candidates()| == 2
    ensures var j := LostTest().JobAt(i);
            && j.project == ["p"] && j.r == ["a"] && j.temp == ["tmp", "test-mutation." + "0"]
            && j.candidate == SMALL_CANDIDATE && j.Recorded() && j.setting.test == ["run"]
            && forall call :: j.setting.commands(call).run == LostTestRun(i, call.arguments)
  {
    hide LostTestRun, Render;
    LostTestCandidates();
    SmallPaths();
  }

  lemma SmallFileIsMutable(world: Tree)
    requires world == SMALL_PROJECT[["tmp", "test-mutation." + "0"] := Directory]
    ensures Mutable(world, ["p"], ["a"], SMALL_CANDIDATE)
  {
    hide Render;
    assert ["p"] + ["a"] == ["p", "a"];
    assert "x"[0..1] == "x";
  }

  lemma LostTestRuns(j: Job, world: Tree, i: nat)
    requires j.Ready(world) && j.setting.test == ["run"]
    requires forall call :: j.setting.commands(call).run == LostTestRun(i, call.arguments)
    ensures j.CompileRun(world) == Finished(0, false)
    ensures j.TestRun(world) == if i == 0 then Lost else Finished(1, false)
  {
    hide Mutable, MutantTree, Render;
    assert j.CompileWords()[|j.CompileWords()| - 1] == "-fsyntax-only";
    assert "run"[0] != "/"[0];
    assert RewritePath(Render(j.project), Render(j.Copy()), "run", j.setting.realpath) == "run";
    assert j.TestWords() == ["run"];
    assert "run"[0] != "-fsyntax-only"[0];
  }

  /** It exits 0 although one of its mutants was never tested. */
  lemma LostTestPasses()
    ensures Sound(SMALL_PROJECT, LostTest()) && LostTest().KillsAll(SMALL_PROJECT)
    ensures LostTest().AfterBaseline(SMALL_PROJECT) == SMALL_PROJECT && |LostTest().Candidates()| == 2
    ensures LostTest().LosesTest(SMALL_PROJECT, 0)
  {
    hide Campaign.Candidates, Campaign.AfterBaseline, Campaign.Scanned, Campaign.BaselinePasses, Campaign.Known,
         Campaign.Project, Campaign.Finishes, Campaign.Ends, Campaign.NotedAtEnd, Campaign.LosesTest, Located,
         WellFormed, Render;
    LostTestCandidates();
    LostTestLocated();
    LostTestBaseline();
    LostTestEnds();
  }

  lemma LostTestEnds()
    requires |LostTest().Candidates()| == 2 && LostTest().Known()
    ensures var c, t := LostTest(), SMALL_PROJECT;
            && c.Finishes(t) && c.Ends(t, 0, Killed) && c.Ends(t, 1, Killed) && !c.NotedAtEnd(t) && c.LosesTest(t, 0)
  {
    hide Judgeable, Job.Completes, Job.Ready, Job.CompileRun, Job.TestRun, Job.Verdict, Job.Noted,
         Campaign.Candidates, Campaign.JobAt, Campaign.World, Campaign.Known;
    LostTestVerdict(0);
    LostTestVerdict(1);
  }

  lemma LostTestBaseline()
    ensures var c, t := LostTest(), SMALL_PROJECT;
            && c.AfterBaseline(t) == t && c.BaselinePasses(t) && c.Known() && c.Project() == Render(["p"])
            && !c.listOnly && !c.analysisNoted && !c.reportFails && forall i :: c.suffixes(i) == "0"
  {
    hide Render;
  }

  lemma LostTestVerdict(i: nat)
    requires i < |LostTest().Candidates()| == 2 && LostTest().Known()
    ensures var c, t := LostTest(), SMALL_PROJECT;
            && Judgeable(t, c.JobAt(i)) && c.JobAt(i).Completes(c.World(t, i))
            && c.JobAt(i).Verdict(c.World(t, i)).outcome == Killed
            && (i == 1 ==> !c.JobAt(i).Noted(c.World(t, i)))
            && (i == 0 ==> c.JobAt(i).TestRun(c.World(t, i)).Lost?)
  {
    hide Job.Ready, Job.CompileRun, Job.TestRun, Campaign.Candidates, IsDirectory;
    LostTestJob(i);
  }
}
