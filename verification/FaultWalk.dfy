/**
 The fault walk of src/runner.c: a baseline, then one injected failure after
 another until none fires. What each case produces is an oracle; the process
 environment is a map that every case sets up and clears.
 */
module FaultWalk {
  import opened Wrappers
  import opened Text
  import opened FaultPaths
  import opened FaultGroups

  const EXIT_FINDINGS := 1
  const EXIT_TROUBLE := 2
  const DEFAULT_MAX_FAILURES: nat := 1024
  const MAX_FAILURES_LIMIT: nat := 100000
  const MAX_TOOL_ARGS: nat := 128
  const UNSIGNED_MODULUS: nat := 0x1_0000_0000

  /** The -n option: a count above the limit is refused, so the walk's unsigned index cannot wrap. */
  function AcceptedCount(requested: Option<nat>): (count: Option<nat>)
    ensures count.Some? ==> count.value + 1 < 0x1_0000_0000
    ensures count.Some? ==> count.value == if requested.Some? then requested.value else 1024
    ensures count.None? <==> requested.Some? && requested.value > 100000
  {
    match requested
    case None => Some(DEFAULT_MAX_FAILURES)
    case Some(n) => if n > MAX_FAILURES_LIMIT then None else Some(n)
  }

  // ----- the environment -----

  /** The variables the walk knows by name; their spellings belong to lib_env and the capture tool. */
  datatype Variable =
    | FaultCall | FaultErrno | FaultLog | FaultName | FaultMode | FaultAmount | FaultRepeat
    | CallLog | CallLogArgs | CallLogResult
    | ChildFaultCall | ChildFaultErrno | ChildFaultLog | ChildFaultName | ChildFaultMode | ChildFaultAmount
    | ChildFaultRepeat
    | ResourceLog
    | Other(name: string)

  type Environment = map<Variable, string>

  const CONTROLLED: set<Variable> := {
    FaultCall, FaultErrno, FaultLog, FaultName, FaultMode, FaultAmount, FaultRepeat,
    CallLog, CallLogArgs, CallLogResult,
    ChildFaultCall, ChildFaultErrno, ChildFaultLog, ChildFaultName, ChildFaultMode, ChildFaultAmount, ChildFaultRepeat}

  function Cleared(e: Environment): Environment { e - CONTROLLED }

  datatype Arguments = Arguments(
    maxFailures: nat, faultErrno: Option<int>, faultName: Option<string>, faultMode: string,
    faultAmount: nat, faultRepeat: nat, logPrefix: Option<string>,
    runTool: string, observeTool: string, command: seq<string>)

  function Prefix(args: Arguments): string {
    if args.logPrefix.None? then DEFAULT_LOG_PREFIX else args.logPrefix.value
  }

  /** The variables that say how calls are to fail. */
  function Configured(e: Environment, args: Arguments): Environment {
    var named := if args.faultName.None? then e else e[ChildFaultName := args.faultName.value];
    var shaped := named[ChildFaultMode := args.faultMode][ChildFaultAmount := Decimal(args.faultAmount)]
                       [ChildFaultRepeat := Decimal(args.faultRepeat)];
    if args.faultErrno.None? then shaped else shaped[ChildFaultErrno := SignedDecimal(args.faultErrno.value)]
  }

  lemma ConfiguredAlike(e: Environment, f: Environment, args: Arguments, v: Variable)
    requires v in e <==> v in f
    requires v in e ==> e[v] == f[v]
    ensures v in Configured(e, args) <==> v in Configured(f, args)
    ensures v in Configured(e, args) ==> Configured(e, args)[v] == Configured(f, args)[v]
  {
    hide Decimal, SignedDecimal;
  }

  /** What the pipeline of one case finds in its environment. */
  function CaseEnvironment(initial: Environment, args: Arguments, pid: int, index: nat): Environment {
    var logged := Cleared(initial)[ChildFaultLog := CasePaths(Prefix(args), pid, index)[7]];
    var numbered := Configured(logged, args);
    if index == 0 then numbered else numbered[ChildFaultCall := Decimal(index)]
  }

  /** The variables a case of the given kind sets. */
  function CaseVariables(args: Arguments, injected: bool): set<Variable> {
    {ChildFaultLog, ChildFaultMode, ChildFaultAmount, ChildFaultRepeat}
    + (if args.faultName.None? then {} else {ChildFaultName})
    + (if args.faultErrno.None? then {} else {ChildFaultErrno})
    + (if injected then {ChildFaultCall} else {})
  }

  /** Of the controlled variables exactly the case's own are there; everything else is as it was. */
  lemma CaseDomain(initial: Environment, args: Arguments, pid: int, index: nat)
    ensures CaseEnvironment(initial, args, pid, index).Keys ==
            (initial.Keys - CONTROLLED) + CaseVariables(args, index > 0)
    ensures forall v :: v in initial && v !in CONTROLLED ==> CaseEnvironment(initial, args, pid, index)[v] == initial[v]
  {
  }

  lemma CommonVariable(initial: Environment, args: Arguments, pid: int, i: nat, j: nat, v: Variable)
    requires i > 0 && j > 0 && v != ChildFaultLog && v != ChildFaultCall
    requires v in CaseEnvironment(initial, args, pid, i) && v in CaseEnvironment(initial, args, pid, j)
    ensures CaseEnvironment(initial, args, pid, i)[v] == CaseEnvironment(initial, args, pid, j)[v]
  {
    hide CasePaths, Decimal, Prefix, Configured;
    ConfiguredAlike(Cleared(initial)[ChildFaultLog := CasePaths(Prefix(args), pid, i)[7]],
                    Cleared(initial)[ChildFaultLog := CasePaths(Prefix(args), pid, j)[7]], args, v);
  }

  lemma CallVariable(initial: Environment, args: Arguments, pid: int, i: nat)
    requires i > 0
    ensures ChildFaultCall in CaseEnvironment(initial, args, pid, i)
    ensures CaseEnvironment(initial, args, pid, i)[ChildFaultCall] == Decimal(i)
  {
  }

  ghost function RunText(args: Arguments, pid: int, index: nat): string {
    (if args.logPrefix.Some? then args.logPrefix.value else "/tmp/test-faults") + "-" + SignedDecimal(pid) + "-"
    + if index == 0 then "baseline.run" else "fault-" + Decimal(index) + ".run"
  }

  /** What a case's pipeline finds in its environment, variable by variable; whatever else there was stays. */
  lemma EnvironmentMeans(initial: Environment, args: Arguments, pid: int, index: nat)
    ensures var e := CaseEnvironment(initial, args, pid, index);
            && (forall v: Variable :: v in e <==>
                  || v == ChildFaultLog || v == ChildFaultMode || v == ChildFaultAmount || v == ChildFaultRepeat
                  || (v == ChildFaultName && args.faultName.Some?) || (v == ChildFaultErrno && args.faultErrno.Some?)
                  || (v == ChildFaultCall && index > 0) || ((v.Other? || v == ResourceLog) && v in initial))
            && (forall v: Variable :: v in initial && (v.Other? || v == ResourceLog) ==> e[v] == initial[v])
            && e[ChildFaultLog] == RunText(args, pid, index) + "/capture/fault.log"
            && e[ChildFaultMode] == args.faultMode
            && Shows(e[ChildFaultAmount], args.faultAmount) && Shows(e[ChildFaultRepeat], args.faultRepeat)
            && (args.faultName.Some? ==> e[ChildFaultName] == args.faultName.value)
            && (args.faultErrno.Some? ==> e[ChildFaultErrno] == SignedDecimal(args.faultErrno.value))
            && (index > 0 ==> Shows(e[ChildFaultCall], index))
  {
    hide Decimal, SignedDecimal, CasePaths, CaseEnvironment, CaseVariables, Shows, Prefix, RunText, CONTROLLED;
    DecimalShows(args.faultAmount);
    DecimalShows(args.faultRepeat);
    DecimalShows(index);
    FaultLogPath(args, pid, index);
    CaseKeys(initial, args, pid, index);
    CaseDomain(initial, args, pid, index);
    CaseValues(initial, args, pid, index);
    ControlledMeans();
  }

  lemma DecimalShows(n: nat)
    ensures Shows(Decimal(n), n)
  {
    DecimalDenotes(n);
  }

  lemma CaseKeys(initial: Environment, args: Arguments, pid: int, index: nat)
    ensures forall v: Variable :: v in CaseEnvironment(initial, args, pid, index) <==>
              || v == ChildFaultLog || v == ChildFaultMode || v == ChildFaultAmount || v == ChildFaultRepeat
              || (v == ChildFaultName && args.faultName.Some?) || (v == ChildFaultErrno && args.faultErrno.Some?)
              || (v == ChildFaultCall && index > 0) || ((v.Other? || v == ResourceLog) && v in initial)
  {
    hide CaseEnvironment, CaseVariables, CONTROLLED;
    CaseDomain(initial, args, pid, index);
    ControlledMeans();
    CaseVariablesMean(args, index > 0);
  }

  lemma CaseVariablesMean(args: Arguments, injected: bool)
    ensures forall v: Variable :: v in CaseVariables(args, injected) <==>
              || v == ChildFaultLog || v == ChildFaultMode || v == ChildFaultAmount || v == ChildFaultRepeat
              || (v == ChildFaultName && args.faultName.Some?) || (v == ChildFaultErrno && args.faultErrno.Some?)
              || (v == ChildFaultCall && injected)
  {
  }

  lemma FaultLogPath(args: Arguments, pid: int, index: nat)
    ensures CasePaths(Prefix(args), pid, index)[7] == RunText(args, pid, index) + "/capture/fault.log"
  {
    hide CasePaths, SignedDecimal, Decimal;
    PathsSpelled(Prefix(args), pid, index);
  }

  lemma ControlledMeans()
    ensures forall v: Variable :: v in CONTROLLED <==> !v.Other? && v != ResourceLog
  {
  }

  lemma CaseValues(initial: Environment, args: Arguments, pid: int, index: nat)
    ensures CaseEnvironment(initial, args, pid, index).Keys ==
            (initial.Keys - CONTROLLED) + CaseVariables(args, index > 0)
    ensures var e := CaseEnvironment(initial, args, pid, index);
            && e[ChildFaultLog] == CasePaths(Prefix(args), pid, index)[7] && e[ChildFaultMode] == args.faultMode
            && e[ChildFaultAmount] == Decimal(args.faultAmount) && e[ChildFaultRepeat] == Decimal(args.faultRepeat)
            && (args.faultName.Some? ==> e[ChildFaultName] == args.faultName.value)
            && (args.faultErrno.Some? ==> e[ChildFaultErrno] == SignedDecimal(args.faultErrno.value))
            && (index > 0 ==> e[ChildFaultCall] == Decimal(index))
  {
    hide CasePaths, Decimal, SignedDecimal, Configured, CONTROLLED, CaseVariables;
    CaseDomain(initial, args, pid, index);
    ConfiguredValues(Cleared(initial)[ChildFaultLog := CasePaths(Prefix(args), pid, index)[7]], args);
  }

  lemma ConfiguredValues(e: Environment, args: Arguments)
    ensures ChildFaultLog in e ==>
              ChildFaultLog in Configured(e, args) && Configured(e, args)[ChildFaultLog] == e[ChildFaultLog]
    ensures var c := Configured(e, args);
            && ChildFaultMode in c && c[ChildFaultMode] == args.faultMode
            && ChildFaultAmount in c && c[ChildFaultAmount] == Decimal(args.faultAmount)
            && ChildFaultRepeat in c && c[ChildFaultRepeat] == Decimal(args.faultRepeat)
            && (args.faultName.Some? ==> ChildFaultName in c && c[ChildFaultName] == args.faultName.value)
            && (args.faultErrno.Some? ==>
                  ChildFaultErrno in c && c[ChildFaultErrno] == SignedDecimal(args.faultErrno.value))
  {
    hide Decimal, SignedDecimal;
  }

  /** The text is the decimal of n. */
  predicate Shows(text: string, n: nat) {
    && AllDigits(text) && DigitsValue(text) == n && |text| >= 1 && (|text| > 1 ==> text[0] != '0')
  }

  /** Two injected cases differ in nothing but their log and their call number, whatever ran before. */
  lemma CasesAreIsolated(initial: Environment, args: Arguments, pid: int, i: nat, j: nat)
    requires i > 0 && j > 0
    ensures var e, f := CaseEnvironment(initial, args, pid, i), CaseEnvironment(initial, args, pid, j);
            && e.Keys == f.Keys
            && (forall v :: v in e && v != ChildFaultLog && v != ChildFaultCall ==> e[v] == f[v])
            && AllDigits(e[ChildFaultCall]) && DigitsValue(e[ChildFaultCall]) == i
  {
    DecimalDenotes(i);
    CallVariable(initial, args, pid, i);
    CaseDomain(initial, args, pid, i);
    CaseDomain(initial, args, pid, j);
    hide CaseEnvironment, CaseVariables, Decimal;
    var e, f := CaseEnvironment(initial, args, pid, i), CaseEnvironment(initial, args, pid, j);
    forall v | v in e && v != ChildFaultLog && v != ChildFaultCall ensures v in f && e[v] == f[v] {
      CommonVariable(initial, args, pid, i, j, v);
    }
  }

  /** A second clearing changes nothing, so each case starts from the same environment. */
  lemma ClearedAgain(initial: Environment, now: Environment, args: Arguments, pid: int, index: nat)
    requires Cleared(now) == Cleared(initial)
    ensures CaseEnvironment(now, args, pid, index) == CaseEnvironment(initial, args, pid, index)
    ensures Cleared(Cleared(initial)) == Cleared(initial)
    ensures Cleared(CaseEnvironment(initial, args, pid, index)) == Cleared(initial)
  {
    CaseDomain(initial, args, pid, index);
  }

  // ----- one case -----

  datatype WaitStatus = Exited(code: nat) | Signaled(signal: nat)

  /** How the tools of one case behave: wait status, fault log, policy summaries, and errors while reading them. */
  datatype Evidence = Evidence(
    status: WaitStatus, wrapper: Option<string>, resourceLog: bool, resourcesParsed: bool,
    analysisParsed: bool, analysisFindings: nat, error: bool)

  datatype CaseResult = CaseResult(index: nat, status: WaitStatus, pipelineOk: bool, faultHit: bool, faultName: string,
                                   available: bool, findings: nat)

  predicate Acceptable(s: WaitStatus) { s.Exited? && (s.code == 0 || s.code == EXIT_FINDINGS) }

  function ResultOf(index: nat, e: Evidence): CaseResult {
    CaseResult(index, e.status, Acceptable(e.status), e.wrapper.Some?,
               if e.wrapper.Some? then CutName(e.wrapper.value) else "",
               e.resourceLog && e.resourcesParsed && e.analysisParsed,
               if e.analysisParsed then e.analysisFindings else 0)
  }

  /** The name a hit is tallied under. */
  function HitOf(r: CaseResult): Hit { Hit(if r.faultName == "" then "?" else r.faultName, r.findings) }

  function ToolArgv(args: Arguments, runDirectory: string): seq<string> {
    [Snprintf(args.runTool), "run", "-o", Snprintf(runDirectory),
     "--observe-tool", Snprintf(args.observeTool), "--"] + args.command
  }

  /** The fixed words at the front of an otherwise empty vector. */
  method ToolSlots(args: Arguments, runDirectory: string) returns (slots: array<Option<string>>)
    ensures fresh(slots) && slots.Length == MAX_TOOL_ARGS
    ensures forall i :: 0 <= i < 7 ==> slots[i] == Some(ToolArgv(args, runDirectory)[i])
    ensures forall i :: 7 <= i < MAX_TOOL_ARGS ==> slots[i] == None
  {
    hide Snprintf;
    slots := new Option<string>[MAX_TOOL_ARGS](_ => None);
    slots[0], slots[1], slots[2] := Some(Snprintf(args.runTool)), Some("run"), Some("-o");
    slots[3], slots[4] := Some(Snprintf(runDirectory)), Some("--observe-tool");
    slots[5], slots[6] := Some(Snprintf(args.observeTool)), Some("--");
  }

  /** As much of a text as a buffer of 1024 characters holds. */
  ghost function Fitting(text: string): string { if |text| <= 1023 then text else text[..1023] }

  lemma ToolArgvIs(args: Arguments, runDirectory: string)
    ensures var argv := ToolArgv(args, runDirectory);
            && |argv| == 7 + |args.command|
            && argv[0] == Fitting(args.runTool) && argv[1] == "run" && argv[2] == "-o"
            && argv[3] == Fitting(runDirectory) && argv[4] == "--observe-tool"
            && argv[5] == Fitting(args.observeTool) && argv[6] == "--"
            && forall i :: 0 <= i < |args.command| ==> argv[7 + i] == argv[i + 7] == args.command[i]
  {
  }

  /** The vector has 128 slots, the last one for NULL: a command longer than 120 words is refused, never cut. */
  method BuildArgv(args: Arguments, runDirectory: string) returns (slots: array<Option<string>>, ok: bool)
    ensures slots.Length == MAX_TOOL_ARGS
    ensures ok <==> |args.command| <= 120
    ensures ok ==> forall i :: 0 <= i < MAX_TOOL_ARGS ==>
              slots[i] == if i < |ToolArgv(args, runDirectory)| then Some(ToolArgv(args, runDirectory)[i]) else None
    ensures ok ==>
              && slots[0] == Some(Fitting(args.runTool)) && slots[1] == Some("run") && slots[2] == Some("-o")
              && slots[3] == Some(Fitting(runDirectory)) && slots[4] == Some("--observe-tool")
              && slots[5] == Some(Fitting(args.observeTool)) && slots[6] == Some("--")
              && (forall i :: 0 <= i < |args.command| ==> slots[7 + i] == Some(args.command[i]))
              && forall i :: 7 + |args.command| <= i < 128 ==> slots[i] == None
  {
    hide ToolArgv, Snprintf, Fitting;
    ghost var argv := ToolArgv(args, runDirectory);
    ToolArgvIs(args, runDirectory);
    slots := ToolSlots(args, runDirectory);
    var word := 0;
    while word < |args.command| && word + 7 < MAX_TOOL_ARGS - 1
      invariant word <= |args.command| && word + 7 <= MAX_TOOL_ARGS - 1
      invariant fresh(slots) && slots.Length == MAX_TOOL_ARGS
      invariant forall i :: 0 <= i < word + 7 ==> slots[i] == Some(argv[i])
      invariant forall i :: word + 7 <= i < MAX_TOOL_ARGS ==> slots[i] == None
    {
      slots[word + 7] := Some(args.command[word]);
      word := word + 1;
    }
    ok := word == |args.command|;
  }

  /** The case runs to its end: its paths fit, its command fits, and nothing failed on the way. */
  predicate Completes(args: Arguments, pid: int, index: nat, e: Evidence) {
    PathsFit(Prefix(args), pid, index) && |args.command| <= 120 && !e.error
  }

  // ----- the whole walk -----

  predicate BaselineTrouble(r: CaseResult) {
    !r.pipelineOk || !r.available || (r.status != Exited(0) && r.findings == 0)
  }

  predicate CaseTrouble(r: CaseResult) { !r.pipelineOk || !r.available }

  /** Everything one walk depends on. */
  datatype Scenario = Scenario(args: Arguments, pid: int, initial: Environment, evidence: nat -> Evidence) {
    function Result(j: nat): CaseResult { ResultOf(j, evidence(j)) }

    predicate Finishes(j: nat) { Completes(args, pid, j, evidence(j)) }

    /** Case j finished and gives reason to go on to the next. */
    predicate GoesOn(j: nat) { Finishes(j) && (j > 0 ==> Result(j).faultHit) }

    predicate Troubles(j: nat) {
      !Finishes(j) || (if j == 0 then BaselineTrouble(Result(j)) else CaseTrouble(Result(j)))
    }

    /** The walk ends with case k: the first without a hit, the first that cannot finish, or the last allowed. */
    predicate IsLast(k: nat) {
      k <= args.maxFailures && (forall j :: 0 <= j < k ==> GoesOn(j)) && (k == args.maxFailures || !GoesOn(k))
    }

    /** The injected failures that fired among the first n cases. */
    function Hits(n: nat): seq<Hit> {
      if n == 0 then []
      else Hits(n - 1) + if n > 1 && GoesOn(n - 1) then [HitOf(Result(n - 1))] else []
    }

    /** Findings of the baseline and of the hits, among the first n cases. */
    function Sum(n: nat): nat {
      if n == 0 then 0
      else Sum(n - 1) + if GoesOn(n - 1) then Result(n - 1).findings else 0
    }

    predicate AnyTrouble(n: nat) { exists j :: 0 <= j < n && Troubles(j) }
  }

  lemma LastIsUnique(s: Scenario, last: nat)
    requires s.IsLast(last)
    ensures forall k :: s.IsLast(k) ==> k == last
  {
  }

  // ----- the walk in terms of its evidence -----

  /** The case was left unfinished: a path or the command is too long, or an error was recorded. */
  ghost predicate Breaks(s: Scenario, j: nat) {
    || (exists a :: 0 <= a < 11 && |CasePaths(Prefix(s.args), s.pid, j)[a]| >= 1024)
    || |s.args.command| > 120 || s.evidence(j).error
  }

  /** The pipeline ended otherwise than with 0 or 1, or left a log or a summary out. */
  ghost predicate LacksEvidence(e: Evidence) {
    (e.status != Exited(0) && e.status != Exited(1)) || !e.resourceLog || !e.resourcesParsed || !e.analysisParsed
  }

  /** Trouble with a case: unfinished, without its evidence, or a baseline that fails without a finding. */
  ghost predicate ShowsTrouble(s: Scenario, j: nat) {
    || Breaks(s, j) || LacksEvidence(s.evidence(j))
    || (j == 0 && s.evidence(j).status == Exited(1) && s.evidence(j).analysisFindings == 0)
  }

  /** The wrapper that was hit, cut to 127 characters; one without a name counts as a question mark. */
  ghost function TallyName(wrapper: string): string {
    if wrapper == "" then "?" else if |wrapper| > 127 then wrapper[..127] else wrapper
  }

  lemma EvidenceMeans(s: Scenario, j: nat)
    ensures s.Finishes(j) <==> !Breaks(s, j)
    ensures s.GoesOn(j) <==> !Breaks(s, j) && (j == 0 || s.evidence(j).wrapper.Some?)
    ensures s.Troubles(j) <==> ShowsTrouble(s, j)
    ensures s.evidence(j).wrapper.Some? ==>
              HitOf(s.Result(j)) == Hit(TallyName(s.evidence(j).wrapper.value),
                                        if s.evidence(j).analysisParsed then s.evidence(j).analysisFindings else 0)
    ensures !LacksEvidence(s.evidence(j)) ==> s.Result(j).findings == s.evidence(j).analysisFindings
  {
    hide CasePaths, Prefix, PathsFit;
    LongestPath(Prefix(s.args), s.pid, j);
  }

  /** What the analyses of the baseline and of the hit cases found, among the first n cases. */
  ghost function Found(s: Scenario, n: nat): nat {
    if n == 0 then 0
    else Found(s, n - 1) + if n == 1 || s.evidence(n - 1).wrapper.Some? then s.evidence(n - 1).analysisFindings else 0
  }

  lemma {:induction false} SumIsFound(s: Scenario, n: nat)
    requires forall j :: 0 <= j < n ==> !ShowsTrouble(s, j)
    ensures s.Sum(n) == Found(s, n)
  {
    hide Breaks, LacksEvidence, Scenario.GoesOn, Scenario.Result;
    if n > 0 {
      SumIsFound(s, n - 1);
      EvidenceMeans(s, n - 1);
    }
  }

  /** Whether there was trouble, and otherwise what was found, as the evidence of the executed cases says. */
  lemma ExitMeans(s: Scenario, last: nat)
    ensures s.AnyTrouble(last + 1) <==> exists j :: 0 <= j <= last && ShowsTrouble(s, j)
    ensures !s.AnyTrouble(last + 1) ==> s.Sum(last + 1) == Found(s, last + 1)
  {
    hide ShowsTrouble, Scenario.Troubles, Scenario.Sum, Found;
    forall j: nat ensures s.Troubles(j) <==> ShowsTrouble(s, j) {
      EvidenceMeans(s, j);
    }
    if !s.AnyTrouble(last + 1) {
      SumIsFound(s, last + 1);
    }
  }

  /** Case j ran to its end and hit a wrapper; this is what is tallied for it. */
  ghost predicate IsHit(s: Scenario, j: nat, hit: Hit) {
    var e := s.evidence(j);
    && !Breaks(s, j) && e.wrapper.Some?
    && hit == Hit(TallyName(e.wrapper.value), if e.analysisParsed then e.analysisFindings else 0)
  }

  lemma HitIs(s: Scenario, j: nat)
    requires j > 0 && s.GoesOn(j)
    ensures IsHit(s, j, HitOf(s.Result(j)))
  {
    hide Breaks, Scenario.GoesOn, Scenario.Result, HitOf;
    EvidenceMeans(s, j);
  }

  /** While every case goes on, each but the baseline is a hit, tallied in order as its evidence says. */
  lemma {:induction false} HitsMean(s: Scenario, n: nat)
    requires forall j :: 0 <= j < n ==> s.GoesOn(j)
    ensures |s.Hits(n)| == if n == 0 then 0 else n - 1
    ensures forall k :: 0 <= k < |s.Hits(n)| ==> IsHit(s, k + 1, s.Hits(n)[k])
  {
    hide Breaks, IsHit, Scenario.GoesOn, Scenario.Result, HitOf;
    if n > 0 {
      HitsMean(s, n - 1);
      var more := if n > 1 then [HitOf(s.Result(n - 1))] else [];
      assert s.Hits(n) == s.Hits(n - 1) + more;
      if n > 1 {
        HitIs(s, n - 1);
      }
    }
  }

  /** Baseline and group findings make up the total. */
  lemma {:induction false} SumSplits(s: Scenario, n: nat)
    requires n > 0 && s.GoesOn(0)
    ensures s.Sum(n) == s.Result(0).findings + Total(s.Hits(n))
  {
    if n == 1 {
      assert s.Hits(1) == s.Hits(0) == [] && s.Sum(0) == 0;
      assert s.Sum(1) == s.Sum(0) + s.Result(0).findings;
    } else {
      SumSplits(s, n - 1);
      var before, after := s.Hits(n - 1), s.Hits(n);
      if s.GoesOn(n - 1) {
        assert after == before + [HitOf(s.Result(n - 1))];
        assert after[..|after| - 1] == before;
      } else {
        assert after == before;
      }
    }
  }

  /** The printed total is the baseline's findings plus those of the printed groups. */
  lemma PrintedTotal(s: Scenario, n: nat, groups: seq<Group>)
    requires n > 0 && s.GoesOn(0) && Tallies(groups, s.Hits(n)) && |Names(s.Hits(n))| <= FAULT_GROUP_LIMIT
    ensures TotalRuns(groups) == |s.Hits(n)|
    ensures Wrap(s.Result(0).findings + TotalFindings(groups)) == Wrap(s.Sum(n))
  {
    hide Wrap, Tallies, Scenario.Sum, Scenario.Hits, Total, TotalRuns, TotalFindings, Names, Scenario.GoesOn,
         Scenario.Result;
    SumSplits(s, n);
    PrintedGroupsAddUp(groups, s.Hits(n));
    WrapCongruent(TotalFindings(groups), Total(s.Hits(n)), s.Result(0).findings, s.Result(0).findings);
  }

  class Walker {
    var environment: Environment
    var groups: GroupTable
    var runs: nat
    var findings: nat
    var trouble: bool
    var error: bool
    /** The cases started, and what each pipeline that was launched saw. */
    ghost var executed: seq<nat>
    ghost var seen: seq<Environment>

    constructor (initial: Environment)
      ensures environment == initial && runs == 0 && findings == 0 && !trouble && !error
      ensures executed == [] && seen == [] && fresh(groups) && groups.groups == []
    {
      environment, runs, findings, trouble, error, executed, seen := initial, 0, 0, false, false, [], [];
      groups := new GroupTable();
    }

    method ClearFaultEnvironment()
      modifies this`environment
      ensures environment == Cleared(old(environment))
    {
      environment := environment - CONTROLLED;
    }

    method SetVariable(v: Variable, value: string)
      modifies this`environment
      ensures environment == old(environment)[v := value]
    {
      environment := environment[v := value];
    }

    /** run_one_case: set up, run, read back, clean up. */
    method RunOneCase(s: Scenario, index: nat) returns (completed: bool, result: CaseResult)
      requires !error && Cleared(environment) == Cleared(s.initial)
      modifies this`environment, this`error, this`executed, this`seen
      ensures environment == Cleared(s.initial)
      ensures completed <==> s.Finishes(index)
      ensures error <==> !completed
      ensures completed ==> result == s.Result(index)
      ensures executed == old(executed) + [index]
      ensures seen == old(seen) + if PathsFit(Prefix(s.args), s.pid, index) && |s.args.command| <= 120
                                  then [CaseEnvironment(s.initial, s.args, s.pid, index)] else []
    {
      executed := executed + [index];
      result := CaseResult(index, Exited(0), false, false, "", false, 0);
      var files, tooLong := MakeLogPaths(Prefix(s.args), s.pid, index);
      if tooLong {
        error := true;
      } else {
        ClearedAgain(s.initial, environment, s.args, s.pid, index);
        assert files.faultLog == files.All()[7];
        SetUpCase(s, index, files.faultLog);
        var slots, fits := BuildArgv(s.args, files.runDirectory);
        if fits {
          seen := seen + [environment];
          var e := s.evidence(index);
          result := ResultOf(index, e);
          error := e.error;
        } else {
          error := true;
        }
      }
      ClearFaultEnvironment();
      completed := !error;
    }

    method SetUpCase(s: Scenario, index: nat, faultLog: string)
      requires faultLog == CasePaths(Prefix(s.args), s.pid, index)[7]
      modifies this`environment
      ensures environment == CaseEnvironment(old(environment), s.args, s.pid, index)
    {
      ClearFaultEnvironment();
      SetVariable(ChildFaultLog, faultLog);
      if s.args.faultName.Some? {
        SetVariable(ChildFaultName, s.args.faultName.value);
      }
      SetVariable(ChildFaultMode, s.args.faultMode);
      SetVariable(ChildFaultAmount, Decimal(s.args.faultAmount));
      SetVariable(ChildFaultRepeat, Decimal(s.args.faultRepeat));
      if s.args.faultErrno.Some? {
        SetVariable(ChildFaultErrno, SignedDecimal(s.args.faultErrno.value));
      }
      if index > 0 {
        SetVariable(ChildFaultCall, Decimal(index));
      }
    }

    /** Every counter agrees with the first n cases. */
    ghost predicate Accounted(s: Scenario, n: nat)
      reads this, groups
    {
      Account(s, n, executed, seen, findings, groups.groups, trouble)
    }

    /** A finished case: count it, note trouble, and on a baseline or a hit add its findings. */
    method Record(s: Scenario, index: nat, result: CaseResult) returns (more: bool)
      requires s.Finishes(index) && result == s.Result(index) && Tallies(groups.groups, s.Hits(index))
      modifies this`runs, this`findings, this`trouble, groups
      ensures runs == old(runs) + 1
      ensures more <==> s.GoesOn(index)
      ensures trouble <==> old(trouble) || s.Troubles(index)
      ensures findings == if more then Wrap(old(findings) + result.findings) else old(findings)
      ensures if index > 0 && more then Tallies(groups.groups, s.Hits(index) + [HitOf(result)])
              else groups.groups == old(groups.groups)
    {
      hide Scenario.Hits, Tallies, Wrap, Scenario.GoesOn, Scenario.Troubles, Scenario.Finishes, Scenario.Result, HitOf;
      CaseMeans(s, index);
      runs := runs + 1;
      if index == 0 {
        if !result.pipelineOk || !result.available || (result.status != Exited(0) && result.findings == 0) {
          trouble := true;
        }
      } else if !result.pipelineOk || !result.available {
        trouble := true;
      }
      more := index == 0 || result.faultHit;
      if more {
        findings := Wrap(findings + result.findings);
        if index > 0 {
          groups.Update(HitOf(result), s.Hits(index));
        }
      }
    }

    /** One case and what the walk makes of it; more says whether it gives reason for a next one. */
    method Advance(s: Scenario, index: nat) returns (more: bool)
      requires Accounted(s, index) && |seen| == runs == index && !error
      requires Cleared(environment) == Cleared(s.initial)
      modifies this, groups
      ensures groups == old(groups) && Accounted(s, index + 1)
      ensures more <==> s.GoesOn(index)
      ensures more ==> |seen| == index + 1
      ensures error <==> !s.Finishes(index)
      ensures runs == index + if s.Finishes(index) then 1 else 0
      ensures environment == Cleared(s.initial)
    {
      ghost var before, beforeSeen, beforeExecuted := findings, seen, executed;
      ghost var beforeTrouble := trouble;
      hide Account, Scenario.Sum, Scenario.Hits, Scenario.AnyTrouble, Tallies, CaseEnvironment, Cleared, PathsFit,
           Wrap, Scenario.Troubles, Scenario.GoesOn, Scenario.Result, Scenario.Finishes, HitOf, ResultOf, Acceptable;
      AccountNow(s, index, executed, seen, findings, groups.groups, trouble);
      var completed, result := RunOneCase(s, index);
      more := false;
      if completed {
        more := Record(s, index, result);
      } else {
        trouble := true;
      }
      AccountStep(s, index, beforeExecuted, beforeSeen, before, old(groups.groups), beforeTrouble,
                  executed, seen, findings, groups.groups, trouble);
    }

    method Walk(s: Scenario) returns (exit: int, ghost last: nat)
      requires environment == s.initial && runs == 0 && findings == 0 && !trouble && !error
      requires executed == [] && seen == [] && groups.groups == []
      requires s.args.maxFailures <= MAX_FAILURES_LIMIT
      modifies this, groups
      // Cases 0, 1, 2, ... up to the last one, each once; then nothing more.
      ensures s.IsLast(last) && (forall k :: s.IsLast(k) ==> k == last)
      ensures groups == old(groups) && Accounted(s, last + 1)
      ensures runs == last + if s.Finishes(last) then 1 else 0
      ensures exit == if s.AnyTrouble(last + 1) then EXIT_TROUBLE
                      else if Wrap(s.Sum(last + 1)) > 0 then EXIT_FINDINGS else 0
      ensures exit == if exists j :: 0 <= j <= last && ShowsTrouble(s, j) then 2
                      else if Found(s, last + 1) % 0x1_0000_0000_0000_0000 > 0 then 1 else 0
      // The environment is left without any controlled variable, and otherwise alone.
      ensures environment == Cleared(s.initial) - {ResourceLog}
      ensures environment == map v | v in s.initial && v.Other? :: s.initial[v]
    {
      hide Account, Scenario.Sum, Scenario.Hits, Tallies, CaseEnvironment, Completes, Wrap, ShowsTrouble, Found,
           Cleared, CONTROLLED, Scenario.AnyTrouble;
      StartOfWalk(s);
      var more := Advance(s, 0);
      last := 0;
      var index := 1;
      while more && index <= s.args.maxFailures
        invariant 1 <= index <= s.args.maxFailures + 1 && last == index - 1 && groups == old(groups)
        invariant more ==> |seen| == runs == index && !error
        invariant Accounted(s, index) && environment == Cleared(s.initial)
        invariant forall j :: 0 <= j < last ==> s.GoesOn(j)
        invariant (more <==> s.GoesOn(last)) && (error <==> !s.Finishes(last))
        invariant runs == last + if s.Finishes(last) then 1 else 0
        decreases s.args.maxFailures + 1 - index, more
      {
        more := Advance(s, index);
        last := index;
        // unsigned arithmetic; the cap on the count keeps it from wrapping
        index := (index + 1) % UNSIGNED_MODULUS;
      }
      AccountMeans(s, last, executed, seen, findings, groups.groups, trouble);
      LastIsUnique(s, last);
      ExitMeans(s, last);
      WrapMeans(s.Sum(last + 1));
      OnlyOthersStay(s.initial);
      ClearFaultEnvironment();
      environment := environment - {ResourceLog};
      exit := if error || trouble then EXIT_TROUBLE else if findings > 0 then EXIT_FINDINGS else 0;
    }
  }

  /** What a finished case says. */
  lemma CaseMeans(s: Scenario, index: nat)
    requires s.Finishes(index)
    ensures var result := s.Result(index);
            && (s.GoesOn(index) <==> index == 0 || result.faultHit)
            && |HitOf(result).name| < NAME_LEN
            && (s.Troubles(index) <==>
                  || !result.pipelineOk || !result.available
                  || (index == 0 && result.status != Exited(0) && result.findings == 0))
  {
  }

  lemma OnlyOthersStay(initial: Environment)
    ensures Cleared(initial) - {ResourceLog} == map v | v in initial && v.Other? :: initial[v]
  {
    ControlledMeans();
  }

  lemma StartOfWalk(s: Scenario)
    ensures s.Sum(0) == 0 && s.Hits(0) == [] && Tallies([], []) && !s.AnyTrouble(0)
    ensures Cleared(Cleared(s.initial)) == Cleared(s.initial)
    ensures Account(s, 0, [], [], 0, [], false)
  {
  }

  /** The walk's counters, as values, after its first n cases. */
  ghost predicate Account(s: Scenario, n: nat, executed: seq<nat>, seen: seq<Environment>, findings: nat,
                          groups: seq<Group>, trouble: bool)
  {
    && |executed| == n && (forall j :: 0 <= j < n ==> executed[j] == j)
    && n - 1 <= |seen| <= n
    && (forall j :: 0 <= j < |seen| ==> seen[j] == CaseEnvironment(s.initial, s.args, s.pid, j))
    && findings == Wrap(s.Sum(n))
    && Tallies(groups, s.Hits(n))
    && (trouble <==> s.AnyTrouble(n))
  }

  lemma AccountStep(s: Scenario, n: nat,
                    executed: seq<nat>, seen: seq<Environment>, findings: nat, groups: seq<Group>, trouble: bool,
                    executed': seq<nat>, seen': seq<Environment>, findings': nat, groups': seq<Group>, trouble': bool)
    requires Account(s, n, executed, seen, findings, groups, trouble) && |seen| == n
    requires executed' == executed + [n]
    requires seen' == seen || seen' == seen + [CaseEnvironment(s.initial, s.args, s.pid, n)]
    requires findings' == if s.GoesOn(n) then Wrap(findings + s.Result(n).findings) else findings
    requires if n > 0 && s.GoesOn(n) then Tallies(groups', s.Hits(n) + [HitOf(s.Result(n))]) else groups' == groups
    requires trouble' <==> trouble || s.Troubles(n)
    ensures Account(s, n + 1, executed', seen', findings', groups', trouble')
  {
    CaseCounts(s, n);
    hide CaseEnvironment, Scenario.Sum, Scenario.Hits, Scenario.AnyTrouble, Tallies, Wrap, Scenario.Troubles,
         Scenario.GoesOn;
    WrapAdds(s.Sum(n), s.Result(n).findings);
  }

  lemma AccountNow(s: Scenario, n: nat, executed: seq<nat>, seen: seq<Environment>, findings: nat,
                   groups: seq<Group>, trouble: bool)
    requires Account(s, n, executed, seen, findings, groups, trouble)
    ensures Tallies(groups, s.Hits(n))
    ensures !s.Finishes(n) ==> s.Troubles(n) && !s.GoesOn(n)
    ensures s.GoesOn(n) ==> PathsFit(Prefix(s.args), s.pid, n) && |s.args.command| <= 120
  {
  }

  lemma AccountMeans(s: Scenario, last: nat, executed: seq<nat>, seen: seq<Environment>, findings: nat,
                     groups: seq<Group>, trouble: bool)
    requires Account(s, last + 1, executed, seen, findings, groups, trouble)
    ensures findings == Wrap(s.Sum(last + 1)) && (trouble <==> s.AnyTrouble(last + 1))
    ensures !s.Finishes(last) ==> trouble
  {
    assert s.Troubles(last) ==> s.AnyTrouble(last + 1);
  }

  /** What case n adds to the specification's sums. */
  lemma CaseCounts(s: Scenario, n: nat)
    ensures s.Sum(n + 1) == s.Sum(n) + if s.GoesOn(n) then s.Result(n).findings else 0
    ensures s.Hits(n + 1) == if n > 0 && s.GoesOn(n) then s.Hits(n) + [HitOf(s.Result(n))] else s.Hits(n)
    ensures s.AnyTrouble(n + 1) <==> s.AnyTrouble(n) || s.Troubles(n)
  {
  }
}
