/** The files of one fault-walk case: p101_error_path_walk_make_log_paths in src/paths.c. */
module FaultPaths {
  import opened Text

  const PATH_LEN: nat := 1024
  const DEFAULT_LOG_PREFIX := "/tmp/test-faults"

  /** What snprintf leaves in a buffer of PATH_LEN characters. */
  function Snprintf(text: string): string { if |text| < PATH_LEN then text else text[..PATH_LEN - 1] }

  /** The run directory of a case, before any truncation. */
  function RunDirectory(prefix: string, pid: int, index: nat): string {
    prefix + "-" + SignedDecimal(pid) + "-" + CaseName(index)
  }

  function CaseName(index: nat): string {
    if index == 0 then "baseline.run" else "fault-" + Decimal(index) + ".run"
  }

  function Joined(directory: string, name: string): string { directory + "/" + name }

  const SUFFIXES: seq<string> := [
    "", ".stdout.txt", ".stderr.txt", Joined("", "capture"), Joined("", "analysis"),
    Joined(Joined("", "capture"), "resources.log"), Joined(Joined("", "capture"), "calls.log"),
    Joined(Joined("", "capture"), "fault.log"), Joined(Joined("", "analysis"), "resource-report.json"),
    Joined(Joined("", "analysis"), "correlated-report.json"), Joined(Joined("", "analysis"), "correlated-report.txt")]

  /** The eleven paths of a case, all derived from its run directory. */
  function CasePaths(prefix: string, pid: int, index: nat): (r: seq<string>)
    ensures |r| == |SUFFIXES| == 11
    ensures forall a :: 0 <= a < |r| ==> r[a] == RunDirectory(prefix, pid, index) + SUFFIXES[a]
  {
    seq(11, a requires 0 <= a < 11 => RunDirectory(prefix, pid, index) + SUFFIXES[a])
  }

  /** The path buffers of struct run_result. */
  datatype RunFiles = RunFiles(
    runDirectory: string, stdoutPath: string, stderrPath: string, captureDirectory: string, analysisDirectory: string,
    resourceLog: string, callLog: string, faultLog: string, resourceJson: string, analysisJson: string, report: string)
  {
    function All(): seq<string> {
      [runDirectory, stdoutPath, stderrPath, captureDirectory, analysisDirectory, resourceLog, callLog, faultLog,
       resourceJson, analysisJson, report]
    }
  }

  /** snprintf into a fixed buffer; the flag is raised when the text does not fit. */
  method JoinPath(directory: string, name: string) returns (path: string, cut: bool)
    ensures path == Snprintf(Joined(directory, name))
    ensures path <= directory + "/" + name && (if cut then |path| == 1023 else path == directory + "/" + name)
    ensures cut <==> |directory| + 1 + |name| >= PATH_LEN
  {
    var text := directory + "/" + name;
    path := Snprintf(text);
    cut := |text| >= PATH_LEN;
  }

  /** Only joins are checked, yet without an error nothing was cut: not even the unchecked stdout and stderr paths. */
  method MakeLogPaths(logPrefix: string, pid: int, index: nat) returns (files: RunFiles, tooLong: bool)
    ensures files.All() == Buffered(RunDirectory(logPrefix, pid, index))
    ensures tooLong <==> !PathsFit(logPrefix, pid, index)
    ensures !tooLong ==> files.All() == CasePaths(logPrefix, pid, index)
    ensures !tooLong ==> forall a :: 0 <= a < 11 ==> |CasePaths(logPrefix, pid, index)[a]| < PATH_LEN
    // The error is raised exactly when one of the eleven does not fit.
    ensures tooLong <==> exists a :: 0 <= a < 11 && |CasePaths(logPrefix, pid, index)[a]| >= 1024
  {
    LongestPath(logPrefix, pid, index);
    var stem := logPrefix + "-" + SignedDecimal(pid) + "-" +
                (if index == 0 then "baseline.run" else "fault-" + Decimal(index) + ".run");
    assert stem == RunDirectory(logPrefix, pid, index);
    JoinedLengths(stem);
    if |stem| + 32 < PATH_LEN {
      NothingCut(stem);
      assert Buffered(stem) == CasePaths(logPrefix, pid, index);
    }
    hide RunDirectory, SignedDecimal, Decimal, CaseName, Joined, Snprintf, CasePaths;
    var directory := Snprintf(stem);
    var capture, cut1 := JoinPath(directory, "capture");
    var analysis, cut2 := JoinPath(directory, "analysis");
    var resources, cut3 := JoinPath(capture, "resources.log");
    var calls, cut4 := JoinPath(capture, "calls.log");
    var fault, cut5 := JoinPath(capture, "fault.log");
    var resourceReport, cut6 := JoinPath(analysis, "resource-report.json");
    var analysisReport, cut7 := JoinPath(analysis, "correlated-report.json");
    var text, cut8 := JoinPath(analysis, "correlated-report.txt");
    files := RunFiles(directory, Snprintf(stem + ".stdout.txt"), Snprintf(stem + ".stderr.txt"), capture, analysis,
                      resources, calls, fault, resourceReport, analysisReport, text);
    tooLong := cut1 || cut2 || cut3 || cut4 || cut5 || cut6 || cut7 || cut8;
  }

  /** The eleven paths, spelled out. */
  lemma PathsSpelled(prefix: string, pid: int, index: nat)
    ensures var run := prefix + "-" + SignedDecimal(pid) + "-"
                       + (if index == 0 then "baseline.run" else "fault-" + Decimal(index) + ".run");
            CasePaths(prefix, pid, index) ==
            [run, run + ".stdout.txt", run + ".stderr.txt", run + "/capture", run + "/analysis",
             run + "/capture/resources.log", run + "/capture/calls.log", run + "/capture/fault.log",
             run + "/analysis/resource-report.json", run + "/analysis/correlated-report.json",
             run + "/analysis/correlated-report.txt"]
  {
    hide SignedDecimal, Decimal, Joined;
    SuffixesSpelled();
    assert RunDirectory(prefix, pid, index) + "" == RunDirectory(prefix, pid, index);
  }

  lemma SuffixesSpelled()
    ensures SUFFIXES == ["", ".stdout.txt", ".stderr.txt", "/capture", "/analysis", "/capture/resources.log",
                         "/capture/calls.log", "/capture/fault.log", "/analysis/resource-report.json",
                         "/analysis/correlated-report.json", "/analysis/correlated-report.txt"]
  {
    hide Joined;
    CaptureNames();
    AnalysisNames();
    ReportNames();
  }

  lemma CaptureNames()
    ensures Joined("", "capture") == "/capture"
    ensures Joined("/capture", "resources.log") == "/capture/resources.log"
    ensures Joined("/capture", "calls.log") == "/capture/calls.log"
    ensures Joined("/capture", "fault.log") == "/capture/fault.log"
  {
  }

  lemma AnalysisNames()
    ensures Joined("", "analysis") == "/analysis"
    ensures Joined("/analysis", "resource-report.json") == "/analysis/resource-report.json"
  {
  }

  lemma ReportNames()
    ensures Joined("/analysis", "correlated-report.json") == "/analysis/correlated-report.json"
    ensures Joined("/analysis", "correlated-report.txt") == "/analysis/correlated-report.txt"
  {
  }

  /** One path is longer than the others, whatever the case. */
  lemma LongestPath(prefix: string, pid: int, index: nat)
    ensures PathsFit(prefix, pid, index) <==> forall a :: 0 <= a < 11 ==> |CasePaths(prefix, pid, index)[a]| < 1024
  {
    hide RunDirectory;
    var run := RunDirectory(prefix, pid, index);
    assert forall a :: 0 <= a < 11 ==> |SUFFIXES[a]| <= |SUFFIXES[9]|;
    assert |CasePaths(prefix, pid, index)[9]| == |run| + |SUFFIXES[9]|;
  }

  /** The longest joined path leaves room for its terminator. */
  predicate PathsFit(prefix: string, pid: int, index: nat) {
    |RunDirectory(prefix, pid, index)| + |Joined(Joined("", "analysis"), "correlated-report.json")| < PATH_LEN
  }

  /** What the eleven buffers hold, cut or not. */
  function Buffered(stem: string): seq<string> {
    var directory := Snprintf(stem);
    var capture, analysis := Snprintf(Joined(directory, "capture")), Snprintf(Joined(directory, "analysis"));
    [directory, Snprintf(stem + ".stdout.txt"), Snprintf(stem + ".stderr.txt"), capture, analysis,
     Snprintf(Joined(capture, "resources.log")), Snprintf(Joined(capture, "calls.log")),
     Snprintf(Joined(capture, "fault.log")), Snprintf(Joined(analysis, "resource-report.json")),
     Snprintf(Joined(analysis, "correlated-report.json")), Snprintf(Joined(analysis, "correlated-report.txt"))]
  }

  /** Cutting never makes a directory short enough for the checks that follow. */
  lemma JoinedLengths(stem: string)
    ensures |Joined(Joined("", "analysis"), "correlated-report.json")| == 32
    ensures |Snprintf(stem)| == if |stem| < PATH_LEN then |stem| else PATH_LEN - 1
    ensures |Snprintf(Joined(Snprintf(stem), "capture"))| ==
            if |Snprintf(stem)| + 8 < PATH_LEN then |Snprintf(stem)| + 8 else PATH_LEN - 1
    ensures |Snprintf(Joined(Snprintf(stem), "analysis"))| ==
            if |Snprintf(stem)| + 9 < PATH_LEN then |Snprintf(stem)| + 9 else PATH_LEN - 1
  {
  }

  lemma JoinedAfter(stem: string, suffix: string, name: string)
    requires |stem| + |suffix| + 1 + |name| < PATH_LEN
    ensures Snprintf(Joined(stem + suffix, name)) == stem + Joined(suffix, name)
    ensures |Joined(suffix, name)| == |suffix| + 1 + |name|
  {
  }

  lemma Uncut(text: string)
    requires |text| < PATH_LEN
    ensures Snprintf(text) == text
  {
  }

  lemma NothingCut(stem: string)
    requires |stem| + 32 < PATH_LEN
    ensures forall a :: 0 <= a < 11 ==> Buffered(stem)[a] == stem + SUFFIXES[a] && |stem + SUFFIXES[a]| < PATH_LEN
  {
    hide Snprintf, Joined;
    assert stem + "" == stem;
    assert |SUFFIXES[1]| == |SUFFIXES[2]| == 11;
    Uncut(stem);
    Uncut(stem + SUFFIXES[1]);
    Uncut(stem + SUFFIXES[2]);
    JoinedAfter(stem, "", "capture");
    JoinedAfter(stem, "", "analysis");
    JoinedAfter(stem, SUFFIXES[3], "resources.log");
    JoinedAfter(stem, SUFFIXES[3], "calls.log");
    JoinedAfter(stem, SUFFIXES[3], "fault.log");
    JoinedAfter(stem, SUFFIXES[4], "resource-report.json");
    JoinedAfter(stem, SUFFIXES[4], "correlated-report.json");
    JoinedAfter(stem, SUFFIXES[4], "correlated-report.txt");
  }

  // ----- no two cases share a file -----

  function LeadingDigits(s: string): (d: string)
    ensures AllDigits(d)
  {
    if s == "" || !IsDigit(s[0]) then "" else [s[0]] + LeadingDigits(s[1..])
  }

  lemma {:induction false} DigitsLead(a: string, x: string)
    requires AllDigits(a) && (x != "" ==> !IsDigit(x[0]))
    ensures LeadingDigits(a + x) == a
  {
    if a == "" {
      assert a + x == x;
    } else {
      DigitsLead(a[1..], x);
      assert (a + x)[1..] == a[1..] + x;
    }
  }

  /** Which case a path tail belongs to, read back from its text. */
  function CaseOf(tail: string): nat {
    if "fault-" <= tail then DigitsValue(LeadingDigits(tail[6..])) else 0
  }

  lemma CaseNameReadsBack(index: nat, suffix: string)
    ensures CaseOf(CaseName(index) + suffix) == index
  {
    var tail := CaseName(index) + suffix;
    if index == 0 {
      assert tail[0] == 'b';
    } else {
      var digits := Decimal(index);
      DecimalDenotes(index);
      assert tail == "fault-" + (digits + (".run" + suffix));
      assert tail[6..] == digits + (".run" + suffix);
      DigitsLead(digits, ".run" + suffix);
    }
  }

  lemma CasePathTail(prefix: string, pid: int, index: nat, a: nat)
    requires a < 11
    ensures var common := prefix + "-" + SignedDecimal(pid) + "-";
            var path := CasePaths(prefix, pid, index)[a];
            |common| <= |path| && path[|common|..] == CaseName(index) + SUFFIXES[a]
  {
  }

  /** No path of one case is a path of another, and no case uses one path twice. */
  lemma PathsNeverCollide(prefix: string, pid: int, i: nat, j: nat, a: nat, b: nat)
    requires a < 11 && b < 11 && (i != j || a != b)
    ensures CasePaths(prefix, pid, i)[a] != CasePaths(prefix, pid, j)[b]
  {
    CasePathTail(prefix, pid, i, a);
    CasePathTail(prefix, pid, j, b);
    CaseNameReadsBack(i, SUFFIXES[a]);
    CaseNameReadsBack(j, SUFFIXES[b]);
    if i == j {
      SuffixesDiffer(a, b);
      assert (CaseName(i) + SUFFIXES[a])[|CaseName(i)|..] == SUFFIXES[a];
      assert (CaseName(i) + SUFFIXES[b])[|CaseName(i)|..] == SUFFIXES[b];
    }
  }

  lemma SuffixesDiffer(a: nat, b: nat)
    requires a < 11 && b < 11 && a != b
    ensures SUFFIXES[a] != SUFFIXES[b]
  {
    // Lengths tell all pairs apart but the two captured streams.
    assert |SUFFIXES[a]| == [0, 11, 11, 8, 9, 22, 18, 18, 30, 32, 31][a];
    assert |SUFFIXES[b]| == [0, 11, 11, 8, 9, 22, 18, 18, 30, 32, 31][b];
    assert SUFFIXES[1][4] == 'o' && SUFFIXES[2][4] == 'e';
    assert SUFFIXES[6][9] == 'c' && SUFFIXES[7][9] == 'f';
  }
}
