/**
 One mutant from scratch directory to verdict: p101_mutation_execute in
 components/mutation/src/execution.c. Command runs are oracles: a status, a
 timeout flag, and any change at all below the scratch directory.
 */
module MutationExecution {
  import opened Wrappers
  import opened FileTree
  import opened TreeCopy
  import opened MutationFiles
  import opened MutationCommand

  /**
   How a spawned command ended: with a status, at its time limit, or unseen, when it could not be spawned or
   waited for. An error may be recorded on the way to the first two, and always is for the last.
   */
  datatype Run = Finished(status: nat, noted: bool) | TimedOut(noted: bool) | Lost {
    predicate Errs() { Lost? || noted }

    predicate Passes() { Finished? && status == 0 }

    predicate Fails() { Finished? && status != 0 }

    /** What p101_mutation_run_command returns. */
    function Status(): int { if Finished? then status else -1 }
  }

  datatype Outcome = Inconclusive | Survived | Killed

  datatype MutantResult = MutantResult(outcome: Outcome, returnCode: int, timedOut: bool)

  function Classify(compile: Run, test: Run): MutantResult {
    if !compile.Passes() then MutantResult(Inconclusive, compile.Status(), compile.TimedOut?)
    else MutantResult(if test.TimedOut? then Inconclusive else if test.Passes() then Survived else Killed,
                      test.Status(), test.TimedOut?)
  }

  /** The command ended with status 0. */
  ghost predicate EndsWell(run: Run) { run == Finished(0, true) || run == Finished(0, false) }

  /** It ended with any other status. */
  ghost predicate EndsBadly(run: Run) {
    exists status: nat, noted: bool :: status > 0 && run == Finished(status, noted)
  }

  /**
   A kill needs a mutant that compiles; a test command that was never seen to end counts as one that failed. What is
   recorded is how the last command of the two ended.
   */
  lemma OutcomeMeaning(compile: Run, test: Run)
    ensures Classify(compile, test).outcome == Killed <==> EndsWell(compile) && (test.Lost? || EndsBadly(test))
    ensures Classify(compile, test).outcome == Survived <==> EndsWell(compile) && EndsWell(test)
    ensures Classify(compile, test).outcome == Inconclusive <==> !EndsWell(compile) || test.TimedOut?
    ensures var last := if EndsWell(compile) then test else compile;
            && Classify(compile, test).returnCode == (if last.Finished? then last.status else -1)
            && (Classify(compile, test).timedOut <==> last.TimedOut?)
    ensures forall run: Run :: (run.Passes() <==> EndsWell(run)) && (run.Fails() <==> EndsBadly(run))
  {
  }

  // ----- the mutated copy -----

  /** At relative path x the copy holds the pruned source, with only file r edited. */
  predicate MutantAt(before: Tree, after: Tree, project: Path, copy: Path, r: Path, c: Candidate, x: Path)
    requires IsFile(before, project + r) && Matches(before[project + r].contents, c)
  {
    (copy + x in after <==> Wanted(before, project, x)) &&
    (copy + x in after ==>
       after[copy + x] == if x == r then Regular(Splice(before[project + r].contents, c)) else before[project + x])
  }

  /** The file can be edited in the copy at all. */
  predicate Mutable(before: Tree, project: Path, r: Path, c: Candidate) {
    Kept(r) && IsFile(before, project + r) && Matches(before[project + r].contents, c)
  }

  ghost predicate IsMutant(before: Tree, after: Tree, project: Path, copy: Path, r: Path, c: Candidate) {
    Mutable(before, project, r, c) && forall x: Path :: MutantAt(before, after, project, copy, r, c, x)
  }

  lemma CopyThenSplice(before: Tree, copied: Tree, after: Tree, project: Path, copy: Path, r: Path, c: Candidate)
    requires IsPrunedCopy(before, copied, project, copy)
    requires ApplyRelation(copied, after, copy + r, c, Applied)
    ensures IsMutant(before, after, project, copy, r, c)
  {
    assert CopiedAt(before, copied, project, copy, r);
    forall x: Path ensures MutantAt(before, after, project, copy, r, c, x) {
      assert CopiedAt(before, copied, project, copy, x);
      assert x != r ==> copy + x != copy + r by {
        assert (copy + x)[|copy|..] == x && (copy + r)[|copy|..] == r;
      }
    }
  }

  /** Every absolute compile argument that names the candidate's file reads the edited text. */
  lemma CompilerReadsMutant(before: Tree, mutant: Tree, project: Path, copy: Path, r: Path, c: Candidate,
                            argument: string, realpath: Realpath)
    requires CleanPath(copy) && CleanPath(r) && r != []
    requires IsMutant(before, mutant, project, copy, r, c)
    requires "/" <= argument && realpath(argument) == Some(Render(project + r))
    ensures var opened' := Resolve(RewritePath(Render(project), Render(copy), argument, realpath));
            opened' in mutant && mutant[opened'] == Regular(Splice(before[project + r].contents, c))
  {
    EditedIsCompiled(project, copy, r, argument, realpath);
    assert MutantAt(before, mutant, project, copy, r, c, r);
  }

  /**
   Every other argument inside the project reads the unedited file, or finds nothing exactly where names are
   ignored.
   */
  lemma CompilerReadsRestUnchanged(before: Tree, mutant: Tree, project: Path, copy: Path, r: Path, c: Candidate,
                                   x: Path, argument: string, realpath: Realpath)
    requires CleanPath(copy) && CleanPath(x) && x != [] && x != r
    requires IsMutant(before, mutant, project, copy, r, c)
    requires "/" <= argument && realpath(argument) == Some(Render(project + x))
    ensures var opened' := Resolve(RewritePath(Render(project), Render(copy), argument, realpath));
            && (opened' in mutant <==> Wanted(before, project, x))
            && (opened' in mutant ==> mutant[opened'] == before[project + x])
  {
    EditedIsCompiled(project, copy, x, argument, realpath);
    assert MutantAt(before, mutant, project, copy, r, c, x);
  }

  // ----- the scratch directory -----

  lemma ScratchIsApart(t: Tree, project: Path, temp: Path)
    requires WellFormed(t) && project in t && temp !in t && |temp| == 2
    requires project != [] && project != temp[..1]
    ensures Apart(project, temp + ["project"])
    ensures Vacant(t, temp)
  {
    VacantWithoutChildren(t, temp);
    var copy := temp + ["project"];
    assert copy[..2] == temp && copy[..1] == temp[..1];
    assert |project| == 1 || !(temp <= project);
    assert |project| >= 2 ==> project[..2] != temp;
  }

  lemma RestoredWhenVacant(before: Tree, after: Tree, temp: Path)
    requires SameOutside(before, after, temp) && Vacant(before, temp) && Vacant(after, temp)
    ensures after == before
  {
  }

  // ----- spawned commands -----

  /** A command as the operating system gets it: the files there are, where it runs, and its words. */
  datatype Call = Call(nodes: Tree, directory: string, arguments: seq<string>)

  datatype Reply = Reply(run: Run, nodes: Tree)

  /** How commands behave. */
  type Commands = Call -> Reply

  /** A command leaves a file system behind, and touches nothing outside root. */
  predicate Stays(before: Tree, after: Tree, root: Path) {
    WellFormed(after) && SameOutside(before, after, root) && (root in before ==> root in after)
  }

  /** What is asked of commands that are given root to write in: they may do anything there, and nothing elsewhere. */
  ghost predicate Confined(commands: Commands, root: Path) {
    forall call: Call :: WellFormed(call.nodes) ==> Stays(call.nodes, commands(call).nodes, root)
  }

  class Shell {
    /** Every command handed to the operating system. */
    var calls: seq<Call>

    constructor ()
      ensures calls == []
    {
      calls := [];
    }

    /** p101_mutation_run_command: with an error on record already, nothing is spawned. */
    method Spawn(fs: FileSystem, commands: Commands, root: Path, directory: string, arguments: seq<string>)
      returns (run: Run)
      requires WellFormed(fs.nodes) && Confined(commands, root)
      modifies this, fs
      ensures var call := Call(old(fs.nodes), directory, arguments);
              if old(fs.error) then run == Lost && calls == old(calls) && fs.nodes == old(fs.nodes)
              else run == commands(call).run && calls == old(calls) + [call] && fs.nodes == commands(call).nodes
      ensures fs.error == (old(fs.error) || run.Errs())
      ensures WellFormed(fs.nodes) && SameOutside(old(fs.nodes), fs.nodes, root)
      ensures root in old(fs.nodes) ==> root in fs.nodes
    {
      if fs.error {
        return Lost;
      }
      var call := Call(fs.nodes, directory, arguments);
      calls := calls + [call];
      run := commands(call).run;
      fs.nodes := commands(call).nodes;
      fs.error := run.Errs();
    }
  }

  // ----- preparing the copy -----

  /** Copy the project and edit one file in the copy. */
  method PrepareMutant(fs: FileSystem, project: Path, r: Path, candidate: Candidate, copy: Path) returns (ok: bool)
    requires WellFormed(fs.nodes) && CleanPath(copy) && CleanPath(r) && r != []
    requires candidate.path == Render(project + r) && !IsLink(fs.nodes, project + r)
    requires Apart(project, copy) && Vacant(fs.nodes, copy)
    modifies fs
    ensures WellFormed(fs.nodes) && SameOutside(old(fs.nodes), fs.nodes, copy)
    // An error on record does not stop the copy, and does not outlive it.
    ensures ok ==> IsMutant(old(fs.nodes), fs.nodes, project, copy, r, candidate) && !fs.error
    ensures !fs.faulty && project in old(fs.nodes) && IsDirectory(old(fs.nodes), Parent(copy)) ==>
              (ok <==> Mutable(old(fs.nodes), project, r, candidate))
  {
    hide *;
    CleanBoth(copy, r);
    TargetInside(project, copy, r);
    MutableInDirectory(fs.nodes, project, r, candidate);
    ok := fs.CopyTree(project, copy);
    if !ok {
      return;
    }
    ghost var copied := fs.nodes;
    CopiedFile(old(fs.nodes), copied, project, copy, r);
    var status := fs.ApplyCandidate(Render(project), candidate, Render(copy));
    AppliedOutside(old(fs.nodes), copied, fs.nodes, copy, r, candidate, status);
    ok := status.Applied?;
    AppliedWhenMutable(old(fs.nodes), copied, fs.nodes, project, copy, r, candidate, status);
    if ok {
      CopyThenSplice(old(fs.nodes), copied, fs.nodes, project, copy, r, candidate);
    }
  }

  lemma CleanBoth(p: Path, r: Path)
    requires CleanPath(p) && CleanPath(r)
    ensures CleanPath(p + r)
  {
  }

  lemma MutableInDirectory(t: Tree, project: Path, r: Path, c: Candidate)
    requires WellFormed(t) && r != []
    ensures Mutable(t, project, r, c) ==> IsDirectory(t, project)
  {
    if Mutable(t, project, r, c) {
      AncestorsAreDirectories(t, project, project + r);
    }
  }

  lemma CopiedFile(before: Tree, copied: Tree, project: Path, copy: Path, r: Path)
    requires IsPrunedCopy(before, copied, project, copy) && !IsLink(before, project + r)
    ensures !IsLink(copied, copy + r)
  {
    assert CopiedAt(before, copied, project, copy, r);
  }

  lemma AppliedOutside(before: Tree, copied: Tree, after: Tree, copy: Path, r: Path, c: Candidate, status: ApplyStatus)
    requires SameOutside(before, copied, copy) && ApplyRelation(copied, after, copy + r, c, status)
    ensures SameOutside(before, after, copy)
  {
    assert copy <= copy + r;
    assert SameOutside(copied, after, copy) by {
      forall p | !(copy <= p) && (p in copied || p in after) ensures SameAt(copied, after, p) {
      }
    }
    SameOutsideWider(before, copied, after, copy, copy);
  }

  lemma AppliedWhenMutable(before: Tree, copied: Tree, after: Tree, project: Path, copy: Path, r: Path, c: Candidate,
                           status: ApplyStatus)
    requires IsPrunedCopy(before, copied, project, copy) && ApplyRelation(copied, after, copy + r, c, status)
    ensures status.Applied? ==> Mutable(before, project, r, c)
    ensures (status.Unreadable? <==> !IsFile(copied, copy + r)) && !status.WriteFailed? ==>
              (status.Applied? <==> Mutable(before, project, r, c))
  {
    assert CopiedAt(before, copied, project, copy, r);
  }

  // ----- one mutant -----

  /**
   What the caller hands over: the canonicalizer, the recorded commands, the test command, and how commands behave.
   */
  datatype Setting = Setting(realpath: Realpath, database: string -> Option<Command>, test: seq<string>,
                             commands: Commands)

  /** What the copy holds at relative path x, if it holds anything there. */
  function MutantNode(t: Tree, project: Path, r: Path, c: Candidate, x: Path): Node
    requires Mutable(t, project, r, c)
  {
    if x == r then Regular(Splice(t[project + r].contents, c))
    else if project + x in t then t[project + x]
    else Directory
  }

  function CopiedPaths(t: Tree, project: Path, copy: Path): set<Path> {
    set p | p in t && project <= p && Wanted(t, project, p[|project|..]) :: copy + p[|project|..]
  }

  /** The tree once the project is copied and file r edited in the copy. */
  function MutantTree(t: Tree, project: Path, copy: Path, r: Path, c: Candidate): Tree
    requires Mutable(t, project, r, c)
  {
    t + map q | q in CopiedPaths(t, project, copy) :: MutantNode(t, project, r, c, q[|copy|..])
  }

  lemma CopiedPathsAre(t: Tree, project: Path, copy: Path, x: Path)
    ensures copy + x in CopiedPaths(t, project, copy) <==> Wanted(t, project, x)
    ensures forall q :: q in CopiedPaths(t, project, copy) ==> copy <= q
  {
    assert (copy + x)[|copy|..] == x && (project + x)[|project|..] == x;
    if copy + x in CopiedPaths(t, project, copy) {
      var p :| p in t && project <= p && Wanted(t, project, p[|project|..]) && copy + p[|project|..] == copy + x;
      assert (copy + p[|project|..])[|copy|..] == p[|project|..];
    }
  }

  /** There is exactly one tree that holds the mutant and is otherwise as before. */
  lemma MutantIsUnique(t: Tree, after: Tree, project: Path, copy: Path, r: Path, c: Candidate)
    requires Mutable(t, project, r, c) && Vacant(t, copy)
    ensures after == MutantTree(t, project, copy, r, c) <==>
            IsMutant(t, after, project, copy, r, c) && SameOutside(t, after, copy)
  {
    var m := MutantTree(t, project, copy, r, c);
    CopiedPathsAre(t, project, copy, []);
    forall x: Path ensures MutantAt(t, m, project, copy, r, c, x) {
      CopiedPathsAre(t, project, copy, x);
      assert (copy + x)[|copy|..] == x && copy <= copy + x;
    }
    if IsMutant(t, after, project, copy, r, c) && SameOutside(t, after, copy) {
      forall p ensures (p in after <==> p in m) && (p in after ==> after[p] == m[p]) {
        if copy <= p {
          assert p == copy + p[|copy|..];
          assert MutantAt(t, after, project, copy, r, c, p[|copy|..]);
          assert MutantAt(t, m, project, copy, r, c, p[|copy|..]);
        }
      }
      assert after == m;
    }
  }

  /** One mutant: which file of which project, edited how, copied to where, and judged by which commands. */
  datatype Job = Job(project: Path, r: Path, temp: Path, candidate: Candidate, setting: Setting) {
    function Copy(): Path { temp + ["project"] }

    predicate Recorded() { setting.database(candidate.path).Some? }

    /** The copy can be made and edited, and there is a command to compile it with. */
    predicate Ready(t: Tree) { Mutable(t, project, r, candidate) && Recorded() }

    function CompileWords(): seq<string>
      requires Recorded()
    {
      CompileArguments(setting.database(candidate.path).value.arguments, Render(project), Render(Copy()),
                       setting.realpath)
    }

    function CompileDirectory(): string
      requires Recorded()
    {
      RewritePath(Render(project), Render(Copy()), setting.database(candidate.path).value.directory, setting.realpath)
    }

    function TestWords(): seq<string> { RewriteAll(Render(project), Render(Copy()), setting.test, setting.realpath) }

    /** The compiler runs on the mutant. */
    function CompileCall(t: Tree): Call
      requires Ready(t)
    {
      Call(MutantTree(t, project, Copy(), r, candidate), CompileDirectory(), CompileWords())
    }

    /** The test command runs in the copy, on what the compiler left of it. */
    function TestAfter(compile: Call): Call {
      Call(setting.commands(compile).nodes, Render(Copy()), TestWords())
    }

    function CompileRun(t: Tree): Run
      requires Ready(t)
    {
      setting.commands(CompileCall(t)).run
    }

    function TestRun(t: Tree): Run
      requires Ready(t)
    {
      setting.commands(TestAfter(CompileCall(t))).run
    }

    /** A compiler that succeeds while an error is recorded is the one thing left that can end a prepared execution. */
    predicate Completes(t: Tree) {
      Ready(t) && (CompileRun(t).Passes() ==> !CompileRun(t).Errs())
    }

    function Verdict(t: Tree): MutantResult
      requires Completes(t)
    {
      Classify(CompileRun(t), TestRun(t))
    }

    /** The commands that are run: no test command unless the mutant compiles. */
    function Calls(t: Tree): seq<Call>
      requires Completes(t)
    {
      var compile := CompileCall(t);
      if CompileRun(t).Passes() then [compile, TestAfter(compile)] else [compile]
    }

    /** Whether the command that decided leaves an error on record. */
    predicate Noted(t: Tree)
      requires Completes(t)
    {
      if CompileRun(t).Passes() then TestRun(t).Errs() else CompileRun(t).Errs()
    }
  }

  /**
   The commands that ran are the mutant's, the compiler saw the mutant, and the verdict follows from how they ended.
   */
  ghost predicate Judged(before: Tree, j: Job, result: MutantResult, calls: seq<Call>) {
    && |calls| >= 1 && j.Recorded()
    && IsMutant(before, calls[0].nodes, j.project, j.Copy(), j.r, j.candidate)
    && calls[0].directory == j.CompileDirectory() && calls[0].arguments == j.CompileWords()
    && var compile := j.setting.commands(calls[0]).run;
       if compile.Passes() then
         && !compile.Errs() && |calls| == 2 && calls[1] == j.TestAfter(calls[0])
         && result == Classify(compile, j.setting.commands(calls[1]).run)
       else |calls| == 1 && result == Classify(compile, compile)
  }

  /** Whether the last of the commands leaves an error on record. */
  predicate NotedBy(j: Job, calls: seq<Call>)
    requires calls != []
  {
    j.setting.commands(calls[|calls| - 1]).run.Errs()
  }

  /**
   The compiler gets what is left of the recorded arguments, each moved into the copy, and runs where the recorded
   directory is moved to.
   */
  lemma CompileCallMeans(before: Tree, j: Job, result: MutantResult, calls: seq<Call>)
    requires Judged(before, j, result, calls) && CleanPath(j.project) && CleanPath(j.temp)
    ensures var command, copy := j.setting.database(j.candidate.path).value, j.temp + ["project"];
            var kept, words := Survivors(command.arguments, |command.arguments|), calls[0].arguments;
            && Moved(j.project, copy, command.directory, calls[0].directory, j.setting.realpath)
            && |words| == |kept| + 1 && words[|kept|] == "-fsyntax-only"
            && forall i :: 0 <= i < |kept| ==> Moved(j.project, copy, kept[i], words[i], j.setting.realpath)
  {
    hide Survivors, Filter, RewritePath, Moved, Render, IsMutant, CleanName;
    var command, copy := j.setting.database(j.candidate.path).value, j.Copy();
    CopyIsClean(j.temp);
    FilterIs(command.arguments);
    CompileArgumentsAre(command.arguments, Render(j.project), Render(copy), j.setting.realpath);
    WordMoves(j.project, copy, command.directory, j.setting.realpath);
    var kept := Filter(command.arguments);
    forall i | 0 <= i < |kept|
      ensures Moved(j.project, copy, kept[i], calls[0].arguments[i], j.setting.realpath)
    {
      WordMoves(j.project, copy, kept[i], j.setting.realpath);
    }
  }

  /**
   The test command runs in the copy, never in the project, on the files that compiling left: as many words as it
   has, each moved into the copy.
   */
  lemma TestCallMeans(before: Tree, j: Job, result: MutantResult, calls: seq<Call>)
    requires Judged(before, j, result, calls) && |calls| == 2 && CleanPath(j.project) && CleanPath(j.temp)
    ensures var copy, test := j.temp + ["project"], calls[1];
            && Resolve(test.directory) == copy && test.directory == Render(j.temp) + "/project"
            && test.nodes == j.setting.commands(calls[0]).nodes
            && |test.arguments| == |j.setting.test|
            && forall i :: 0 <= i < |test.arguments| ==>
                 Moved(j.project, copy, j.setting.test[i], test.arguments[i], j.setting.realpath)
  {
    hide RewritePath, Moved, Resolve, IsMutant, CleanName;
    var copy, test := j.Copy(), calls[1];
    CopyIsClean(j.temp);
    ResolveRender(copy);
    assert Parent(copy) == j.temp;
    forall i | 0 <= i < |test.arguments|
      ensures Moved(j.project, copy, j.setting.test[i], test.arguments[i], j.setting.realpath)
    {
      WordMoves(j.project, copy, j.setting.test[i], j.setting.realpath);
    }
  }

  lemma CopyIsClean(temp: Path)
    requires CleanPath(temp)
    ensures CleanPath(temp + ["project"])
  {
  }

  lemma CompletedIsJudged(t: Tree, j: Job)
    requires j.Completes(t) && Vacant(t, j.Copy())
    ensures Judged(t, j, j.Verdict(t), j.Calls(t))
    ensures NotedBy(j, j.Calls(t)) <==> j.Noted(t)
  {
    hide Mutable, IsMutant, MutantTree, Render, Vacant, SameOutside;
    MutantIsUnique(t, MutantTree(t, j.project, j.Copy(), j.r, j.candidate), j.project, j.Copy(), j.r, j.candidate);
  }

  /** When compiling leaves the copy alone, the tested tree is the mutant too. */
  lemma TestSeesMutant(before: Tree, j: Job, result: MutantResult, calls: seq<Call>)
    requires Judged(before, j, result, calls) && |calls| == 2
    requires forall x: Path :: SameAt(calls[0].nodes, j.setting.commands(calls[0]).nodes, j.Copy() + x)
    ensures IsMutant(before, calls[1].nodes, j.project, j.Copy(), j.r, j.candidate)
  {
    forall x: Path ensures MutantAt(before, calls[1].nodes, j.project, j.Copy(), j.r, j.candidate, x) {
      assert MutantAt(before, calls[0].nodes, j.project, j.Copy(), j.r, j.candidate, x);
      assert SameAt(calls[0].nodes, calls[1].nodes, j.Copy() + x);
    }
  }

  function Values(slots: seq<Option<string>>): seq<string> {
    if slots == [] || slots[0].None? then [] else [slots[0].value] + Values(slots[1..])
  }

  /** A NULL-terminated vector read back from its slots. */
  lemma {:induction false} ValuesOf(slots: seq<Option<string>>, values: seq<string>)
    requires |values| < |slots| && slots[|values|] == None
    requires forall i :: 0 <= i < |values| ==> slots[i] == Some(values[i])
    ensures Values(slots) == values
  {
    if values != [] {
      assert slots[0] == Some(values[0]);
      ValuesOf(slots[1..], values[1..]);
    }
  }

  /** From an existing scratch directory to a verdict. */
  method RunMutant(fs: FileSystem, shell: Shell, j: Job) returns (completed: bool, result: MutantResult)
    requires WellFormed(fs.nodes) && IsDirectory(fs.nodes, j.temp) && CleanPath(j.temp) && CleanPath(j.r) && j.r != []
    requires j.candidate.path == Render(j.project + j.r) && !IsLink(fs.nodes, j.project + j.r)
    requires Apart(j.project, j.Copy()) && Vacant(fs.nodes, j.Copy()) && Confined(j.setting.commands, j.temp)
    modifies fs, shell
    ensures WellFormed(fs.nodes) && SameOutside(old(fs.nodes), fs.nodes, j.temp) && j.temp in fs.nodes
    ensures old(shell.calls) <= shell.calls
    ensures completed ==>
              && j.Completes(old(fs.nodes)) && result == j.Verdict(old(fs.nodes))
              && shell.calls == old(shell.calls) + j.Calls(old(fs.nodes)) && fs.error == j.Noted(old(fs.nodes))
    ensures !fs.faulty && j.project in old(fs.nodes) ==> (completed <==> j.Completes(old(fs.nodes)))
  {
    hide WellFormed, SameOutside, IsMutant, Vacant, Apart, Mutable, IsLink, Confined, MutantTree, Stays, Render,
         RewritePath, RewriteAll, CompileArguments, IsDirectory, CleanPath;
    completed, result := false, MutantResult(Inconclusive, 0, false);
    ghost var before := fs.nodes;
    var copy := j.Copy();
    ScratchCopy(before, j.temp);
    var prepared := PrepareMutant(fs, j.project, j.r, j.candidate, copy);
    SameOutsideTemp(before, fs.nodes, j.temp, copy);
    if !prepared {
      return;
    }
    MutantMeansMutable(before, fs.nodes, j.project, copy, j.r, j.candidate);
    MutantIsUnique(before, fs.nodes, j.project, copy, j.r, j.candidate);
    if !j.Recorded() {
      fs.error := true;
      return;
    }
    var words, directory := CompileCommand(j);
    ghost var mutant := fs.nodes;
    var compile := shell.Spawn(fs, j.setting.commands, j.temp, directory, words);
    SameOutsideWider(before, mutant, fs.nodes, j.temp, j.temp);
    if !compile.Passes() {
      return true, MutantResult(Inconclusive, compile.Status(), compile.TimedOut?);
    }
    if fs.error {
      return;
    }
    ghost var compiled := fs.nodes;
    var test := shell.Spawn(fs, j.setting.commands, j.temp, Render(copy), j.TestWords());
    SameOutsideWider(before, compiled, fs.nodes, j.temp, j.temp);
    var outcome := if test.TimedOut? then Inconclusive else if test.Passes() then Survived else Killed;
    return true, MutantResult(outcome, test.Status(), test.TimedOut?);
  }

  lemma MutantMeansMutable(before: Tree, after: Tree, project: Path, copy: Path, r: Path, c: Candidate)
    requires IsMutant(before, after, project, copy, r, c)
    ensures Mutable(before, project, r, c)
  {
  }

  /** The command that the database records, read back from its filled vector. */
  method CompileCommand(j: Job) returns (words: seq<string>, directory: string)
    requires j.Recorded()
    ensures words == j.CompileWords() && directory == j.CompileDirectory()
  {
    var source := j.setting.database(j.candidate.path).value;
    var project, copy := Render(j.project), Render(j.Copy());
    var slots, count;
    directory, slots, count := BuildCompileCommand(source, project, copy, j.setting.realpath);
    ValuesOf(slots[..], CompileArguments(source.arguments, project, copy, j.setting.realpath));
    words := Values(slots[..]);
  }

  lemma ScratchCopy(t: Tree, temp: Path)
    requires IsDirectory(t, temp) && CleanPath(temp)
    ensures CleanPath(temp + ["project"]) && IsDirectory(t, Parent(temp + ["project"]))
  {
  }

  lemma SameOutsideTemp(before: Tree, after: Tree, temp: Path, copy: Path)
    requires SameOutside(before, after, copy) && copy == temp + ["project"]
    ensures SameOutside(before, after, temp) && (temp in before ==> temp in after)
  {
  }

  lemma MadeOutside(before: Tree, temp: Path)
    requires Vacant(before, temp)
    ensures SameOutside(before, before[temp := Directory], temp)
    ensures temp != [] ==> Vacant(before[temp := Directory], temp + ["project"])
  {
  }

  /** Making the scratch directory changes nothing about the project. */
  lemma ProjectUnaffected(before: Tree, project: Path, temp: Path, copy: Path, r: Path, c: Candidate)
    requires !(project <= temp)
    ensures Mutable(before[temp := Directory], project, r, c) <==> Mutable(before, project, r, c)
    ensures IsLink(before[temp := Directory], project + r) <==> IsLink(before, project + r)
    ensures forall mutant :: IsMutant(before[temp := Directory], mutant, project, copy, r, c)
                             ==> IsMutant(before, mutant, project, copy, r, c)
  {
    var now := before[temp := Directory];
    assert project <= project + r;
    forall mutant, x: Path | IsMutant(now, mutant, project, copy, r, c)
      ensures MutantAt(before, mutant, project, copy, r, c, x)
    {
      assert project <= project + x;
      assert MutantAt(now, mutant, project, copy, r, c, x);
    }
  }

  lemma RemovedOutside(before: Tree, now: Tree, after: Tree, temp: Path)
    requires SameOutside(before, now, temp) && Removed(now, after, temp)
    ensures SameOutside(before, after, temp)
  {
  }

  /** The candidate lies strictly inside the project, in canonical text, and names no link. */
  predicate Located(t: Tree, project: string, candidate: Candidate) {
    var p, q := Resolve(project), Resolve(candidate.path);
    && CanonicalText(project) && CanonicalText(candidate.path)
    && p < q && p in t && p != ["tmp"] && !IsLink(t, q)
  }

  function Scratch(suffix: string): Path { ["tmp", "test-mutation." + suffix] }

  /** Where the candidate lies inside the project. */
  function RelativePath(project: string, c: Candidate): Path {
    if Resolve(project) <= Resolve(c.path) then Resolve(c.path)[|Resolve(project)|..] else []
  }

  function JobOf(project: string, c: Candidate, temp: Path, s: Setting): Job {
    Job(Resolve(project), RelativePath(project, c), temp, c, s)
  }

  /** Everything judging needs, short of calls failing for no visible reason. */
  predicate Judgeable(before: Tree, j: Job) {
    IsDirectory(before, ["tmp"]) && j.temp !in before && j.Completes(before[j.temp := Directory])
  }

  lemma ScratchReady(before: Tree, project: string, c: Candidate, temp: Path)
    requires WellFormed(before) && Located(before, project, c) && temp !in before && |temp| == 2 && temp[..1] == ["tmp"]
    ensures var p, r, now := Resolve(project), RelativePath(project, c), before[temp := Directory];
            && CleanPath(r) && r != [] && c.path == Render(p + r) && !IsLink(now, p + r)
            && Apart(p, temp + ["project"]) && Vacant(now, temp + ["project"])
            && p in now && !(p <= temp)
  {
    var p, r := Resolve(project), RelativePath(project, c);
    assert Resolve(c.path) == p + r;
    assert temp[..2] == temp && p != temp[..1];
    ScratchIsApart(before, p, temp);
    MadeOutside(before, temp);
    ProjectUnaffected(before, p, temp, temp + ["project"], r, c);
  }

  /** A verdict reached beside the project is a verdict on the project. */
  lemma JudgedWithoutScratch(before: Tree, j: Job, result: MutantResult, calls: seq<Call>)
    requires !(j.project <= j.temp) && Judged(before[j.temp := Directory], j, result, calls)
    ensures Judged(before, j, result, calls)
  {
    hide IsMutant, Render;
    ProjectUnaffected(before, j.project, j.temp, j.Copy(), j.r, j.candidate);
  }

  /** The verdict on the one tree that a job with these files can lead to. */
  ghost predicate Carried(before: Tree, j: Job, result: MutantResult, calls: seq<Call>) {
    && Judgeable(before, j) && Judged(before, j, result, calls)
    && result == j.Verdict(before[j.temp := Directory]) && calls == j.Calls(before[j.temp := Directory])
  }

  lemma ScratchVerdict(before: Tree, j: Job, completed: bool, result: MutantResult, calls: seq<Call>)
    requires IsDirectory(before, ["tmp"]) && j.temp !in before && !(j.project <= j.temp)
    requires Vacant(before[j.temp := Directory], j.Copy())
    requires completed ==>
               var now := before[j.temp := Directory];
               j.Completes(now) && result == j.Verdict(now) && calls == j.Calls(now)
    ensures Judgeable(before, j) <==> j.Completes(before[j.temp := Directory])
    ensures completed ==>
              && Carried(before, j, result, calls) && calls != []
              && (NotedBy(j, calls) <==> j.Noted(before[j.temp := Directory]))
  {
    hide IsDirectory, Vacant, Judged, Job.Completes, Job.Verdict, Job.Calls, Job.Noted, NotedBy;
    if completed {
      CompletedIsJudged(before[j.temp := Directory], j);
      JudgedWithoutScratch(before, j, result, calls);
      JudgedHasCalls(before, j, result, calls);
    }
  }

  lemma JudgedHasCalls(before: Tree, j: Job, result: MutantResult, calls: seq<Call>)
    requires Judged(before, j, result, calls)
    ensures calls != []
  {
  }

  lemma Unchanged(t: Tree, root: Path)
    ensures SameOutside(t, t, root)
  {
  }

  lemma NewDirectory(t: Tree, p: Path)
    ensures IsDirectory(t[p := Directory], p)
  {
  }

  lemma NoScratch(before: Tree, j: Job)
    requires !IsDirectory(before, ["tmp"]) || j.temp in before
    ensures !Judgeable(before, j)
  {
  }

  lemma ScratchName(suffix: string)
    requires '/' !in suffix
    ensures var temp := Scratch(suffix);
            |temp| == 2 && Parent(temp) == ["tmp"] == temp[..1] && CleanPath(temp) && CleanPath(temp + ["project"])
    ensures Render(Scratch(suffix)) == "/tmp/test-mutation." + suffix
  {
    ScratchText(suffix);
  }

  lemma ScratchText(suffix: string)
    ensures Render(Scratch(suffix)) == "/tmp/test-mutation." + suffix
  {
    assert Parent(["tmp"]) == [] && Render(["tmp"]) == "/tmp";
    assert Parent(Scratch(suffix)) == ["tmp"];
    hide Render;
    assert "/tmp" + "/" + ("test-mutation." + suffix) == "/tmp/test-mutation." + suffix;
  }

  /**
   mkdtemp under /tmp, judge the mutant, delete the scratch directory whatever happened.
   The project itself never changes; without stray failures nothing at all is left behind.
   */
  method Execute(fs: FileSystem, shell: Shell, projectArgument: string, candidate: Candidate, suffix: string,
                 s: Setting)
    returns (completed: bool, result: MutantResult, ghost calls: seq<Call>)
    requires WellFormed(fs.nodes) && '/' !in suffix && Confined(s.commands, Scratch(suffix))
    requires s.realpath(projectArgument).Some? ==> Located(fs.nodes, s.realpath(projectArgument).value, candidate)
    modifies fs, shell
    ensures WellFormed(fs.nodes) && SameOutside(old(fs.nodes), fs.nodes, Scratch(suffix))
    ensures !fs.faulty || Scratch(suffix) in old(fs.nodes) ==> fs.nodes == old(fs.nodes)
    ensures shell.calls == old(shell.calls) + calls
    ensures s.realpath(projectArgument).None? ==> !completed
    ensures s.realpath(projectArgument).Some? ==>
              var j := JobOf(s.realpath(projectArgument).value, candidate, Scratch(suffix), s);
              && (completed ==>
                    Carried(old(fs.nodes), j, result, calls) && calls != [] && fs.error == NotedBy(j, calls))
              && (!fs.faulty ==> (completed <==> Judgeable(old(fs.nodes), j)))
  {
    hide WellFormed, IsMutant, Vacant, Apart, Mutable, Classify, SameOutside, Removed, IsLink, Judged, Judgeable,
         Job.Completes, Job.Calls, Job.Verdict, Job.Noted, Carried, NotedBy, IsDirectory, Confined;
    ghost var before := fs.nodes;
    ghost var start := shell.calls;
    calls := [];
    var temp := Scratch(suffix);
    ScratchName(suffix);
    completed, result := false, MutantResult(Inconclusive, 0, false);
    var made, _ := fs.MakeDirectory(temp);
    if !made {
      Unchanged(before, temp);
      if !fs.faulty && s.realpath(projectArgument).Some? {
        NoScratch(before, JobOf(s.realpath(projectArgument).value, candidate, temp, s));
      }
      return;
    }
    VacantWithoutChildren(before, temp);
    MadeOutside(before, temp);
    NewDirectory(before, temp);
    ghost var created := fs.nodes;
    var canonical := s.realpath(projectArgument);
    if canonical.Some? {
      ScratchReady(before, canonical.value, candidate, temp);
      var j := JobOf(canonical.value, candidate, temp, s);
      completed, result := RunMutant(fs, shell, j);
      calls := shell.calls[|start|..];
      ScratchVerdict(before, j, completed, result, calls);
    } else {
      fs.error := true;
    }
    SameOutsideWider(before, created, fs.nodes, temp, temp);
    DeleteScratch(fs, before, temp);
  }

  method DeleteScratch(fs: FileSystem, ghost before: Tree, temp: Path)
    requires WellFormed(fs.nodes) && SameOutside(before, fs.nodes, temp)
    requires Vacant(before, temp) && temp in fs.nodes && temp != []
    modifies fs`nodes
    ensures WellFormed(fs.nodes) && SameOutside(before, fs.nodes, temp)
    ensures !fs.faulty ==> fs.nodes == before
  {
    hide WellFormed, SameOutside, Vacant, Removed;
    ghost var judged := fs.nodes;
    var removed := fs.RemoveTree(temp);
    RemovedOutside(before, judged, fs.nodes, temp);
    if removed {
      RestoredWhenVacant(before, fs.nodes, temp);
    }
  }
}
