# Verification of the p101-test engines

A Dafny model of the logic inside the C test engines, with proofs about whole runs of it.

* **Mutants** (`FileTree`, `TreeCopy`, `MutationFiles`, `MutationCommand`, `MutationExecution`, `MutationCampaign`).
  A file system is a map from paths to nodes; every call on it may fail at any moment. A project is copied
  without ignored names, one byte range of one file is spliced, the recorded compile command is filtered and
  re-pointed at the copy, the two command runs are judged, and everything is folded into an exit status. Commands are
  oracles over the files they see, the directory they run in and their words; every call is logged. The main
  results: the file system that the compiler sees is the pruned project with exactly one file edited; the edited
  file is the file the compile argument names; provided that the commands run for a mutant write nowhere but in its
  scratch directory (`MutationExecution.Confined`), nothing but the baseline command changes the working tree and, when
  no call fails, nothing else is left behind; without such failures exit 0 and exit 1 are decided by the inputs
  alone, in both directions; and it is said exactly which errors reach the exit status and what exit 0 is worth.
* **Conformance ledger** (`Fields`, `FirstMatchLedger`, `Conformance`, `ConformanceTraces`, `FaultManifest`,
  `ConformanceEngine`, `ConformanceRun`, `ConformanceMeaning`). Manifests are split in place, tables are ticked off by
  first-match search, findings are counted; the two JSON documents are sequences of nodes. The main result
  (`ConformanceRun.Run`): the receipt says passed if and only if the three API identity lists are permutations of one
  duplicate-free list, the traces meet what the manifests ask for, and the outcome lines are a permutation of the
  duplicate-free expected faults, all PASS. What columns, words, nodes and rows stand for is stated in terms of the
  text and the documents (`ConformanceMeaning`).
* **Fault walk** (`FaultPaths`, `FaultGroups`, `FaultWalk`, `PolicyReader`). Which cases are executed, what each
  finds in its environment, how findings and groups add up, that no two cases share a file, and that the policy
  reader ends with the longest prefix its limit allows.
* **Exact algorithms** (`RepositoryReceipt`, `CommandContract`, `UnityNumbers`). A receipt that does not depend on
  directory order, budgets that are exact in machine arithmetic, and a float printer whose text a reader takes
  back to exactly the scaled integer times its power of ten.

`Text` holds strings, separators and decimals, `Wrappers` the optional value. Oracles are parameters: command
outcomes, tool evidence, the canonicalizer (`realpath`), the compile database, the directory's order, the way reads and
writes are split.

## Where the code does not do what it seems to promise

* `p101_mutation_apply_candidate` accepts any path that starts with the project's text, also in a sibling directory
  (`MutationCommand.SiblingPassesApplyTest`); `MutationCommand.ApplyTestAccepts` says exactly which, and
  `MutationCommand.OutsideTarget` where they lead: into the copy, unless the sibling's name continues the project's by
  two dots, and then out of it. Candidates strictly inside the project are what the whole-run theorems ask for.
* A test command that cannot be spawned or waited for counts as a kill, and the error it records is taken back when the
  next mutant's copy of the project begins. So exit 0 does not mean that every mutant was tested
  (`MutationCampaign.LostTestPasses`); `MutationCampaign.SuccessMeansTested` says exactly when it does: if no test
  command but the last was lost. The last one's error does reach the exit status.
  `MutationCampaign.ExitZeroMeansTested` says the same about the logged commands of any run that exits 0, file system
  failures or not.
* Calls in the run model are found by name, APIs elsewhere by USR. An API is credited with the calls of its name exactly
  if it is the first of that name or there are none (`ConformanceRun.CallsGoToTheFirst`), so of two APIs with one name
  the later cannot conform if it is traced (`ConformanceRun.SharedNameGetsNoCalls`).
  `ConformanceRun.SharedNameFailsTheRun` runs two inputs that differ in that name alone: one passes, the other does not.
* The conformance receipt prints its two fault numbers under each other's names
  (`ConformanceRun.MissingOutcomeReadsAsObserved`); `ConformanceRun.FaultNumbersAgree` says exactly when the numbers
  are equal all the same, which includes every passing receipt.
* `split_fields` drops text after the last field it may return, so manifest rows may have more columns than asked for;
  the model does the same (`Fields.TabFieldsOfJoin`).

## Model

| member | source | states |
|---|---|---|
| `Text.DecimalDenotes` | src/runner.c:354-370 | the text a number is printed as has only digits, no spare zero, and reads back as that number |
| `Text.SignedDecimalDenotes` | src/paths.c:73-84 | a signed number is printed with a minus sign exactly when it is negative, then the digits of its magnitude without a spare zero |
| `FileTree.ResolveRender` | components/mutation/src/files.c:567-568 | the text of a clean absolute path is opened as that path |
| `FileTree.TextPrefixIsPathPrefix` | components/mutation/src/files.c:470-479 | the length, prefix and next-character test decides exactly whether one path lies at or below another |
| `MutationFiles.FileSystem.CopyFile` | components/mutation/src/files.c:90-169 | however reads and writes are split, success leaves an identical file and nothing else is touched |
| `MutationFiles.FileSystem.WriteAll` | components/mutation/src/files.c:128-143 | short writes are completed in order; success appends all of the data |
| `MutationFiles.FileSystem.CopyTree` | components/mutation/src/files.c:172-339 | success makes the destination the pruned source, which `TreeCopy.CopyLeaves` spells out entry by entry; the rest of the file system is unchanged even on failure; without stray failures it succeeds |
| `TreeCopy.CopyLeaves` | components/mutation/src/files.c:51-92 | at every level of a copy an entry is missing exactly if it is special, one of four names, or build, coverage, debug or profile alone or continued after a dash; what is missing is missing with all below it, and what is there is unchanged |
| `MutationFiles.FileSystem.CopyEntries` | components/mutation/src/files.c:230-314 | the readdir loop copies every entry exactly once, in any order |
| `MutationFiles.FileSystem.CopyEntry` | components/mutation/src/files.c:243-300 | one entry is passed over or copied whole; entries copied before stay exact |
| `MutationFiles.FileSystem.RemoveTree` | components/mutation/src/files.c:342-447 | deletes only below the path, never through a link; success leaves nothing there; without stray failures it succeeds |
| `MutationFiles.FileSystem.RemoveEntries` | components/mutation/src/files.c:380-435 | one failed entry does not stop the others; without stray failures the directory ends empty |
| `MutationFiles.FileSystem.ApplyCandidate` | components/mutation/src/files.c:511-722 | refuses exactly paths without the project's text in front; otherwise edits only the target |
| `MutationFiles.FileSystem.ApplyAt` | components/mutation/src/files.c:568-704 | success replaces exactly the recorded range; a mismatch with the recorded text changes no byte |
| `MutationFiles.FileSystem.WriteSpliced` | components/mutation/src/files.c:668-697 | the three writes leave text before the range, the replacement, and text after the range |
| `MutationFiles.AppliedMeans` | components/mutation/src/files.c:620-704 | a candidate is applied exactly if its text stands between a head and a tail at its offsets, and then the replacement stands between them; otherwise the source counts as changed and the file stays |
| `MutationFiles.UndoRestores` | components/mutation/src/files.c:668-697 | the reverse edit of an applied one applies, and gives back the file |
| `MutationCommand.RewriteInside` | components/mutation/src/files.c:482-503 | an absolute argument inside the project is re-rooted at the same place in the copy |
| `MutationCommand.RewriteOutside` | components/mutation/src/files.c:461-508 | a relative argument, one that cannot be resolved, and one outside the project, also in a sibling sharing a name prefix, keep their text |
| `MutationCommand.WordMoves` | components/mutation/src/files.c:449-509 | an absolute word that leads into the project resolves to the same place in the copy; every other word keeps its text |
| `MutationCommand.TargetInside` | components/mutation/src/files.c:561-568 | for a candidate inside the project the opened text is the same place in the copy |
| `MutationCommand.EditedIsCompiled` | components/mutation/src/execution.c:383-400 | a compile argument naming the candidate's file is rewritten to the very text that apply_candidate opens |
| `MutationCommand.OutsideTarget` | components/mutation/src/files.c:561-567 | where an accepted path outside the project leads: the rest of its name inside the copy, and out of it exactly for a rest of two dots |
| `MutationCommand.ApplyTestAccepts` | components/mutation/src/files.c:554-560 | the bare prefix test accepts exactly paths inside the project and siblings, or paths below them, whose name properly extends the project's |
| `MutationCommand.NothingDroppedSurvives` | components/mutation/src/execution.c:374-401 | no surviving argument is -c or an output or dependency option |
| `MutationCommand.FilterIdempotent` | components/mutation/src/execution.c:374-401 | filtering twice is filtering once |
| `MutationCommand.ValueGoesWithItsOption` | components/mutation/src/execution.c:389-394 | an option that takes a value goes with its value, whatever that looks like, and takes nothing else along |
| `MutationCommand.OneArgument` | components/mutation/src/execution.c:384-400 | a lone option goes alone, every other argument stays in place, a dangling option just goes |
| `MutationCommand.CompleteMeans` | components/mutation/src/execution.c:389-394 | a vector is complete unless its last argument is an option still waiting for its value |
| `MutationCommand.FilterIs` | components/mutation/src/execution.c:200-345 | the scan leaves exactly the arguments that are neither the value of the option before them nor -c nor start with -o, -MF, -MT or -MQ; that -ObjC stays needs no exception |
| `MutationCommand.CompileArgumentsAreFiltered` | components/mutation/src/execution.c:383-402 | rewriting paths and appending -fsyntax-only brings no dropped option back |
| `MutationCommand.BuildCompileCommand` | components/mutation/src/execution.c:370-404 | the read and write indices produce the surviving arguments, each re-pointed, and -fsyntax-only last; at most count + 1 slots are written and the next is still NULL |
| `MutationExecution.CopyThenSplice` | components/mutation/src/execution.c:583-588 | a pruned copy followed by the splice is the pruned project with one file edited |
| `MutationExecution.CompilerReadsMutant` | components/mutation/src/execution.c:383-403 | every absolute compile argument that names the candidate's file opens the edited text |
| `MutationExecution.CompilerReadsRestUnchanged` | components/mutation/src/execution.c:383-403 | every other argument inside the project opens the unedited file, or nothing exactly when a name on its way is ignored or the file is special |
| `MutationExecution.PrepareMutant` | components/mutation/src/execution.c:583-588 | preparation succeeds exactly for files that are kept, regular and still hold the recorded text |
| `MutationExecution.MutantIsUnique` | components/mutation/src/execution.c:583-588 | exactly one tree holds the pruned project with the one file edited and is otherwise as before |
| `MutationExecution.Shell.Spawn` | components/mutation/src/execution.c:411-527 | with an error on record nothing is spawned; otherwise the call is made on the current files and its outcome, effect and error are those of the oracle |
| `MutationExecution.OutcomeMeaning` | components/mutation/src/execution.c:594-636 | killed, survived and inconclusive, each exactly for which ends of the two commands; the recorded code and timeout are those of the command that decided |
| `MutationExecution.RunMutant` | components/mutation/src/execution.c:584-637 | the calls made are the compile command on the mutant and, only if that passes without an error, the test command in the copy on what compiling left; the verdict follows from how they ended |
| `MutationExecution.CompletedIsJudged` | components/mutation/src/execution.c:590-637 | what the inputs determine is a verdict on a mutant of the project |
| `MutationExecution.CompileCallMeans` | components/mutation/src/execution.c:343-405 | the compiler gets the surviving recorded arguments, each moved into the copy, and -fsyntax-only, in the directory the recorded one is moved to |
| `MutationExecution.TestCallMeans` | components/mutation/src/execution.c:606-622 | the test command runs in the copy, on the files compiling left, with as many words as it has, each moved into the copy |
| `MutationExecution.TestSeesMutant` | components/mutation/src/execution.c:622 | if compiling leaves the copy alone, the tested files are the mutant |
| `MutationExecution.Execute` | components/mutation/src/execution.c:545-652 | the same from mkdtemp to cleanup; nothing outside the scratch directory changes, without stray failures nothing at all, and it then completes exactly for the inputs that can be judged; the error left is that of the last command |
| `MutationCampaign.OperatorSelected` | components/mutation/src/candidates.c:61-83 | an empty operator list selects everything, any other exactly its members |
| `MutationCampaign.Candidates.Observe` | components/mutation/src/candidates.c:85-141 | a selected mutation record is appended while there is room; an unresolvable one stops the scan |
| `MutationCampaign.Candidates.Scan` | components/mutation/src/main.c:165-183 | the candidates are the first max_mutants selected records, in order |
| `MutationCampaign.SelectionGrows` | components/mutation/src/candidates.c:114-122 | later records never disturb what was selected before |
| `MutationCampaign.CandidatesMean` | components/mutation/src/candidates.c:85-141 | the candidates are the first max_mutants records that are mutations of an allowed kind, each with the canonical path, place, text and replacement of its record |
| `MutationCampaign.ExitStatusIgnoresOrder` | components/mutation/src/main.c:265-284 | the exit status depends on the multiset of results only |
| `MutationCampaign.FoldExitStatus` | components/mutation/src/main.c:265-284 | any inconclusive mutant dominates any survivor, and a survivor any kill |
| `MutationCampaign.ReportResults` | components/mutation/src/output.c:122-169 | killed, survived and inconclusive add up to selected, and the outcome says what the exit status says |
| `MutationCampaign.ExecuteAll` | components/mutation/src/main.c:255-263 | each candidate in turn is judged against the untouched project; without stray failures all are, exactly if each can be; the error left is the last mutant's |
| `MutationCampaign.RunMutants` | components/mutation/src/main.c:248-287 | after a passing baseline: execute, report and fold |
| `MutationCampaign.RunCampaign` | components/mutation/src/main.c:165-301 | exit 0 exactly for a clean listing or a non-empty campaign whose baseline passes and whose mutants all compile and are killed, exit 1 exactly for one with survivors and nothing inconclusive, both in terms of the inputs; of all errors only the last mutant's and the report's reach the status |
| `MutationCampaign.LogDecides` | components/mutation/src/main.c:248-287 | once all mutants were executed, the logged calls decide the status, stray failures or not: 0, 1 and 2 exactly for which ends of the compile and test commands |
| `MutationCampaign.SuccessMeansTested` | components/mutation/src/execution.c:622-636 | when the inputs have every mutant killed and no error left, every test command is seen to fail exactly if none but the last is lost |
| `MutationCampaign.ExitZeroMeansTested` | components/mutation/src/execution.c:622-636 | whenever mutants were executed and the exit status is 0, stray failures or not, each mutant had its test command run, and all of these were seen to fail exactly if none but the last was lost |
| `MutationCampaign.LostTestPasses` | components/mutation/src/files.c:220-224 | a concrete campaign that exits 0 with a mutant whose test command never ran |
| `Fields.SplitFields` | components/conformance/src/main.c:349-373 | the in-place tab splitter leaves the fields of the line, as many as allowed, readable at the returned offsets |
| `Fields.TabFieldsOfJoin` | components/conformance/src/main.c:349-373 | splitting undoes joining, up to the number of fields allowed |
| `Fields.SplitPipes` | components/repository-receipt/src/main.c:277-310 | a line is accepted exactly with five separators, and its six fields are then readable in the buffer |
| `Fields.PipesUndoJoin` | components/repository-receipt/src/main.c:277-310 | joined fields come back, and only six of them are accepted |
| `Fields.ListContains` | components/conformance/src/main.c:614-647 | membership among the tokens of the comma list, a trailing empty one not counting |
| `Fields.TokensOfJoin` | components/conformance/src/main.c:773-787 | joined tokens come back, but for an empty one at the very end |
| `FirstMatchLedger.OneStep` | components/conformance/src/main.c:1113-1125 | one first-match search ticks one row or rejects the key, and touches no other row |
| `FirstMatchLedger.NothingLeftIffPermutation` | components/conformance/src/main.c:530-537 | nothing is rejected and every row ticked exactly for permutations of duplicate-free tables |
| `FirstMatchLedger.TicksAreConserved` | components/conformance/src/main.c:1114-1125 | every presented key is rejected or ticks a row of its own |
| `Conformance.WordStep` | components/conformance/src/main.c:537-542 | only the row that ticks an API sets its words |
| `Conformance.NoFaultFindings` | components/conformance/src/main.c:1055-1126 | no fault finding exactly when outcomes permute duplicate-free expectations and all say PASS |
| `Conformance.IdentitiesAgree` | components/conformance/src/main.c:523-537 | both manifests load and no identity is missing exactly when each USR column permutes the API manifest's, free of repeats |
| `FaultManifest.KeepIsFilter` | components/conformance/src/main.c:788-794 | a symbol is expected as often as it is listed if it is unconditional or its macro is there, and never otherwise |
| `FaultManifest.KeepKeepsOrder` | components/conformance/src/main.c:771-815 | expected symbols come in the order of the list |
| `FaultManifest.ManifestGrows` | components/conformance/src/main.c:744-822 | rows only ever add expected faults, so an overflow is final |
| `ConformanceEngine.Ledger.LoadApiManifest` | components/conformance/src/main.c:393-448 | loads exactly manifests whose rows have the fields, fit their slots and fit the table, and keeps them in order |
| `ConformanceEngine.Ledger.FindApi` | components/conformance/src/main.c:450-468 | the first row with the USR |
| `ConformanceEngine.Ledger.LoadTestManifest` | components/conformance/src/main.c:490-550 | loads exactly when every row ticks a new API; sets the tested and fault-test flags of the ticked ones |
| `ConformanceEngine.Ledger.LoadContractManifest` | components/conformance/src/main.c:552-612 | loads exactly when every row ticks a new API; records what each contract requires |
| `ConformanceEngine.Ledger.FindMacro` | components/conformance/src/main.c:649-688 | a line defines the symbol as a whole word; a symbol too long for the pattern counts as absent |
| `ConformanceEngine.Ledger.NextToken` | components/conformance/src/main.c:773-787 | the in-place tokenizer cuts the next token of the functional split and leaves the rest intact |
| `ConformanceEngine.Ledger.ExpectSymbol` | components/conformance/src/main.c:795-815 | one more expected fault, or a refusal only when the row as a whole cannot be taken in |
| `ConformanceEngine.Ledger.ExpandRow` | components/conformance/src/main.c:765-817 | appends the available symbols of the platform column in order, or refuses exactly when one does not fit |
| `ConformanceEngine.Ledger.LoadFaultManifest` | components/conformance/src/main.c:690-829 | loads exactly admissible manifests within the table bound, and the table is then the expansion of all rows |
| `ConformanceEngine.Ledger.FindFault` | components/conformance/src/main.c:1055-1077 | the first expected fault with the triple |
| `ConformanceEngine.Ledger.TakeOutcome` | components/conformance/src/main.c:1113-1125 | one outcome line moves flags, counter and findings together |
| `ConformanceEngine.Ledger.LoadOutcomes` | components/conformance/src/main.c:1079-1133 | findings grow by rejected lines plus ticking lines that are not PASS; the observed counter is the number of set flags |
| `ConformanceEngine.Ledger.Validate` | components/conformance/src/main.c:1156-1204 | adds every failing API condition and every expected fault not observed; valid means no finding at all |
| `ConformanceEngine.Ledger.WriteReceipt` | components/conformance/src/main.c:1206-1253 | the printed numbers, with the two fault numbers exchanged as in the code |
| `ConformanceEngine.Ledger.FindApiName` | components/conformance/src/main.c:470-488 | the first row with the name |
| `ConformanceEngine.Ledger.LoadInstrumentation` | components/conformance/src/main.c:864-953 | loads exactly if each row of the library names a known API and its capability; an API is seen if it is listed, and traced if the last row about it says so |
| `ConformanceEngine.Ledger.LoadModel` | components/conformance/src/main.c:955-1053 | loads exactly if each call node has a name and a kind; counts entries and exits, and keeps what the last logging call says |
| `ConformanceEngine.Ledger.CountCall` | components/conformance/src/main.c:1026-1047 | one call moves one counter and, if it logs anything, one flag |
| `ConformanceTraces.WithCallsStep` | components/conformance/src/main.c:1021-1047 | one node changes the first API of its name and no other |
| `ConformanceTraces.CallsCount` | components/conformance/src/main.c:1026-1041 | the counted entries and exits are the nodes of the name with that kind |
| `ConformanceTraces.ArgumentsLogged` | components/conformance/src/main.c:1026-1036 | arguments count as logged exactly if the last entry that has any logs neither nothing nor a dash |
| `ConformanceTraces.ResultsLogged` | components/conformance/src/main.c:1037-1047 | the same for results, at the exits |
| `ConformanceTraces.LastTracedMeans` | components/conformance/src/main.c:915-940 | an API takes an environment exactly if the last capability row about it says so |
| `ConformanceEngine.MissingIsUnmarked` | components/conformance/src/main.c:1195-1201 | the missing faults are those no outcome ticked |
| `ConformanceRun.NoFindingsMeansConforming` | components/conformance/src/main.c:1156-1204 | a loaded run without findings is exactly one whose inputs conform |
| `ConformanceRun.FaultNumbersAgree` | components/conformance/src/main.c:1234-1245 | the exchanged fault numbers are equal exactly when every expected fault was observed, so in every passing run |
| `ConformanceRun.MissingOutcomeReadsAsObserved` | components/conformance/src/main.c:1234-1245 | for concrete inputs the whole run writes a failing receipt that claims an observed outcome for no case |
| `ConformanceRun.CallsGoToTheFirst` | components/conformance/src/main.c:1021-1048 | an API's entries and exits are the calls of its name if and only if no earlier API has the name or there are no such calls; otherwise they are 0 |
| `ConformanceRun.SharedNameGetsNoCalls` | components/conformance/src/main.c:1021-1048 | of two APIs with one name the later has no calls, so the run does not conform if it is traced or fault-tested |
| `ConformanceRun.OnlyTheNameCounts` | components/conformance/src/main.c:1156-1193 | two traced APIs with a call of each conform under two names; under one name the run has exactly one finding |
| `ConformanceRun.SharedNameFailsTheRun` | components/conformance/src/main.c:142-191 | both of these inputs run to their receipts: one finding and failed, no finding and passed |
| `ConformanceRun.LoadTraces` | components/conformance/src/main.c:864-1053 | both documents load exactly if every node can be read, and leave the traces they imply |
| `ConformanceRun.Run` | components/conformance/src/main.c:142-191 | from inputs to receipt: loaded and passed if and only if the inputs conform; the two fault numbers of the receipt are equal exactly when every expected fault was observed |
| `ConformanceMeaning.EveryRowSpells` | components/conformance/src/main.c:349-373 | every row is some fields joined by tabs, up to the end of its line, so the statements below cover all of them |
| `ConformanceMeaning.SpelledFields` | components/conformance/src/main.c:349-373 | a row of tab-joined fields has the columns asked for exactly if there are enough, each at its place |
| `ConformanceMeaning.ApiRowMeans` | components/conformance/src/main.c:418-441 | an API row is taken exactly with five fields of which name and USR fit; the name comes first, the USR second |
| `ConformanceMeaning.OutcomeLineMeans` | components/conformance/src/main.c:1092-1119 | which lines are outcomes, which three fields name the fault, and which says PASS |
| `ConformanceMeaning.OneMoreOutcome` | components/conformance/src/main.c:1113-1125 | every expected fault is a finding to begin with; one more line takes one back, leaves the number or adds one, exactly when |
| `ConformanceMeaning.AvailableIf` | components/conformance/src/main.c:649-688 | a symbol is available exactly if it is unconditional, or short enough and defined by a macro line as a whole word |
| `ConformanceMeaning.FaultRowMeans` | components/conformance/src/main.c:690-817 | for each of the three platforms: when a row is taken in, and the faults it leads to expect, from its own fields |
| `ConformanceMeaning.OneMoreFaultRow` | components/conformance/src/main.c:744-822 | the expected faults of the rows follow each other in order |
| `ConformanceMeaning.FaultManifestMeans` | components/conformance/src/main.c:712-731 | the manifest loads exactly on a known platform, with every row taken in and at most 8192 faults |
| `ConformanceMeaning.CallsMean` | components/conformance/src/main.c:955-1053 | what the run model says about an API, in terms of its nodes: all of it if no earlier API has the name, nothing otherwise |
| `ConformanceMeaning.CapabilitiesMean` | components/conformance/src/main.c:864-953 | what the instrumentation receipt says about an API, in terms of its rows |
| `ConformanceMeaning.SilentCallsDoNotConform` | components/conformance/src/main.c:1033-1045 | a run does not conform if an API that must log arguments or a result only ever logs nothing or a dash |
| `ConformanceMeaning.DocumentsMean` | components/conformance/src/main.c:864-1053 | which members the two documents must have to be read |
| `ConformanceMeaning.FindingsCountLacks` | components/conformance/src/main.c:1156-1193 | the findings about APIs are as many as there are pairs of an API and one of eight things it lacks |
| `ConformanceMeaning.TracedCounts` | components/conformance/src/main.c:1215-1232 | the two trace numbers of the receipt count the APIs that take an environment, and those of them that were entered |
| `FaultPaths.MakeLogPaths` | src/paths.c:62-98 | without an error all eleven paths are complete, the unchecked ones too; an error is raised exactly when one of them does not fit |
| `FaultPaths.JoinPath` | src/paths.c:100-111 | cut to the buffer, and flagged exactly when something was cut |
| `FaultPaths.PathsSpelled` | src/paths.c:62-98 | the eleven paths as text, for the baseline and for an injected case |
| `FaultPaths.LongestPath` | src/paths.c:87-97 | checking the longest path checks all eleven |
| `FaultPaths.CaseNameReadsBack` | src/paths.c:73-84 | the case number can be read back from any of its paths |
| `FaultPaths.PathsNeverCollide` | src/paths.c:73-97 | no path of one case is a path of another, for every prefix and process id |
| `PolicyReader.ReadPolicy` | src/resource.c:54-98 | for every stream without read errors and every way reads split it, the longest prefix below the limit; an error is reported only if a read failed; the buffer stays within the limit and within twice what is used |
| `FaultGroups.NamesAreDistinct` | src/runner.c:242-262 | stored wrapper names are distinct and are exactly the names that were hit |
| `FaultGroups.GroupTable.Update` | src/runner.c:226-269 | the table always tallies exactly the hits of the first 128 wrappers, in first-hit order |
| `FaultGroups.GroupsAccountForAll` | src/runner.c:264-265 | over all wrappers, runs sum to all hits and findings to their total |
| `FaultGroups.PrintedGroupsAddUp` | src/runner.c:271-287 | the printed groups add up to all hits while no wrapper was turned away |
| `FaultWalk.AcceptedCount` | src/cli.c:252-271 | an accepted count is the requested one, or the default if none is requested, and leaves the unsigned index room to pass it; a count is refused exactly above the limit |
| `FaultWalk.CasesAreIsolated` | src/runner.c:342-372 | two injected cases differ in nothing but log path and call number, which reads back as the case index |
| `FaultWalk.EnvironmentMeans` | src/runner.c:334-372 | which variables a pipeline finds, and what each of them says; of the others only those the tools do not control are left |
| `FaultWalk.BuildArgv` | src/runner.c:451-471 | the seven fixed words in order and the whole command, then NULL; refused exactly when the command is longer than 120 words |
| `FaultWalk.EvidenceMeans` | src/runner.c:289-308 | when a case finishes, goes on and is trouble, what it is tallied as and how many findings it has, each in terms of what the tools left behind |
| `FaultWalk.SumIsFound` | src/runner.c:136-184 | without trouble the counted findings are those of the analyses of the baseline and of the hit cases |
| `FaultWalk.HitsMean` | src/runner.c:173-185 | every case that goes on, but the baseline, is tallied in order under its wrapper, cut to 127 characters, or a question mark |
| `FaultWalk.SumSplits` | src/runner.c:136-184 | total findings are the baseline's plus those of the hits |
| `FaultWalk.PrintedTotal` | src/runner.c:188-189 | the printed total is the baseline plus the printed groups while at most 128 wrappers occur |
| `FaultWalk.Walker.RunOneCase` | src/runner.c:310-426 | the pipeline sees the case's environment, and afterwards all controlled variables are gone and all others unchanged |
| `FaultWalk.Walker.SetUpCase` | src/runner.c:334-372 | the calls in order produce the case's environment |
| `FaultWalk.Walker.Record` | src/runner.c:153-185 | counts a finished case; findings and groups grow for the baseline and for hits only |
| `FaultWalk.Walker.Advance` | src/runner.c:139-186 | one case keeps every counter in step with the specification |
| `FaultWalk.Walker.Walk` | src/runner.c:47-224 | executes exactly cases 0 to the first no-hit, unfinished or last allowed one, which is the only such case; exit 2 iff the evidence of one shows trouble, else 1 iff the analyses of the baseline and the hits found something; no controlled variable is left |
| `RepositoryReceipt.SortedIsUnique` | components/repository-receipt/src/main.c:437-462 | a multiset of names has one sorted arrangement |
| `RepositoryReceipt.LeqMeans` | components/repository-receipt/src/main.c:437-462 | the order of the sort: one name continues the other, or has the smaller character where they first differ |
| `RepositoryReceipt.InsertPath` | components/repository-receipt/src/main.c:444-460 | one pass of the insertion sort extends the sorted part and loses no name |
| `RepositoryReceipt.SortPaths` | components/repository-receipt/src/main.c:437-462 | a sorted permutation, in place |
| `RepositoryReceipt.LoadResult` | components/repository-receipt/src/main.c:247-338 | a record exactly for one line of six fields that fit, with a duration that is a number and not negative |
| `RepositoryReceipt.RecordMeans` | components/repository-receipt/src/main.c:247-338 | which one-line files hold a record, and which of the six fields is which |
| `RepositoryReceipt.DurationMeans` | components/repository-receipt/src/main.c:311-317 | a duration is read exactly from blanks, an optional sign and digits, if it fits a long and is not negative |
| `RepositoryReceipt.DurationReadsBack` | components/repository-receipt/src/main.c:311-317 | a printed number of seconds is read back, unless it is too large for a long |
| `RepositoryReceipt.CollectNames` | components/repository-receipt/src/main.c:205-224 | the result names in directory order, refused exactly beyond 256 |
| `RepositoryReceipt.ResultNamesMean` | components/repository-receipt/src/main.c:212-223 | every entry that ends in .result is collected as often as it is there, and nothing else |
| `RepositoryReceipt.LoadResults` | components/repository-receipt/src/main.c:231-241 | loads exactly when every file holds a record |
| `RepositoryReceipt.ResultNamesIgnoreOrder` | components/repository-receipt/src/main.c:212-223 | which names are collected does not depend on directory order |
| `RepositoryReceipt.ReceiptIgnoresDirectoryOrder` | components/repository-receipt/src/main.c:186-245 | the same entries in any order give the same receipt |
| `RepositoryReceipt.PassingReceiptMeans` | components/repository-receipt/src/main.c:90-103 | passed means at least one record and none whose unit tests failed or are missing or whose fuzzing failed; written means every file holds a record, and lists them in order |
| `RepositoryReceipt.Verdict` | components/repository-receipt/src/main.c:90-103 | the loop decides exactly that |
| `RepositoryReceipt.MakeReceipt` | components/repository-receipt/src/main.c:85-115 | listing, sorting and loading yield the receipt of the sorted names |
| `CommandContract.TimeExceeded` | components/command-contract/src/main.c:306-323 | a finding iff elapsed nanoseconds are negative or exceed milliseconds times 10^6 |
| `CommandContract.OutputExceeded` | components/command-contract/src/main.c:278-280 | a finding iff the true sum exceeds the limit, also when the machine sum wraps |
| `CommandContract.Contains` | components/command-contract/src/main.c:636-658 | found iff the text occurs anywhere in the captured bytes |
| `CommandContract.CheckRedaction` | components/command-contract/src/main.c:241-262 | an empty probe is refused; otherwise a finding iff either stream discloses it |
| `UnityNumbers.PaddedDenotes` | test/unity/unity.c:480-485 | digits collected from the bottom and read from the top denote the number, padded as asked and no further |
| `UnityNumbers.ShapeReadsBack` | test/unity/unity.c:487-522 | a reader takes printed text apart in exactly one way |
| `UnityNumbers.Printer.Trim` | test/unity/unity.c:472-477 | exactly the zeros that would end the fraction are dropped |
| `UnityNumbers.Printer.FillBuffer` | test/unity/unity.c:480-485 | digits in reverse, within the buffer |
| `UnityNumbers.Printer.PrintBackwards` | test/unity/unity.c:487-495 | the buffer from its top, the point before the decimals |
| `UnityNumbers.Printer.PrintExponent` | test/unity/unity.c:497-522 | sign and at least two digits, only for a non-zero exponent, within the buffer |
| `UnityNumbers.Printer.PrintScaled` | test/unity/unity.c:468-522 | the text denotes exactly n times ten to the exponent, without padding, in at most 16 buffer slots, plain exactly in the plain range |
| `UnityNumbers.Printer.TopDivisor` | test/unity/unity.c:278-284 | stops at the power of ten that leaves one digit, without wrapping |
| `UnityNumbers.Printer.PrintNumberUnsigned` | test/unity/unity.c:276-292 | prints digits that stand for the number, without a spare zero |
| `UnityNumbers.UnsignedNegation` | test/unity/unity.c:263-269 | flipping all bits and adding one is exact negation on every negative machine number |
| `UnityNumbers.Printer.PrintNumber` | test/unity/unity.c:261-272 | prints a minus sign exactly for negative numbers, and digits that stand for the magnitude, without a spare zero, the most negative number included |

## Left out

- MutationFiles.FileSystem.CopyTree: asks for a destination where nothing exists yet, apart from the source. The only caller copies into a directory it has just made; copying over an existing tree, or a project that contains `/tmp`, is not modelled.
- MutationFiles.FileSystem.CopyFile: asks that the destination is not a symbolic link, which open would follow. In a fresh copy it never is.
- MutationFiles.FileSystem.ApplyCandidate: asks that the target is not a symbolic link and its path has no dot components, so candidates in a sibling whose name continues the project's by two dots are left to `MutationCommand.OutsideTarget`. Candidate paths come from realpath, and the whole-run theorems derive both for the copy.
- MutationFiles.FileSystem.ApplyAt: the same for the opened path.
- MutationExecution.Execute: asks that the candidate lies strictly inside the canonical project and that the project is neither the root directory nor `/tmp`.
- MutationExecution.Shell.Spawn: asks, as every result about runs does, that a mutant's commands write only below the scratch directory; nothing in the code makes them. The baseline may do anything at all. Within that, spawning, polling, timeouts and signals are reduced to how the command ended and whether an error was recorded.
- MutationCampaign.ExecuteAll: asks that the candidates lie strictly inside the canonical project and that the project is neither the root directory nor `/tmp`.
- MutationCampaign.RunMutants: the same.
- MutationCampaign.RunCampaign: the if-and-only-if over the inputs is for runs without stray failures of file system calls; with them the status still follows from the mutants that were executed. Candidates must lie strictly inside the canonical project, neither the root directory nor `/tmp`, when the baseline is done.
- PolicyReader.ReadPolicy: the exact-prefix clause is for limits of at least the initial 4096 bytes, as the built-in limit is; a smaller limit, settable by test builds only, can be overrun by the first read, and the other clauses say by how much.
- FaultWalk.Walker.RunOneCase: setting and unsetting variables succeeds; the fault log and the policy summaries arrive already read, with an error flag.
- UnityNumbers.Printer.PrintScaled: starts from the scaled integer; floating-point scaling and rounding are not modelled.
- Path lengths beyond 4096 bytes, lines longer than their buffers and failed allocations, except where a result is about such a bound.
- JSON text: the instrumentation receipt and the run model are sequences of rows whose members are there or missing; a document that cannot be read, has the wrong schema or did not pass has no rows.
- The p101 libraries the engines call (records, JSON, diagnostics, option parsing, compile database) are not part of this model; a call that fails is taken to record an error, and one that succeeds to leave the error object alone.
- File modes, permissions, concurrent changes to the file system, printing of diagnostics and usage text.
- Wrap-around of the finding counter of the conformance ledger and of run counters; both are bounded far below a machine word.
