/**
 Re-pointing a recorded compile command at a mutated copy:
 build_compile_command in components/mutation/src/execution.c and
 p101_mutation_rewrite_path in components/mutation/src/files.c.
 */
module MutationCommand {
  import opened Wrappers
  import opened FileTree
  import opened MutationFiles

  /** realpath(3) as far as this tool can tell: text in, canonical text out. */
  type Realpath = string -> Option<string>

  datatype Command = Command(directory: string, arguments: seq<string>)

  /** Text that realpath produces for anything but the root directory. */
  predicate CanonicalText(text: string) {
    var p := Resolve(text);
    p != [] && CleanPath(p) && Render(p) == text
  }

  function RewritePath(project: string, copy: string, value: string, realpath: Realpath): string {
    if "/" <= value && realpath(value).Some? && WithinText(project, realpath(value).value)
    then copy + realpath(value).value[|project|..]
    else value
  }

  /** Inside the project a path is re-rooted component by component. */
  lemma RewriteInside(project: Path, copy: Path, q: Path, value: string, realpath: Realpath)
    requires "/" <= value && realpath(value) == Some(Render(q)) && project <= q
    ensures RewritePath(Render(project), Render(copy), value, realpath) == Render(copy + q[|project|..])
  {
    PathPrefixIsTextPrefix(project, q);
    RenderAppend(copy, q[|project|..]);
  }

  /**
   Anything else keeps its text: relative, not resolved, or elsewhere, also in a sibling whose name starts like the
   project's.
   */
  lemma RewriteOutside(project: Path, copy: string, q: Path, value: string, realpath: Realpath)
    requires "/" <= value && realpath(value).Some? ==>
               realpath(value).value == Render(q) && CleanPath(project) && CleanPath(q) && !(project <= q)
    ensures RewritePath(Render(project), copy, value, realpath) == value
  {
    if "/" <= value && realpath(value).Some? {
      TextPrefixIsPathPrefix(project, q);
    }
  }

  /** Where a word of a command ends up: kept, unless it is an absolute path that leads into the project. */
  ghost predicate Moved(project: Path, copy: Path, word: string, moved: string, realpath: Realpath) {
    && (!("/" <= word) || realpath(word).None? ==> moved == word)
    && (forall q: Path :: "/" <= word && realpath(word) == Some(Render(q)) && CleanPath(q) ==>
          if project <= q then Resolve(moved) == copy + q[|project|..] else moved == word)
  }

  lemma WordMoves(project: Path, copy: Path, word: string, realpath: Realpath)
    requires CleanPath(project) && CleanPath(copy)
    ensures Moved(project, copy, word, RewritePath(Render(project), Render(copy), word, realpath), realpath)
  {
    hide Render, Resolve;
    forall q: Path | "/" <= word && realpath(word) == Some(Render(q)) && CleanPath(q)
      ensures var moved := RewritePath(Render(project), Render(copy), word, realpath);
              if project <= q then Resolve(moved) == copy + q[|project|..] else moved == word
    {
      if project <= q {
        RewriteInside(project, copy, q, word, realpath);
        ResolveRender(copy + q[|project|..]);
      } else {
        RewriteOutside(project, Render(copy), q, word, realpath);
      }
    }
  }

  /** The file that gets edited, as text and as a path. */
  lemma TargetInside(project: Path, copy: Path, r: Path)
    requires CleanPath(copy) && CleanPath(r) && r != []
    ensures Render(project) <= Render(project + r)
    ensures TargetText(Render(project), Render(copy), Render(project + r)) == Render(copy + r)
    ensures Resolve(Render(copy + r)) == copy + r
  {
    RenderAppend(project, r);
    RenderAppend(copy, r);
    RenderStartsWithSlash(r);
    DropAndReattach(Render(project), Render(copy), Render(r));
    ResolveRender(copy + r);
  }

  lemma DropAndReattach(project: string, copy: string, suffix: string)
    requires "/" <= suffix
    ensures TargetText(project, copy, project + suffix) == copy + suffix
  {
  }

  /** The file edited is the file compiled. */
  lemma EditedIsCompiled(project: Path, copy: Path, r: Path, value: string, realpath: Realpath)
    requires CleanPath(copy) && CleanPath(r) && r != []
    requires "/" <= value && realpath(value) == Some(Render(project + r))
    ensures Render(project) <= Render(project + r)
    ensures RewritePath(Render(project), Render(copy), value, realpath)
         == TargetText(Render(project), Render(copy), Render(project + r))
    ensures Resolve(RewritePath(Render(project), Render(copy), value, realpath)) == copy + r
  {
    TargetInside(project, copy, r);
    RewriteInside(project, copy, project + r, value, realpath);
    assert (project + r)[|project|..] == r;
  }

  // ----- the bare prefix test of apply_candidate -----

  /** Next to the project, under a name that continues the project's own. */
  predicate Continues(project: Path, q: Path) {
    && project != [] && |project| <= |q| && Parent(project) <= q
    && project[|project| - 1] < q[|project| - 1]
  }

  /** The part of the name that is left when the project's is taken away. */
  function Extension(project: Path, q: Path): Name
    requires Continues(project, q)
  {
    q[|project| - 1][|project[|project| - 1]|..]
  }

  /** Exactly what the test accepts: paths inside the project, and paths that continue its name. */
  lemma ApplyTestAccepts(project: Path, q: Path)
    requires CleanPath(project) && CleanPath(q)
    ensures Render(project) <= Render(q) <==> project <= q || Continues(project, q)
  {
    if project <= q {
      PathPrefixIsTextPrefix(project, q);
    } else if Continues(project, q) {
      ContinuedText(project, q);
    } else if Render(project) <= Render(q) {
      AcceptedContinues(project, q);
    }
  }

  /** The text of a path that continues the project's name. */
  lemma ContinuedText(project: Path, q: Path)
    requires Continues(project, q)
    ensures Render(q) == Render(project) + Extension(project, q) + Render(q[|project|..])
  {
    var n := |project| - 1;
    RenderSplit(q, n);
    assert q[..n] == Parent(project);
    assert q[n] == project[n] + Extension(project, q);
  }

  /** Text before a component, the component, and the text after it. */
  lemma RenderSplit(q: Path, n: nat)
    requires n < |q|
    ensures Render(q) == Render(q[..n]) + "/" + q[n] + Render(q[n + 1..])
  {
    assert q == q[..n + 1] + q[n + 1..];
    RenderAppend(q[..n + 1], q[n + 1..]);
    assert Parent(q[..n + 1]) == q[..n];
  }

  lemma AcceptedContinues(project: Path, q: Path)
    requires CleanPath(project) && CleanPath(q) && Render(project) <= Render(q) && !(project <= q)
    ensures Continues(project, q)
  {
    hide Render;
    NotTheRoot(project, q);
    var n := |project| - 1;
    var parent, last := Parent(project), project[n];
    RenderSplit(project, n);
    EmptyRender();
    assert project[..n] == parent && project[n + 1..] == [];
    ParentFits(Render(parent), last, Render(q));
    TextPrefixIsPathPrefix(parent, q);
    assert n == |q| ==> q == parent;
    RenderSplit(q, n);
    assert q[..n] == parent;
    var tail := Render(q[n + 1..]);
    if q[n + 1..] != [] {
      RenderStartsWithSlash(q[n + 1..]);
    } else {
      EmptyRender();
    }
    DropCommon(Render(parent) + "/", last, q[n] + tail);
    assert Render(parent) + "/" + q[n] + tail == Render(parent) + "/" + (q[n] + tail);
    NameIsPrefix(last, q[n], tail);
    PrefixByLast(project, q);
  }

  lemma PrefixByLast(p: Path, q: Path)
    requires p != [] && |p| <= |q| && Parent(p) == q[..|p| - 1]
    ensures p[|p| - 1] == q[|p| - 1] ==> p <= q
  {
    assert p == Parent(p) + [p[|p| - 1]] && q[..|p|] == q[..|p| - 1] + [q[|p| - 1]];
  }

  lemma NotTheRoot(project: Path, q: Path)
    requires !(project <= q)
    ensures project != []
  {
  }

  lemma ParentFits(parent: string, last: Name, text: string)
    requires parent + "/" + last + "" <= text
    ensures WithinText(parent, text) && |parent| < |text|
  {
    assert parent + "/" + last + "" == parent + ("/" + last);
    assert text[|parent|] == (parent + ("/" + last))[|parent|];
  }

  lemma DropCommon(common: string, a: string, b: string)
    ensures common + a + "" <= common + b ==> a <= b
  {
    if common + a + "" <= common + b {
      assert forall k :: 0 <= k < |a| ==> (common + a + "")[|common| + k] == a[k] && (common + b)[|common| + k] == b[k];
    }
  }

  lemma NameIsPrefix(name: Name, longer: Name, tail: string)
    requires '/' !in name && name <= longer + tail && (tail == "" || "/" <= tail)
    ensures name <= longer
  {
    if |name| > |longer| {
      LongerNameHasSlash(name, longer, tail);
    }
  }

  lemma LongerNameHasSlash(name: Name, longer: Name, tail: string)
    requires |longer| < |name| && name <= longer + tail && "/" <= tail
    ensures '/' in name
  {
    assert name[|longer|] == (longer + tail)[|longer|];
  }

  /**
   An accepted path outside the project is looked up next to the copied files, under what is left of its name.
   That is inside the copy, unless what is left is a dot or two: two dots lead out of it.
   */
  lemma OutsideTarget(project: Path, copy: Path, q: Path)
    requires CleanPath(q) && Continues(project, q) && Render(project) <= Render(q)
    ensures var left := Extension(project, q);
            && TargetText(Render(project), Render(copy), Render(q)) == Render(copy + [left] + q[|project|..])
            && (CleanName(left) <==> left != "." && left != "..")
  {
    hide Render;
    var left, rest := Extension(project, q), q[|project|..];
    ContinuedText(project, q);
    ExtensionIsPlain(project, q);
    KeptTail(Render(project), Render(copy), left, Render(rest));
    RenderAppend(copy + [left], rest);
    RenderSplit(copy + [left], |copy|);
    assert (copy + [left])[..|copy|] == copy && (copy + [left])[|copy| + 1..] == [];
    EmptyRender();
    assert copy + [left] + rest == (copy + [left]) + rest;
    assert Render(copy) + "/" + left + "" == Render(copy) + "/" + left;
  }

  lemma EmptyRender()
    ensures Render([]) == ""
  {
  }

  lemma ExtensionIsPlain(project: Path, q: Path)
    requires CleanPath(q) && Continues(project, q)
    ensures var left := Extension(project, q);
            left != "" && '/' !in left && (CleanName(left) <==> left != "." && left != "..")
  {
    var n := |project| - 1;
    assert q[n] == project[n] + Extension(project, q) && CleanName(q[n]);
    assert forall c :: c in Extension(project, q) ==> c in q[n];
  }

  /** Text that does not start with a slash is appended whole. */
  lemma KeptTail(project: string, copy: string, left: string, rest: string)
    requires left != "" && left[0] != '/' && project <= project + left + rest
    ensures TargetText(project, copy, project + left + rest) == copy + "/" + left + rest
  {
    assert (project + left + rest)[|project|..] == left + rest;
    assert (left + rest)[0] == left[0];
    assert copy + "/" + (left + rest) == copy + "/" + left + rest;
  }

  /** Two such paths: one ends up in the copy, the other beside it. */
  lemma SiblingPassesApplyTest()
    ensures var project, copy := ["home", "app"], ["tmp", "copy"];
            var old', up := ["home", "app.old", "x.c"], ["home", "app..", "x.c"];
            && !(project <= old') && Render(project) <= Render(old')
            && TargetText(Render(project), Render(copy), Render(old')) == Render(copy + [".old"] + ["x.c"])
            && !(project <= up) && Render(project) <= Render(up)
            && TargetText(Render(project), Render(copy), Render(up)) == Render(copy + [".."] + ["x.c"])
  {
    hide Render, TargetText;
    SiblingExample(".old");
    SiblingExample("..");
    assert "app" + ".old" == "app.old" && "app" + ".." == "app..";
  }

  lemma SiblingExample(left: Name)
    requires left != "" && '/' !in left
    ensures var project, copy, q := ["home", "app"], ["tmp", "copy"], ["home", "app" + left, "x.c"];
            && !(project <= q) && Render(project) <= Render(q)
            && TargetText(Render(project), Render(copy), Render(q)) == Render(copy + [left] + ["x.c"])
  {
    hide Render, TargetText;
    var project, q := ["home", "app"], ["home", "app" + left, "x.c"];
    assert Parent(project) == ["home"] && q[1] != project[1];
    assert Extension(project, q) == left && q[2..] == ["x.c"];
    assert CleanPath(project) && CleanName("app" + left);
    ApplyTestAccepts(project, q);
    OutsideTarget(project, ["tmp", "copy"], q);
  }

  // ----- the compile-command filter -----

  predicate TakesValue(argument: string) {
    argument == "-o" || argument == "-MF" || argument == "-MT" || argument == "-MQ"
  }

  predicate IsOutputOption(argument: string) {
    ("-o" <= argument && argument != "-ObjC") || "-MF" <= argument || "-MT" <= argument || "-MQ" <= argument
  }

  predicate Dropped(argument: string) { argument == "-c" || TakesValue(argument) || IsOutputOption(argument) }

  /** What is left of an argument vector; an option that takes a value goes with its value. */
  function Filter(arguments: seq<string>): (kept: seq<string>)
    ensures |kept| <= |arguments|
  {
    if arguments == [] then []
    else if TakesValue(arguments[0]) then (if |arguments| == 1 then [] else Filter(arguments[2..]))
    else if Dropped(arguments[0]) then Filter(arguments[1..])
    else [arguments[0]] + Filter(arguments[1..])
  }

  /** Argument i is the value of the option before it, which is no value itself. */
  predicate IsValue(arguments: seq<string>, i: nat)
    requires i < |arguments|
  {
    i > 0 && !IsValue(arguments, i - 1) && arguments[i - 1] in ["-o", "-MF", "-MT", "-MQ"]
  }

  /** -c alone, and -o, -MF, -MT, -MQ with or without a value attached; -ObjC is none of them. */
  ghost predicate Unwanted(argument: string) {
    || argument == "-c"
    || exists rest: string :: argument == "-o" + rest || argument == "-MF" + rest || argument == "-MT" + rest
                              || argument == "-MQ" + rest
  }

  /** What stays of the first n arguments, seen from the places they stand at. */
  ghost function Survivors(arguments: seq<string>, n: nat): seq<string>
    requires n <= |arguments|
  {
    if n == 0 then []
    else Survivors(arguments, n - 1)
         + if IsValue(arguments, n - 1) || Unwanted(arguments[n - 1]) then [] else [arguments[n - 1]]
  }

  lemma UnwantedMeans(argument: string)
    ensures Unwanted(argument) <==> Dropped(argument)
    ensures TakesValue(argument) <==> argument in ["-o", "-MF", "-MT", "-MQ"]
    ensures TakesValue(argument) ==> Dropped(argument)
    ensures !Unwanted("-ObjC")
  {
    if IsOutputOption(argument) {
      assert "-o" <= argument ==> argument == "-o" + argument[2..];
      assert "-MF" <= argument ==> argument == "-MF" + argument[3..];
      assert "-MT" <= argument ==> argument == "-MT" + argument[3..];
      assert "-MQ" <= argument ==> argument == "-MQ" + argument[3..];
    }
    assert "-ObjC"[1] == 'O' && "-o"[1] == 'o' && "-c"[1] == 'c' && "-MF"[1] == "-MT"[1] == "-MQ"[1] == 'M';
  }

  /** Filtering from the front leaves exactly the survivors. */
  lemma FilterIs(arguments: seq<string>)
    ensures Filter(arguments) == Survivors(arguments, |arguments|)
  {
    FilterStarts(arguments);
    SurvivorsFrom(arguments, 0);
    assert Survivors(arguments, 0) + Filter(arguments) == Filter(arguments);
  }

  lemma {:induction false} SurvivorsFrom(arguments: seq<string>, k: nat)
    requires k < |arguments| ==> !IsValue(arguments, k)
    ensures k <= |arguments| ==>
              Survivors(arguments, k) + FilterFrom(arguments, k) == Survivors(arguments, |arguments|)
    decreases |arguments| - k
  {
    hide Filter, FilterFrom, Unwanted, Dropped, TakesValue, IsOutputOption;
    FilterStep(arguments, k);
    if k < |arguments| {
      var a := arguments[k];
      UnwantedMeans(a);
      DroppedMeans(a);
      if TakesValue(a) {
        FilterStep(arguments, k + 2);
        SurvivorsFrom(arguments, k + 2);
        assert k + 1 < |arguments| ==> IsValue(arguments, k + 1);
      } else {
        SurvivorsFrom(arguments, k + 1);
        assert Survivors(arguments, k) + ([a] + FilterFrom(arguments, k + 1))
            == Survivors(arguments, k) + [a] + FilterFrom(arguments, k + 1);
      }
    }
  }

  lemma DroppedMeans(argument: string)
    ensures Dropped(argument) <==> argument == "-c" || TakesValue(argument) || IsOutputOption(argument)
  {
  }

  /** No option at the end is left waiting for its value. */
  predicate Complete(arguments: seq<string>) {
    arguments == [] ||
    if TakesValue(arguments[0]) then |arguments| >= 2 && Complete(arguments[2..]) else Complete(arguments[1..])
  }

  /** That is, the last argument is a value, or no option that takes one. */
  lemma CompleteMeans(arguments: seq<string>)
    ensures Complete(arguments) <==>
            var n := |arguments| - 1;
            n < 0 || IsValue(arguments, n) || arguments[n] !in ["-o", "-MF", "-MT", "-MQ"]
  {
    CompleteFrom(arguments, 0);
    assert arguments[0..] == arguments;
  }

  lemma {:induction false} CompleteFrom(arguments: seq<string>, k: nat)
    requires k <= |arguments| && (k < |arguments| ==> !IsValue(arguments, k))
    ensures Complete(arguments[k..]) <==>
            var n := |arguments| - 1;
            k > n || IsValue(arguments, n) || arguments[n] !in ["-o", "-MF", "-MT", "-MQ"]
    decreases |arguments| - k
  {
    hide TakesValue;
    if k < |arguments| {
      UnwantedMeans(arguments[k]);
      var rest := arguments[k..];
      assert rest[1..] == arguments[k + 1..];
      if !TakesValue(arguments[k]) {
        CompleteFrom(arguments, k + 1);
      } else if k + 1 < |arguments| {
        assert rest[2..] == arguments[k + 2..] && IsValue(arguments, k + 1);
        CompleteFrom(arguments, k + 2);
      }
    }
  }

  lemma {:induction false} NothingDroppedSurvives(arguments: seq<string>)
    ensures forall i :: 0 <= i < |Filter(arguments)| ==> !Dropped(Filter(arguments)[i])
  {
    if arguments != [] {
      if TakesValue(arguments[0]) {
        if |arguments| > 1 {
          NothingDroppedSurvives(arguments[2..]);
        }
      } else {
        NothingDroppedSurvives(arguments[1..]);
      }
    }
  }

  lemma {:induction false} CleanArgumentsStay(arguments: seq<string>)
    requires forall i :: 0 <= i < |arguments| ==> !Dropped(arguments[i])
    ensures Filter(arguments) == arguments
  {
    if arguments != [] {
      assert !Dropped(arguments[0]);
      CleanArgumentsStay(arguments[1..]);
    }
  }

  lemma {:induction false} FilterIdempotent(arguments: seq<string>)
    ensures Filter(Filter(arguments)) == Filter(arguments)
  {
    NothingDroppedSurvives(arguments);
    CleanArgumentsStay(Filter(arguments));
  }

  lemma {:induction false} FilterAppend(a: seq<string>, b: seq<string>)
    requires Complete(a)
    ensures Filter(a + b) == Filter(a) + Filter(b)
  {
    hide TakesValue, Dropped;
    if a == [] {
      assert a + b == b;
    } else if TakesValue(a[0]) {
      FilterAppend(a[2..], b);
      DropOfAppend(a, b, 2);
    } else {
      FilterAppend(a[1..], b);
      DropOfAppend(a, b, 1);
      HeadFirst(a[0], Filter(a[1..]), Filter(b));
    }
  }

  lemma DropOfAppend(a: seq<string>, b: seq<string>, k: nat)
    requires k <= |a|
    ensures (a + b)[k..] == a[k..] + b
  {
  }

  lemma HeadFirst(head: string, a: seq<string>, b: seq<string>)
    ensures [head] + (a + b) == [head] + a + b
  {
  }

  /** The value goes whatever it looks like, and takes nothing else with it. */
  lemma ValueGoesWithItsOption(before: seq<string>, option: string, value: string, after: seq<string>)
    requires Complete(before) && TakesValue(option)
    ensures Filter(before + [option, value] + after) == Filter(before) + Filter(after)
  {
    var pair := [option, value];
    assert before + pair + after == before + (pair + after);
    FilterAppend(before, pair + after);
    assert (pair + after)[2..] == after;
  }

  /** A lone option goes alone, any other argument stays where it is, and an option left without its value just goes. */
  lemma OneArgument(before: seq<string>, argument: string, after: seq<string>)
    requires Complete(before)
    ensures !TakesValue(argument) && Dropped(argument) ==>
              Filter(before + [argument] + after) == Filter(before) + Filter(after)
    ensures !Dropped(argument) ==> Filter(before + [argument] + after) == Filter(before) + [argument] + Filter(after)
    ensures TakesValue(argument) ==> Filter(before + [argument]) == Filter(before)
  {
    var rest := [argument] + after;
    assert before + [argument] + after == before + rest && rest[1..] == after;
    FilterAppend(before, rest);
    FilterAppend(before, [argument]);
    assert Filter(before) + [] == Filter(before);
    assert Filter(before) + ([argument] + Filter(after)) == Filter(before) + [argument] + Filter(after);
  }

  function RewriteAll(project: string, copy: string, values: seq<string>, realpath: Realpath): (r: seq<string>)
    ensures |r| == |values|
    ensures forall i :: 0 <= i < |r| ==> r[i] == RewritePath(project, copy, values[i], realpath)
  {
    seq(|values|, i requires 0 <= i < |values| => RewritePath(project, copy, values[i], realpath))
  }

  function CompileArguments(source: seq<string>, project: string, copy: string, realpath: Realpath): seq<string> {
    RewriteAll(project, copy, Filter(source), realpath) + ["-fsyntax-only"]
  }

  lemma RewriteIsNoOption(project: string, copy: string, value: string, realpath: Realpath)
    requires "/" <= copy && !Dropped(value)
    ensures !Dropped(RewritePath(project, copy, value, realpath))
  {
    var rewritten := RewritePath(project, copy, value, realpath);
    assert rewritten != value ==> rewritten[0] == '/';
  }

  /** Rewriting brings no dropped option back: the built command passes through the filter unchanged. */
  lemma CompileArgumentsAreFiltered(source: seq<string>, project: string, copy: string, realpath: Realpath)
    requires "/" <= copy
    ensures Filter(CompileArguments(source, project, copy, realpath)) ==
            CompileArguments(source, project, copy, realpath)
  {
    NothingDroppedSurvives(source);
    var kept, built := Filter(source), CompileArguments(source, project, copy, realpath);
    forall i | 0 <= i < |built| ensures !Dropped(built[i]) {
      if i < |kept| {
        RewriteIsNoOption(project, copy, kept[i], realpath);
      } else {
        assert built[i][1] == 'f';
      }
    }
    CleanArgumentsStay(built);
  }

  /** What the filter leaves of the arguments from read on. */
  function FilterFrom(arguments: seq<string>, read: nat): seq<string> {
    if read <= |arguments| then Filter(arguments[read..]) else []
  }

  lemma FilterStep(arguments: seq<string>, read: nat)
    ensures read >= |arguments| ==> FilterFrom(arguments, read) == []
    ensures read < |arguments| ==>
              FilterFrom(arguments, read) ==
              if TakesValue(arguments[read]) then FilterFrom(arguments, read + 2)
              else if arguments[read] == "-c" || IsOutputOption(arguments[read]) then FilterFrom(arguments, read + 1)
              else [arguments[read]] + FilterFrom(arguments, read + 1)
  {
  }

  lemma FilterStarts(arguments: seq<string>)
    ensures Filter(arguments)[0..] == Filter(arguments) == FilterFrom(arguments, 0)
    ensures FilterFrom(arguments, |arguments|) == [] && !TakesValue("-c")
  {
    FilterStep(arguments, |arguments|);
    assert arguments[0..] == arguments;
  }

  lemma CompileArgumentsAre(source: seq<string>, project: string, copy: string, realpath: Realpath)
    ensures var kept, built := Filter(source), CompileArguments(source, project, copy, realpath);
            && |built| == |kept| + 1 && built[|kept|] == "-fsyntax-only"
            && forall i :: 0 <= i < |kept| ==> built[i] == RewritePath(project, copy, kept[i], realpath)
  {
    hide Filter, RewritePath;
  }

  lemma TakeFirst(s: seq<string>, k: nat, first: string, rest: seq<string>)
    requires k <= |s| && s[k..] == [first] + rest
    ensures k < |s| && s[k] == first && s[k + 1..] == rest
  {
  }

  /** A zeroed vector of count + 2 slots is filled from the front; the slot after the last stays NULL. */
  method BuildCompileCommand(source: Command, project: string, copy: string, realpath: Realpath)
    returns (directory: string, slots: array<Option<string>>, count: nat)
    ensures directory == RewritePath(project, copy, source.directory, realpath)
    ensures count <= |source.arguments| + 1 && slots.Length == |source.arguments| + 2
    ensures count == |CompileArguments(source.arguments, project, copy, realpath)|
    ensures forall i :: 0 <= i < count ==>
              slots[i] == Some(CompileArguments(source.arguments, project, copy, realpath)[i])
    ensures forall i :: count <= i < slots.Length ==> slots[i] == None
    // The arguments that stay, each rewritten, and one more.
    ensures var kept := Survivors(source.arguments, |source.arguments|);
            && count == |kept| + 1 && slots[|kept|] == Some("-fsyntax-only")
            && forall i :: 0 <= i < |kept| ==> slots[i] == Some(RewritePath(project, copy, kept[i], realpath))
  {
    hide Survivors, Filter, FilterFrom, TakesValue, IsOutputOption, RewritePath, CompileArguments;
    var arguments := source.arguments;
    slots := new Option<string>[|arguments| + 2](_ => None);
    directory := RewritePath(project, copy, source.directory, realpath);
    ghost var kept := Filter(arguments);
    count := 0;
    var read := 0;
    FilterStarts(arguments);
    FilterIs(arguments);
    CompileArgumentsAre(arguments, project, copy, realpath);
    while read < |arguments|
      invariant count <= read && count <= |kept|
      invariant kept[count..] == FilterFrom(arguments, read)
      invariant forall i :: 0 <= i < count ==> slots[i] == Some(RewritePath(project, copy, kept[i], realpath))
      invariant forall i :: count <= i < slots.Length ==> slots[i] == None
    {
      var value := arguments[read];
      FilterStep(arguments, read);
      if value == "-c" {
        read := read + 1;
      } else if TakesValue(value) {
        read := read + 2;
      } else if IsOutputOption(value) {
        read := read + 1;
      } else {
        TakeFirst(kept, count, value, FilterFrom(arguments, read + 1));
        slots[count] := Some(RewritePath(project, copy, value, realpath));
        count := count + 1;
        read := read + 1;
      }
    }
    FilterStep(arguments, read);
    assert count == |kept|;
    slots[count] := Some("-fsyntax-only");
    count := count + 1;
  }
}
