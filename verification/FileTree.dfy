/** Project trees and absolute paths, as files.c sees them. */
module FileTree {
  import opened Text

  type Name = string
  type Path = seq<Name>

  datatype Node = Directory | Regular(contents: string) | Link(target: string) | Special

  /** A file system: every existing path, with what is there. */
  type Tree = map<Path, Node>

  predicate CleanName(n: Name) { n != "" && '/' !in n && n != "." && n != ".." }

  predicate CleanPath(p: Path) { forall i :: 0 <= i < |p| ==> CleanName(p[i]) }

  function Parent(p: Path): Path
    requires p != []
  {
    p[..|p| - 1]
  }

  predicate IsDirectory(t: Tree, p: Path) { p in t && t[p].Directory? }

  /** Names are clean, and whatever exists sits in a directory. */
  predicate WellFormed(t: Tree) {
    forall p :: p in t ==> CleanPath(p) && if p == [] then t[p].Directory? else IsDirectory(t, Parent(p))
  }

  /** The names readdir yields for a directory, besides "." and "..". */
  function Children(t: Tree, p: Path): set<Name> {
    set q | q in t && |q| == |p| + 1 && p <= q :: q[|p|]
  }

  predicate SameAt(before: Tree, after: Tree, p: Path) {
    (p in before <==> p in after) && (p in before ==> before[p] == after[p])
  }

  /** Nothing changed except possibly at and below root. */
  predicate SameOutside(before: Tree, after: Tree, root: Path) {
    (forall p :: p in before && !(root <= p) ==> p in after && after[p] == before[p]) &&
    (forall p :: p in after && !(root <= p) ==> p in before)
  }

  predicate Apart(p: Path, q: Path) { !(p <= q) && !(q <= p) }

  predicate Vacant(t: Tree, root: Path) { forall p :: p in t ==> !(root <= p) }

  // ----- ignored names -----

  const IGNORED_NAMES: set<Name> :=
    {".git", ".pytest_cache", "__pycache__", "build", "compile_commands.json", "coverage", "debug", "profile"}

  predicate Ignored(n: Name) {
    n in IGNORED_NAMES || "build-" <= n || "coverage-" <= n || "debug-" <= n || "profile-" <= n
  }

  /** n is stem, alone or continued after a dash. */
  ghost predicate InFamily(n: Name, stem: Name) { n == stem || exists rest: Name :: n == stem + "-" + rest }

  lemma IgnoredMeans(n: Name)
    ensures Ignored(n) <==>
            || n == ".git" || n == ".pytest_cache" || n == "__pycache__" || n == "compile_commands.json"
            || InFamily(n, "build") || InFamily(n, "coverage") || InFamily(n, "debug") || InFamily(n, "profile")
  {
    FamilyPrefix(n, "build");
    FamilyPrefix(n, "coverage");
    FamilyPrefix(n, "debug");
    FamilyPrefix(n, "profile");
    assert "build" + "-" == "build-" && "coverage" + "-" == "coverage-";
    assert "debug" + "-" == "debug-" && "profile" + "-" == "profile-";
  }

  lemma FamilyPrefix(n: Name, stem: Name)
    ensures InFamily(n, stem) <==> n == stem || stem + "-" <= n
  {
    if stem + "-" <= n {
      assert n == stem + "-" + n[|stem| + 1..];
    }
  }

  /** No component of a project-relative path is ignored. */
  predicate Kept(r: Path) { forall i :: 0 <= i < |r| ==> !Ignored(r[i]) }

  /** A project-relative path that the copy must hold. */
  predicate Wanted(t: Tree, source: Path, r: Path) {
    source + r in t && Kept(r) && !t[source + r].Special?
  }

  /** At relative path r the copy holds what the source holds, or rightly nothing. */
  predicate CopiedAt(before: Tree, after: Tree, source: Path, destination: Path, r: Path) {
    (destination + r in after <==> Wanted(before, source, r)) &&
    (destination + r in after ==> after[destination + r] == before[source + r])
  }

  /** The subtree at destination is the subtree at source, pruned. */
  ghost predicate IsPrunedCopy(before: Tree, after: Tree, source: Path, destination: Path) {
    forall r: Path :: CopiedAt(before, after, source, destination, r)
  }

  // ----- paths as text -----

  /** The text of an absolute path other than the root. */
  function Render(p: Path): string {
    if p == [] then "" else Render(Parent(p)) + "/" + p[|p| - 1]
  }

  /** How open resolves text: pieces between slashes, empty ones skipped. */
  function Resolve(text: string): Path { NonEmpty(Split(text, '/')) }

  function NonEmpty(parts: seq<string>): seq<string> {
    if parts == [] then [] else NonEmptyHead(parts[0]) + NonEmpty(parts[1..])
  }

  function NonEmptyHead(part: string): seq<string> { if part == "" then [] else [part] }

  lemma {:induction false} NonEmptyClean(p: Path)
    requires CleanPath(p)
    ensures NonEmpty(p) == p
  {
    if p != [] {
      NonEmptyClean(p[1..]);
    }
  }

  lemma {:induction false} RenderIsJoin(p: Path)
    ensures Render(p) == Join([""] + p, '/')
  {
    if p != [] {
      RenderIsJoin(Parent(p));
      assert [""] + p == ([""] + Parent(p)) + [p[|p| - 1]];
      JoinSnoc([""] + Parent(p), p[|p| - 1]);
    }
  }

  lemma {:induction false} JoinSnoc(parts: seq<string>, last: string)
    requires |parts| >= 1
    ensures Join(parts + [last], '/') == Join(parts, '/') + "/" + last
  {
    var all := parts + [last];
    if |parts| == 1 {
      assert all[1..] == [last];
    } else {
      JoinSnoc(parts[1..], last);
      assert all[1..] == parts[1..] + [last];
    }
  }

  lemma {:induction false} RenderAppend(p: Path, r: Path)
    ensures Render(p + r) == Render(p) + Render(r)
  {
    if r == [] {
      assert p + r == p;
    } else {
      RenderAppend(p, Parent(r));
      RenderLast(p, r);
    }
  }

  lemma RenderLast(p: Path, r: Path)
    requires r != []
    ensures Render(p + r) == Render(p + Parent(r)) + "/" + r[|r| - 1]
    ensures Render(r) == Render(Parent(r)) + "/" + r[|r| - 1]
  {
    assert Parent(p + r) == p + Parent(r);
  }

  /** Rendering and resolving are inverse on clean paths. */
  lemma ResolveRender(p: Path)
    requires CleanPath(p)
    ensures Resolve(Render(p)) == p
  {
    RenderIsJoin(p);
    SplitOfJoin([""] + p, '/');
    assert ([""] + p)[1..] == p;
    NonEmptyClean(p);
  }

  lemma RenderInjective(p: Path, q: Path)
    requires CleanPath(p) && CleanPath(q) && Render(p) == Render(q)
    ensures p == q
  {
    ResolveRender(p);
    ResolveRender(q);
  }

  /** Cutting rendered text just before a slash cuts the path between components. */
  lemma {:induction false} RenderCut(q: Path, k: nat) returns (m: nat)
    requires CleanPath(q) && k <= |Render(q)|
    requires k == |Render(q)| || Render(q)[k] == '/'
    ensures m <= |q| && Render(q)[..k] == Render(q[..m])
  {
    if q == [] {
      m := 0;
    } else if k == |Render(q)| {
      m := |q|;
      assert q[..m] == q;
      assert Render(q)[..k] == Render(q);
    } else {
      var h := Render(Parent(q));
      var last := q[|q| - 1];
      assert Render(q) == h + "/" + last;
      assert forall i :: |h| < i < |Render(q)| ==> Render(q)[i] == last[i - |h| - 1] && last[i - |h| - 1] in last;
      assert k <= |h|;
      assert k < |h| ==> h[k] == '/';
      m := RenderCut(Parent(q), k);
      assert Render(q)[..k] == h[..k];
      assert Parent(q)[..m] == q[..m];
    }
  }

  /** text is prefix, or continues it after a slash. */
  predicate WithinText(prefix: string, text: string) {
    prefix <= text && (|text| == |prefix| || text[|prefix|] == '/')
  }

  lemma PathPrefixIsTextPrefix(p: Path, q: Path)
    requires p <= q
    ensures Render(q) == Render(p) + Render(q[|p|..])
    ensures WithinText(Render(p), Render(q))
  {
    var r := q[|p|..];
    assert q == p + r;
    RenderAppend(p, r);
    if r != [] {
      RenderStartsWithSlash(r);
    }
  }

  /** The textual test decides path prefixes exactly. */
  lemma TextPrefixIsPathPrefix(p: Path, q: Path)
    requires CleanPath(p) && CleanPath(q)
    ensures p <= q <==> WithinText(Render(p), Render(q))
  {
    if p <= q {
      PathPrefixIsTextPrefix(p, q);
    }
    if WithinText(Render(p), Render(q)) {
      var m := RenderCut(q, |Render(p)|);
      RenderInjective(q[..m], p);
    }
  }

  lemma {:induction false} RenderStartsWithSlash(p: Path)
    requires p != []
    ensures "/" <= Render(p)
  {
    if |p| > 1 {
      RenderStartsWithSlash(Parent(p));
    } else {
      assert Parent(p) == [];
    }
  }
}
