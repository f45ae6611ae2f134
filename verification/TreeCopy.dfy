/** What a directory walk knows part of the way through, and how each entry extends it. */
module TreeCopy {
  import opened FileTree

  const DOT_NAMES: set<Name> := {".", ".."}

  lemma {:induction false} AncestorsAreDirectories(t: Tree, p: Path, q: Path)
    requires WellFormed(t) && q in t && p <= q && p != q
    ensures IsDirectory(t, p)
    decreases |q|
  {
    if Parent(q) != p {
      AncestorsAreDirectories(t, p, Parent(q));
    }
  }

  /** A name is a child exactly when the longer path exists. */
  lemma ChildPath(t: Tree, p: Path, n: Name)
    ensures n in Children(t, p) <==> p + [n] in t
  {
    if n in Children(t, p) {
      var q :| q in t && |q| == |p| + 1 && p <= q && q[|p|] == n;
      assert q == p + [n];
    }
    if p + [n] in t {
      assert p <= p + [n] && (p + [n])[|p|] == n;
    }
  }

  lemma DescendantsGoThroughChildren(t: Tree, p: Path, r: Path)
    requires WellFormed(t) && r != [] && p + r in t
    ensures r[0] in Children(t, p)
  {
    var q := p + [r[0]];
    assert q <= p + r;
    if q != p + r {
      AncestorsAreDirectories(t, q, p + r);
    }
    assert q in t;
  }

  lemma ChildrenUnchanged(before: Tree, after: Tree, source: Path, destination: Path)
    requires SameOutside(before, after, destination) && Apart(source, destination)
    ensures Children(before, source) == Children(after, source)
  {
  }

  /** The copy is exact for the entries in done, and holds nothing else yet. */
  ghost predicate PartialCopy(before: Tree, now: Tree, source: Path, destination: Path, done: set<Name>) {
    && WellFormed(now)
    && SameOutside(before, now, destination)
    && destination in now && now[destination] == Directory
    && (forall r: Path :: r != [] && r[0] in done ==> CopiedAt(before, now, source, destination, r))
    && (forall r: Path :: r != [] && r[0] !in done ==> VacantAt(now, destination, r))
  }

  predicate VacantAt(t: Tree, root: Path, r: Path) { root + r !in t }

  lemma StartCopy(before: Tree, source: Path, destination: Path)
    requires WellFormed(before) && CleanPath(destination) && destination != []
    requires Vacant(before, destination) && IsDirectory(before, Parent(destination))
    ensures PartialCopy(before, before[destination := Directory], source, destination, {})
  {
  }

  lemma NothingWantedInside(before: Tree, source: Path, r: Path)
    requires WellFormed(before) && r != [] && (Ignored(r[0]) || r[0] in DOT_NAMES)
    ensures !Wanted(before, source, r)
  {
    assert (source + r)[|source|] == r[0];
  }

  lemma SkipEntry(before: Tree, now: Tree, source: Path, destination: Path, done: set<Name>, n: Name)
    requires WellFormed(before) && PartialCopy(before, now, source, destination, done)
    requires n !in done && (Ignored(n) || n in DOT_NAMES)
    ensures PartialCopy(before, now, source, destination, done + {n})
  {
    forall r: Path | r != [] && r[0] == n ensures CopiedAt(before, now, source, destination, r) {
      NothingWantedInside(before, source, r);
      assert VacantAt(now, destination, r);
    }
  }

  lemma InsideEntry(before: Tree, now: Tree, after: Tree, source: Path, destination: Path, r: Path)
    requires Apart(source, destination) && SameOutside(before, now, destination)
    requires r != [] && !Ignored(r[0])
    requires IsPrunedCopy(now, after, source + [r[0]], destination + [r[0]])
    ensures CopiedAt(before, after, source, destination, r)
  {
    var n, tail := r[0], r[1..];
    assert CopiedAt(now, after, source + [n], destination + [n], tail);
    assert source + [n] + tail == source + r;
    assert destination + [n] + tail == destination + r;
    ApartBelow(source, destination, source + r, destination);
    assert SameAt(before, now, source + r);
    assert r == [n] + tail;
    assert Kept(tail) <==> Kept(r) by {
      assert forall i :: 0 <= i < |tail| ==> tail[i] == r[i + 1];
      assert forall i :: 0 < i < |r| ==> r[i] == tail[i - 1];
    }
  }

  lemma OutsideEntry(now: Tree, after: Tree, destination: Path, n: Name, r: Path)
    requires SameOutside(now, after, destination + [n])
    requires r == [] || r[0] != n
    ensures SameAt(now, after, destination + r)
  {
    assert r != [] ==> (destination + r)[|destination|] == r[0];
    assert (destination + [n])[|destination|] == n;
    assert !(destination + [n] <= destination + r);
  }

  lemma SameOutsideWider(before: Tree, now: Tree, after: Tree, root: Path, inner: Path)
    requires SameOutside(before, now, root) && SameOutside(now, after, inner) && root <= inner
    ensures SameOutside(before, after, root)
  {
  }

  lemma ExtendEntry(before: Tree, now: Tree, after: Tree, source: Path, destination: Path, done: set<Name>, n: Name)
    requires Apart(source, destination)
    requires PartialCopy(before, now, source, destination, done)
    requires n !in done && !Ignored(n)
    requires WellFormed(after) && SameOutside(now, after, destination + [n])
    requires IsPrunedCopy(now, after, source + [n], destination + [n])
    ensures PartialCopy(before, after, source, destination, done + {n})
    ensures WellFormed(after) && SameOutside(before, after, destination)
  {
    SameOutsideWider(before, now, after, destination, destination + [n]);
    OutsideEntry(now, after, destination, n, []);
    assert destination + [] == destination;
    forall r: Path | r != [] && r[0] in done + {n} ensures CopiedAt(before, after, source, destination, r) {
      if r[0] == n {
        InsideEntry(before, now, after, source, destination, r);
      } else {
        OutsideEntry(now, after, destination, n, r);
        assert CopiedAt(before, now, source, destination, r);
      }
    }
    forall r: Path | r != [] && r[0] !in done + {n} ensures VacantAt(after, destination, r) {
      OutsideEntry(now, after, destination, n, r);
      assert VacantAt(now, destination, r);
    }
  }

  lemma FinishCopy(before: Tree, now: Tree, source: Path, destination: Path, done: set<Name>)
    requires WellFormed(before) && IsDirectory(before, source)
    requires PartialCopy(before, now, source, destination, done) && Children(before, source) <= done
    ensures IsPrunedCopy(before, now, source, destination)
  {
    forall r: Path ensures CopiedAt(before, now, source, destination, r) {
      if r == [] {
        assert source + r == source && destination + r == destination;
      } else if r[0] !in done {
        assert VacantAt(now, destination, r);
        if source + r in before {
          DescendantsGoThroughChildren(before, source, r);
        }
      }
    }
  }

  /** Copying something that is not a directory touches one path. */
  lemma LeafCopy(before: Tree, after: Tree, source: Path, destination: Path)
    requires WellFormed(before) && source in before && !before[source].Directory?
    requires Vacant(before, destination)
    requires after == if before[source].Special? then before else before[destination := before[source]]
    ensures IsPrunedCopy(before, after, source, destination)
  {
    forall r: Path ensures CopiedAt(before, after, source, destination, r) {
      assert destination <= destination + r;
      if r == [] {
        assert source + r == source && destination + r == destination;
      } else if source + r in before {
        AncestorsAreDirectories(before, source, source + r);
      }
    }
  }

  /** Nothing is copied from nowhere, and a special file not at all. */
  lemma CopyKeepsTop(before: Tree, after: Tree, source: Path, destination: Path, r: Path)
    requires IsPrunedCopy(before, after, source, destination) && WellFormed(after) && destination + r in after
    ensures source in before && !before[source].Special? && destination in after
    ensures after[destination] == before[source]
  {
    assert destination <= destination + r;
    if destination !in after {
      VacantWithoutChildren(after, destination);
    }
    assert CopiedAt(before, after, source, destination, []);
    assert destination + [] == destination && source + [] == source;
    assert r == [] ==> destination + r == destination;
  }

  /**
   What a copy leaves of entry n of a copied directory, at any level: a special file goes, a name of the ignored
   ones or of their families goes with all that is below it, and every other entry is there unchanged.
   */
  lemma CopyLeaves(before: Tree, after: Tree, source: Path, destination: Path, r: Path, n: Name)
    requires IsPrunedCopy(before, after, source, destination) && WellFormed(after) && destination + r in after
    ensures destination + r + [n] in after <==>
            && source + r + [n] in before && !before[source + r + [n]].Special?
            && n != ".git" && n != ".pytest_cache" && n != "__pycache__" && n != "compile_commands.json"
            && !InFamily(n, "build") && !InFamily(n, "coverage") && !InFamily(n, "debug") && !InFamily(n, "profile")
    ensures destination + r + [n] in after ==> after[destination + r + [n]] == before[source + r + [n]]
    ensures destination + r + [n] !in after ==> Vacant(after, destination + r + [n])
    ensures source in before && !before[source].Special?
  {
    hide Ignored, InFamily, WellFormed, Vacant;
    IgnoredMeans(n);
    assert destination + r + [n] == destination + (r + [n]) && source + r + [n] == source + (r + [n]);
    assert CopiedAt(before, after, source, destination, r);
    assert CopiedAt(before, after, source, destination, r + [n]);
    assert forall i :: 0 <= i < |r| ==> (r + [n])[i] == r[i];
    assert (r + [n])[|r|] == n;
    CopyKeepsTop(before, after, source, destination, r);
    if destination + r + [n] !in after {
      VacantWithoutChildren(after, destination + r + [n]);
    }
  }

  lemma AddLeaf(t: Tree, p: Path, n: Node)
    requires WellFormed(t) && CleanPath(p) && p != [] && IsDirectory(t, Parent(p))
    requires p in t ==> !t[p].Directory?
    ensures WellFormed(t[p := n])
  {
  }

  lemma ReplaceContents(t: Tree, p: Path, contents: string)
    requires WellFormed(t) && p in t && t[p].Regular?
    ensures WellFormed(t[p := Regular(contents)])
  {
  }

  /** Every existing path at or below p: what a recursive walk has left to visit. */
  function Below(t: Tree, p: Path): set<Path> { set q | q in t && p <= q }

  lemma EntryIsVacant(now: Tree, destination: Path, n: Name)
    requires forall r: Path :: r != [] && r[0] == n ==> VacantAt(now, destination, r)
    ensures Vacant(now, destination + [n])
  {
    forall p | p in now ensures !(destination + [n] <= p) {
      if destination < p {
        var r := p[|destination|..];
        assert p == destination + r;
        assert !VacantAt(now, destination, r);
        assert (destination + [n])[|destination|] == n;
      }
    }
  }

  lemma BelowShrinks(before: Tree, now: Tree, source: Path, destination: Path, n: Name)
    requires SameOutside(before, now, destination) && Apart(source, destination) && source in before
    ensures Below(now, source + [n]) < Below(before, source)
  {
    forall p | p in now && source + [n] <= p ensures p in before && source <= p {
      assert p[..|source|] == (source + [n])[..|source|];
      ApartBelow(source, destination, p, destination);
    }
    assert source in Below(before, source) && source !in Below(now, source + [n]);
  }

  lemma EntryIsUntouched(before: Tree, now: Tree, source: Path, destination: Path, n: Name)
    requires WellFormed(before) && SameOutside(before, now, destination) && Apart(source, destination)
    requires n in Children(before, source)
    ensures source + [n] in now && CleanName(n)
  {
    ChildPath(before, source, n);
    hide Children;
    ApartBelow(source, destination, source + [n], destination);
    ChildNameIsClean(before, source, n);
    hide WellFormed, CleanName;
    assert SameAt(before, now, source + [n]);
  }

  lemma ChildNameIsClean(t: Tree, p: Path, n: Name)
    requires WellFormed(t) && p + [n] in t
    ensures CleanName(n)
  {
    assert CleanPath(p + [n]);
    assert (p + [n])[|p|] == n;
  }

  lemma EntryIsReady(before: Tree, now: Tree, source: Path, destination: Path, done: set<Name>, n: Name)
    requires WellFormed(before) && source in before && Apart(source, destination)
    requires PartialCopy(before, now, source, destination, done)
    requires n !in done && n in Children(before, source)
    ensures source + [n] in now && CleanName(n) && Apart(source + [n], destination + [n])
    ensures Vacant(now, destination + [n]) && IsDirectory(now, Parent(destination + [n]))
    ensures Below(now, source + [n]) < Below(before, source)
  {
    assert Parent(destination + [n]) == destination;
    ApartBelow(source, destination, source + [n], destination + [n]);
    EntryIsUntouched(before, now, source, destination, n);
    BelowShrinks(before, now, source, destination, n);
    assert Vacant(now, destination + [n]) by {
      EntryIsVacant(now, destination, n);
    }
  }

  lemma ApartBelow(a: Path, b: Path, p: Path, q: Path)
    requires Apart(a, b) && a <= p && b <= q
    ensures Apart(p, q)
  {
  }

  // ----- deletion -----

  /** Some paths at or below root are gone; nothing else differs. */
  predicate Removed(before: Tree, after: Tree, root: Path) {
    && SameOutside(before, after, root)
    && (forall p :: p in after ==> p in before && after[p] == before[p])
  }

  lemma RemovedWider(before: Tree, now: Tree, after: Tree, root: Path, inner: Path)
    requires Removed(before, now, root) && Removed(now, after, inner) && root <= inner
    ensures Removed(before, after, root)
  {
  }

  lemma VacantWithoutChildren(t: Tree, p: Path)
    requires WellFormed(t) && p !in t
    ensures Vacant(t, p)
  {
    forall q | q in t ensures !(p <= q) {
      if p <= q {
        AncestorsAreDirectories(t, p, q);
      }
    }
  }

  lemma ChildOf(t: Tree, q: Path)
    requires q in t && q != []
    ensures q[|q| - 1] in Children(t, Parent(q))
  {
  }

  lemma DropLeaf(t: Tree, p: Path)
    requires WellFormed(t) && p in t && p != []
    requires t[p].Directory? ==> Children(t, p) == {}
    ensures WellFormed(t - {p}) && Removed(t, t - {p}, p) && Vacant(t - {p}, p)
  {
    forall q | q in t - {p} && q != [] ensures IsDirectory(t - {p}, Parent(q)) {
      ChildOf(t, q);
    }
    VacantWithoutChildren(t - {p}, p);
  }

  lemma ChildIsBelow(t: Tree, p: Path, n: Name)
    requires WellFormed(t) && n in Children(t, p)
    ensures p + [n] in t && Below(t, p + [n]) <= Below(t, p) && (p in t ==> Below(t, p + [n]) < Below(t, p))
  {
    ChildPath(t, p, n);
    hide Children, WellFormed;
    forall x | x in t && p + [n] <= x ensures p <= x {
      assert x[..|p|] == (p + [n])[..|p|];
    }
    assert p in t ==> p in Below(t, p) && p !in Below(t, p + [n]);
  }

  lemma RemovedShrinks(before: Tree, after: Tree, root: Path)
    requires Removed(before, after, root)
    ensures forall p :: Children(after, p) <= Children(before, p)
    ensures forall p :: Below(after, p) <= Below(before, p)
  {
  }

  lemma ChildGone(before: Tree, after: Tree, path: Path, n: Name)
    requires Removed(before, after, path + [n])
    ensures path in before ==> path in after && after[path] == before[path]
    ensures Vacant(after, path + [n]) ==> n !in Children(after, path)
    ensures Children(before, path) - {n} <= Children(after, path)
  {
  }
}
