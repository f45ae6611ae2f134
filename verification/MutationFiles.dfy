/**
 Copying a project, deleting a tree without following links, and splicing one
 mutation into a copied file: components/mutation/src/files.c over an abstract
 file system.
 */
module MutationFiles {
  import opened FileTree
  import opened TreeCopy

  const COPY_BUFFER_SIZE: nat := 16384

  datatype Candidate = Candidate(path: string, line: nat, start: nat, end: nat,
                                 original: string, replacement: string, kind: nat)

  datatype ApplyStatus = Applied | Outside | Unreadable | SourceChanged | WriteFailed

  /** Whether the recorded range still holds the recorded text. */
  predicate Matches(contents: string, c: Candidate) {
    c.start <= c.end <= |contents| && contents[c.start..c.end] == c.original
  }

  function Splice(contents: string, c: Candidate): string
    requires Matches(contents, c)
  {
    contents[..c.start] + c.replacement + contents[c.end..]
  }

  /** The text of the file that apply_candidate opens. */
  function TargetText(project: string, copy: string, path: string): string
    requires project <= path
  {
    var relative := path[|project|..];
    copy + "/" + if "/" <= relative then relative[1..] else relative
  }

  predicate IsFile(t: Tree, p: Path) { p in t && t[p].Regular? }

  predicate IsLink(t: Tree, p: Path) { p in t && t[p].Link? }

  /** What each outcome of apply_candidate says about the file system before and after. */
  ghost predicate ApplyRelation(before: Tree, after: Tree, target: Path, c: Candidate, status: ApplyStatus) {
    && (forall p :: p != target ==> SameAt(before, after, p))
    && match status {
         case Outside => false
         case Unreadable => after == before
         case SourceChanged => IsFile(before, target) && !Matches(before[target].contents, c) && after == before
         case WriteFailed => IsFile(before, target) && Matches(before[target].contents, c)
         case Applied =>
           && IsFile(before, target) && Matches(before[target].contents, c)
           && after == before[target := Regular(Splice(before[target].contents, c))]
       }
  }

  /** The recorded text, at the recorded place. */
  ghost predicate FoundBetween(contents: string, c: Candidate, head: string, tail: string) {
    contents == head + c.original + tail && |head| == c.start && |head| + |c.original| == c.end
  }

  /** An applied candidate found its text at its place, and the replacement is there instead; nothing else changed. */
  lemma AppliedMeans(before: Tree, after: Tree, target: Path, c: Candidate)
    ensures ApplyRelation(before, after, target, c, Applied) <==>
            target in before && before[target].Regular? &&
            exists head, tail :: FoundBetween(before[target].contents, c, head, tail)
                                 && after == before[target := Regular(head + c.replacement + tail)]
    ensures ApplyRelation(before, after, target, c, SourceChanged) <==>
            && target in before && before[target].Regular? && after == before
            && !exists head, tail :: FoundBetween(before[target].contents, c, head, tail)
  {
    if target in before && before[target].Regular? {
      var contents := before[target].contents;
      if Matches(contents, c) {
        assert FoundBetween(contents, c, contents[..c.start], contents[c.end..]);
      }
      forall head, tail | FoundBetween(contents, c, head, tail)
        ensures Matches(contents, c) && Splice(contents, c) == head + c.replacement + tail
      {
        assert contents[..c.start] == head && contents[c.end..] == tail;
      }
    }
  }

  /** The edit that takes an applied one back. */
  function Undo(c: Candidate): Candidate {
    c.(end := c.start + |c.replacement|, original := c.replacement, replacement := c.original)
  }

  /** Editing and undoing the edit leaves the file as it was. */
  lemma UndoRestores(contents: string, c: Candidate)
    requires Matches(contents, c)
    ensures Matches(Splice(contents, c), Undo(c)) && Splice(Splice(contents, c), Undo(c)) == contents
  {
    var edited, head, tail := Splice(contents, c), contents[..c.start], contents[c.end..];
    assert edited[..c.start] == head && edited[c.start + |c.replacement|..] == tail;
    assert contents == head + c.original + tail;
  }

  /** Outcomes that leave everything as it is. */
  lemma ApplyStops(t: Tree, target: Path, c: Candidate)
    ensures ApplyRelation(t, t, target, c, Unreadable)
    ensures IsFile(t, target) && !Matches(t[target].contents, c) ==> ApplyRelation(t, t, target, c, SourceChanged)
    ensures IsFile(t, target) && Matches(t[target].contents, c) ==> ApplyRelation(t, t, target, c, WriteFailed)
  {
  }

  /** Outcomes that rewrite the file, in part or in full. */
  lemma ApplyWrites(before: Tree, after: Tree, target: Path, c: Candidate)
    requires IsFile(before, target) && Matches(before[target].contents, c)
    requires IsFile(after, target) && after == before[target := after[target]]
    ensures ApplyRelation(before, after, target, c, WriteFailed)
    ensures after[target].contents == Splice(before[target].contents, c) ==>
              ApplyRelation(before, after, target, c, Applied)
  {
  }

  /** The files, and the error object that failing calls report to: nothing but a reset takes an error back. */
  class FileSystem {
    var nodes: Tree
    var error: bool
    /** Whether calls may fail for reasons the tree does not show. */
    const faulty: bool

    constructor (nodes: Tree, faulty: bool)
      ensures this.nodes == nodes && this.faulty == faulty && !error
    {
      this.nodes, this.error, this.faulty := nodes, false, faulty;
    }

    /** A call without an error object. */
    method FailsQuietly() returns (failure: bool)
      ensures failure ==> faulty
    {
      failure := *;
      failure := failure && faulty;
    }

    /** A call that records its failure. */
    method Fails() returns (failure: bool)
      modifies this`error
      ensures failure ==> faulty
      ensures error == (old(error) || failure)
    {
      failure := FailsQuietly();
      error := error || failure;
    }

    method MakeDirectory(p: Path) returns (made: bool, present: bool)
      requires WellFormed(nodes) && CleanPath(p) && p != []
      modifies this
      ensures WellFormed(nodes) && error == (old(error) || !made)
      ensures made ==> IsDirectory(old(nodes), Parent(p)) && p !in old(nodes)
      ensures nodes == if made then old(nodes)[p := Directory] else old(nodes)
      ensures present <==> p in old(nodes)
      ensures !faulty && p !in old(nodes) && IsDirectory(old(nodes), Parent(p)) ==> made
    {
      var failure := Fails();
      present := p in nodes;
      made := !failure && !present && IsDirectory(nodes, Parent(p));
      error := error || !made;
      if made {
        AddLeaf(nodes, p, Directory);
        nodes := nodes[p := Directory];
      }
    }

    method MakeLink(target: string, p: Path) returns (made: bool)
      requires WellFormed(nodes) && CleanPath(p) && p != []
      modifies this
      ensures WellFormed(nodes) && error == (old(error) || !made)
      ensures nodes == if made then old(nodes)[p := Link(target)] else old(nodes)
      ensures made ==> p !in old(nodes)
      ensures !faulty && p !in old(nodes) && IsDirectory(old(nodes), Parent(p)) ==> made
    {
      var failure := Fails();
      made := !failure && p !in nodes && IsDirectory(nodes, Parent(p));
      error := error || !made;
      if made {
        AddLeaf(nodes, p, Link(target));
        nodes := nodes[p := Link(target)];
      }
    }

    /** open with O_CREAT and O_TRUNC, on a path that is not a link. */
    method OpenOutput(p: Path) returns (ready: bool)
      requires WellFormed(nodes) && CleanPath(p) && p != []
      requires p in nodes ==> !nodes[p].Link?
      modifies this
      ensures WellFormed(nodes) && error == (old(error) || !ready)
      ensures nodes == if ready then old(nodes)[p := Regular("")] else old(nodes)
      ensures !faulty && IsDirectory(old(nodes), Parent(p)) && (p in old(nodes) ==> old(nodes)[p].Regular?) ==> ready
    {
      var failure := Fails();
      ready := !failure && IsDirectory(nodes, Parent(p)) && (p in nodes ==> nodes[p].Regular?);
      error := error || !ready;
      if ready {
        AddLeaf(nodes, p, Regular(""));
        nodes := nodes[p := Regular("")];
      }
    }

    /** Up to limit bytes from offset; none at end of file or on failure. */
    method Read(p: Path, offset: nat, limit: nat) returns (chunk: string, failure: bool)
      requires p in nodes && nodes[p].Regular? && offset <= |nodes[p].contents| && limit > 0
      modifies this`error
      ensures error == (old(error) || failure)
      ensures |chunk| <= limit && offset + |chunk| <= |nodes[p].contents|
      ensures chunk == nodes[p].contents[offset..offset + |chunk|]
      ensures failure ==> faulty && chunk == ""
      ensures !failure && chunk == "" ==> offset == |nodes[p].contents|
    {
      failure := Fails();
      chunk := "";
      var rest := |nodes[p].contents| - offset;
      if !failure && rest > 0 {
        var count: int := *;
        if count < 1 || count > rest || count > limit {
          count := 1;
        }
        chunk := nodes[p].contents[offset..offset + count];
      }
    }

    /** Appends a prefix of data to an open file; a short write is possible. */
    method Write(p: Path, data: string) returns (count: nat)
      requires p in nodes && nodes[p].Regular?
      modifies this
      ensures (old(error) ==> error) && (!faulty ==> error == old(error))
      ensures count <= |data|
      ensures nodes == old(nodes)[p := Regular(old(nodes)[p].contents + data[..count])]
      ensures !faulty && data != "" ==> count > 0
    {
      var failure := Fails();
      var wanted: int := *;
      count := if 0 < wanted <= |data| then wanted else |data|;
      if failure {
        count := 0;
      }
      nodes := nodes[p := Regular(nodes[p].contents + data[..count])];
    }

    /** Writes until everything is out or a write makes no progress. */
    method WriteAll(p: Path, data: string) returns (ok: bool)
      requires p in nodes && nodes[p].Regular?
      modifies this
      ensures (old(error) ==> error) && (!faulty ==> error == old(error))
      ensures p in nodes && nodes[p].Regular? && nodes == old(nodes)[p := nodes[p]]
      ensures ok ==> nodes[p].contents == old(nodes)[p].contents + data
      ensures !faulty ==> ok
    {
      ghost var start := nodes[p].contents;
      var total := 0;
      assert start + data[..0] == start;
      while total < |data|
        invariant total <= |data| && nodes == old(nodes)[p := Regular(start + data[..total])]
        invariant (old(error) ==> error) && (!faulty ==> error == old(error))
      {
        var written := Write(p, data[total..]);
        assert start + data[..total] + data[total..][..written] == start + data[..total + written];
        if written == 0 {
          break;
        }
        total := total + written;
      }
      ok := total == |data|;
      assert data[..|data|] == data;
    }

    method CopyFile(source: Path, destination: Path) returns (ok: bool)
      requires WellFormed(nodes) && CleanPath(destination) && destination != [] && source != destination
      requires source in nodes && nodes[source].Regular? && !IsLink(nodes, destination)
      modifies this
      ensures WellFormed(nodes)
      ensures nodes == old(nodes) || (destination in nodes && nodes == old(nodes)[destination := nodes[destination]])
      ensures ok ==> nodes == old(nodes)[destination := old(nodes)[source]] && !error
      ensures old(error) ==> error
      ensures !faulty && !old(error) && IsDirectory(old(nodes), Parent(destination))
              && (destination in old(nodes) ==> IsFile(old(nodes), destination)) ==>
                ok
    {
      hide WellFormed;
      ok := OpenOutput(destination);
      if !ok {
        return;
      }
      ghost var created := nodes;
      var offset := 0;
      ghost var contents := nodes[source].contents;
      while true
        invariant ok && offset <= |contents|
        invariant nodes == created[destination := Regular(contents[..offset])]
        invariant (old(error) ==> error) && (!faulty ==> error == old(error))
        decreases |contents| - offset
      {
        var chunk, failure := Read(source, offset, COPY_BUFFER_SIZE);
        if chunk == "" {
          ok := !failure && !error;
          break;
        }
        if error {
          ok := false;
          break;
        }
        ok := WriteAll(destination, chunk);
        if !ok {
          break;
        }
        assert contents[..offset] + chunk == contents[..offset + |chunk|];
        offset := offset + |chunk|;
      }
      assert contents[..|contents|] == contents;
      ReplaceContents(created, destination, nodes[destination].contents);
      assert nodes == created[destination := nodes[destination]];
    }

    method CopyTree(source: Path, destination: Path) returns (ok: bool)
      requires WellFormed(nodes) && CleanPath(destination)
      requires Apart(source, destination) && Vacant(nodes, destination)
      modifies this
      ensures WellFormed(nodes)
      ensures SameOutside(old(nodes), nodes, destination)
      ensures ok ==> source in old(nodes) && IsPrunedCopy(old(nodes), nodes, source, destination)
      // Copying a directory takes back whatever error was recorded before.
      ensures ok ==> error == (old(error) && !IsDirectory(old(nodes), source))
      ensures !faulty && source in old(nodes) && IsDirectory(old(nodes), Parent(destination))
              && (IsDirectory(old(nodes), source) || !old(error)) ==>
                ok
      decreases Below(nodes, source), 2
    {
      ok := false;
      var failure := Fails();
      if failure || source !in nodes {
        error := true;
        return;
      }
      match nodes[source] {
        case Directory =>
          var made, present := MakeDirectory(destination);
          if !made && !present {
            return;
          }
          error := false;
          failure := Fails();
          if failure {
            return;
          }
          StartCopy(old(nodes), source, destination);
          ok := CopyEntries(source, destination, old(nodes));
        case Link(target) =>
          ok := MakeLink(target, destination);
        case Regular(_) =>
          ok := CopyFile(source, destination);
        case Special =>
          ok := true;
      }
      if ok && !old(nodes)[source].Directory? {
        LeafCopy(old(nodes), nodes, source, destination);
      }
    }

    /** The readdir loop of CopyTree. */
    method CopyEntries(source: Path, destination: Path, ghost before: Tree) returns (ok: bool)
      requires WellFormed(before) && IsDirectory(before, source)
      requires CleanPath(destination) && Apart(source, destination)
      requires WellFormed(nodes) && SameOutside(before, nodes, destination) && !error
      requires PartialCopy(before, nodes, source, destination, {})
      modifies this
      ensures WellFormed(nodes) && SameOutside(before, nodes, destination)
      ensures ok ==> IsPrunedCopy(before, nodes, source, destination) && !error
      ensures !faulty ==> ok
      decreases Below(before, source), 1
    {
      hide PartialCopy, WellFormed, SameOutside, Children, Below, Apart, Vacant, IsPrunedCopy;
      ChildrenUnchanged(before, nodes, source, destination);
      var pending := DOT_NAMES + Children(nodes, source);
      ghost var done: set<Name> := {};
      ok := true;
      while pending != {}
        invariant ok && !error && WellFormed(nodes) && SameOutside(before, nodes, destination)
        invariant PartialCopy(before, nodes, source, destination, done)
        invariant done !! pending && done + pending == DOT_NAMES + Children(before, source)
        decreases pending
      {
        var n :| n in pending;
        pending := pending - {n};
        ok := CopyEntry(source, destination, n, before, done);
        if !ok {
          return;
        }
        done := done + {n};
      }
      FinishCopy(before, nodes, source, destination, done);
    }

    /** One directory entry: passed over, or copied with all that is below it. */
    method CopyEntry(source: Path, destination: Path, n: Name, ghost before: Tree, ghost done: set<Name>)
      returns (ok: bool)
      requires WellFormed(before) && IsDirectory(before, source)
      requires CleanPath(destination) && Apart(source, destination)
      requires WellFormed(nodes) && SameOutside(before, nodes, destination) && !error
      requires PartialCopy(before, nodes, source, destination, done)
      requires n !in done && n in DOT_NAMES + Children(before, source)
      modifies this
      ensures WellFormed(nodes) && SameOutside(before, nodes, destination)
      ensures ok ==> PartialCopy(before, nodes, source, destination, done + {n}) && !error
      ensures !faulty ==> ok
      decreases Below(before, source), 0
    {
      hide PartialCopy, WellFormed, SameOutside, Children, Below, Apart, Vacant, IsPrunedCopy;
      ok := true;
      var failure := Fails();
      if failure {
        ok := false;
      } else if n in DOT_NAMES || Ignored(n) {
        SkipEntry(before, nodes, source, destination, done, n);
      } else {
        ghost var now := nodes;
        EntryIsReady(before, nodes, source, destination, done, n);
        ok := CopyTree(source + [n], destination + [n]);
        SameOutsideWider(before, now, nodes, destination, destination + [n]);
        if ok {
          ExtendEntry(before, now, nodes, source, destination, done, n);
        }
      }
    }

    method Unlink(p: Path) returns (gone: bool)
      requires WellFormed(nodes) && p in nodes && !nodes[p].Directory? && p != []
      modifies this`nodes
      ensures WellFormed(nodes) && Removed(old(nodes), nodes, p)
      ensures gone ==> Vacant(nodes, p)
      ensures !faulty ==> gone
    {
      var failure := FailsQuietly();
      gone := !failure;
      if gone {
        DropLeaf(nodes, p);
        nodes := nodes - {p};
      }
    }

    /** rmdir: only an empty directory goes. */
    method RemoveDirectory(p: Path) returns (gone: bool)
      requires WellFormed(nodes) && IsDirectory(nodes, p) && p != []
      modifies this`nodes
      ensures WellFormed(nodes) && Removed(old(nodes), nodes, p)
      ensures gone ==> Vacant(nodes, p)
      ensures !faulty && Children(old(nodes), p) == {} ==> gone
    {
      var failure := FailsQuietly();
      gone := !failure && Children(nodes, p) == {};
      if gone {
        DropLeaf(nodes, p);
        nodes := nodes - {p};
      }
    }

    method RemoveTree(path: Path) returns (ok: bool)
      requires WellFormed(nodes) && path != []
      modifies this`nodes
      ensures WellFormed(nodes) && Removed(old(nodes), nodes, path)
      ensures ok ==> Vacant(nodes, path)
      ensures !faulty && path in old(nodes) ==> ok
      decreases Below(nodes, path), 1
    {
      ok := false;
      var failure := FailsQuietly();
      if failure || path !in nodes {
        return;
      }
      if !nodes[path].Directory? {
        ok := Unlink(path);
        return;
      }
      failure := FailsQuietly();
      if failure {
        return;
      }
      hide WellFormed, SameOutside, Children, Below, Vacant, Removed;
      var emptied := RemoveEntries(path);
      RemovedShrinks(old(nodes), nodes, path);
      ghost var now := nodes;
      ok := RemoveDirectory(path);
      RemovedWider(old(nodes), now, nodes, path, path);
      ok := ok && emptied;
    }

    /** The readdir loop of RemoveTree; one failure does not stop the others. */
    method RemoveEntries(path: Path) returns (ok: bool)
      requires WellFormed(nodes) && path != [] && IsDirectory(nodes, path)
      modifies this`nodes
      ensures WellFormed(nodes) && Removed(old(nodes), nodes, path) && IsDirectory(nodes, path)
      ensures !faulty ==> ok && Children(nodes, path) == {}
      decreases Below(nodes, path), 0
    {
      assert Removed(nodes, nodes, path);
      hide WellFormed, SameOutside, Below, Vacant, Removed, Children;
      var pending := DOT_NAMES + Children(nodes, path);
      ok := true;
      while pending != {}
        invariant WellFormed(nodes) && Removed(old(nodes), nodes, path) && IsDirectory(nodes, path)
        invariant pending - DOT_NAMES <= Children(nodes, path)
        invariant !faulty ==> ok && Children(nodes, path) <= pending
        decreases pending
      {
        var n :| n in pending;
        pending := pending - {n};
        if n !in DOT_NAMES {
          ghost var now := nodes;
          RemovedShrinks(old(nodes), now, path);
          ChildIsBelow(now, path, n);
          var gone := RemoveTree(path + [n]);
          RemovedWider(old(nodes), now, nodes, path, path + [n]);
          ChildGone(now, nodes, path, n);
          RemovedShrinks(now, nodes, path + [n]);
          ok := ok && gone;
        }
      }
    }

    method ApplyCandidate(project: string, candidate: Candidate, copy: string) returns (status: ApplyStatus)
      requires WellFormed(nodes)
      requires project <= candidate.path ==>
                 var target := Resolve(TargetText(project, copy, candidate.path));
                 CleanPath(target) && !IsLink(nodes, target)
      modifies this
      ensures WellFormed(nodes)
      ensures status.Outside? <==> !(project <= candidate.path)
      ensures status.Outside? ==> nodes == old(nodes)
      ensures project <= candidate.path ==>
                var target := Resolve(TargetText(project, copy, candidate.path));
                && ApplyRelation(old(nodes), nodes, target, candidate, status)
                && (!faulty && !old(error) ==>
                      (status.Unreadable? <==> !IsFile(old(nodes), target)) && !status.WriteFailed?)
      ensures status.Applied? <==> !error
    {
      if !(project <= candidate.path) {
        error := true;
        return Outside;
      }
      hide WellFormed, ApplyRelation;
      status := ApplyAt(Resolve(TargetText(project, copy, candidate.path)), candidate);
    }

    method ApplyAt(target: Path, candidate: Candidate) returns (status: ApplyStatus)
      requires WellFormed(nodes) && CleanPath(target) && !IsLink(nodes, target)
      modifies this
      ensures WellFormed(nodes) && ApplyRelation(old(nodes), nodes, target, candidate, status)
      ensures !faulty && !old(error) ==>
                (status.Unreadable? <==> !IsFile(old(nodes), target)) && !status.WriteFailed?
      ensures status.Applied? <==> !error
    {
      ApplyStops(nodes, target, candidate);
      assert IsFile(nodes, target) ==> target != [] && IsDirectory(nodes, Parent(target));
      hide WellFormed, ApplyRelation;
      var failure := Fails();
      if failure || !IsFile(nodes, target) {
        error := true;
        return Unreadable;
      }
      var contents := nodes[target].contents;
      if !Matches(contents, candidate) {
        error := true;
        return SourceChanged;
      }
      var ready := OpenOutput(target);
      if !ready {
        return WriteFailed;
      }
      ghost var truncated := nodes;
      var written := WriteSpliced(target, contents, candidate);
      ReplaceContents(truncated, target, nodes[target].contents);
      ApplyWrites(old(nodes), nodes, target, candidate);
      failure := Fails();
      error := error || !written;
      status := if error then WriteFailed else Applied;
    }

    /** The three fwrite calls: what is before the range, the replacement, what is after it. */
    method WriteSpliced(target: Path, contents: string, candidate: Candidate) returns (ok: bool)
      requires IsFile(nodes, target) && nodes[target].contents == "" && Matches(contents, candidate)
      modifies this
      ensures (old(error) ==> error) && (!faulty ==> error == old(error))
      ensures IsFile(nodes, target) && nodes == old(nodes)[target := Regular(nodes[target].contents)]
      ensures ok ==> nodes[target].contents == Splice(contents, candidate)
      ensures !faulty ==> ok
    {
      ok := WriteAll(target, contents[..candidate.start]);
      if ok {
        ok := WriteAll(target, candidate.replacement);
      }
      if ok {
        ok := WriteAll(target, contents[candidate.end..]);
      }
    }
  }
}
