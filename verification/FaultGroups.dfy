/** The bounded per-wrapper tally of the fault walk: update_fault_group in src/runner.c. */
module FaultGroups {

  import opened Text

  const FAULT_GROUP_LIMIT: nat := 128
  const NAME_LEN: nat := 128
  /** A size_t sum. */
  function Wrap(n: nat): nat { n % WORD_MODULUS }

  lemma WrapMeans(n: nat)
    ensures Wrap(n) == n % 0x1_0000_0000_0000_0000
  {
  }

  lemma WrapAdds(a: nat, b: nat)
    ensures Wrap(Wrap(a) + b) == Wrap(a + b)
  {
  }

  lemma WrapIdempotent(a: nat)
    ensures Wrap(Wrap(a)) == Wrap(a)
  {
  }

  lemma WrapCongruent(a: nat, b: nat, x: nat, y: nat)
    requires Wrap(a) == Wrap(b) && Wrap(x) == Wrap(y)
    ensures Wrap(a + x) == Wrap(b + y)
  {
    WrapAdds(a, x);
    WrapAdds(b, x);
    WrapAdds(x, b);
    WrapAdds(y, b);
    hide Wrap;
  }

  /** strncpy into a name buffer, which the caller terminates. */
  function CutName(name: string): string { if |name| < NAME_LEN then name else name[..NAME_LEN - 1] }

  /** An injected failure that fired: in which wrapper, with how many findings. */
  datatype Hit = Hit(name: string, findings: nat)

  datatype Group = Group(name: string, runs: nat, findings: nat)

  // ----- what a tally should say -----

  function Runs(hits: seq<Hit>, name: string): nat {
    if hits == [] then 0
    else Runs(hits[..|hits| - 1], name) + if hits[|hits| - 1].name == name then 1 else 0
  }

  function Findings(hits: seq<Hit>, name: string): nat {
    if hits == [] then 0
    else Findings(hits[..|hits| - 1], name) + if hits[|hits| - 1].name == name then hits[|hits| - 1].findings else 0
  }

  function Total(hits: seq<Hit>): nat {
    if hits == [] then 0 else Total(hits[..|hits| - 1]) + hits[|hits| - 1].findings
  }

  /** Wrapper names in the order of their first hit. */
  function Names(hits: seq<Hit>): seq<string> {
    if hits == [] then []
    else
      var before, name := Names(hits[..|hits| - 1]), hits[|hits| - 1].name;
      if name in before then before else before + [name]
  }

  function FirstNames(names: seq<string>): seq<string> {
    if |names| <= FAULT_GROUP_LIMIT then names else names[..FAULT_GROUP_LIMIT]
  }

  /** The table tallies exactly the hits of the first wrappers seen, as many as it has room for. */
  predicate Tallies(groups: seq<Group>, hits: seq<Hit>) {
    && |groups| == |FirstNames(Names(hits))|
    && forall i :: 0 <= i < |groups| ==> TalliedAs(groups[i], hits, Names(hits)[i])
  }

  predicate TalliedAs(g: Group, hits: seq<Hit>, name: string) {
    g == Group(name, Runs(hits, name), Wrap(Findings(hits, name)))
  }

  lemma {:induction false} NamesAreDistinct(hits: seq<Hit>)
    ensures forall i, j :: 0 <= i < j < |Names(hits)| ==> Names(hits)[i] != Names(hits)[j]
    ensures forall name :: name in Names(hits) <==> exists k :: 0 <= k < |hits| && hits[k].name == name
  {
    if hits != [] {
      var n := |hits| - 1;
      NamesAreDistinct(hits[..n]);
      forall name ensures name in Names(hits) <==> exists k :: 0 <= k < |hits| && hits[k].name == name {
        if name in Names(hits[..n]) {
          var k :| 0 <= k < n && hits[..n][k].name == name;
          assert hits[k].name == name;
        }
        if k :| 0 <= k < |hits| && hits[k].name == name {
          assert k < n ==> hits[..n][k].name == name;
        }
      }
    }
  }

  lemma {:induction false} UnseenNameHasNothing(hits: seq<Hit>, name: string)
    requires name !in Names(hits)
    ensures Runs(hits, name) == 0 && Findings(hits, name) == 0
  {
    if hits != [] {
      UnseenNameHasNothing(hits[..|hits| - 1], name);
    }
  }

  function SumRuns(hits: seq<Hit>, names: seq<string>): nat {
    if names == [] then 0 else SumRuns(hits, names[..|names| - 1]) + Runs(hits, names[|names| - 1])
  }

  function SumFindings(hits: seq<Hit>, names: seq<string>): nat {
    if names == [] then 0 else SumFindings(hits, names[..|names| - 1]) + Findings(hits, names[|names| - 1])
  }

  /** Adding a hit adds to the sums once if its wrapper is listed, and not at all otherwise. */
  lemma {:induction false} SumsAdvance(hits: seq<Hit>, hit: Hit, names: seq<string>)
    requires forall i, j :: 0 <= i < j < |names| ==> names[i] != names[j]
    ensures SumRuns(hits + [hit], names) == SumRuns(hits, names) + if hit.name in names then 1 else 0
    ensures SumFindings(hits + [hit], names) == SumFindings(hits, names) + if hit.name in names then hit.findings else 0
  {
    if names != [] {
      var n := |names| - 1;
      SumsAdvance(hits, hit, names[..n]);
      assert (hits + [hit])[..|hits|] == hits;
      assert hit.name in names <==> hit.name in names[..n] || hit.name == names[n];
    }
  }

  /** With room for every wrapper, the groups account for every hit and every finding. */
  lemma {:induction false} GroupsAccountForAll(hits: seq<Hit>)
    ensures SumRuns(hits, Names(hits)) == |hits|
    ensures SumFindings(hits, Names(hits)) == Total(hits)
  {
    if hits != [] {
      var n := |hits| - 1;
      var before, hit := hits[..n], hits[n];
      var names := Names(before);
      GroupsAccountForAll(before);
      NamesAreDistinct(before);
      assert hits == before + [hit];
      SumsAdvance(before, hit, names);
      if hit.name !in names {
        UnseenNameHasNothing(before, hit.name);
        assert (names + [hit.name])[..|names|] == names;
      }
    }
  }

  function TotalRuns(groups: seq<Group>): nat {
    if groups == [] then 0 else TotalRuns(groups[..|groups| - 1]) + groups[|groups| - 1].runs
  }

  function TotalFindings(groups: seq<Group>): nat {
    if groups == [] then 0 else TotalFindings(groups[..|groups| - 1]) + groups[|groups| - 1].findings
  }

  lemma {:induction false} TalliedSums(groups: seq<Group>, hits: seq<Hit>, m: nat)
    requires Tallies(groups, hits) && m <= |groups|
    ensures m <= |Names(hits)|
    ensures TotalRuns(groups[..m]) == SumRuns(hits, Names(hits)[..m])
    ensures Wrap(TotalFindings(groups[..m])) == Wrap(SumFindings(hits, Names(hits)[..m]))
  {
    hide Wrap;
    if m > 0 {
      var names := Names(hits);
      TalliedSums(groups, hits, m - 1);
      assert groups[..m][..m - 1] == groups[..m - 1] && names[..m][..m - 1] == names[..m - 1];
      var a, b, x := TotalFindings(groups[..m - 1]), SumFindings(hits, names[..m - 1]), Findings(hits, names[m - 1]);
      WrapIdempotent(x);
      WrapCongruent(a, b, Wrap(x), x);
    }
  }

  /** What the printed groups add up to while no wrapper was turned away. */
  lemma PrintedGroupsAddUp(groups: seq<Group>, hits: seq<Hit>)
    requires Tallies(groups, hits) && |Names(hits)| <= FAULT_GROUP_LIMIT
    ensures TotalRuns(groups) == |hits|
    ensures Wrap(TotalFindings(groups)) == Wrap(Total(hits))
  {
    TalliedSums(groups, hits, |groups|);
    assert groups[..|groups|] == groups && Names(hits)[..|groups|] == Names(hits);
    GroupsAccountForAll(hits);
  }

  /** The index of the group an update touches, or the count. */
  method FindGroup(groups: seq<Group>, name: string) returns (index: nat)
    ensures index <= |groups| && (index < |groups| ==> groups[index].name == name)
    ensures forall i :: 0 <= i < index ==> groups[i].name != name
  {
    index := 0;
    while index < |groups| && groups[index].name != name
      invariant index <= |groups| && forall i :: 0 <= i < index ==> groups[i].name != name
    {
      index := index + 1;
    }
  }

  class GroupTable {
    var groups: seq<Group>

    constructor ()
      ensures groups == []
    {
      groups := [];
    }

    /** One hit: its group grows, or is opened while there is room, or the hit goes untallied. */
    method Update(hit: Hit, ghost hits: seq<Hit>)
      requires |hit.name| < NAME_LEN && Tallies(groups, hits)
      modifies this
      ensures Tallies(groups, hits + [hit])
    {
      ghost var start := groups;
      var index := FindGroup(groups, hit.name);
      if index == |groups| && |groups| >= FAULT_GROUP_LIMIT {
        TallyOverflows(groups, hits, hit);
        return;
      }
      if index == |groups| {
        groups := groups + [Group(CutName(hit.name), 0, 0)];
      }
      groups := groups[index := groups[index].(runs := groups[index].runs + 1,
                                               findings := Wrap(groups[index].findings + hit.findings))];
      TallyGrows(start, groups, hits, hit, index);
    }
  }

  lemma RunsStep(hits: seq<Hit>, hit: Hit, name: string)
    ensures Runs(hits + [hit], name) == Runs(hits, name) + if hit.name == name then 1 else 0
    ensures Findings(hits + [hit], name) == Findings(hits, name) + if hit.name == name then hit.findings else 0
    ensures Names(hits + [hit]) == if hit.name in Names(hits) then Names(hits) else Names(hits) + [hit.name]
  {
  }

  lemma TallyOverflows(groups: seq<Group>, hits: seq<Hit>, hit: Hit)
    requires Tallies(groups, hits) && |groups| >= FAULT_GROUP_LIMIT
    requires forall i :: 0 <= i < |groups| ==> groups[i].name != hit.name
    ensures Tallies(groups, hits + [hit])
  {
  }

  lemma OthersStay(g: Group, hits: seq<Hit>, hit: Hit, name: string)
    requires TalliedAs(g, hits, name) && name != hit.name
    ensures TalliedAs(g, hits + [hit], name)
  {
  }

  lemma HitGroupGrows(g: Group, hits: seq<Hit>, hit: Hit)
    requires TalliedAs(g, hits, hit.name)
    ensures TalliedAs(g.(runs := g.runs + 1, findings := Wrap(g.findings + hit.findings)), hits + [hit], hit.name)
  {
    RunsStep(hits, hit, hit.name);
    WrapAdds(Findings(hits, hit.name), hit.findings);
  }

  lemma FreshGroup(hits: seq<Hit>, name: string)
    requires name !in Names(hits)
    ensures TalliedAs(Group(name, 0, 0), hits, name)
  {
  }

  /** The hit's group is there already. */
  lemma GroupGrows(before: seq<Group>, hits: seq<Hit>, hit: Hit, index: nat)
    requires Tallies(before, hits) && index < |before| && before[index].name == hit.name
    ensures Tallies(before[index := before[index].(runs := before[index].runs + 1,
                                                   findings := Wrap(before[index].findings + hit.findings))],
                    hits + [hit])
  {
    hide Names, TalliedAs, Wrap;
    var names := Names(hits);
    TalliedNames(before, hits);
    RunsStep(hits, hit, hit.name);
    NamesAreDistinct(hits);
    HitGroupGrows(before[index], hits, hit);
    forall i | 0 <= i < |before| && i != index ensures TalliedAs(before[i], hits + [hit], names[i]) {
      OthersStay(before[i], hits, hit, names[i]);
    }
  }

  lemma TalliedNames(groups: seq<Group>, hits: seq<Hit>)
    requires Tallies(groups, hits)
    ensures |groups| <= |Names(hits)| && forall i :: 0 <= i < |groups| ==> groups[i].name == Names(hits)[i]
  {
  }

  /** The hit is the first of its wrapper, and there is room for it. */
  lemma GroupOpens(before: seq<Group>, hits: seq<Hit>, hit: Hit)
    requires Tallies(before, hits) && |before| < FAULT_GROUP_LIMIT
    requires forall i :: 0 <= i < |before| ==> before[i].name != hit.name
    ensures Tallies(before + [Group(hit.name, 1, Wrap(hit.findings))], hits + [hit])
  {
    hide Names, TalliedAs, Wrap;
    var names := Names(hits);
    TalliedNames(before, hits);
    RunsStep(hits, hit, hit.name);
    FreshGroup(hits, hit.name);
    HitGroupGrows(Group(hit.name, 0, 0), hits, hit);
    forall i | 0 <= i < |before| ensures TalliedAs(before[i], hits + [hit], names[i]) {
      OthersStay(before[i], hits, hit, names[i]);
    }
  }

  lemma TallyGrows(before: seq<Group>, after: seq<Group>, hits: seq<Hit>, hit: Hit, index: nat)
    requires Tallies(before, hits) && index <= |before|
    requires forall i :: 0 <= i < index ==> before[i].name != hit.name
    requires index < |before| ==> before[index].name == hit.name
    requires index == |before| ==> |before| < FAULT_GROUP_LIMIT
    requires var b := if index < |before| then before else before + [Group(hit.name, 0, 0)];
             after == b[index := b[index].(runs := b[index].runs + 1,
                                           findings := Wrap(b[index].findings + hit.findings))]
    ensures Tallies(after, hits + [hit])
  {
    hide Tallies, Wrap;
    if index < |before| {
      GroupGrows(before, hits, hit, index);
    } else {
      GroupOpens(before, hits, hit);
      assert after == before + [Group(hit.name, 1, Wrap(hit.findings))];
    }
  }
}
