/**
 Tables whose rows are ticked off by first-match search. Rows are expected keys;
 keys are presented one at a time; a presented key ticks the first row that
 carries it, and is rejected when there is none or that row is ticked already.
 */
module FirstMatchLedger {

  predicate Distinct<K(==)>(s: seq<K>) { forall i, j :: 0 <= i < j < |s| ==> s[i] != s[j] }

  function FirstIndex<K(==)>(keys: seq<K>, key: K): (i: nat)
    ensures i <= |keys| && key !in keys[..i]
    ensures i < |keys| ==> keys[i] == key
  {
    if keys == [] || keys[0] == key then 0 else 1 + FirstIndex(keys[1..], key)
  }

  lemma FirstIndexUnique<K>(keys: seq<K>, key: K, i: nat)
    requires i < |keys| && keys[i] == key && key !in keys[..i]
    ensures FirstIndex(keys, key) == i
  {
  }

  /** Presented key j ticks a row. */
  predicate Accepted<K(==)>(expected: seq<K>, presented: seq<K>, j: nat)
    requires j < |presented|
  {
    presented[j] in expected && presented[j] !in presented[..j]
  }

  /** Row i ends up ticked. */
  predicate Marked<K(==)>(expected: seq<K>, presented: seq<K>, i: nat)
    requires i < |expected|
  {
    expected[i] in presented && expected[i] !in expected[..i]
  }

  /** What one search sees, and how its tick changes the table. */
  lemma OneStep<K>(expected: seq<K>, presented: seq<K>, j: nat)
    requires j < |presented|
    ensures var f := FirstIndex(expected, presented[j]);
            && (Accepted(expected, presented, j) <==> f < |expected| && !Marked(expected, presented[..j], f))
            && (forall i :: 0 <= i < |expected| ==>
                  (Marked(expected, presented[..j + 1], i) <==> Marked(expected, presented[..j], i) || i == f))
  {
  }

  predicate AllAccepted<K(==)>(expected: seq<K>, presented: seq<K>) {
    forall j :: 0 <= j < |presented| ==> Accepted(expected, presented, j)
  }

  predicate AllMarked<K(==)>(expected: seq<K>, presented: seq<K>) {
    forall i :: 0 <= i < |expected| ==> Marked(expected, presented, i)
  }

  lemma {:induction false} DistinctCounts<K>(s: seq<K>)
    requires Distinct(s)
    ensures forall x :: multiset(s)[x] == if x in s then 1 else 0
  {
    if s != [] {
      var rest, last := s[..|s| - 1], s[|s| - 1];
      DistinctCounts(rest);
      assert s == rest + [last];
      assert last !in rest;
    }
  }

  lemma RepeatedCounts<K>(s: seq<K>, i: nat, j: nat)
    requires i < j < |s| && s[i] == s[j]
    ensures multiset(s)[s[i]] >= 2
  {
    assert s == s[..j] + s[j..];
    assert s[..j][i] == s[i] && s[j..][0] == s[i];
    assert s[i] in multiset(s[..j]) && s[i] in multiset(s[j..]);
  }

  lemma DistinctFromCounts<K>(s: seq<K>)
    requires forall x :: multiset(s)[x] <= 1
    ensures Distinct(s)
  {
    forall i, j | 0 <= i < j < |s| ensures s[i] != s[j] {
      if s[i] == s[j] {
        RepeatedCounts(s, i, j);
      }
    }
  }

  lemma SameElements<K>(a: seq<K>, b: seq<K>)
    requires multiset(a) == multiset(b)
    ensures forall x :: x in a <==> x in b
  {
    forall x ensures x in a <==> x in b {
      assert x in a <==> x in multiset(a);
      assert x in b <==> x in multiset(b);
    }
  }

  /** First-match ticking leaves nothing over on either side exactly for permutations of duplicate-free tables. */
  lemma NothingLeftIffPermutation<K>(expected: seq<K>, presented: seq<K>)
    ensures AllAccepted(expected, presented) && AllMarked(expected, presented)
       <==> Distinct(expected) && multiset(presented) == multiset(expected)
  {
    if AllAccepted(expected, presented) && AllMarked(expected, presented) {
      forall i, j | 0 <= i < j < |expected| ensures expected[i] != expected[j] {
        assert Marked(expected, presented, j) && expected[i] == expected[..j][i];
      }
      forall i, j | 0 <= i < j < |presented| ensures presented[i] != presented[j] {
        assert Accepted(expected, presented, j) && presented[i] == presented[..j][i];
      }
      DistinctCounts(expected);
      DistinctCounts(presented);
      forall x ensures x in expected <==> x in presented {
        if x in expected {
          var i :| 0 <= i < |expected| && expected[i] == x;
          assert Marked(expected, presented, i);
        }
        if x in presented {
          var j :| 0 <= j < |presented| && presented[j] == x;
          assert Accepted(expected, presented, j);
        }
      }
      assert forall x :: multiset(presented)[x] == multiset(expected)[x];
    }
    if Distinct(expected) && multiset(presented) == multiset(expected) {
      DistinctCounts(expected);
      DistinctFromCounts(presented);
      SameElements(expected, presented);
    }
  }

  // ----- counting -----

  function Rejections<K(==)>(expected: seq<K>, presented: seq<K>): nat {
    if presented == [] then 0
    else
      var n := |presented| - 1;
      Rejections(expected, presented[..n]) + if Accepted(expected, presented, n) then 0 else 1
  }

  function MarkedCount<K(==)>(expected: seq<K>, presented: seq<K>): (n: nat)
    ensures n <= |expected|
  {
    if expected == [] then 0
    else
      var n := |expected| - 1;
      MarkedCount(expected[..n], presented) + if Marked(expected, presented, n) then 1 else 0
  }

  lemma {:induction false} MarkedCountStep<K>(expected: seq<K>, presented: seq<K>, key: K)
    ensures MarkedCount(expected, presented + [key]) ==
            MarkedCount(expected, presented) + if key in expected && key !in presented then 1 else 0
  {
    if expected != [] {
      var n := |expected| - 1;
      MarkedCountStep(expected[..n], presented, key);
      assert key in expected <==> key in expected[..n] || key == expected[n];
    }
  }

  lemma {:induction false} NothingMarkedYet<K>(expected: seq<K>)
    ensures MarkedCount(expected, []) == 0
  {
    if expected != [] {
      NothingMarkedYet(expected[..|expected| - 1]);
    }
  }

  /** Every presented key is either rejected or ticks its own row. */
  lemma {:induction false} TicksAreConserved<K>(expected: seq<K>, presented: seq<K>)
    ensures Rejections(expected, presented) + MarkedCount(expected, presented) == |presented|
  {
    if presented == [] {
      NothingMarkedYet(expected);
    } else {
      var n := |presented| - 1;
      TicksAreConserved(expected, presented[..n]);
      MarkedCountStep(expected, presented[..n], presented[n]);
      assert presented == presented[..n] + [presented[n]];
    }
  }

  lemma {:induction false} AllMarkedCount<K>(expected: seq<K>, presented: seq<K>)
    ensures MarkedCount(expected, presented) == |expected| <==> AllMarked(expected, presented)
  {
    if expected != [] {
      var n := |expected| - 1;
      AllMarkedCount(expected[..n], presented);
      forall i | 0 <= i < n ensures Marked(expected[..n], presented, i) <==> Marked(expected, presented, i) {
        assert expected[..n][..i] == expected[..i];
      }
      assert AllMarked(expected, presented) <==> AllMarked(expected[..n], presented) && Marked(expected, presented, n);
    }
  }

  lemma {:induction false} NoRejections<K>(expected: seq<K>, presented: seq<K>)
    ensures Rejections(expected, presented) == 0 <==> AllAccepted(expected, presented)
  {
    if presented != [] {
      var n := |presented| - 1;
      NoRejections(expected, presented[..n]);
      forall j | 0 <= j < n ensures Accepted(expected, presented[..n], j) <==> Accepted(expected, presented, j) {
        assert presented[..n][..j] == presented[..j];
      }
      assert AllAccepted(expected, presented) <==>
             AllAccepted(expected, presented[..n]) && Accepted(expected, presented, n);
    }
  }
}
