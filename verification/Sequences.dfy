/** Lists without repetition, and the first-occurrence de-duplication several services apply. */
module Sequences {

  ghost predicate Distinct<T>(s: seq<T>) {
    forall i, j :: 0 <= i < j < |s| ==> s[i] != s[j]
  }

  function Members<T(==)>(s: seq<T>): set<T> {
    set x | x in s
  }

  lemma MembersStep<T>(s: seq<T>, x: T)
    ensures Members(s + [x]) == Members(s) + {x}
  {
  }

  lemma {:induction false} DistinctSize<T>(s: seq<T>)
    requires Distinct(s)
    ensures |Members(s)| == |s|
  {
    if s != [] {
      var n := |s| - 1;
      DistinctSize(s[..n]);
      assert s == s[..n] + [s[n]];
      assert Members(s) == Members(s[..n]) + {s[n]};
      assert s[n] !in s[..n];
    }
  }

  /** The first occurrence of each element, in order. */
  function Dedup<T(==)>(s: seq<T>): seq<T> {
    if s == [] then []
    else
      var front, last := Dedup(s[..|s| - 1]), s[|s| - 1];
      if last in front then front else front + [last]
  }

  lemma {:induction false} DedupKeepsMembers<T>(s: seq<T>)
    ensures Distinct(Dedup(s)) && Members(Dedup(s)) == Members(s)
  {
    if s != [] {
      var n := |s| - 1;
      DedupKeepsMembers(s[..n]);
      assert s == s[..n] + [s[n]];
      assert Members(s) == Members(s[..n]) + {s[n]};
      assert s[n] in Dedup(s[..n]) <==> s[n] in Members(Dedup(s[..n]));
      assert Members(Dedup(s[..n]) + [s[n]]) == Members(Dedup(s[..n])) + {s[n]};
    }
  }

  /** An element comes before another exactly as it first occurs before the other does. */
  lemma {:induction false} DedupKeepsOrder<T>(s: seq<T>, i: nat, j: nat)
    requires i < j < |Dedup(s)|
    ensures exists a :: 0 <= a < |s| && s[a] == Dedup(s)[i] && Dedup(s)[j] !in s[..a]
  {
    var n := |s| - 1;
    var front := Dedup(s[..n]);
    if j < |front| {
      DedupKeepsOrder(s[..n], i, j);
      var a :| 0 <= a < n && s[..n][a] == front[i] && front[j] !in s[..n][..a];
      assert s[..n][..a] == s[..a] && s[a] == front[i];
    } else {
      DedupKeepsMembers(s[..n]);
      assert front[i] in Members(front) && s[n] !in Members(front);
      var a :| 0 <= a < n && s[..n][a] == front[i];
      assert forall x :: x in s[..a] ==> x in s[..n];
    }
  }

  lemma DedupStep<T>(s: seq<T>, i: nat)
    requires i < |s|
    ensures Dedup(s[..i + 1]) == Dedup(s[..i]) + if s[i] in Dedup(s[..i]) then [] else [s[i]]
  {
    assert s[..i + 1][..i] == s[..i];
  }

  lemma DedupLast<T>(s: seq<T>, x: T)
    ensures Dedup(s + [x]) == Dedup(s) + if x in Dedup(s) then [] else [x]
  {
    assert (s + [x])[..|s|] == s;
  }
}
