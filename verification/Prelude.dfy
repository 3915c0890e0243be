/** Small shared vocabulary: optional values and first-occurrence deduplication. */
module Prelude {
  datatype Option<+T> = None | Some(value: T)

  ghost predicate NoDuplicates<T>(s: seq<T>) {
    forall i, j | 0 <= i < j < |s| :: s[i] != s[j]
  }

  /** Keep the first occurrence of every element, in order. */
  function Dedupe<T(==)>(s: seq<T>): seq<T> {
    if s == [] then []
    else
      var d := Dedupe(s[..|s| - 1]);
      if s[|s| - 1] in d then d else d + [s[|s| - 1]]
  }

  lemma {:induction false} DedupeKeepsElements<T(!new)>(s: seq<T>)
    ensures NoDuplicates(Dedupe(s))
    ensures forall x :: x in Dedupe(s) <==> x in s
    ensures |Dedupe(s)| <= |s|
  {
    if s != [] {
      DedupeKeepsElements(s[..|s| - 1]);
      assert s == s[..|s| - 1] + [s[|s| - 1]];
    }
  }

  lemma {:induction false} DedupeOfDistinct<T>(s: seq<T>)
    requires NoDuplicates(s)
    ensures Dedupe(s) == s
  {
    if s != [] {
      DedupeOfDistinct(s[..|s| - 1]);
      assert s == s[..|s| - 1] + [s[|s| - 1]];
    }
  }

  /** x occurs somewhere before y does. */
  ghost predicate OccursBefore<T>(s: seq<T>, x: T, y: T) {
    exists p :: 0 <= p < |s| && s[p] == x && y !in s[..p + 1]
  }

  /** Elements stand in the order in which they first occur. */
  lemma {:induction false} DedupeKeepsOrder<T(!new)>(s: seq<T>, i: nat, j: nat)
    requires i < j < |Dedupe(s)|
    ensures OccursBefore(s, Dedupe(s)[i], Dedupe(s)[j])
  {
    var front, d := s[..|s| - 1], Dedupe(s[..|s| - 1]);
    DedupeKeepsElements(front);
    assert d[i] in d;
    if j < |d| {
      DedupeKeepsOrder(front, i, j);
      var p :| 0 <= p < |front| && front[p] == d[i] && d[j] !in front[..p + 1];
      assert s[..p + 1] == front[..p + 1];
    } else {
      var p :| 0 <= p < |front| && front[p] == d[i];
      assert forall x | x in s[..p + 1] :: x in front;
    }
  }
}
