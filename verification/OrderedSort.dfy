/** Insertion sort over any total preorder, as Python's stable `sorted` and `list.sort` behave. */
module OrderedSort {
  ghost predicate TotalPreorder<T(!new)>(leq: (T, T) -> bool) {
    && (forall x, y :: leq(x, y) || leq(y, x))
    && (forall x, y, z :: leq(x, y) && leq(y, z) ==> leq(x, z))
  }

  ghost predicate Sorted<T>(s: seq<T>, leq: (T, T) -> bool) {
    forall i, j | 0 <= i < j < |s| :: leq(s[i], s[j])
  }

  /** Behind every element that is not larger: equivalent elements keep their order. */
  function Insert<T>(x: T, s: seq<T>, leq: (T, T) -> bool): seq<T> {
    if s == [] then [x]
    else if leq(s[|s| - 1], x) then s + [x]
    else Insert(x, s[..|s| - 1], leq) + [s[|s| - 1]]
  }

  function Sort<T>(s: seq<T>, leq: (T, T) -> bool): seq<T> {
    if s == [] then [] else Insert(s[|s| - 1], Sort(s[..|s| - 1], leq), leq)
  }

  lemma {:induction false} InsertPermutes<T>(x: T, s: seq<T>, leq: (T, T) -> bool)
    ensures multiset(Insert(x, s, leq)) == multiset(s) + multiset{x}
  {
    if s != [] && !leq(s[|s| - 1], x) {
      assert s == s[..|s| - 1] + [s[|s| - 1]];
      InsertPermutes(x, s[..|s| - 1], leq);
    }
  }

  lemma {:induction false} InsertSorts<T(!new)>(x: T, s: seq<T>, leq: (T, T) -> bool)
    requires TotalPreorder(leq) && Sorted(s, leq)
    ensures Sorted(Insert(x, s, leq), leq)
  {
    if s != [] {
      var front, last := s[..|s| - 1], s[|s| - 1];
      if leq(last, x) {
        forall i | 0 <= i < |s| ensures leq(s[i], x) {
          assert i == |s| - 1 || leq(s[i], last);
        }
      } else {
        InsertSorts(x, front, leq);
        InsertPermutes(x, front, leq);
        var r := Insert(x, front, leq);
        forall i | 0 <= i < |r| ensures leq(r[i], last) {
          assert r[i] in multiset(front) + multiset{x};
          assert leq(x, last);
        }
      }
    }
  }

  lemma {:induction false} SortSorts<T(!new)>(s: seq<T>, leq: (T, T) -> bool)
    requires TotalPreorder(leq)
    ensures Sorted(Sort(s, leq), leq)
    ensures multiset(Sort(s, leq)) == multiset(s) && |Sort(s, leq)| == |s|
  {
    if s != [] {
      hide Insert, Sorted, TotalPreorder;
      var front, last := s[..|s| - 1], s[|s| - 1];
      assert s == front + [last];
      SortSorts(front, leq);
      InsertSorts(last, Sort(front, leq), leq);
      InsertPermutes(last, Sort(front, leq), leq);
      assert |multiset(s)| == |multiset(Sort(s, leq))|;
    }
  }

  ghost predicate Equivalent<T>(x: T, y: T, leq: (T, T) -> bool) { leq(x, y) && leq(y, x) }

  /** The elements equivalent to x, in the order of s. */
  ghost function Class<T>(s: seq<T>, x: T, leq: (T, T) -> bool): seq<T> {
    if s == [] then []
    else Class(s[..|s| - 1], x, leq) + (if Equivalent(s[|s| - 1], x, leq) then [s[|s| - 1]] else [])
  }

  lemma {:induction false} InsertGoesLast<T(!new)>(y: T, s: seq<T>, x: T, leq: (T, T) -> bool)
    requires TotalPreorder(leq)
    ensures Class(Insert(y, s, leq), x, leq) == Class(s, x, leq) + (if Equivalent(y, x, leq) then [y] else [])
  {
    if s != [] {
      var front, last := s[..|s| - 1], s[|s| - 1];
      if leq(last, y) {
        assert (s + [y])[..|s|] == s;
      } else {
        var r := Insert(y, front, leq);
        InsertGoesLast(y, front, x, leq);
        assert (r + [last])[..|r|] == r;
        assert !(Equivalent(y, x, leq) && Equivalent(last, x, leq));
      }
    }
  }

  /** Equivalent elements keep the order they came in. */
  lemma {:induction false} SortIsStable<T(!new)>(s: seq<T>, x: T, leq: (T, T) -> bool)
    requires TotalPreorder(leq)
    ensures Class(Sort(s, leq), x, leq) == Class(s, x, leq)
  {
    if s != [] {
      hide Insert, TotalPreorder, Equivalent;
      SortIsStable(s[..|s| - 1], x, leq);
      InsertGoesLast(s[|s| - 1], Sort(s[..|s| - 1], leq), x, leq);
    }
  }
}
