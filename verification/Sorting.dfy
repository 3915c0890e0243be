/** `sorted(xs, key=...)`: a stable sort by a string key, and why distinct keys leave no choice. */
module Sorting {
  import OrderedSort

  /** Lexicographic order on strings, by code point. */
  predicate Leq(a: string, b: string) {
    a == "" || (b != "" && (a[0] < b[0] || (a[0] == b[0] && Leq(a[1..], b[1..]))))
  }

  lemma {:induction false} LeqTotal(a: string, b: string)
    ensures Leq(a, b) || Leq(b, a)
  {
    if a != "" && b != "" { LeqTotal(a[1..], b[1..]); }
  }

  lemma {:induction false} LeqTransitive(a: string, b: string, c: string)
    requires Leq(a, b) && Leq(b, c)
    ensures Leq(a, c)
  {
    if a != "" && a[0] == b[0] && b[0] == c[0] { LeqTransitive(a[1..], b[1..], c[1..]); }
  }

  lemma {:induction false} LeqAntisymmetric(a: string, b: string)
    requires Leq(a, b) && Leq(b, a)
    ensures a == b
  {
    if a != "" {
      LeqAntisymmetric(a[1..], b[1..]);
      assert a == [a[0]] + a[1..] && b == [b[0]] + b[1..];
    }
  }

  /** a and b agree before position k, where a has the smaller character. */
  ghost predicate SmallerAt(a: string, b: string, k: nat) {
    k < |a| && k < |b| && a[..k] == b[..k] && a[k] < b[k]
  }

  /** The order of a dictionary: a prefix comes first, otherwise the first difference decides. */
  lemma {:induction false} LeqIff(a: string, b: string)
    ensures Leq(a, b) <==> a <= b || exists k: nat :: SmallerAt(a, b, k)
  {
    if a != "" && b != "" {
      forall k: nat | 0 < k && SmallerAt(a, b, k) ensures a[0] == b[0] {
        assert a[..k][0] == b[..k][0];
      }
      if a[0] != b[0] {
        assert a[0] < b[0] ==> SmallerAt(a, b, 0);
      } else {
        LeqIff(a[1..], b[1..]);
        assert a == [a[0]] + a[1..] && b == [b[0]] + b[1..];
        if k: nat :| SmallerAt(a, b, k) {
          assert a[1..][..k - 1] == a[..k][1..] && b[1..][..k - 1] == b[..k][1..];
          assert SmallerAt(a[1..], b[1..], k - 1);
        }
        if k: nat :| SmallerAt(a[1..], b[1..], k) {
          assert a[..k + 1] == [a[0]] + a[1..][..k] && b[..k + 1] == [b[0]] + b[1..][..k];
          assert SmallerAt(a, b, k + 1);
        }
      }
    }
  }

  /** The order of the keys. */
  function ByKey<T>(key: T -> string): (T, T) -> bool { (x, y) => Leq(key(x), key(y)) }

  function Sort<T>(s: seq<T>, key: T -> string): seq<T> { OrderedSort.Sort(s, ByKey(key)) }

  ghost predicate Sorted<T>(s: seq<T>, key: T -> string) {
    forall i, j | 0 <= i < j < |s| :: Leq(key(s[i]), key(s[j]))
  }

  ghost predicate DistinctKeys<T>(s: seq<T>, key: T -> string) {
    forall i, j | 0 <= i < j < |s| :: key(s[i]) != key(s[j])
  }

  lemma KeysAreOrdered<T(!new)>(key: T -> string)
    ensures OrderedSort.TotalPreorder(ByKey(key))
  {
    hide Leq;
    forall x: T, y: T ensures ByKey(key)(x, y) || ByKey(key)(y, x) { LeqTotal(key(x), key(y)); }
    forall x: T, y: T, z: T | ByKey(key)(x, y) && ByKey(key)(y, z) ensures ByKey(key)(x, z) {
      LeqTransitive(key(x), key(y), key(z));
    }
  }

  lemma SortSorts<T(!new)>(s: seq<T>, key: T -> string)
    ensures Sorted(Sort(s, key), key)
    ensures multiset(Sort(s, key)) == multiset(s)
  {
    hide Leq, OrderedSort.Sort;
    KeysAreOrdered(key);
    OrderedSort.SortSorts(s, ByKey(key));
    var r := Sort(s, key);
    forall i, j | 0 <= i < j < |r| ensures Leq(key(r[i]), key(r[j])) {
      assert ByKey(key)(r[i], r[j]);
    }
  }

  lemma MultisetFront<T>(s: seq<T>)
    requires s != []
    ensures multiset(s) == multiset(s[..|s| - 1]) + multiset{s[|s| - 1]}
  {
    assert s == s[..|s| - 1] + [s[|s| - 1]];
  }

  lemma {:induction false} LeqReflexive(a: string)
    ensures Leq(a, a)
  {
    if a != "" { LeqReflexive(a[1..]); }
  }

  lemma HeadsAgree<T>(a: seq<T>, b: seq<T>, key: T -> string)
    requires Sorted(a, key) && Sorted(b, key) && a != [] && b != []
    requires a[0] in b && b[0] in a && DistinctKeys(a, key)
    ensures a[0] == b[0]
  {
    var i :| 0 <= i < |a| && a[i] == b[0];
    var j :| 0 <= j < |b| && b[j] == a[0];
    LeqReflexive(key(a[0]));
    LeqReflexive(key(b[0]));
    LeqAntisymmetric(key(a[0]), key(b[0]));
  }

  lemma MultisetTail<T>(a: seq<T>)
    requires a != []
    ensures a == [a[0]] + a[1..] && multiset(a[1..]) == multiset(a) - multiset{a[0]}
  {
    assert a == [a[0]] + a[1..];
  }

  /** Sequences with equal multisets are sorted alike, provided no two elements share a key. */
  lemma {:induction false} SortedUnique<T>(a: seq<T>, b: seq<T>, key: T -> string)
    requires Sorted(a, key) && Sorted(b, key) && multiset(a) == multiset(b)
    requires DistinctKeys(a, key)
    ensures a == b
  {
    hide Leq;
    if a == [] {
      assert |b| == |multiset(b)|;
    } else {
      assert a[0] in multiset(b) && b[0] in multiset(a);
      HeadsAgree(a, b, key);
      MultisetTail(a);
      MultisetTail(b);
      SortedUnique(a[1..], b[1..], key);
    }
  }

  lemma {:induction false} DistinctKeysPermute<T>(a: seq<T>, b: seq<T>, key: T -> string)
    requires multiset(a) == multiset(b) && DistinctKeys(a, key)
    ensures DistinctKeys(b, key)
  {
    forall i, j | 0 <= i < j < |b| ensures key(b[i]) != key(b[j]) {
      assert b == b[..i] + [b[i]] + b[i + 1..j] + [b[j]] + b[j + 1..];
      var x, y := b[i], b[j];
      assert x in multiset(a) && y in multiset(a);
      if x == y {
        assert multiset(a)[x] >= 2;
        TwiceHasTwoPlaces(a, x);
      }
    }
  }

  lemma {:induction false} TwiceHasTwoPlaces<T>(a: seq<T>, x: T)
    requires multiset(a)[x] >= 2
    ensures exists i, j :: 0 <= i < j < |a| && a[i] == x && a[j] == x
  {
    assert a == a[..|a| - 1] + [a[|a| - 1]];
    var front := a[..|a| - 1];
    if a[|a| - 1] == x {
      assert x in multiset(front);
      var i :| 0 <= i < |front| && front[i] == x;
      assert a[i] == x && a[|a| - 1] == x;
    } else {
      TwiceHasTwoPlaces(front, x);
      var i, j :| 0 <= i < j < |front| && front[i] == x && front[j] == x;
      assert a[i] == x && a[j] == x;
    }
  }

  /** MAIN RESULT: with distinct keys the result of sorting does not depend on the order of the input. */
  lemma SortIgnoresOrder<T(!new)>(a: seq<T>, b: seq<T>, key: T -> string)
    requires multiset(a) == multiset(b) && DistinctKeys(a, key)
    ensures Sort(a, key) == Sort(b, key)
  {
    SortSorts(a, key);
    SortSorts(b, key);
    DistinctKeysPermute(a, Sort(a, key), key);
    SortedUnique(Sort(a, key), Sort(b, key), key);
  }
}
