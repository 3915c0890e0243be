/** Merging node updates into the state through reducers; the custom reducers `max_value` and `unique_append`. */
module Reducers {
  import opened Prelude

  // ----- merging updates -----

  type Reducer<!V> = (V, V) -> V

  function At<K, V>(m: map<K, V>, k: K): Option<V> {
    if k in m then Some(m[k]) else None
  }

  /** One field: a reducer is only used when the field is already there; the first write is stored as it is. */
  function MergedField<V>(current: Option<V>, update: Option<V>, reducer: Option<Reducer<V>>): Option<V> {
    if update.None? then current
    else if reducer.Some? && current.Some? then Some(reducer.value(current.value, update.value))
    else update
  }

  function Merged<K, V>(current: map<K, V>, update: map<K, V>, reducers: map<K, Reducer<V>>): map<K, V> {
    map k | k in current.Keys + update.Keys :: MergedField(At(current, k), At(update, k), At(reducers, k)).value
  }

  /** `result` agrees with `merged` outside `rest` and with `current` on it. */
  ghost predicate MergedExcept<K, V>(result: map<K, V>, rest: set<K>, current: map<K, V>, merged: map<K, V>) {
    && result.Keys == (merged.Keys - rest) + (current.Keys * rest)
    && forall k | k in result :: result[k] == if k in rest then current[k] else merged[k]
  }

  lemma MergeOne<K, V>(
      result: map<K, V>, rest: set<K>, current: map<K, V>, update: map<K, V>, reducers: map<K, Reducer<V>>, key: K)
    requires MergedExcept(result, rest, current, Merged(current, update, reducers))
    requires key in rest && rest <= update.Keys
    ensures
      var v := if key in reducers && key in current then reducers[key](current[key], update[key]) else update[key];
      MergedExcept(result[key := v], rest - {key}, current, Merged(current, update, reducers))
  {
    var merged := Merged(current, update, reducers);
    assert key in merged;
    assert merged[key] == MergedField(At(current, key), At(update, key), At(reducers, key)).value;
  }

  lemma MergeBounds<K, V>(
      current: map<K, V>, update: map<K, V>, reducers: map<K, Reducer<V>>, result: map<K, V>)
    ensures MergedExcept(current, update.Keys, current, Merged(current, update, reducers))
    ensures
      MergedExcept(result, {}, current, Merged(current, update, reducers))
      ==> result == Merged(current, update, reducers)
  {
    assert current.Keys == ((current.Keys + update.Keys) - update.Keys) + (current.Keys * update.Keys);
    var merged := Merged(current, update, reducers);
    if MergedExcept(result, {}, current, merged) {
      assert result.Keys == merged.Keys;
    }
  }

  method ApplyReducers<K(==), V>(current: map<K, V>, update: map<K, V>, reducers: map<K, Reducer<V>>)
    returns (result: map<K, V>)
    ensures result == Merged(current, update, reducers)
  {
    result := current;
    var rest := update.Keys;
    hide Merged, MergedExcept;
    MergeBounds(current, update, reducers, result);
    while rest != {}
      invariant rest <= update.Keys
      invariant MergedExcept(result, rest, current, Merged(current, update, reducers))
      decreases |rest|
    {
      var key :| key in rest;
      MergeOne(result, rest, current, update, reducers, key);
      if key in reducers && key in current {
        result := result[key := reducers[key](current[key], update[key])];
      } else {
        result := result[key := update[key]];
      }
      rest := rest - {key};
    }
    MergeBounds(current, update, reducers, result);
  }

  /** The state after a chain of nodes. */
  function Chain<K, V>(s: map<K, V>, updates: seq<map<K, V>>, reducers: map<K, Reducer<V>>): map<K, V> {
    if updates == [] then s
    else Merged(Chain(s, updates[..|updates| - 1], reducers), updates[|updates| - 1], reducers)
  }

  /** The values the chain writes to one field, in order. */
  function Writes<K, V>(updates: seq<map<K, V>>, k: K): seq<V> {
    if updates == [] then []
    else Writes(updates[..|updates| - 1], k) + if k in updates[|updates| - 1] then [updates[|updates| - 1][k]] else []
  }

  function Field<V>(current: Option<V>, writes: seq<V>, reducer: Option<Reducer<V>>): Option<V> {
    if writes == [] then current
    else MergedField(Field(current, writes[..|writes| - 1], reducer), Some(writes[|writes| - 1]), reducer)
  }

  /** MAIN RESULT: every field evolves by its own writes and its own reducer, whatever happens to the others. */
  lemma {:induction false} FieldsAreIndependent<K, V>(
      s: map<K, V>, updates: seq<map<K, V>>, reducers: map<K, Reducer<V>>, k: K)
    ensures At(Chain(s, updates, reducers), k) == Field(At(s, k), Writes(updates, k), At(reducers, k))
  {
    if updates != [] {
      var front, last := updates[..|updates| - 1], updates[|updates| - 1];
      FieldsAreIndependent(s, front, reducers, k);
      var ws := Writes(front, k);
      if k in last {
        assert (ws + [last[k]])[..|ws|] == ws;
      } else {
        assert Writes(updates, k) == ws;
      }
    } else {
      assert Writes(updates, k) == [];
    }
  }

  /** A value that is there from the start counts like a first write. */
  lemma {:induction false} StartCountsAsWrite<V>(c: V, writes: seq<V>, reducer: Option<Reducer<V>>)
    ensures Field(Some(c), writes, reducer) == Field(None, [c] + writes, reducer)
  {
    var all := [c] + writes;
    if writes == [] {
      assert all == [c] && all[..0] == [];
    } else {
      StartCountsAsWrite(c, writes[..|writes| - 1], reducer);
      assert all[..|all| - 1] == [c] + writes[..|writes| - 1];
    }
  }

  // ----- unique_append -----

  /** `xs or []`. */
  function OrEmpty<T>(xs: Option<seq<T>>): seq<T> {
    if xs.Some? then xs.value else []
  }

  function Extended<T(==)>(current: seq<T>, items: seq<T>): seq<T> {
    if items == [] then current
    else
      var result := Extended(current, items[..|items| - 1]);
      if items[|items| - 1] in result then result else result + [items[|items| - 1]]
  }

  method UniqueAppend<T(==)>(current: Option<seq<T>>, items: Option<seq<T>>) returns (result: seq<T>)
    ensures result == Extended(OrEmpty(current), OrEmpty(items))
  {
    var xs := OrEmpty(items);
    result := OrEmpty(current);
    for i := 0 to |xs|
      invariant result == Extended(OrEmpty(current), xs[..i])
    {
      assert xs[..i + 1][..i] == xs[..i];
      if xs[i] !in result {
        result := result + [xs[i]];
      }
    }
    assert xs[..|xs|] == xs;
  }

  function UniqueReducer<T(==)>(): Reducer<Option<seq<T>>> {
    (current, items) => Some(Extended(OrEmpty(current), OrEmpty(items)))
  }

  lemma {:induction false} ExtendedElements<T>(c: seq<T>, items: seq<T>, x: T)
    ensures x in Extended(c, items) <==> x in c || x in items
  {
    if items != [] {
      var front, last := items[..|items| - 1], items[|items| - 1];
      assert items == front + [last];
      ExtendedElements(c, front, x);
    }
  }

  lemma {:induction false} ExtendedTwice<T>(c: seq<T>, a: seq<T>, b: seq<T>)
    ensures Extended(c, a + b) == Extended(Extended(c, a), b)
  {
    if b == [] {
      assert a + b == a;
    } else {
      var all := a + b;
      assert all[..|all| - 1] == a + b[..|b| - 1];
      ExtendedTwice(c, a, b[..|b| - 1]);
    }
  }

  lemma {:induction false} DedupeExtends<T>(s: seq<T>)
    ensures Extended([], s) == Dedupe(s)
  {
    if s != [] { DedupeExtends(s[..|s| - 1]); }
  }

  lemma {:induction false} ExtendedDistinctIff<T>(c: seq<T>, items: seq<T>)
    ensures c <= Extended(c, items)
    ensures NoDuplicates(Extended(c, items)) <==> NoDuplicates(c)
  {
    if items != [] {
      ExtendedDistinctIff(c, items[..|items| - 1]);
    }
  }

  /** From a list without repetitions: first occurrences of everything, in order. */
  lemma ExtendedIsDedupe<T>(c: seq<T>, items: seq<T>)
    requires NoDuplicates(c)
    ensures Extended(c, items) == Dedupe(c + items)
  {
    DedupeExtends(c);
    DedupeOfDistinct(c);
    ExtendedTwice([], c, items);
    DedupeExtends(c + items);
  }

  /** MAIN RESULT: `unique_append` is associative on all lists, with or without repetitions. */
  lemma {:induction false} UniqueAppendAssociative<T>(a: seq<T>, b: seq<T>, c: seq<T>)
    ensures Extended(a, Extended(b, c)) == Extended(Extended(a, b), c)
  {
    if c != [] {
      var front, x := c[..|c| - 1], c[|c| - 1];
      UniqueAppendAssociative(a, b, front);
      var e := Extended(b, front);
      if x in e {
        ExtendedElements(a, e, x);
      } else {
        assert (e + [x])[..|e|] == e;
      }
    }
  }

  /** Appending what is already there changes nothing. */
  lemma {:induction false} UniqueAppendAbsorbs<T>(c: seq<T>, items: seq<T>)
    requires forall x | x in items :: x in c
    ensures Extended(c, items) == c
  {
    if items != [] {
      assert items[|items| - 1] in items;
      UniqueAppendAbsorbs(c, items[..|items| - 1]);
    }
  }

  lemma UniqueAppendIdempotent<T>(c: seq<T>, items: seq<T>)
    ensures Extended(c, c) == c
    ensures Extended(Extended(c, items), items) == Extended(c, items)
  {
    UniqueAppendAbsorbs(c, c);
    forall x | x in items ensures x in Extended(c, items) { ExtendedElements(c, items, x); }
    UniqueAppendAbsorbs(Extended(c, items), items);
  }

  /** Everything the writes mention, in order. */
  function Mentioned<T>(writes: seq<Option<seq<T>>>): seq<T> {
    if writes == [] then [] else Mentioned(writes[..|writes| - 1]) + OrEmpty(writes[|writes| - 1])
  }

  lemma {:induction false} FieldExtendsFirstWrite<T>(writes: seq<Option<seq<T>>>)
    returns (later: seq<T>)
    requires writes != []
    ensures Mentioned(writes) == OrEmpty(writes[0]) + later
    ensures
      Field(None, writes, Some(UniqueReducer<T>()))
      == Some(if |writes| == 1 then writes[0] else Some(Extended(OrEmpty(writes[0]), later)))
  {
    var n := |writes| - 1;
    var front := writes[..n];
    if n == 0 {
      assert front == [] && Mentioned(front) == [];
      later := [];
    } else {
      var before := FieldExtendsFirstWrite(front);
      later := before + OrEmpty(writes[n]);
      var first := OrEmpty(writes[0]);
      assert first + before + OrEmpty(writes[n]) == first + later;
      ExtendedTwice(first, before, OrEmpty(writes[n]));
      if n == 1 {
        assert first + before == Mentioned(front) == Mentioned(front[..0]) + first == first;
        assert before == [];
      }
    }
  }

  /** MAIN RESULT: the field ends up as the first occurrences of everything mentioned, in order, if and only if the
    * first write had no repetition: it is stored without passing through the reducer (a lone None stays None).
    */
  lemma UniqueFieldIsDedupeIff<T(!new)>(writes: seq<Option<seq<T>>>)
    requires writes != []
    ensures
      Field(None, writes, Some(UniqueReducer<T>())) == Some(Some(Dedupe(Mentioned(writes))))
      <==> if writes[0].Some? then NoDuplicates(writes[0].value) else |writes| > 1
  {
    var later := FieldExtendsFirstWrite(writes);
    var first := OrEmpty(writes[0]);
    ExtendedDistinctIff(first, later);
    if NoDuplicates(first) { ExtendedIsDedupe(first, later); }
    DedupeKeepsElements(Mentioned(writes));
    if |writes| == 1 {
      LoneWrite(writes, first, later);
    }
  }

  lemma LoneWrite<T>(writes: seq<Option<seq<T>>>, first: seq<T>, later: seq<T>)
    requires |writes| == 1 && first == OrEmpty(writes[0]) && Mentioned(writes) == first + later
    ensures later == []
  {
    assert writes[..0] == [];
    assert Mentioned(writes) == [] + first;
  }

  lemma {:induction false} MentionedElements<T>(writes: seq<Option<seq<T>>>, x: T)
    ensures x in Mentioned(writes) <==> exists w | w in writes :: x in OrEmpty(w)
  {
    if writes != [] {
      var front, last := writes[..|writes| - 1], writes[|writes| - 1];
      assert writes == front + [last];
      MentionedElements(front, x);
    }
  }

  /** MAIN RESULT: as a set, the field is the union of all writes, so their order does not matter. */
  lemma UniqueFieldIgnoresOrder<T>(writes: seq<Option<seq<T>>>, other: seq<Option<seq<T>>>, x: T)
    requires writes != [] && multiset(writes) == multiset(other)
    ensures
      x in OrEmpty(Field(None, writes, Some(UniqueReducer<T>())).value)
      <==> exists w | w in writes :: x in OrEmpty(w)
    ensures other != [] && Field(None, other, Some(UniqueReducer<T>())).Some?
    ensures
      x in OrEmpty(Field(None, other, Some(UniqueReducer<T>())).value)
      <==> x in OrEmpty(Field(None, writes, Some(UniqueReducer<T>())).value)
  {
    assert |multiset(writes)| == |writes| && |multiset(other)| == |other|;
    UniqueFieldElements(writes, x);
    UniqueFieldElements(other, x);
    assert forall w :: w in writes <==> w in multiset(writes);
    assert forall w :: w in other <==> w in multiset(other);
  }

  lemma UniqueFieldElements<T>(writes: seq<Option<seq<T>>>, x: T)
    requires writes != []
    ensures Field(None, writes, Some(UniqueReducer<T>())).Some?
    ensures
      x in OrEmpty(Field(None, writes, Some(UniqueReducer<T>())).value)
      <==> exists w | w in writes :: x in OrEmpty(w)
  {
    var later := FieldExtendsFirstWrite(writes);
    MentionedElements(writes, x);
    ExtendedElements(OrEmpty(writes[0]), later, x);
    if |writes| == 1 { LoneWrite(writes, OrEmpty(writes[0]), later); }
  }

  // ----- max_value -----

  /** `x or 0`. */
  function OrZero(x: Option<int>): int {
    if x.Some? then x.value else 0
  }

  function Max(a: int, b: int): int { if a < b then b else a }

  function MaxReducer(): Reducer<Option<int>> {
    (current, value) => Some(Max(OrZero(current), OrZero(value)))
  }

  /** m is the largest write, None counting as 0. */
  ghost predicate IsLargest(writes: seq<Option<int>>, m: int) {
    && (forall w | w in writes :: if w.Some? then w.value <= m else 0 <= m)
    && (Some(m) in writes || (m == 0 && None in writes))
  }

  lemma LargestIsUnique(writes: seq<Option<int>>, other: seq<Option<int>>, m: int, m': int)
    requires multiset(writes) == multiset(other) && IsLargest(writes, m) && IsLargest(other, m')
    ensures m == m'
  {
    assert forall w :: w in writes <==> w in multiset(writes);
    assert forall w :: w in other <==> w in multiset(other);
  }

  lemma LargestGrows(writes: seq<Option<int>>, m: int, w: Option<int>)
    requires IsLargest(writes, m)
    ensures IsLargest(writes + [w], Max(m, OrZero(w)))
  {
    var all := writes + [w];
    assert w in all;
    forall x | x in writes ensures x in all {}
  }

  lemma {:induction false} MaxFieldOfSeveral(writes: seq<Option<int>>)
    requires |writes| > 1
    ensures
      var final := Field(None, writes, Some(MaxReducer()));
      final.Some? && final.value.Some? && IsLargest(writes, final.value.value)
  {
    var n := |writes| - 1;
    var front, last := writes[..n], writes[n];
    assert writes == front + [last];
    if n > 1 {
      MaxFieldOfSeveral(front);
      LargestGrows(front, Field(None, front, Some(MaxReducer())).value.value, last);
    } else {
      MaxFieldOfOne(front);
      LargestGrows(front, OrZero(front[0]), last);
    }
  }

  lemma MaxFieldOfOne(writes: seq<Option<int>>)
    requires |writes| == 1
    ensures Field(None, writes, Some(MaxReducer())) == Some(writes[0]) && IsLargest(writes, OrZero(writes[0]))
  {
    assert writes[..0] == [] && writes[0] in writes;
  }

  /** MAIN RESULT: the field ends up as the largest write if and only if there was more than one or the only one was
    * not None: a single write is stored without passing through the reducer.
    */
  lemma MaxFieldIsLargestIff(writes: seq<Option<int>>)
    requires writes != []
    ensures
      var final := Field(None, writes, Some(MaxReducer()));
      && final.Some?
      && (final.value.Some? && IsLargest(writes, final.value.value) <==> |writes| > 1 || writes[0].Some?)
  {
    if |writes| > 1 {
      MaxFieldOfSeveral(writes);
    } else {
      MaxFieldOfOne(writes);
    }
  }

  /** The floor of 0 that the declared default promises is kept if and only if the field is not left None by a lone
    * write and some write is None or not negative: `x or 0` leaves a negative x alone.
    */
  lemma MaxFieldIsAtLeastZeroIff(writes: seq<Option<int>>)
    requires writes != []
    ensures
      var final := Field(None, writes, Some(MaxReducer()));
      && final.Some?
      && (final.value.Some? && final.value.value >= 0
          <==> (|writes| > 1 || writes[0].Some?) && exists w | w in writes :: w.None? || w.value >= 0)
  {
    if |writes| > 1 {
      MaxFieldOfSeveral(writes);
    } else {
      MaxFieldOfOne(writes);
      assert forall w | w in writes :: w == writes[0];
      assert writes[0] in writes;
    }
  }

  /** Two negative writes stay below the default. */
  lemma NegativesStayNegative()
    ensures Field(None, [Some(-5), Some(-3)], Some(MaxReducer())) == Some(Some(-3))
  {
    var writes: seq<Option<int>> := [Some(-5), Some(-3)];
    assert writes[..1] == [Some(-5)];
    MaxFieldOfOne(writes[..1]);
  }

  /** A first write with a repetition keeps it. */
  lemma RepetitionStays()
    ensures Field(None, [Some([1, 1])], Some(UniqueReducer<int>())) == Some(Some([1, 1]))
  {
    var writes: seq<Option<seq<int>>> := [Some([1, 1])];
    assert writes[..0] == [];
  }

  lemma MaxFieldIgnoresOrder(writes: seq<Option<int>>, other: seq<Option<int>>)
    requires |writes| > 1 && multiset(writes) == multiset(other)
    ensures Field(None, writes, Some(MaxReducer())) == Field(None, other, Some(MaxReducer()))
  {
    assert |multiset(writes)| == |writes| && |multiset(other)| == |other|;
    MaxFieldOfSeveral(writes);
    MaxFieldOfSeveral(other);
    LargestIsUnique(writes, other, Field(None, writes, Some(MaxReducer())).value.value,
                    Field(None, other, Some(MaxReducer())).value.value);
  }
}
