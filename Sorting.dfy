/**
 * `Collections.sort` with a comparator, as the winner ranking and the dice
 * tie-breaker use it. Java's sort is stable, so its result is determined by
 * the comparator alone; a stable insertion sort gives that same result.
 * Each element's key is read from a map (the player's rank or dice roll),
 * and `before(a, b)` says that key `a` sorts strictly before key `b`.
 */
module Sorting {

  /** No key sorts strictly before itself. */
  ghost predicate Irreflexive<K(!new)>(before: (K, K) -> bool) {
    forall a :: !before(a, a)
  }

  /** `before` is irreflexive and transitive. */
  ghost predicate StrictOrder<K(!new)>(before: (K, K) -> bool) {
    && Irreflexive(before)
    && (forall a, b, c :: before(a, b) && before(b, c) ==> before(a, c))
  }

  /** Every element has a key. */
  predicate Keyed<T(==), K>(s: seq<T>, key: map<T, K>) {
    forall x :: x in s ==> x in key
  }

  /** No element sorts strictly before an element to its left. */
  ghost predicate SortedBy<T, K>(s: seq<T>, key: map<T, K>, before: (K, K) -> bool)
    requires Keyed(s, key)
  {
    forall i, j :: 0 <= i < j < |s| ==> !before(key[s[j]], key[s[i]])
  }

  /** Stable insertion: `x` goes after every element that does not sort strictly after it. */
  function Insert<T(==), K>(x: T, s: seq<T>, key: map<T, K>, before: (K, K) -> bool): (r: seq<T>)
    requires x in key && Keyed(s, key)
    ensures |r| == |s| + 1 && Keyed(r, key)
  {
    if s == [] then [x]
    else if before(key[x], key[s[0]]) then [x] + s
    else
      assert s == [s[0]] + s[1..];
      [s[0]] + Insert(x, s[1..], key, before)
  }

  /** Insertion adds `x` and loses nothing. */
  lemma {:induction false} InsertPermutes<T, K>(x: T, s: seq<T>, key: map<T, K>, before: (K, K) -> bool)
    requires x in key && Keyed(s, key)
    ensures multiset(Insert(x, s, key, before)) == multiset(s) + multiset{x}
  {
    if s != [] && !before(key[x], key[s[0]]) {
      assert s == [s[0]] + s[1..];
      InsertPermutes(x, s[1..], key, before);
    }
  }

  /** Inserting the elements one by one, from the first to the last. */
  function Sort<T(==), K>(s: seq<T>, key: map<T, K>, before: (K, K) -> bool): (r: seq<T>)
    requires Keyed(s, key)
    ensures |r| == |s| && Keyed(r, key)
  {
    if s == [] then []
    else
      assert s == s[..|s| - 1] + [s[|s| - 1]];
      Insert(s[|s| - 1], Sort(s[..|s| - 1], key, before), key, before)
  }

  /** Sorting rearranges the list: it loses and invents no element. */
  lemma {:induction false} SortPermutes<T, K>(s: seq<T>, key: map<T, K>, before: (K, K) -> bool)
    requires Keyed(s, key)
    ensures multiset(Sort(s, key, before)) == multiset(s)
  {
    if s != [] {
      var init := s[..|s| - 1];
      assert s == init + [s[|s| - 1]];
      SortPermutes(init, key, before);
      InsertPermutes(s[|s| - 1], Sort(init, key, before), key, before);
    }
  }

  /** Sorting keeps exactly the members of the list. */
  lemma SortMembers<T, K>(s: seq<T>, key: map<T, K>, before: (K, K) -> bool)
    requires Keyed(s, key)
    ensures forall x :: x in Sort(s, key, before) <==> x in s
  {
    SortPermutes(s, key, before);
    forall x ensures x in Sort(s, key, before) <==> x in s {
      assert x in Sort(s, key, before) <==> x in multiset(Sort(s, key, before));
      assert x in s <==> x in multiset(s);
    }
  }

  /** The elements of `s` whose key is `k`, in the order of `s`. */
  ghost function WithKey<T, K>(s: seq<T>, key: map<T, K>, k: K): seq<T>
    requires Keyed(s, key)
  {
    if s == [] then [] else (if key[s[0]] == k then [s[0]] else []) + WithKey(s[1..], key, k)
  }

  lemma {:induction false} WithKeyAppend<T, K>(s: seq<T>, t: seq<T>, key: map<T, K>, k: K)
    requires Keyed(s, key) && Keyed(t, key)
    ensures Keyed(s + t, key)
    ensures WithKey(s + t, key, k) == WithKey(s, key, k) + WithKey(t, key, k)
  {
    if s == [] {
      assert s + t == t;
    } else {
      assert (s + t)[0] == s[0] && (s + t)[1..] == s[1..] + t;
      WithKeyAppend(s[1..], t, key, k);
    }
  }

  lemma {:induction false} InsertSorted<T, K(!new)>(x: T, s: seq<T>, key: map<T, K>, before: (K, K) -> bool)
    requires StrictOrder(before)
    requires x in key && Keyed(s, key) && SortedBy(s, key, before)
    ensures SortedBy(Insert(x, s, key, before), key, before)
  {
    if s != [] && !before(key[x], key[s[0]]) {
      var t := Insert(x, s[1..], key, before);
      InsertSorted(x, s[1..], key, before);
      InsertPermutes(x, s[1..], key, before);
      forall y | y in t
        ensures !before(key[y], key[s[0]])
      {
        assert y in multiset(t);
        if y != x {
          assert y in s[1..];
        }
      }
    }
  }

  /** The sorted result is ordered by `before`. */
  lemma {:induction false} SortSorted<T, K(!new)>(s: seq<T>, key: map<T, K>, before: (K, K) -> bool)
    requires StrictOrder(before) && Keyed(s, key)
    ensures SortedBy(Sort(s, key, before), key, before)
  {
    if s != [] {
      SortSorted(s[..|s| - 1], key, before);
      InsertSorted(s[|s| - 1], Sort(s[..|s| - 1], key, before), key, before);
    }
  }

  lemma {:induction false} InsertStable<T, K(!new)>(x: T, s: seq<T>, key: map<T, K>, before: (K, K) -> bool, k: K)
    requires Irreflexive(before)
    requires x in key && Keyed(s, key) && SortedBy(s, key, before)
    ensures WithKey(Insert(x, s, key, before), key, k)
         == WithKey(s, key, k) + (if key[x] == k then [x] else [])
  {
    var e := if key[x] == k then [x] else [];
    if s == [] {
      WithKeyCons(x, [], key, k);
      assert WithKey(Insert(x, s, key, before), key, k) == e + [];
    } else if before(key[x], key[s[0]]) {
      InsertFront(x, s, key, before, k);
    } else {
      var h := if key[s[0]] == k then [s[0]] else [];
      var t := Insert(x, s[1..], key, before);
      assert Insert(x, s, key, before) == [s[0]] + t;
      SortedTail(s, key, before);
      InsertStable(x, s[1..], key, before, k);
      WithKeyCons(s[0], t, key, k);
      WithKeyCons(s[0], s[1..], key, k);
      assert [s[0]] + s[1..] == s;
      assert h + (WithKey(s[1..], key, k) + e) == (h + WithKey(s[1..], key, k)) + e;
    }
  }

  /** An element sorting before the whole list goes in front, ahead of no element of its own key. */
  lemma InsertFront<T, K(!new)>(x: T, s: seq<T>, key: map<T, K>, before: (K, K) -> bool, k: K)
    requires Irreflexive(before)
    requires x in key && Keyed(s, key) && SortedBy(s, key, before)
    requires s != [] && before(key[x], key[s[0]])
    ensures WithKey(Insert(x, s, key, before), key, k)
         == WithKey(s, key, k) + (if key[x] == k then [x] else [])
  {
    var e := if key[x] == k then [x] else [];
    assert Insert(x, s, key, before) == [x] + s;
    WithKeyCons(x, s, key, k);
    if key[x] == k {
      forall i | 0 <= i < |s|
        ensures key[s[i]] != k
      {
        assert !before(key[s[i]], key[s[0]]);
      }
      WithKeyNone(s, key, k);
      assert WithKey(s, key, k) + e == e;
    } else {
      assert e + WithKey(s, key, k) == WithKey(s, key, k) + e;
    }
  }

  /** WithKey of a list with one more element in front. */
  lemma WithKeyCons<T, K>(y: T, t: seq<T>, key: map<T, K>, k: K)
    requires y in key && Keyed(t, key)
    ensures Keyed([y] + t, key)
    ensures WithKey([y] + t, key, k) == (if key[y] == k then [y] else []) + WithKey(t, key, k)
  {
    assert ([y] + t)[0] == y && ([y] + t)[1..] == t;
  }

  /** The tail of a sorted list is sorted. */
  lemma SortedTail<T, K>(s: seq<T>, key: map<T, K>, before: (K, K) -> bool)
    requires s != [] && Keyed(s, key) && SortedBy(s, key, before)
    ensures Keyed(s[1..], key) && SortedBy(s[1..], key, before)
  {
    forall i, j | 0 <= i < j < |s[1..]|
      ensures !before(key[s[1..][j]], key[s[1..][i]])
    {
      assert s[1..][j] == s[j + 1] && s[1..][i] == s[i + 1];
    }
  }

  lemma {:induction false} WithKeyNone<T, K>(s: seq<T>, key: map<T, K>, k: K)
    requires Keyed(s, key)
    requires forall i :: 0 <= i < |s| ==> key[s[i]] != k
    ensures WithKey(s, key, k) == []
  {
    if s != [] {
      WithKeyNone(s[1..], key, k);
    }
  }

  /** Stability: the elements of each key keep their relative order. */
  lemma {:induction false} SortStable<T, K(!new)>(s: seq<T>, key: map<T, K>, before: (K, K) -> bool, k: K)
    requires StrictOrder(before) && Keyed(s, key)
    ensures WithKey(Sort(s, key, before), key, k) == WithKey(s, key, k)
  {
    if s != [] {
      var init, last := s[..|s| - 1], s[|s| - 1];
      assert s == init + [last];
      assert Keyed(init, key) && last in key;
      SortStable(init, key, before, k);
      SortSorted(init, key, before);
      InsertStable(last, Sort(init, key, before), key, before, k);
      WithKeyAppend(init, [last], key, k);
      assert WithKey([last], key, k) == if key[last] == k then [last] else [] by {
        WithKeyCons(last, [], key, k);
        assert [last] + [] == [last];
      }
    }
  }

  /** The in-place sort: each element in turn is inserted into the sorted prefix. */
  method InsertionSort<T(==), K>(s: seq<T>, key: map<T, K>, before: (K, K) -> bool) returns (r: seq<T>)
    requires Keyed(s, key)
    ensures r == Sort(s, key, before)
  {
    r := [];
    for i := 0 to |s|
      invariant r == Sort(s[..i], key, before)
    {
      SortSnoc(s, key, before, i);
      r := Insert(s[i], r, key, before);
    }
    assert s[..|s|] == s;
  }

  /** Sorting one more element inserts it into the sorted prefix. */
  lemma SortSnoc<T, K>(s: seq<T>, key: map<T, K>, before: (K, K) -> bool, i: nat)
    requires Keyed(s, key) && i < |s|
    ensures Keyed(s[..i], key) && Keyed(s[..i + 1], key) && s[i] in key
    ensures Sort(s[..i + 1], key, before) == Insert(s[i], Sort(s[..i], key, before), key, before)
  {
    assert s[..i + 1][..i] == s[..i];
    assert s[i] in s;
    assert forall x :: x in s[..i + 1] ==> x in s;
  }
}
