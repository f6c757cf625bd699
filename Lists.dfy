/**
 * The java.util.List operations the game relies on, over Dafny sequences.
 * Lists of cards and players are compared by reference identity, which is
 * what `==` on class instances gives.
 */
module Lists {

  /** No element occurs twice. */
  predicate NoDup<T(==)>(s: seq<T>) {
    forall i, j :: 0 <= i < j < |s| ==> s[i] != s[j]
  }

  /** Without its last element, a list without repeats keeps none and does not hold that element. */
  lemma NoDupInit<T>(s: seq<T>)
    requires NoDup(s) && s != []
    ensures NoDup(s[..|s| - 1]) && s[|s| - 1] !in s[..|s| - 1]
  {
  }

  /** An element of a non-empty list lies before its last position or at it. */
  lemma InInitOrLast<T>(s: seq<T>, x: T)
    requires s != []
    ensures x in s <==> x in s[..|s| - 1] || x == s[|s| - 1]
  {
    assert s == s[..|s| - 1] + [s[|s| - 1]];
  }

  /** When `a` holds the elements of `b` and `extra`, `a + (r + e)` holds those of `b + r`, `extra` and `e`. */
  lemma MultisetRegroup<T>(a: seq<T>, b: seq<T>, r: seq<T>, e: seq<T>, extra: multiset<T>)
    requires multiset(a) == multiset(b) + extra
    ensures multiset(a + (r + e)) == multiset(b + r) + (extra + multiset(e))
  {
  }

  /** `r` is obtained from `s` by dropping some elements, keeping the order of the rest. */
  predicate Subsequence<T(==)>(r: seq<T>, s: seq<T>)
    decreases |s|
  {
    if s == [] then r == []
    else (r != [] && r[0] == s[0] && Subsequence(r[1..], s[1..])) || Subsequence(r, s[1..])
  }

  lemma {:induction false} SubsequenceMembers<T>(r: seq<T>, s: seq<T>)
    requires Subsequence(r, s)
    ensures |r| <= |s|
    ensures forall x :: x in r ==> x in s
    decreases |s|
  {
    if s != [] {
      if r != [] && r[0] == s[0] && Subsequence(r[1..], s[1..]) {
        SubsequenceMembers(r[1..], s[1..]);
        assert r == [r[0]] + r[1..];
      } else {
        SubsequenceMembers(r, s[1..]);
      }
    }
  }

  /** Keeping the same new last element on both sides keeps a subsequence a subsequence. */
  lemma {:induction false} SubsequenceSnoc<T>(r: seq<T>, s: seq<T>, x: T)
    requires Subsequence(r, s)
    ensures Subsequence(r + [x], s + [x])
    decreases |s|
  {
    if s == [] {
      assert r + [x] == [x] && s + [x] == [x];
      assert Subsequence<T>([], []);
    } else {
      assert (s + [x])[0] == s[0] && (s + [x])[1..] == s[1..] + [x];
      if r != [] && r[0] == s[0] && Subsequence(r[1..], s[1..]) {
        SubsequenceSnoc(r[1..], s[1..], x);
        assert (r + [x])[0] == r[0] && (r + [x])[1..] == r[1..] + [x];
      } else {
        SubsequenceSnoc(r, s[1..], x);
      }
    }
  }

  /** The sequence read back to front. */
  function Reversed<T>(s: seq<T>): (r: seq<T>)
    ensures |r| == |s|
    ensures forall i :: 0 <= i < |s| ==> r[i] == s[|s| - 1 - i]
  {
    if s == [] then [] else Reversed(s[1..]) + [s[0]]
  }

  /** `List.remove(int)`: the element at `i` is taken out, the others keep their order. */
  function RemoveAt<T>(s: seq<T>, i: nat): (r: seq<T>)
    requires i < |s|
    ensures |r| == |s| - 1
    ensures multiset(r) + multiset{s[i]} == multiset(s)
    ensures forall j :: 0 <= j < |r| ==> r[j] == if j < i then s[j] else s[j + 1]
  {
    assert s == s[..i] + [s[i]] + s[i + 1..];
    s[..i] + s[i + 1..]
  }

  /** `List.removeAll(r)`: every element of `s` that occurs in `r` is dropped. */
  function Without<T(==)>(s: seq<T>, r: seq<T>): seq<T> {
    if s == [] then [] else (if s[0] in r then [] else [s[0]]) + Without(s[1..], r)
  }

  /** The elements of `s` that occur in `r`, in the order of `s`: what `removeAll` drops. */
  function Only<T(==)>(s: seq<T>, r: seq<T>): seq<T> {
    if s == [] then [] else (if s[0] in r then [s[0]] else []) + Only(s[1..], r)
  }

  lemma {:induction false} WithoutMembers<T>(s: seq<T>, r: seq<T>)
    ensures forall x :: x in Without(s, r) <==> x in s && x !in r
  {
    if s != [] {
      WithoutMembers(s[1..], r);
      assert s == [s[0]] + s[1..];
    }
  }

  lemma {:induction false} WithoutSubsequence<T>(s: seq<T>, r: seq<T>)
    ensures Subsequence(Without(s, r), s)
  {
    if s != [] {
      WithoutSubsequence(s[1..], r);
      var w := Without(s, r);
      if s[0] !in r {
        assert w[0] == s[0] && w[1..] == Without(s[1..], r);
        assert Subsequence(w[1..], s[1..]);
      } else {
        assert w == Without(s[1..], r);
        assert Subsequence(w, s[1..]);
      }
    }
  }

  /** `removeAll` splits a list into what it keeps and what it drops; nothing is lost. */
  lemma {:induction false} WithoutOnlySplit<T>(s: seq<T>, r: seq<T>)
    ensures multiset(Without(s, r)) + multiset(Only(s, r)) == multiset(s)
  {
    if s != [] {
      WithoutOnlySplit(s[1..], r);
      assert s == [s[0]] + s[1..];
    }
  }

  lemma {:induction false} OnlyRespectsMembership<T>(s: seq<T>, r: seq<T>, r': seq<T>)
    requires forall x :: x in s ==> (x in r <==> x in r')
    ensures Only(s, r) == Only(s, r')
  {
    if s != [] {
      OnlyRespectsMembership(s[1..], r, r');
    }
  }

  /**
   * When `s` holds no element twice, dropping a subsequence `r` of `s` drops
   * exactly the elements of `r`, in the order of `r`.
   */
  lemma {:induction false} OnlyOfSubsequence<T>(s: seq<T>, r: seq<T>)
    requires NoDup(s) && Subsequence(r, s)
    ensures Only(s, r) == r
    decreases |s|
  {
    if s != [] {
      var t := s[1..];
      assert NoDup(t);
      assert s[0] !in t;
      if r != [] && r[0] == s[0] && Subsequence(r[1..], t) {
        SubsequenceMembers(r[1..], t);
        assert r == [r[0]] + r[1..];
        OnlyRespectsMembership(t, r, r[1..]);
        OnlyOfSubsequence(t, r[1..]);
      } else {
        SubsequenceMembers(r, t);
        OnlyOfSubsequence(t, r);
      }
    }
  }

  /** Removing a subsequence of a list without repeats leaves the rest of its multiset. */
  lemma RemoveSubsequence<T>(s: seq<T>, r: seq<T>)
    requires NoDup(s) && Subsequence(r, s)
    ensures multiset(Without(s, r)) + multiset(r) == multiset(s)
    ensures |Without(s, r)| + |r| == |s|
  {
    WithoutOnlySplit(s, r);
    OnlyOfSubsequence(s, r);
    assert |multiset(Without(s, r))| + |multiset(r)| == |multiset(s)|;
  }

  /** A subsequence of a prefix is a subsequence of the whole sequence. */
  lemma {:induction false} SubsequencePrefix<T>(r: seq<T>, s: seq<T>, t: seq<T>)
    requires Subsequence(r, s)
    ensures Subsequence(r, s + t)
    decreases |s| + |t|
  {
    if s == [] {
      assert r == [] && s + t == t;
      SubsequenceOfEmpty(r, t);
    } else {
      assert (s + t)[0] == s[0] && (s + t)[1..] == s[1..] + t;
      if r != [] && r[0] == s[0] && Subsequence(r[1..], s[1..]) {
        SubsequencePrefix(r[1..], s[1..], t);
      } else {
        SubsequencePrefix(r, s[1..], t);
      }
    }
  }

  /** The empty sequence is a subsequence of every sequence. */
  lemma {:induction false} SubsequenceOfEmpty<T>(r: seq<T>, t: seq<T>)
    requires r == []
    ensures Subsequence(r, t)
  {
    if t != [] {
      SubsequenceOfEmpty(r, t[1..]);
    }
  }

  /** A subsequence of a subsequence is a subsequence. */
  lemma {:induction false} SubsequenceTrans<T>(a: seq<T>, b: seq<T>, c: seq<T>)
    requires Subsequence(a, b) && Subsequence(b, c)
    ensures Subsequence(a, c)
    decreases |c|
  {
    if c != [] {
      if b != [] && b[0] == c[0] && Subsequence(b[1..], c[1..]) {
        if a != [] && a[0] == b[0] && Subsequence(a[1..], b[1..]) {
          SubsequenceTrans(a[1..], b[1..], c[1..]);
        } else {
          SubsequenceTrans(a, b[1..], c[1..]);
        }
      } else {
        SubsequenceTrans(a, b, c[1..]);
      }
    }
  }

  /** A list without repeats holds each element at most once. */
  lemma {:induction false} NoDupCount<T>(s: seq<T>)
    requires NoDup(s)
    ensures forall x :: multiset(s)[x] <= 1
  {
    if s != [] {
      var init := s[..|s| - 1];
      NoDupInit(s);
      NoDupCount(init);
      assert s == init + [s[|s| - 1]];
    }
  }

  /** A rearrangement of a list without repeats has no repeats. */
  lemma NoDupPermutes<T>(a: seq<T>, b: seq<T>)
    requires NoDup(a) && multiset(a) == multiset(b)
    ensures NoDup(b)
  {
    NoDupCount(a);
    forall i, j | 0 <= i < j < |b|
      ensures b[i] != b[j]
    {
      assert b == b[..j] + [b[j]] + b[j + 1..];
      assert b[i] in b[..j];
      assert multiset(b)[b[j]] == multiset(b[..j])[b[j]] + 1 + multiset(b[j + 1..])[b[j]];
    }
  }

  /** Position of the first occurrence of `x`. */
  function FirstIndex<T(==)>(s: seq<T>, x: T): (i: nat)
    requires x in s
    ensures i < |s| && s[i] == x && x !in s[..i]
  {
    if s[0] == x then 0 else 1 + FirstIndex(s[1..], x)
  }

  /** `List.indexOf`: the first position holding `x`, or -1. */
  method IndexOf<T(==)>(s: seq<T>, x: T) returns (i: int)
    ensures x in s ==> i == FirstIndex(s, x)
    ensures x !in s ==> i == -1
  {
    i := 0;
    while i < |s|
      invariant 0 <= i <= |s|
      invariant x !in s[..i]
    {
      if s[i] == x {
        assert forall k :: 0 <= k < i ==> s[k] != x by {
          assert forall k :: 0 <= k < i ==> s[k] == s[..i][k];
        }
        return;
      }
      assert s[..i + 1] == s[..i] + [s[i]];
      i := i + 1;
    }
    assert s[..i] == s;
    i := -1;
  }
}
