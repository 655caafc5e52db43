/**
 * Python's `sorted(xs)` and `xs.sort(key=..., reverse=...)`: a stable sort.
 * It is written here as insertion sort on sequences, ordered by a key and a
 * strict order on keys; an element goes after every element it does not
 * precede, which keeps equal keys in their original order.
 */
module Sorting {
  import opened Strings

  function Insert<T, K>(x: T, s: seq<T>, key: T -> K, less: (K, K) -> bool): (r: seq<T>)
    ensures |r| == |s| + 1
  {
    if s == [] then [x]
    else if less(key(x), key(s[0])) then [x] + s
    else [s[0]] + Insert(x, s[1..], key, less)
  }

  /** `sorted(s, key=key)`: as many elements as `s` (see `SortByPermutes`,
      `SortBySorted` and `SortByStable` for which, in what order). */
  function SortBy<T, K>(s: seq<T>, key: T -> K, less: (K, K) -> bool): (r: seq<T>)
    ensures |r| == |s|
  {
    if s == [] then []
    else Insert(s[|s| - 1], SortBy(s[..|s| - 1], key, less), key, less)
  }

  /** `less` is irreflexive and transitive, as `<` on keys is. */
  ghost predicate StrictOrder<K(!new)>(less: (K, K) -> bool) {
    && (forall a :: !less(a, a))
    && (forall a, b, c :: less(a, b) && less(b, c) ==> less(a, c))
  }

  /** No element is preceded by one that should come after it. */
  predicate Sorted<T, K>(s: seq<T>, key: T -> K, less: (K, K) -> bool) {
    forall i, j :: 0 <= i < j < |s| ==> !less(key(s[j]), key(s[i]))
  }

  /** The elements of `s` whose key is `k`, in order. */
  function WithKey<T, K(==)>(s: seq<T>, key: T -> K, k: K): seq<T>
  {
    if s == [] then [] else (if key(s[0]) == k then [s[0]] else []) + WithKey(s[1..], key, k)
  }

  lemma {:induction false} InsertPermutes<T, K>(x: T, s: seq<T>, key: T -> K, less: (K, K) -> bool)
    ensures multiset(Insert(x, s, key, less)) == multiset(s) + multiset{x}
  {
    if s != [] && !less(key(x), key(s[0])) {
      InsertPermutes(x, s[1..], key, less);
      assert s == [s[0]] + s[1..];
    }
  }

  /** Every element of `Insert(x, s)` is `x` or an element of `s`. */
  lemma {:induction false} InsertMember<T, K>(x: T, s: seq<T>, key: T -> K, less: (K, K) -> bool, y: T)
    requires y in Insert(x, s, key, less)
    ensures y == x || y in s
  {
    if s != [] && !less(key(x), key(s[0])) && y != s[0] {
      InsertMember(x, s[1..], key, less, y);
    }
  }

  lemma {:induction false} InsertSorted<T, K(!new)>(x: T, s: seq<T>, key: T -> K, less: (K, K) -> bool)
    requires StrictOrder(less)
    requires Sorted(s, key, less)
    ensures Sorted(Insert(x, s, key, less), key, less)
  {
    if s == [] {
    } else if less(key(x), key(s[0])) {
      var r := [x] + s;
      assert forall i, j :: 0 <= i < j < |r| ==> !less(key(r[j]), key(r[i]));
    } else {
      InsertSorted(x, s[1..], key, less);
      var tail := Insert(x, s[1..], key, less);
      var r := [s[0]] + tail;
      forall i, j | 0 <= i < j < |r|
        ensures !less(key(r[j]), key(r[i]))
      {
        if i == 0 {
          var y := tail[j - 1];
          assert r[j] == y && y in tail;
          InsertMember(x, s[1..], key, less, y);
          if y != x {
            assert y in s[1..];
            var m :| 0 <= m < |s| - 1 && s[1..][m] == y;
            assert s[m + 1] == y;
          }
        } else {
          assert r[i] == tail[i - 1] && r[j] == tail[j - 1];
        }
      }
    }
  }

  /** `sorted` puts every pair of elements in order. */
  lemma {:induction false} SortBySorted<T, K(!new)>(s: seq<T>, key: T -> K, less: (K, K) -> bool)
    requires StrictOrder(less)
    ensures Sorted(SortBy(s, key, less), key, less)
  {
    if s != [] {
      SortBySorted(s[..|s| - 1], key, less);
      InsertSorted(s[|s| - 1], SortBy(s[..|s| - 1], key, less), key, less);
    }
  }

  /** `sorted` returns a permutation of its input. */
  lemma {:induction false} SortByPermutes<T, K>(s: seq<T>, key: T -> K, less: (K, K) -> bool)
    ensures multiset(SortBy(s, key, less)) == multiset(s)
  {
    if s != [] {
      SortByPermutes(s[..|s| - 1], key, less);
      InsertPermutes(s[|s| - 1], SortBy(s[..|s| - 1], key, less), key, less);
      assert s == s[..|s| - 1] + [s[|s| - 1]];
    }
  }

  lemma {:induction false} WithKeyAppend<T, K>(a: seq<T>, b: seq<T>, key: T -> K, k: K)
    ensures WithKey(a + b, key, k) == WithKey(a, key, k) + WithKey(b, key, k)
  {
    if a != [] {
      WithKeyAppend(a[1..], b, key, k);
      var head := if key(a[0]) == k then [a[0]] else [];
      calc {
        WithKey(a + b, key, k);
        { assert (a + b)[0] == a[0] && (a + b)[1..] == a[1..] + b; }
        head + WithKey(a[1..] + b, key, k);
        head + (WithKey(a[1..], key, k) + WithKey(b, key, k));
        (head + WithKey(a[1..], key, k)) + WithKey(b, key, k);
      }
    } else {
      assert a + b == b;
    }
  }

  /** The tail of a sorted sequence is sorted. */
  lemma SortedTail<T, K>(s: seq<T>, key: T -> K, less: (K, K) -> bool)
    requires s != [] && Sorted(s, key, less)
    ensures Sorted(s[1..], key, less)
  {
    forall i, j | 0 <= i < j < |s| - 1
      ensures !less(key(s[1..][j]), key(s[1..][i]))
    {
      assert s[1..][j] == s[j + 1] && s[1..][i] == s[i + 1];
    }
  }

  /** In a sorted sequence, inserting `x` lands after every element with
      the same key. */
  lemma {:induction false} InsertWithKey<T, K(!new)>(x: T, s: seq<T>, key: T -> K, less: (K, K) -> bool, k: K)
    requires StrictOrder(less)
    requires Sorted(s, key, less)
    ensures WithKey(Insert(x, s, key, less), key, k)
         == WithKey(s, key, k) + (if key(x) == k then [x] else [])
  {
    var tailX := if key(x) == k then [x] else [];
    if s == [] {
      assert WithKey([x], key, k) == tailX + WithKey([], key, k);
    } else if less(key(x), key(s[0])) {
      if key(x) == k {
        NoneWithKey(s, key, less, k);
      }
      WithKeyAppend([x], s, key, k);
      assert WithKey([x], key, k) == tailX + WithKey([], key, k);
    } else {
      var rest := Insert(x, s[1..], key, less);
      SortedTail(s, key, less);
      InsertWithKey(x, s[1..], key, less, k);
      WithKeyAppend([s[0]], rest, key, k);
      WithKeyAppend([s[0]], s[1..], key, k);
      assert s == [s[0]] + s[1..];
      var head := WithKey([s[0]], key, k);
      calc {
        WithKey(Insert(x, s, key, less), key, k);
        WithKey([s[0]] + rest, key, k);
        head + WithKey(rest, key, k);
        head + (WithKey(s[1..], key, k) + tailX);
        (head + WithKey(s[1..], key, k)) + tailX;
        WithKey(s, key, k) + tailX;
      }
    }
  }

  /** If the head of a sorted sequence follows `k`, no element has key `k`. */
  lemma {:induction false} NoneWithKey<T, K(!new)>(s: seq<T>, key: T -> K, less: (K, K) -> bool, k: K)
    requires StrictOrder(less)
    requires Sorted(s, key, less)
    requires s != [] && less(k, key(s[0]))
    ensures WithKey(s, key, k) == []
  {
    var i := 1;
    while i < |s|
      invariant 1 <= i <= |s|
      invariant WithKey(s, key, k) == WithKey(s[i..], key, k)
    {
      assert !less(key(s[i]), key(s[0]));
      assert s[i..] == [s[i]] + s[i + 1..];
      i := i + 1;
    }
  }

  /** The elements `WithKey` keeps are those of `s` with key `k`. */
  lemma {:induction false} WithKeyMember<T, K>(s: seq<T>, key: T -> K, k: K, y: T)
    ensures y in WithKey(s, key, k) <==> y in s && key(y) == k
  {
    if s != [] {
      WithKeyMember(s[1..], key, k, y);
      assert s == [s[0]] + s[1..];
    }
  }

  /** Keeping the elements with one key keeps any order `s` is in. */
  lemma {:induction false} WithKeySorted<T, K, K2>(s: seq<T>, key: T -> K, k: K, key2: T -> K2, less2: (K2, K2) -> bool)
    requires Sorted(s, key2, less2)
    ensures Sorted(WithKey(s, key, k), key2, less2)
  {
    if s != [] {
      assert Sorted(s[1..], key2, less2);
      WithKeySorted(s[1..], key, k, key2, less2);
      var rest := WithKey(s[1..], key, k);
      if key(s[0]) == k {
        var r := [s[0]] + rest;
        forall i, j | 0 <= i < j < |r|
          ensures !less2(key2(r[j]), key2(r[i]))
        {
          if i == 0 {
            var y := rest[j - 1];
            assert r[j] == y && y in rest;
            WithKeyMember(s[1..], key, k, y);
            var m :| 0 <= m < |s| - 1 && s[1..][m] == y;
            assert s[m + 1] == y;
          } else {
            assert r[i] == rest[i - 1] && r[j] == rest[j - 1];
          }
        }
      }
    }
  }

  /** `sort` is stable: the elements sharing a key keep their input order. */
  lemma {:induction false} SortByStable<T, K(!new)>(s: seq<T>, key: T -> K, less: (K, K) -> bool, k: K)
    requires StrictOrder(less)
    ensures WithKey(SortBy(s, key, less), key, k) == WithKey(s, key, k)
  {
    if s != [] {
      var init, last := s[..|s| - 1], s[|s| - 1];
      SortByStable(init, key, less, k);
      SortBySorted(init, key, less);
      InsertWithKey(last, SortBy(init, key, less), key, less, k);
      WithKeyAppend(init, [last], key, k);
      assert s == init + [last];
    }
  }

  /** Code-point order on strings is a strict order. */
  lemma LessIsStrict()
    ensures StrictOrder(Less)
  {
    forall a: string
      ensures !Less(a, a)
    {
      LessIrreflexive(a);
    }
    forall a: string, b: string, c: string | Less(a, b) && Less(b, c)
      ensures Less(a, c)
    {
      LessTransitive(a, b, c);
    }
  }
}
