/** `Array.prototype.sort` with a numeric comparator `(a, b) => key(a) - key(b)`.
    The sort of ECMAScript 2019 and later is stable, so it is modelled as an
    insertion sort that puts each element after every earlier element whose
    key is not larger. */
module Sorting {
  import opened Seqs

  ghost predicate SortedBy<T>(s: seq<T>, key: T -> real) {
    forall i, j :: 0 <= i < j < |s| ==> key(s[i]) <= key(s[j])
  }

  /** Inserts `e` into `s` after the last element whose key is at most
      `key(e)`, counting from the back. */
  function Insert<T>(s: seq<T>, e: T, key: T -> real): (r: seq<T>)
    ensures |r| == |s| + 1
    decreases |s|
  {
    if s == [] || key(s[|s| - 1]) <= key(e) then s + [e]
    else Insert(s[..|s| - 1], e, key) + [s[|s| - 1]]
  }

  /** Inserting adds `e` and keeps every element of `s`. */
  lemma {:induction false} InsertPermutes<T>(s: seq<T>, e: T, key: T -> real)
    ensures multiset(Insert(s, e, key)) == multiset(s) + multiset{e}
    decreases |s|
  {
    if !(s == [] || key(s[|s| - 1]) <= key(e)) {
      SplitLast(s);
      InsertPermutes(s[..|s| - 1], e, key);
    }
  }

  /** Inserting into a sorted sequence keeps it sorted. */
  lemma {:induction false} InsertSorted<T>(s: seq<T>, e: T, key: T -> real)
    requires SortedBy(s, key)
    ensures SortedBy(Insert(s, e, key), key)
    decreases |s|
  {
    if !(s == [] || key(s[|s| - 1]) <= key(e)) {
      var prefix, last := s[..|s| - 1], s[|s| - 1];
      var front := Insert(prefix, e, key);
      SortedPrefix(s, key);
      InsertSorted(prefix, e, key);
      InsertPermutes(prefix, e, key);
      forall x | x in front ensures key(x) <= key(last) {
        assert x in multiset(front);
        if x != e {
          assert x in multiset(prefix);
          var i :| 0 <= i < |prefix| && prefix[i] == x;
          assert s[i] == x;
        }
      }
      var r := front + [last];
      forall i, j | 0 <= i < j < |r| ensures key(r[i]) <= key(r[j]) {
        if j == |r| - 1 {
          assert r[i] in front;
        } else {
          assert r[i] == front[i] && r[j] == front[j];
        }
      }
    }
  }

  /** The stable sort of `s` by ascending `key`. */
  function SortBy<T>(s: seq<T>, key: T -> real): (r: seq<T>)
    ensures |r| == |s|
    decreases |s|
  {
    if s == [] then []
    else Insert(SortBy(s[..|s| - 1], key), s[|s| - 1], key)
  }

  /** The sort returns a sorted rearrangement of its input. */
  lemma {:induction false} SortBySortsAndPermutes<T>(s: seq<T>, key: T -> real)
    ensures multiset(SortBy(s, key)) == multiset(s)
    ensures SortedBy(SortBy(s, key), key)
    decreases |s|
  {
    if s != [] {
      var front, last := s[..|s| - 1], s[|s| - 1];
      SortBySortsAndPermutes(front, key);
      InsertPermutes(SortBy(front, key), last, key);
      InsertSorted(SortBy(front, key), last, key);
      SplitLast(s);
    }
  }

  /** The elements of `s` whose key is `k`, in their order in `s`. */
  function WithKey<T>(s: seq<T>, key: T -> real, k: real): seq<T>
    decreases |s|
  {
    if s == [] then []
    else WithKey(s[..|s| - 1], key, k) + (if key(s[|s| - 1]) == k then [s[|s| - 1]] else [])
  }

  lemma {:induction false} WithKeyAppend<T>(s: seq<T>, e: T, key: T -> real, k: real)
    ensures WithKey(s + [e], key, k) == WithKey(s, key, k) + (if key(e) == k then [e] else [])
  {
    assert (s + [e])[..|s|] == s;
  }

  lemma {:induction false} InsertWithKey<T>(s: seq<T>, e: T, key: T -> real, k: real)
    ensures WithKey(Insert(s, e, key), key, k) == WithKey(s, key, k) + (if key(e) == k then [e] else [])
    decreases |s|
  {
    if s == [] || key(s[|s| - 1]) <= key(e) {
      WithKeyAppend(s, e, key, k);
    } else {
      var front, last := s[..|s| - 1], s[|s| - 1];
      SplitLast(s);
      InsertWithKey(front, e, key, k);
      assert Insert(s, e, key) == Insert(front, e, key) + [last];
      WithKeyAppend(Insert(front, e, key), last, key, k);
      WithKeyAppend(front, last, key, k);
      // `last` and `e` have different keys, so at most one of them has key `k`.
      assert key(last) != key(e);
    }
  }

  /** The sort is stable: the elements that share a key keep their relative
      order. Together with the postconditions of SortBy this fixes the
      result completely. */
  lemma {:induction false} SortByStable<T>(s: seq<T>, key: T -> real, k: real)
    ensures WithKey(SortBy(s, key), key, k) == WithKey(s, key, k)
    decreases |s|
  {
    if s != [] {
      var front, last := s[..|s| - 1], s[|s| - 1];
      SortByStable(front, key, k);
      InsertWithKey(SortBy(front, key), last, key, k);
    }
  }

  /** Sorting what is already sorted changes nothing, so sorting a line's
      items a second time is a no-op. */
  lemma {:induction false} SortByIdempotent<T>(s: seq<T>, key: T -> real)
    requires SortedBy(s, key)
    ensures SortBy(s, key) == s
    decreases |s|
  {
    if s != [] {
      var front, last := s[..|s| - 1], s[|s| - 1];
      SortedPrefix(s, key);
      SortByIdempotent(front, key);
      assert front == [] || key(front[|front| - 1]) <= key(last);
      SplitLast(s);
    }
  }

  lemma SortedPrefix<T>(s: seq<T>, key: T -> real)
    requires SortedBy(s, key) && s != []
    ensures SortedBy(s[..|s| - 1], key)
  {
    var front := s[..|s| - 1];
    forall i, j | 0 <= i < j < |front| ensures key(front[i]) <= key(front[j]) {
      assert front[i] == s[i] && front[j] == s[j];
    }
  }
}
