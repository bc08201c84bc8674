/** Sorting by an integer key, as the comparator sorts of both programs do:
    insertion sort on sequences, proved to yield an ordered permutation that
    keeps entries with equal keys in their input order, as JavaScript's
    stable `Array.prototype.sort` does. */
module Sorting {

  predicate SortedBy<T>(key: T -> int, s: seq<T>) {
    forall i, j | 0 <= i < j < |s| :: key(s[i]) <= key(s[j])
  }

  /** Inserts `x` after every entry whose key is smaller. */
  function InsertBy<T>(key: T -> int, x: T, s: seq<T>): (r: seq<T>)
    requires SortedBy(key, s)
    ensures SortedBy(key, r)
    ensures multiset(r) == multiset(s) + multiset{x}
  {
    if s == [] then [x]
    else if key(x) <= key(s[0]) then [x] + s
    else
      var rest := InsertBy(key, x, s[1..]);
      assert s == [s[0]] + s[1..];
      HeadBelowRest(key, x, s, rest);
      [s[0]] + rest
  }

  /** The head of a sorted list stays below everything inserted after it. */
  lemma HeadBelowRest<T>(key: T -> int, x: T, s: seq<T>, rest: seq<T>)
    requires SortedBy(key, s) && s != [] && key(s[0]) < key(x)
    requires SortedBy(key, rest) && multiset(rest) == multiset(s[1..]) + multiset{x}
    ensures SortedBy(key, [s[0]] + rest)
  {
    forall k | 0 <= k < |rest| ensures key(s[0]) <= key(rest[k]) {
      assert rest[k] in multiset(rest);
      if rest[k] != x {
        assert rest[k] in multiset(s[1..]);
        var j :| 0 <= j < |s[1..]| && s[1..][j] == rest[k];
        assert s[j + 1] == rest[k];
      }
    }
    var t := [s[0]] + rest;
    forall i, j | 0 <= i < j < |t| ensures key(t[i]) <= key(t[j]) {
      if i > 0 {
        assert t[i] == rest[i - 1] && t[j] == rest[j - 1];
      }
    }
  }

  /** The entries whose key is `k`, in order. */
  function WithKey<T>(key: T -> int, k: int, s: seq<T>): seq<T>
    decreases |s|
  {
    if s == [] then [] else (if key(s[0]) == k then [s[0]] else []) + WithKey(key, k, s[1..])
  }

  lemma WithKeyCons<T>(key: T -> int, k: int, a: T, t: seq<T>)
    ensures WithKey(key, k, [a] + t) == (if key(a) == k then [a] else []) + WithKey(key, k, t)
  {
    assert ([a] + t)[0] == a && ([a] + t)[1..] == t;
  }

  lemma SwapPrefixes<T>(a: seq<T>, b: seq<T>, w: seq<T>)
    requires a == [] || b == []
    ensures a + (b + w) == b + (a + w)
  {
    if a == [] {
      assert a + (b + w) == b + w && a + w == w;
    } else {
      assert b + w == w && b + (a + w) == a + w;
    }
  }

  /** Inserting adds `x` in front of the entries that share its key. */
  lemma {:induction false} InsertByWithKey<T>(key: T -> int, k: int, x: T, s: seq<T>)
    requires SortedBy(key, s)
    ensures WithKey(key, k, InsertBy(key, x, s)) == (if key(x) == k then [x] else []) + WithKey(key, k, s)
    decreases |s|
  {
    if s == [] || key(x) <= key(s[0]) {
      InsertAtFront(key, k, x, s);
    } else {
      assert SortedBy(key, s[1..]);
      InsertByWithKey(key, k, x, s[1..]);
      InsertPastHead(key, k, x, s);
    }
  }

  lemma InsertAtFront<T>(key: T -> int, k: int, x: T, s: seq<T>)
    requires SortedBy(key, s) && (s == [] || key(x) <= key(s[0]))
    ensures WithKey(key, k, InsertBy(key, x, s)) == (if key(x) == k then [x] else []) + WithKey(key, k, s)
  {
    assert InsertBy(key, x, s) == [x] + s;
    WithKeyCons(key, k, x, s);
  }

  /** The step where `x` goes past the head: the head's key is below `x`'s,
      so at most one of the two shares `k` and their order does not matter. */
  lemma InsertPastHead<T>(key: T -> int, k: int, x: T, s: seq<T>)
    requires SortedBy(key, s) && s != [] && key(s[0]) < key(x)
    requires WithKey(key, k, InsertBy(key, x, s[1..])) == (if key(x) == k then [x] else []) + WithKey(key, k, s[1..])
    ensures WithKey(key, k, InsertBy(key, x, s)) == (if key(x) == k then [x] else []) + WithKey(key, k, s)
  {
    var xs: seq<T> := if key(x) == k then [x] else [];
    var hs: seq<T> := if key(s[0]) == k then [s[0]] else [];
    var rest := InsertBy(key, x, s[1..]);
    var w := WithKey(key, k, s[1..]);
    assert InsertBy(key, x, s) == [s[0]] + rest;
    WithKeyCons(key, k, s[0], rest);
    assert s == [s[0]] + s[1..];
    WithKeyCons(key, k, s[0], s[1..]);
    SwapPrefixes(hs, xs, w);
  }

  /** Sorting is stable: for every key, the entries with that key keep their
      relative order. */
  lemma {:induction false} SortByStable<T>(key: T -> int, k: int, s: seq<T>)
    ensures WithKey(key, k, SortBy(key, s)) == WithKey(key, k, s)
    decreases |s|
  {
    if s != [] {
      SortByStable(key, k, s[1..]);
      InsertByWithKey(key, k, s[0], SortBy(key, s[1..]));
    }
  }

  function SortBy<T>(key: T -> int, s: seq<T>): (r: seq<T>)
    ensures SortedBy(key, r)
    ensures multiset(r) == multiset(s)
  {
    if s == [] then []
    else
      assert s == [s[0]] + s[1..];
      InsertBy(key, s[0], SortBy(key, s[1..]))
  }
}
