/** Stand-ins for the Go library calls the modelled code relies on: `sort.Slice` and the
    two-valued `(value, error)` return. */
module Sorting {

  ghost predicate SortedBy<T>(key: T -> int, s: seq<T>) {
    forall i, j :: 0 <= i < j < |s| ==> key(s[i]) <= key(s[j])
  }

  /** Inserts x after every element whose key does not exceed its own. */
  function Insert<T(!new)>(key: T -> int, x: T, s: seq<T>): (r: seq<T>)
    ensures |r| == |s| + 1
    ensures multiset(r) == multiset(s) + multiset{x}
    ensures forall y :: y in r <==> y == x || y in s
  {
    if s == [] || key(x) < key(s[0]) then
      [x] + s
    else
      assert s == [s[0]] + s[1..];
      [s[0]] + Insert(key, x, s[1..])
  }

  /** `sort.Slice`: the same elements in key order (Go leaves the order of equal keys open;
      insertion sort is one admissible choice). */
  function SortByKey<T(!new)>(key: T -> int, s: seq<T>): (r: seq<T>)
    ensures |r| == |s|
    ensures multiset(r) == multiset(s)
    ensures forall x :: x in r <==> x in s
  {
    if s == [] then
      []
    else
      assert s == [s[0]] + s[1..];
      Insert(key, s[0], SortByKey(key, s[1..]))
  }

  lemma {:induction false} InsertKeepsOrder<T(!new)>(key: T -> int, x: T, s: seq<T>)
    requires SortedBy(key, s)
    ensures SortedBy(key, Insert(key, x, s))
  {
    if s != [] && key(x) >= key(s[0]) {
      var rest := Insert(key, x, s[1..]);
      InsertKeepsOrder(key, x, s[1..]);
      forall k | 0 <= k < |rest| ensures key(s[0]) <= key(rest[k]) {
        assert rest[k] in rest;
      }
    }
  }

  lemma {:induction false} SortIsSorted<T(!new)>(key: T -> int, s: seq<T>)
    ensures SortedBy(key, SortByKey(key, s))
  {
    if s != [] {
      SortIsSorted(key, s[1..]);
      InsertKeepsOrder(key, s[0], SortByKey(key, s[1..]));
    }
  }

  ghost predicate DistinctKeys<T>(key: T -> int, s: seq<T>) {
    forall i, j :: 0 <= i < j < |s| ==> key(s[i]) != key(s[j])
  }

  ghost predicate StrictBy<T>(key: T -> int, s: seq<T>) {
    forall i, j :: 0 <= i < j < |s| ==> key(s[i]) < key(s[j])
  }

  lemma {:induction false} InsertStrict<T(!new)>(key: T -> int, x: T, s: seq<T>)
    requires StrictBy(key, s) && forall k :: 0 <= k < |s| ==> key(s[k]) != key(x)
    ensures StrictBy(key, Insert(key, x, s))
  {
    if s != [] && key(x) >= key(s[0]) {
      var rest := Insert(key, x, s[1..]);
      InsertStrict(key, x, s[1..]);
      forall k | 0 <= k < |rest| ensures key(s[0]) < key(rest[k]) {
        assert rest[k] in rest;
      }
    }
  }

  lemma {:induction false} SortStrict<T(!new)>(key: T -> int, s: seq<T>)
    requires DistinctKeys(key, s)
    ensures StrictBy(key, SortByKey(key, s))
  {
    if s != [] {
      var rest := SortByKey(key, s[1..]);
      SortStrict(key, s[1..]);
      forall k | 0 <= k < |rest| ensures key(rest[k]) != key(s[0]) {
        assert rest[k] in rest && rest[k] in s[1..];
      }
      InsertStrict(key, s[0], rest);
    }
  }

  lemma {:induction false} SortOfSorted<T(!new)>(key: T -> int, s: seq<T>)
    requires StrictBy(key, s)
    ensures SortByKey(key, s) == s
  {
    if s != [] {
      SortOfSorted(key, s[1..]);
    }
  }

  /** A strictly increasing integer sequence of length n inside a window of n values fills it. */
  lemma {:induction false} FillsWindow(s: seq<int>, first: int, k: nat)
    requires forall i, j :: 0 <= i < j < |s| ==> s[i] < s[j]
    requires forall i :: 0 <= i < |s| ==> first <= s[i] < first + |s|
    requires k < |s|
    ensures s[k] == first + k
  {
    Lower(s, first, k);
    Upper(s, first, k);
  }

  lemma {:induction false} Lower(s: seq<int>, first: int, k: nat)
    requires forall i, j :: 0 <= i < j < |s| ==> s[i] < s[j]
    requires forall i :: 0 <= i < |s| ==> first <= s[i]
    requires k < |s|
    ensures s[k] >= first + k
  {
    if k > 0 { Lower(s, first, k - 1); }
  }

  lemma {:induction false} Upper(s: seq<int>, first: int, k: nat)
    requires forall i, j :: 0 <= i < j < |s| ==> s[i] < s[j]
    requires forall i :: 0 <= i < |s| ==> s[i] < first + |s|
    requires k < |s|
    ensures s[k] <= first + k
    decreases |s| - k
  {
    if k < |s| - 1 { Upper(s, first, k + 1); }
  }
}
