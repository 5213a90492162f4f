/**
 * Sequence helpers the repository queries are written with: a filter
 * (`WHERE`, `stream().filter`), a stable sort by an integer key
 * (`ORDER BY`), and the key set and key uniqueness of a table.
 */
module Seqs {

  /** The elements of s that satisfy p, in their order in s. */
  function Filter<T>(s: seq<T>, p: T -> bool): (r: seq<T>)
    ensures |r| <= |s|
    ensures forall i :: 0 <= i < |r| ==> p(r[i]) && r[i] in s
  {
    if s == [] then [] else (if p(s[0]) then [s[0]] else []) + Filter(s[1..], p)
  }

  /** Filtering keeps every satisfying element with its multiplicity and nothing else. */
  lemma {:induction false} FilterCount<T>(s: seq<T>, p: T -> bool, x: T)
    ensures multiset(Filter(s, p))[x] == if p(x) then multiset(s)[x] else 0
  {
    if s != [] {
      FilterCount(s[1..], p, x);
      assert s == [s[0]] + s[1..];
    }
  }

  lemma FilterMember<T>(s: seq<T>, p: T -> bool, x: T)
    ensures x in Filter(s, p) <==> x in s && p(x)
  {
    FilterCount(s, p, x);
    assert x in Filter(s, p) <==> multiset(Filter(s, p))[x] > 0;
    assert x in s <==> multiset(s)[x] > 0;
  }

  lemma {:induction false} FilterAll<T>(s: seq<T>, p: T -> bool)
    requires forall i :: 0 <= i < |s| ==> p(s[i])
    ensures Filter(s, p) == s
  {
    if s != [] {
      FilterAll(s[1..], p);
    }
  }

  lemma {:induction false} FilterNone<T>(s: seq<T>, p: T -> bool)
    requires forall i :: 0 <= i < |s| ==> !p(s[i])
    ensures Filter(s, p) == []
  {
    if s != [] {
      FilterNone(s[1..], p);
    }
  }

  lemma {:induction false} FilterAppend<T>(a: seq<T>, b: seq<T>, p: T -> bool)
    ensures Filter(a + b, p) == Filter(a, p) + Filter(b, p)
  {
    if a == [] {
      assert a + b == b;
    } else {
      var head := if p(a[0]) then [a[0]] else [];
      var ab := a + b;
      assert ab[0] == a[0] && ab[1..] == a[1..] + b;
      assert Filter(ab, p) == head + Filter(a[1..] + b, p);
      FilterAppend(a[1..], b, p);
      assert Filter(a, p) == head + Filter(a[1..], p);
    }
  }

  /** Filtering twice is filtering once by the conjunction. */
  lemma {:induction false} FilterFilter<T>(s: seq<T>, p: T -> bool, q: T -> bool, pq: T -> bool)
    requires forall x :: pq(x) == (p(x) && q(x))
    ensures Filter(Filter(s, p), q) == Filter(s, pq)
  {
    if s != [] {
      FilterFilter(s[1..], p, q, pq);
      FilterAppend(if p(s[0]) then [s[0]] else [], Filter(s[1..], p), q);
    }
  }

  predicate SortedBy<T>(s: seq<T>, key: T -> int) {
    forall i, j :: 0 <= i < j < |s| ==> key(s[i]) <= key(s[j])
  }

  /** Inserts x before the first element whose key is not smaller. */
  function InsertBy<T>(x: T, s: seq<T>, key: T -> int): (r: seq<T>)
    requires SortedBy(s, key)
    ensures SortedBy(r, key)
    ensures multiset(r) == multiset(s) + multiset{x}
    ensures |r| == |s| + 1
  {
    if s == [] then [x]
    else if key(x) <= key(s[0]) then [x] + s
    else
      var rest := InsertBy(x, s[1..], key);
      assert s == [s[0]] + s[1..];
      TailAboveHead(s, x, rest, key);
      PrependKeepsSorted(s[0], rest, key);
      [s[0]] + rest
  }

  /** What is left after the head of a sorted list, plus one larger element, lies above the head. */
  lemma TailAboveHead<T>(s: seq<T>, x: T, rest: seq<T>, key: T -> int)
    requires SortedBy(s, key) && s != [] && key(s[0]) <= key(x)
    requires multiset(rest) == multiset(s[1..]) + multiset{x}
    ensures forall i :: 0 <= i < |rest| ==> key(s[0]) <= key(rest[i])
  {
    forall i | 0 <= i < |rest| ensures key(s[0]) <= key(rest[i]) {
      assert rest[i] in multiset(rest);
      if rest[i] != x {
        assert rest[i] in s[1..];
        var j :| 0 <= j < |s[1..]| && s[1..][j] == rest[i];
        assert s[j + 1] == rest[i];
      }
    }
  }

  lemma PrependKeepsSorted<T>(y: T, r: seq<T>, key: T -> int)
    requires SortedBy(r, key)
    requires forall i :: 0 <= i < |r| ==> key(y) <= key(r[i])
    ensures SortedBy([y] + r, key)
  {
    var t := [y] + r;
    forall i, j | 0 <= i < j < |t| ensures key(t[i]) <= key(t[j]) {
      assert t[j] == r[j - 1];
      if i > 0 {
        assert t[i] == r[i - 1];
      }
    }
  }

  /** Insertion sort by key, ascending; elements with equal keys keep their order. */
  function SortBy<T>(s: seq<T>, key: T -> int): (r: seq<T>)
    ensures SortedBy(r, key)
    ensures multiset(r) == multiset(s)
    ensures |r| == |s|
  {
    if s == [] then []
    else
      assert s == [s[0]] + s[1..];
      InsertBy(s[0], SortBy(s[1..], key), key)
  }

  /** The keys of the elements of k (the ids of a list of rows). */
  function Keys<T>(k: seq<T>, key: T -> nat): (ks: set<nat>)
    ensures forall i :: 0 <= i < |k| ==> key(k[i]) in ks
  {
    if k == [] then {}
    else
      var init := k[..|k| - 1];
      assert forall i :: 0 <= i < |init| ==> init[i] == k[i];
      Keys(init, key) + {key(k[|k| - 1])}
  }

  /** Every member of Keys(k, key) is the key of an element of k. */
  lemma {:induction false} KeysMember<T>(k: seq<T>, key: T -> nat, x: nat)
    requires x in Keys(k, key)
    ensures exists i :: 0 <= i < |k| && key(k[i]) == x
  {
    var init := k[..|k| - 1];
    if x != key(k[|k| - 1]) {
      KeysMember(init, key, x);
      var i :| 0 <= i < |init| && key(init[i]) == x;
      assert k[i] == init[i];
    }
  }

  /** No two elements of s share a key (a primary key). */
  predicate UniqueKeys<T>(s: seq<T>, key: T -> nat) {
    forall i, j :: 0 <= i < j < |s| ==> key(s[i]) != key(s[j])
  }

  /** Filtering a table with unique keys keeps its keys unique. */
  lemma {:induction false} FilterKeepsUniqueKeys<T>(s: seq<T>, key: T -> nat, p: T -> bool)
    requires UniqueKeys(s, key)
    ensures UniqueKeys(Filter(s, p), key)
  {
    if s != [] {
      var rest := Filter(s[1..], p);
      FilterKeepsUniqueKeys(s[1..], key, p);
      if p(s[0]) {
        HeadKeyNotInRest(s, rest, key);
        PrependKeepsUniqueKeys(s[0], rest, key);
      }
    }
  }

  lemma HeadKeyNotInRest<T>(s: seq<T>, rest: seq<T>, key: T -> nat)
    requires s != [] && UniqueKeys(s, key)
    requires forall i :: 0 <= i < |rest| ==> rest[i] in s[1..]
    ensures forall j :: 0 <= j < |rest| ==> key(s[0]) != key(rest[j])
  {
    forall j | 0 <= j < |rest| ensures key(s[0]) != key(rest[j]) {
      var k :| 0 <= k < |s[1..]| && s[1..][k] == rest[j];
      assert s[k + 1] == rest[j];
    }
  }

  lemma PrependKeepsUniqueKeys<T>(x: T, rest: seq<T>, key: T -> nat)
    requires UniqueKeys(rest, key)
    requires forall j :: 0 <= j < |rest| ==> key(x) != key(rest[j])
    ensures UniqueKeys([x] + rest, key)
  {
    var r := [x] + rest;
    forall i, j | 0 <= i < j < |r| ensures key(r[i]) != key(r[j]) {
      assert r[j] == rest[j - 1];
      if i > 0 {
        assert r[i] == rest[i - 1];
      }
    }
  }
}
