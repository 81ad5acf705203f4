/**
 * Sequence operations with Python's meaning: slicing `s[:n]`, the stable
 * `sorted(..., key=k, reverse=True)` / `list.sort(...)`, and `max(..., key=k)`.
 */
module Seqs {

  function Min(a: int, b: int): int { if a <= b then a else b }

  /** Python `s[:n]` for any integer `n`; a negative `n` drops `-n` elements from the end. */
  function PyTake<T>(s: seq<T>, n: int): (r: seq<T>)
    ensures r <= s
    ensures 0 <= n ==> |r| == Min(n, |s|)
    ensures n < 0 ==> |r| == if |s| + n < 0 then 0 else |s| + n
  {
    if 0 <= n then (if n <= |s| then s[..n] else s)
    else if 0 <= |s| + n then s[..|s| + n]
    else []
  }

  /** A prefix of length `n` is what `[:n]` keeps. */
  lemma TakePrefix<T>(a: seq<T>, b: seq<T>, n: int)
    requires a <= b && |a| == n
    ensures PyTake(b, n) == a
  {
  }

  /**
   * The number of results a loop that appends a hit and then breaks once
   * `len(results) >= limit` can collect: it always keeps its first hit.
   */
  function LoopLimit(limit: int): (n: nat)
    ensures n >= 1
    ensures limit >= 1 ==> n == limit
  {
    if limit < 1 then 1 else limit
  }

  /** A cap at least the length keeps everything. */
  lemma TakeShort<T>(s: seq<T>, n: int)
    requires |s| <= n
    ensures PyTake(s, n) == s
  {
  }

  /** Taking everything. */
  lemma TakeAll<T>(s: seq<T>)
    ensures s[..|s|] == s
  {
  }

  /** Splitting off the last element and re-appending it. */
  lemma Snoc<T>(s: seq<T>)
    requires s != []
    ensures s[..|s| - 1] + [s[|s| - 1]] == s
  {
  }

  /** Splitting off the last element of `b` and re-appending it, after `a`. */
  lemma SnocConcat<T>(a: seq<T>, b: seq<T>)
    requires b != []
    ensures a + b[..|b| - 1] + [b[|b| - 1]] == a + b
  {
    assert b == b[..|b| - 1] + [b[|b| - 1]];
  }

  /** The multiset of `b` is that of all but its last element, plus the last. */
  lemma SnocMultiset<T>(b: seq<T>)
    requires b != []
    ensures multiset(b) == multiset(b[..|b| - 1]) + multiset{b[|b| - 1]}
  {
    assert b == b[..|b| - 1] + [b[|b| - 1]];
  }

  /** Every element occurs at most once. */
  ghost predicate NoDuplicates<T(!new)>(s: seq<T>) {
    forall x :: multiset(s)[x] <= 1
  }

  /** Keys never increase from left to right. */
  ghost predicate NonIncreasing<T>(s: seq<T>, key: T -> int) {
    forall i, j :: 0 <= i < j < |s| ==> key(s[i]) >= key(s[j])
  }

  /** Inserts `x` in front of the first element whose key is not larger than its own. */
  function Insert<T>(x: T, s: seq<T>, key: T -> int): (r: seq<T>)
    ensures multiset(r) == multiset(s) + multiset{x}
    ensures NonIncreasing(s, key) ==> NonIncreasing(r, key)
  {
    if s == [] then [x]
    else if key(s[0]) <= key(x) then
      assert s == [s[0]] + s[1..];
      [x] + s
    else
      var rest := Insert(x, s[1..], key);
      InsertHead(x, s, key, rest);
      [s[0]] + rest
  }

  /** The step of `Insert` that keeps the head: the result is still a permutation and still sorted. */
  lemma InsertHead<T>(x: T, s: seq<T>, key: T -> int, rest: seq<T>)
    requires s != [] && key(s[0]) > key(x)
    requires multiset(rest) == multiset(s[1..]) + multiset{x}
    requires NonIncreasing(s[1..], key) ==> NonIncreasing(rest, key)
    ensures multiset([s[0]] + rest) == multiset(s) + multiset{x}
    ensures NonIncreasing(s, key) ==> NonIncreasing([s[0]] + rest, key)
  {
    assert s == [s[0]] + s[1..];
    if NonIncreasing(s, key) {
      forall j | 0 <= j < |rest| ensures key(s[0]) >= key(rest[j]) {
        assert multiset(rest)[rest[j]] > 0;
        if rest[j] != x {
          assert rest[j] in multiset(s[1..]);
          var k :| 0 <= k < |s[1..]| && s[1..][k] == rest[j];
          assert s[k + 1] == rest[j];
        }
      }
      var r := [s[0]] + rest;
      forall i, j | 0 <= i < j < |r| ensures key(r[i]) >= key(r[j]) {
        if i > 0 {
          assert r[i] == rest[i - 1] && r[j] == rest[j - 1];
        } else {
          assert r[j] == rest[j - 1];
        }
      }
    }
  }

  /**
   * Python's stable descending sort (`sorted(s, key=key, reverse=True)`):
   * a permutation of `s` with non-increasing keys, equal keys in input order.
   */
  function SortDesc<T>(s: seq<T>, key: T -> int): (r: seq<T>)
    ensures multiset(r) == multiset(s)
    ensures |r| == |s|
    ensures NonIncreasing(r, key)
  {
    if s == [] then []
    else
      assert s == [s[0]] + s[1..];
      Insert(s[0], SortDesc(s[1..], key), key)
  }

  /** The elements of `s` whose key is `k`, in order. */
  function KeyFilter<T>(s: seq<T>, key: T -> int, k: int): seq<T>
  {
    if s == [] then [] else (if key(s[0]) == k then [s[0]] else []) + KeyFilter(s[1..], key, k)
  }

  lemma {:induction false} InsertKeyFilter<T>(x: T, s: seq<T>, key: T -> int, k: int)
    ensures KeyFilter(Insert(x, s, key), key, k) == (if key(x) == k then [x] else []) + KeyFilter(s, key, k)
  {
    if s == [] {
      KeyFilterCons(x, [], key, k);
    } else if key(s[0]) <= key(x) {
      assert Insert(x, s, key) == [x] + s;
      KeyFilterCons(x, s, key, k);
    } else {
      InsertKeyFilter(x, s[1..], key, k);
      KeyFilterSkip(x, s, key, k, Insert(x, s[1..], key));
    }
  }

  /** The step of `InsertKeyFilter` that keeps the head of `s`. */
  lemma KeyFilterSkip<T>(x: T, s: seq<T>, key: T -> int, k: int, rest: seq<T>)
    requires s != [] && key(s[0]) > key(x)
    requires KeyFilter(rest, key, k) == (if key(x) == k then [x] else []) + KeyFilter(s[1..], key, k)
    ensures KeyFilter([s[0]] + rest, key, k) == (if key(x) == k then [x] else []) + KeyFilter(s, key, k)
  {
    var tail := KeyFilter(s[1..], key, k);
    KeyFilterCons(s[0], rest, key, k);
    if key(x) == k {
      assert key(s[0]) != k;
      assert KeyFilter(s, key, k) == tail;
      assert KeyFilter([s[0]] + rest, key, k) == KeyFilter(rest, key, k) == [x] + tail;
    } else if key(s[0]) == k {
      assert KeyFilter(s, key, k) == [s[0]] + tail;
      assert KeyFilter(rest, key, k) == [] + tail;
    } else {
      assert KeyFilter(s, key, k) == tail;
      assert KeyFilter(rest, key, k) == [] + tail;
    }
  }

  lemma KeyFilterCons<T>(a: T, t: seq<T>, key: T -> int, k: int)
    ensures KeyFilter([a] + t, key, k) == (if key(a) == k then [a] else []) + KeyFilter(t, key, k)
  {
    assert ([a] + t)[0] == a && ([a] + t)[1..] == t;
  }

  /** Equal keys keep their input order: the sort is stable. */
  lemma {:induction false} SortDescStable<T>(s: seq<T>, key: T -> int, k: int)
    ensures KeyFilter(SortDesc(s, key), key, k) == KeyFilter(s, key, k)
  {
    if s != [] {
      SortDescStable(s[1..], key, k);
      InsertKeyFilter(s[0], SortDesc(s[1..], key), key, k);
    }
  }

  /** A prefix keeps, for each key, a prefix of the elements with that key. */
  lemma {:induction false} KeyFilterPrefix<T>(s: seq<T>, n: nat, key: T -> int, k: int)
    requires n <= |s|
    ensures KeyFilter(s[..n], key, k) <= KeyFilter(s, key, k)
  {
    if n > 0 {
      KeyFilterPrefix(s[1..], n - 1, key, k);
      assert s[..n][1..] == s[1..][..n - 1];
    }
  }

  /**
   * The first `n` of a stable descending sort: keys non-increasing, for each
   * key a prefix of the input's elements with that key, all from the input.
   */
  lemma SortedPrefix<T>(s: seq<T>, key: T -> int, n: int)
    ensures NonIncreasing(PyTake(SortDesc(s, key), n), key)
    ensures forall k :: KeyFilter(PyTake(SortDesc(s, key), n), key, k) <= KeyFilter(s, key, k)
    ensures forall x :: x in PyTake(SortDesc(s, key), n) ==> x in s
  {
    var sorted := SortDesc(s, key);
    var r := PyTake(sorted, n);
    assert r == sorted[..|r|];
    forall k ensures KeyFilter(r, key, k) <= KeyFilter(s, key, k) {
      KeyFilterPrefix(sorted, |r|, key, k);
      SortDescStable(s, key, k);
    }
    forall x | x in r ensures x in s {
      assert x in sorted;
      assert multiset(sorted)[x] > 0;
    }
  }

  /** Sorting neither adds nor removes elements. */
  lemma SortedMember<T>(s: seq<T>, key: T -> int, x: T)
    ensures x in SortDesc(s, key) <==> x in s
  {
    assert x in SortDesc(s, key) <==> x in multiset(SortDesc(s, key));
  }

  /**
   * Sorting descending and keeping the first `n` keeps the top of the list:
   * an element that was cut off has a key no larger than any element kept.
   */
  lemma TopOfSorted<T>(s: seq<T>, key: T -> int, n: int, x: T)
    requires x in s && x !in PyTake(SortDesc(s, key), n)
    ensures forall y :: y in PyTake(SortDesc(s, key), n) ==> key(y) >= key(x)
  {
    var sorted := SortDesc(s, key);
    var r := PyTake(sorted, n);
    assert multiset(sorted)[x] > 0;
    var j :| 0 <= j < |sorted| && sorted[j] == x;
    assert r == sorted[..|r|];
    assert forall i :: 0 <= i < |r| ==> r[i] != x;
    assert j >= |r|;
    forall y | y in r ensures key(y) >= key(x) {
      var i :| 0 <= i < |r| && r[i] == y;
      assert sorted[i] == y;
    }
  }

  /** A permutation of a sequence without duplicates has none either; so has a prefix. */
  lemma NoDuplicatesPrefix<T(!new)>(s: seq<T>, n: int)
    requires NoDuplicates(s)
    ensures NoDuplicates(PyTake(s, n))
  {
    var r := PyTake(s, n);
    assert r == s[..|r|];
    assert s == r + s[|r|..];
    assert multiset(s) == multiset(r) + multiset(s[|r|..]);
    forall x ensures multiset(r)[x] <= 1 {
      assert multiset(s)[x] == multiset(r)[x] + multiset(s[|r|..])[x];
    }
  }

  /** `[x for x in s if p(x)]`. */
  function KeepIf<T>(s: seq<T>, p: T -> bool): (r: seq<T>)
    ensures forall x :: x in r ==> x in s && p(x)
  {
    if s == [] then []
    else
      var rest := KeepIf(s[1..], p);
      assert forall x :: x in rest ==> x in s by {
        forall x | x in rest ensures x in s {
          assert x in s[1..];
        }
      }
      (if p(s[0]) then [s[0]] else []) + rest
  }

  /** Filtering keeps every occurrence of an element that passes, and none of one that does not. */
  lemma {:induction false} KeepIfCount<T>(s: seq<T>, p: T -> bool, x: T)
    ensures multiset(KeepIf(s, p))[x] == if p(x) then multiset(s)[x] else 0
  {
    if s != [] {
      var rest := s[1..];
      KeepIfCount(rest, p, x);
      assert s == [s[0]] + rest;
      assert KeepIf(s, p) == (if p(s[0]) then [s[0]] else []) + KeepIf(rest, p);
    }
  }

  /** The distinct elements of `s` in order of first occurrence (the key order of a Python dict built from `s`). */
  function Dedup<T(==, !new)>(s: seq<T>): (r: seq<T>)
    ensures forall x :: x in r <==> x in s
    ensures NoDuplicates(r)
  {
    if s == [] then []
    else
      var init := s[..|s| - 1];
      var d := Dedup(init);
      assert forall x :: x in s <==> x in init || x == s[|s| - 1] by {
        assert s == init + [s[|s| - 1]];
      }
      if s[|s| - 1] in init then d
      else
        assert multiset(d)[s[|s| - 1]] == 0;
        d + [s[|s| - 1]]
  }

  /**
   * Python's `max(s, key=key)` as a position: the first element whose key
   * is the largest (a later element replaces it only when strictly larger).
   */
  function FirstMax<T>(s: seq<T>, key: T -> int): (i: nat)
    requires |s| > 0
    ensures i < |s|
    ensures forall j :: 0 <= j < |s| ==> key(s[j]) <= key(s[i])
    ensures forall j :: 0 <= j < i ==> key(s[j]) < key(s[i])
  {
    if |s| == 1 then 0
    else
      var k := FirstMax(s[..|s| - 1], key);
      if key(s[|s| - 1]) > key(s[k]) then |s| - 1 else k
  }

  /** `[s[i] for i in ps]`. */
  function Select<T>(s: seq<T>, ps: seq<nat>): (r: seq<T>)
    requires forall i :: 0 <= i < |ps| ==> ps[i] < |s|
    ensures |r| == |ps| && forall i :: 0 <= i < |ps| ==> r[i] == s[ps[i]]
  {
    seq(|ps|, i requires 0 <= i < |ps| => s[ps[i]])
  }

  /** An element of a selection stands at one of the selected positions. */
  lemma SelectMember<T>(s: seq<T>, ps: seq<nat>, x: T) returns (i: nat)
    requires forall i :: 0 <= i < |ps| ==> ps[i] < |s|
    requires x in Select(s, ps)
    ensures i < |ps| && s[ps[i]] == x
  {
    var r := Select(s, ps);
    i :| 0 <= i < |r| && r[i] == x;
  }

  lemma SelectSnoc<T>(s: seq<T>, ps: seq<nat>, p: nat)
    requires forall i :: 0 <= i < |ps| ==> ps[i] < |s|
    requires p < |s|
    ensures Select(s, ps + [p]) == Select(s, ps) + [s[p]]
  {
  }

  /** Positions inside `s` select the same elements after `s` is extended. */
  lemma SelectExtend<T>(s: seq<T>, t: seq<T>, ps: seq<nat>)
    requires forall i :: 0 <= i < |ps| ==> ps[i] < |s|
    ensures Select(s + t, ps) == Select(s, ps)
  {
  }

  /** Cutting the positions first or the elements afterwards gives the same elements. */
  lemma SelectTake<T>(s: seq<T>, ps: seq<nat>, n: int)
    requires forall i :: 0 <= i < |ps| ==> ps[i] < |s|
    ensures Select(s, PyTake(ps, n)) == PyTake(Select(s, ps), n)
  {
  }
}
