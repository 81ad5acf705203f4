/**
 * The values the Monad cache is built from, as functions of the cached
 * records: the fold over ledger ids that fills the cache, the two inverted
 * indices (insertion-ordered dictionaries from a lower-cased tag or user to
 * positions in the record list), and the record filters and orderings the
 * queries use.
 */
module CacheIndex {
  import opened Wrappers
  import opened Text
  import opened Seqs
  import opened MonadLogger

  /** A record as the cache keeps it: `get_memory`'s dictionary plus the `id` it was fetched under. */
  datatype CachedMemory = CachedMemory(
    id: int, user: string, opType: int, title: string, summary: string,
    tags: string, contentHash: string, timestamp: int)

  /** `memory['id'] = i`. */
  function Stamp(m: Memory, i: nat): CachedMemory
  {
    CachedMemory(i, m.user, m.opType, m.title, m.summary, m.tags, m.contentHash, m.timestamp)
  }

  // ------------------------------------------------------------ fetching

  /**
   * `_fetch_all` for a ledger of `n` records: ids `0..n-1` in order, each
   * fetched record stamped with its id, a failed fetch (`None`) skipped.
   */
  function Fetched(fetch: nat -> Option<RawMemory>, n: nat): (ms: seq<CachedMemory>)
    ensures |ms| <= n
    ensures forall j :: 0 <= j < |ms| ==> 0 <= ms[j].id < n
  {
    if n == 0 then []
    else
      var ms := Fetched(fetch, n - 1);
      match fetch(n - 1)
      case None => ms
      case Some(raw) => ms + [Stamp(GetMemory(raw), n - 1)]
  }

  ghost predicate IdsIncreasing(ms: seq<CachedMemory>) {
    forall i, j :: 0 <= i < j < |ms| ==> ms[i].id < ms[j].id
  }

  /** Cached ids are strictly increasing, so no record is cached twice. */
  lemma {:induction false} FetchedIdsIncreasing(fetch: nat -> Option<RawMemory>, n: nat)
    ensures IdsIncreasing(Fetched(fetch, n))
  {
    if n > 0 {
      FetchedIdsIncreasing(fetch, n - 1);
    }
  }

  /** Every cached record is what the ledger returned for its id, stamped with that id. */
  lemma {:induction false} FetchedRecords(fetch: nat -> Option<RawMemory>, n: nat)
    ensures forall j :: 0 <= j < |Fetched(fetch, n)| ==>
      var m := Fetched(fetch, n)[j];
      fetch(m.id).Some? && m == Stamp(GetMemory(fetch(m.id).value), m.id)
  {
    if n > 0 {
      FetchedRecords(fetch, n - 1);
    }
  }

  /** Every id below `n` whose fetch succeeds is cached. */
  lemma {:induction false} FetchedComplete(fetch: nat -> Option<RawMemory>, n: nat, i: nat) returns (j: nat)
    requires i < n && fetch(i).Some?
    ensures j < |Fetched(fetch, n)| && Fetched(fetch, n)[j].id == i
  {
    var ms := Fetched(fetch, n);
    var prev := Fetched(fetch, n - 1);
    if i == n - 1 {
      var c := Stamp(GetMemory(fetch(i).value), i);
      assert ms == prev + [c];
      j := |prev|;
    } else {
      j := FetchedComplete(fetch, n - 1, i);
      if fetch(n - 1).Some? {
        assert ms == prev + [Stamp(GetMemory(fetch(n - 1).value), n - 1)];
        assert ms[j] == prev[j];
      }
    }
  }

  /**
   * Positions and ids: a record's id is at least its position, and the two
   * coincide when no fetch fails.
   */
  lemma {:induction false} FetchedPositions(fetch: nat -> Option<RawMemory>, n: nat)
    ensures forall j :: 0 <= j < |Fetched(fetch, n)| ==> Fetched(fetch, n)[j].id >= j
    ensures (forall i :: 0 <= i < n ==> fetch(i).Some?) ==>
      |Fetched(fetch, n)| == n && forall j :: 0 <= j < n ==> Fetched(fetch, n)[j].id == j
  {
    if n > 0 {
      FetchedPositions(fetch, n - 1);
      var ms := Fetched(fetch, n);
      var prev := Fetched(fetch, n - 1);
      if fetch(n - 1).Some? {
        var c := Stamp(GetMemory(fetch(n - 1).value), n - 1);
        assert ms == prev + [c];
        forall j | 0 <= j < |ms| ensures ms[j].id >= j {
          if j < |prev| {
            assert ms[j] == prev[j];
          }
        }
      } else {
        assert ms == prev;
      }
    }
  }

  // -------------------------------------------------------------- indices

  /** A `defaultdict(list)` with Python's key order: `keys` in insertion order, `buckets` the lists. */
  datatype Index = Index(keys: seq<string>, buckets: map<string, seq<nat>>)

  const EmptyIndex: Index := Index([], map[])

  /** Keys are distinct, are exactly the dictionary's keys, and every list is non-empty. */
  ghost predicate Wf(ix: Index) {
    && NoDuplicates(ix.keys)
    && (forall k :: k in ix.keys <==> k in ix.buckets)
    && (forall k :: k in ix.buckets ==> ix.buckets[k] != [])
  }

  /** The list stored under `k`, empty when there is none. */
  function Bucket(ix: Index, k: string): seq<nat> {
    if k in ix.buckets then ix.buckets[k] else []
  }

  /** `index[k].append(p)`. */
  function Add(ix: Index, k: string, p: nat): (r: Index)
    ensures r.keys == if k in ix.buckets then ix.keys else ix.keys + [k]
  {
    if k in ix.buckets then Index(ix.keys, ix.buckets[k := ix.buckets[k] + [p]])
    else Index(ix.keys + [k], ix.buckets[k := [p]])
  }

  /** Appending to the list under `k` leaves every other list as it was. */
  lemma AddBucket(ix: Index, k: string, p: nat, t: string)
    ensures Bucket(Add(ix, k, p), t) == Bucket(ix, t) + (if t == k then [p] else [])
  {
  }

  /** Appending keeps the index well formed and its keys in first-insertion order. */
  lemma AddKeys(ix: Index, k: string, p: nat, seen: seq<string>)
    requires Wf(ix) && ix.keys == Dedup(seen)
    ensures Wf(Add(ix, k, p)) && Add(ix, k, p).keys == Dedup(seen + [k])
  {
    assert (seen + [k])[..|seen|] == seen;
    var r := Add(ix, k, p);
    if k !in ix.buckets {
      assert multiset(ix.keys)[k] == 0;
      forall x ensures multiset(r.keys)[x] <= 1 {
        assert multiset(r.keys) == multiset(ix.keys) + multiset{k};
      }
    }
  }

  /** `index[k].append(p)` for every `k` of `ks`, in order. */
  function AddAll(ix: Index, ks: seq<string>, p: nat): Index
    decreases |ks|
  {
    if ks == [] then ix else Add(AddAll(ix, ks[..|ks| - 1], p), ks[|ks| - 1], p)
  }

  lemma {:induction false} AddAllKeys(ix: Index, ks: seq<string>, p: nat, seen: seq<string>)
    requires Wf(ix) && ix.keys == Dedup(seen)
    ensures Wf(AddAll(ix, ks, p)) && AddAll(ix, ks, p).keys == Dedup(seen + ks)
    decreases |ks|
  {
    if ks != [] {
      var init := ks[..|ks| - 1];
      var k := ks[|ks| - 1];
      var prev := AddAll(ix, init, p);
      AddAllKeys(ix, init, p, seen);
      AddKeys(prev, k, p, seen + init);
      SnocConcat(seen, ks);
    } else {
      assert seen + ks == seen;
    }
  }

  /** Adding `ks` under position `p` only appends to each list, and only `p`. */
  lemma {:induction false} AddAllExtends(ix: Index, ks: seq<string>, p: nat, t: string)
    ensures Bucket(ix, t) <= Bucket(AddAll(ix, ks, p), t)
    ensures forall i :: |Bucket(ix, t)| <= i < |Bucket(AddAll(ix, ks, p), t)| ==> Bucket(AddAll(ix, ks, p), t)[i] == p
    decreases |ks|
  {
    if ks != [] {
      AddAllExtends(ix, ks[..|ks| - 1], p, t);
      AddBucket(AddAll(ix, ks[..|ks| - 1], p), ks[|ks| - 1], p, t);
    }
  }

  /** Adding `ks` under position `p` appends `p` to a key's list once per occurrence of the key in `ks`. */
  lemma {:induction false} AddAllCounts(ix: Index, ks: seq<string>, p: nat, t: string, q: nat)
    ensures multiset(Bucket(AddAll(ix, ks, p), t))[q] == multiset(Bucket(ix, t))[q] + (if q == p then multiset(ks)[t] else 0)
    decreases |ks|
  {
    if ks != [] {
      var init := ks[..|ks| - 1];
      var k := ks[|ks| - 1];
      var ix1 := AddAll(ix, init, p);
      AddAllCounts(ix, init, p, t, q);
      AddBucket(ix1, k, p, t);
      var extra: seq<nat> := if t == k then [p] else [];
      assert multiset(Bucket(ix1, t) + extra) == multiset(Bucket(ix1, t)) + multiset(extra);
      SnocMultiset(ks);
    }
  }

  /** Adding one more key is one more `Add`. */
  lemma AddAllSnoc(ix: Index, ks: seq<string>, k: string, p: nat)
    ensures AddAll(ix, ks + [k], p) == Add(AddAll(ix, ks, p), k, p)
  {
    assert (ks + [k])[..|ks|] == ks;
  }

  // ------------------------------------------------------------ tag index

  /** The tags `_build_indices` files a record under: `tags.lower()` split at commas, each piece stripped, empty pieces skipped. */
  function TagPieces(tags: string): (ps: seq<string>)
    ensures forall i :: 0 <= i < |ps| ==> ps[i] != ""
  {
    var l := Lower(tags);
    if l == "" then [] else NonEmptyStripped(SplitOn(l, ","))
  }

  /** Every record's tag pieces, in record order. */
  function AllPieces(ms: seq<CachedMemory>): seq<string>
  {
    if ms == [] then [] else AllPieces(ms[..|ms| - 1]) + TagPieces(ms[|ms| - 1].tags)
  }

  /** `tag_index` as `_build_indices` leaves it: built from empty, record by record. */
  function TagIndexOf(ms: seq<CachedMemory>): Index
  {
    if ms == [] then EmptyIndex
    else AddAll(TagIndexOf(ms[..|ms| - 1]), TagPieces(ms[|ms| - 1].tags), |ms| - 1)
  }

  /** Indexing one more record: its tag pieces and its user are added under its position. */
  lemma IndexOfSnoc(ms: seq<CachedMemory>, i: nat)
    requires i < |ms|
    ensures TagIndexOf(ms[..i + 1]) == AddAll(TagIndexOf(ms[..i]), TagPieces(ms[i].tags), i)
    ensures UserIndexOf(ms[..i + 1]) ==
      if Lower(ms[i].user) == "" then UserIndexOf(ms[..i]) else Add(UserIndexOf(ms[..i]), Lower(ms[i].user), i)
  {
    assert ms[..i + 1][..i] == ms[..i];
  }

  /** The tag index is well formed, its keys the distinct tag pieces in first-seen order. */
  lemma {:induction false} TagIndexKeys(ms: seq<CachedMemory>)
    ensures Wf(TagIndexOf(ms)) && TagIndexOf(ms).keys == Dedup(AllPieces(ms))
  {
    if ms != [] {
      var init := ms[..|ms| - 1];
      TagIndexKeys(init);
      AddAllKeys(TagIndexOf(init), TagPieces(ms[|ms| - 1].tags), |ms| - 1, AllPieces(init));
    }
  }

  /**
   * Position `q` occurs in the list of tag `t` exactly as often as `t`
   * occurs among the tag pieces of record `q`, and never beyond the end.
   */
  lemma {:induction false} TagIndexCounts(ms: seq<CachedMemory>, t: string, q: nat)
    ensures multiset(Bucket(TagIndexOf(ms), t))[q] == if q < |ms| then multiset(TagPieces(ms[q].tags))[t] else 0
  {
    if ms != [] {
      var n := |ms| - 1;
      var init := ms[..n];
      var ix0 := TagIndexOf(init);
      assert TagIndexOf(ms) == AddAll(ix0, TagPieces(ms[n].tags), n);
      TagIndexCounts(init, t, q);
      AddAllCounts(ix0, TagPieces(ms[n].tags), n, t, q);
      if q < n {
        assert ms[q] == init[q];
      }
    }
  }

  /** The positions in a tag's list are below the number of records. */
  lemma TagIndexBounded(ms: seq<CachedMemory>, t: string)
    ensures forall i :: 0 <= i < |Bucket(TagIndexOf(ms), t)| ==> Bucket(TagIndexOf(ms), t)[i] < |ms|
  {
    var b := Bucket(TagIndexOf(ms), t);
    forall i | 0 <= i < |b| ensures b[i] < |ms| {
      TagIndexCounts(ms, t, b[i]);
      assert b[i] in multiset(b);
    }
  }

  ghost predicate Ascending(b: seq<nat>) {
    forall i, j :: 0 <= i < j < |b| ==> b[i] <= b[j]
  }

  ghost predicate StrictlyAscending(b: seq<nat>) {
    forall i, j :: 0 <= i < j < |b| ==> b[i] < b[j]
  }

  /** Each tag's list is in increasing position order. */
  lemma {:induction false} TagIndexAscending(ms: seq<CachedMemory>, t: string)
    ensures Ascending(Bucket(TagIndexOf(ms), t))
  {
    if ms != [] {
      var n := |ms| - 1;
      var init := ms[..n];
      TagIndexAscending(init, t);
      TagIndexBounded(init, t);
      var ix0 := TagIndexOf(init);
      assert TagIndexOf(ms) == AddAll(ix0, TagPieces(ms[n].tags), n);
      AddAllExtends(ix0, TagPieces(ms[n].tags), n, t);
      var b0 := Bucket(ix0, t);
      var b := Bucket(TagIndexOf(ms), t);
      forall i, j | 0 <= i < j < |b| ensures b[i] <= b[j] {
        if j < |b0| {
          assert b[i] == b0[i] && b[j] == b0[j];
        } else if i < |b0| {
          assert b[i] == b0[i] < n == b[j];
        }
      }
    }
  }

  /** No record is filed under the empty tag. */
  lemma EmptyTagAbsent(ms: seq<CachedMemory>)
    ensures "" !in TagIndexOf(ms).buckets && Bucket(TagIndexOf(ms), "") == []
  {
    var ix := TagIndexOf(ms);
    TagIndexKeys(ms);
    if "" in ix.buckets {
      var b := ix.buckets[""];
      TagIndexCounts(ms, "", b[0]);
      assert false;
    }
  }

  // ----------------------------------------------------------- user index

  /** The lower-cased, non-empty users of the records, in record order. */
  function AllUsers(ms: seq<CachedMemory>): seq<string>
  {
    if ms == [] then []
    else AllUsers(ms[..|ms| - 1]) + (if Lower(ms[|ms| - 1].user) == "" then [] else [Lower(ms[|ms| - 1].user)])
  }

  /** `user_index` as `_build_indices` leaves it. */
  function UserIndexOf(ms: seq<CachedMemory>): Index
  {
    if ms == [] then EmptyIndex
    else
      var ix := UserIndexOf(ms[..|ms| - 1]);
      var u := Lower(ms[|ms| - 1].user);
      if u == "" then ix else Add(ix, u, |ms| - 1)
  }

  /** The user index is well formed, its keys the distinct users in first-seen order. */
  lemma {:induction false} UserIndexKeys(ms: seq<CachedMemory>)
    ensures Wf(UserIndexOf(ms)) && UserIndexOf(ms).keys == Dedup(AllUsers(ms))
  {
    if ms != [] {
      var init := ms[..|ms| - 1];
      var u := Lower(ms[|ms| - 1].user);
      UserIndexKeys(init);
      if u != "" {
        AddKeys(UserIndexOf(init), u, |ms| - 1, AllUsers(init));
      } else {
        assert AllUsers(ms) == AllUsers(init) + [];
        SnocNothing(AllUsers(init));
      }
    }
  }

  lemma SnocNothing<T>(s: seq<T>)
    ensures s + [] == s
  {
  }

  /** The list of user `u` holds exactly the positions whose lower-cased user is `u`, a non-empty string. */
  lemma {:induction false} UserIndexBucket(ms: seq<CachedMemory>, u: string)
    ensures forall q: nat :: q in Bucket(UserIndexOf(ms), u) <==> q < |ms| && u != "" && Lower(ms[q].user) == u
  {
    if ms != [] {
      var init := ms[..|ms| - 1];
      var n := |ms| - 1;
      var v := Lower(ms[n].user);
      UserIndexBucket(init, u);
      var b0 := Bucket(UserIndexOf(init), u);
      var b := Bucket(UserIndexOf(ms), u);
      assert b == b0 + (if v != "" && u == v then [n] else []) by {
        if v != "" {
          AddBucket(UserIndexOf(init), v, n, u);
        }
      }
      forall q: nat ensures q in b <==> q < |ms| && u != "" && Lower(ms[q].user) == u {
        if q < n {
          assert ms[q] == init[q];
        }
      }
    }
  }

  /** Each user's list is in strictly increasing position order. */
  lemma {:induction false} UserIndexAscending(ms: seq<CachedMemory>, u: string)
    ensures StrictlyAscending(Bucket(UserIndexOf(ms), u))
  {
    if ms != [] {
      var n := |ms| - 1;
      var init := ms[..n];
      UserIndexAscending(init, u);
      UserIndexBounded(init, u);
      var v := Lower(ms[n].user);
      if v != "" {
        UserAscendingStep(UserIndexOf(init), v, n, u);
      }
    }
  }

  /** Filing position `n` under `v`, above every position already filed, keeps each list strictly ascending. */
  lemma UserAscendingStep(ix: Index, v: string, n: nat, u: string)
    requires StrictlyAscending(Bucket(ix, u))
    requires forall i :: 0 <= i < |Bucket(ix, u)| ==> Bucket(ix, u)[i] < n
    ensures StrictlyAscending(Bucket(Add(ix, v, n), u))
  {
    AddBucket(ix, v, n, u);
    var b0 := Bucket(ix, u);
    var b := Bucket(Add(ix, v, n), u);
    forall i, j | 0 <= i < j < |b| ensures b[i] < b[j] {
      if j < |b0| {
        assert b[i] == b0[i] && b[j] == b0[j];
      } else {
        assert b[i] == b0[i] < n == b[j];
      }
    }
  }

  // -------------------------------------------------------------- queries

  /** `op_type is None or memory['opType'] == op_type`. */
  predicate OpMatches(op: int, filter: Option<int>) {
    filter.None? || op == filter.value
  }

  /** The record filters of the scanning queries; query texts are already lower-cased. */
  datatype Query =
    | TitleQuery(text: string, opType: Option<int>)   // `search_by_title`
    | SummaryQuery(text: string)                      // `search_by_summary`
    | UserQuery(user: string)                         // `get_by_user`, through `user_index`
    | OpQuery(opType: Option<int>)                    // `get_recent`

  predicate Matches(m: CachedMemory, q: Query) {
    match q
    case TitleQuery(t, op) => OpMatches(m.opType, op) && IsSubstring(t, Lower(m.title))
    case SummaryQuery(t) => IsSubstring(t, Lower(m.summary))
    case UserQuery(u) => u != "" && Lower(m.user) == u
    case OpQuery(op) => OpMatches(m.opType, op)
  }

  /** The records that match, in cache order. */
  function Matching(ms: seq<CachedMemory>, q: Query): (r: seq<CachedMemory>)
    ensures |r| <= |ms|
    ensures forall m :: m in r ==> m in ms && Matches(m, q)
  {
    if ms == [] then []
    else Matching(ms[..|ms| - 1], q) + (if Matches(ms[|ms| - 1], q) then [ms[|ms| - 1]] else [])
  }

  /** Scanning one more record appends it when it matches. */
  lemma MatchingSnoc(ms: seq<CachedMemory>, q: Query, i: nat)
    requires i < |ms|
    ensures Matches(ms[i], q) ==> Matching(ms[..i + 1], q) == Matching(ms[..i], q) + [ms[i]]
    ensures !Matches(ms[i], q) ==> Matching(ms[..i + 1], q) == Matching(ms[..i], q)
  {
    assert ms[..i + 1][..i] == ms[..i];
  }

  /** A record is among the matches exactly when it is a cached record that matches. */
  lemma {:induction false} MatchingMembers(ms: seq<CachedMemory>, q: Query)
    ensures forall m :: m in Matching(ms, q) <==> m in ms && Matches(m, q)
  {
    if ms != [] {
      var init := ms[..|ms| - 1];
      MatchingMembers(init, q);
      assert ms == init + [ms[|ms| - 1]];
    }
  }

  /** The matches among the first `i` records are the first matches overall. */
  lemma {:induction false} MatchingPrefix(ms: seq<CachedMemory>, q: Query, i: nat)
    requires i <= |ms|
    ensures Matching(ms[..i], q) <= Matching(ms, q)
    decreases |ms|
  {
    if i < |ms| {
      var init := ms[..|ms| - 1];
      assert ms[..i] == init[..i];
      MatchingPrefix(init, q, i);
    } else {
      assert ms[..i] == ms;
    }
  }

  /** The state of a scan: `results` holds the matches among the first `i` records. */
  ghost predicate Scanned(ms: seq<CachedMemory>, q: Query, i: nat, results: seq<CachedMemory>) {
    i <= |ms| && results == Matching(ms[..i], q)
  }

  /** Scanning one more record appends it when it matches. */
  lemma ScanStep(ms: seq<CachedMemory>, q: Query, i: nat, results: seq<CachedMemory>)
    requires i < |ms| && Scanned(ms, q, i, results)
    ensures Matches(ms[i], q) ==> Scanned(ms, q, i + 1, results + [ms[i]])
    ensures !Matches(ms[i], q) ==> Scanned(ms, q, i + 1, results)
  {
    MatchingSnoc(ms, q, i);
  }

  /** A scan that stops after record `i` with `n` matches has the first `n` matches overall. */
  lemma ScanStop(ms: seq<CachedMemory>, q: Query, i: nat, results: seq<CachedMemory>, n: nat)
    requires i < |ms| && Scanned(ms, q, i + 1, results) && |results| == n
    ensures results == PyTake(Matching(ms, q), n)
  {
    MatchingPrefix(ms, q, i + 1);
  }

  /** A scan that reaches the end below the cap has every match. */
  lemma ScanDone(ms: seq<CachedMemory>, q: Query, results: seq<CachedMemory>, n: nat)
    requires Scanned(ms, q, |ms|, results) && |results| < n
    ensures results == PyTake(Matching(ms, q), n)
  {
    assert ms[..|ms|] == ms;
  }

  /** An empty title query without an operation filter matches every record. */
  lemma {:induction false} EmptyTitleQuery(ms: seq<CachedMemory>)
    ensures Matching(ms, TitleQuery("", None)) == ms
  {
    if ms != [] {
      EmptyTitleQuery(ms[..|ms| - 1]);
      EmptyIsSubstring(Lower(ms[|ms| - 1].title));
      SnocConcat([], ms);
    }
  }

  /** An empty summary query matches every record. */
  lemma {:induction false} EmptySummaryQuery(ms: seq<CachedMemory>)
    ensures Matching(ms, SummaryQuery("")) == ms
  {
    if ms != [] {
      EmptySummaryQuery(ms[..|ms| - 1]);
      EmptyIsSubstring(Lower(ms[|ms| - 1].summary));
      SnocConcat([], ms);
    }
  }

  /** The positions in a user's list are below the number of records. */
  lemma UserIndexBounded(ms: seq<CachedMemory>, u: string)
    ensures forall i :: 0 <= i < |Bucket(UserIndexOf(ms), u)| ==> Bucket(UserIndexOf(ms), u)[i] < |ms|
  {
    UserIndexBucket(ms, u);
    var b := Bucket(UserIndexOf(ms), u);
    forall i | 0 <= i < |b| ensures b[i] < |ms| {
      assert b[i] in b;
    }
  }

  /** Reading the user's list of positions gives the user's records in cache order. */
  lemma {:induction false} UserIndexSelect(ms: seq<CachedMemory>, u: string)
    ensures forall i :: 0 <= i < |Bucket(UserIndexOf(ms), u)| ==> Bucket(UserIndexOf(ms), u)[i] < |ms|
    ensures Select(ms, Bucket(UserIndexOf(ms), u)) == Matching(ms, UserQuery(u))
  {
    UserIndexBounded(ms, u);
    if ms != [] {
      var n := |ms| - 1;
      var init := ms[..n];
      UserIndexSelect(init, u);
      UserSelectStep(ms, init, u);
    }
  }

  /** One step of `UserIndexSelect`: the last record is selected exactly when it matches. */
  lemma UserSelectStep(ms: seq<CachedMemory>, init: seq<CachedMemory>, u: string)
    requires ms != [] && init == ms[..|ms| - 1]
    requires forall i :: 0 <= i < |Bucket(UserIndexOf(init), u)| ==> Bucket(UserIndexOf(init), u)[i] < |init|
    requires Select(init, Bucket(UserIndexOf(init), u)) == Matching(init, UserQuery(u))
    ensures forall i :: 0 <= i < |Bucket(UserIndexOf(ms), u)| ==> Bucket(UserIndexOf(ms), u)[i] < |ms|
    ensures Select(ms, Bucket(UserIndexOf(ms), u)) == Matching(ms, UserQuery(u))
  {
    var n := |ms| - 1;
    var last := ms[n];
    var q := UserQuery(u);
    var b0 := Bucket(UserIndexOf(init), u);
    var v := Lower(last.user);
    Snoc(ms);
    SelectExtend(init, [last], b0);
    assert Select(ms, b0) == Matching(init, q);
    if v != "" {
      AddBucket(UserIndexOf(init), v, n, u);
    }
    if v != "" && v == u {
      assert Bucket(UserIndexOf(ms), u) == b0 + [n];
      SelectSnoc(ms, b0, n);
      assert Matching(ms, q) == Matching(init, q) + [last];
    } else {
      assert Bucket(UserIndexOf(ms), u) == b0 + [];
      SnocNothing(b0);
      assert !Matches(last, q);
      assert Matching(ms, q) == Matching(init, q) + [];
      SnocNothing(Matching(init, q));
    }
  }

  function Timestamp(m: CachedMemory): int { m.timestamp }

  /** `sort(key=lambda m: m['timestamp'], reverse=True)`: newest first, ties in their current order. */
  function SortByTimestamp(ms: seq<CachedMemory>): (r: seq<CachedMemory>)
    ensures |r| == |ms| && multiset(r) == multiset(ms) && NonIncreasing(r, Timestamp)
  {
    SortDesc(ms, Timestamp)
  }

  // ---------------------------------------------------------- tag queries

  /** `[t.strip().lower() for t in tag_query.split(',')]`. */
  function QueryTags(tagQuery: string): seq<string>
  {
    var ps := SplitOn(tagQuery, ",");
    seq(|ps|, i requires 0 <= i < |ps| => Lower(Strip(ps[i])))
  }

  /** `matching_ids`: the union of the lists of the query tags that are keys. */
  function TagHits(ix: Index, qs: seq<string>): set<nat>
  {
    set t, p | t in qs && p in Bucket(ix, t) :: p
  }

  /** The candidates `search_by_tags` may return: hits that pass the operation filter. */
  function Eligible(ms: seq<CachedMemory>, hits: set<nat>, opType: Option<int>): set<nat>
  {
    set p | p in hits && p < |ms| && OpMatches(ms[p].opType, opType)
  }

  /** A record one of whose tag pieces is a query tag is a hit. */
  lemma TagHitOf(ms: seq<CachedMemory>, qs: seq<string>, p: nat, t: string)
    requires p < |ms| && t in qs && t in TagPieces(ms[p].tags)
    ensures p in TagHits(TagIndexOf(ms), qs)
  {
    var b := Bucket(TagIndexOf(ms), t);
    assert t in multiset(TagPieces(ms[p].tags));
    TagIndexCounts(ms, t, p);
    assert p in multiset(b);
    assert p in b;
  }

  /** Every hit is a record one of whose tag pieces is a query tag. */
  lemma TagHitWitness(ms: seq<CachedMemory>, qs: seq<string>, p: nat) returns (t: string)
    requires p in TagHits(TagIndexOf(ms), qs)
    ensures p < |ms| && t in qs && t in TagPieces(ms[p].tags)
  {
    t :| t in qs && p in Bucket(TagIndexOf(ms), t);
    TagIndexCounts(ms, t, p);
    assert p in multiset(Bucket(TagIndexOf(ms), t));
  }

  /** A record is a hit exactly when one of the query tags is among its tag pieces. */
  lemma TagHitsMeaning(ms: seq<CachedMemory>, qs: seq<string>, p: nat)
    ensures p in TagHits(TagIndexOf(ms), qs) <==> p < |ms| && exists t :: t in qs && t in TagPieces(ms[p].tags)
  {
    if p in TagHits(TagIndexOf(ms), qs) {
      var t := TagHitWitness(ms, qs, p);
    }
    if p < |ms| && exists t :: t in qs && t in TagPieces(ms[p].tags) {
      var t :| t in qs && t in TagPieces(ms[p].tags);
      TagHitOf(ms, qs, p, t);
    }
  }

  /** Query tags do not depend on the case of the query. */
  lemma QueryTagsIgnoreCase(tagQuery: string)
    ensures QueryTags(Lower(tagQuery)) == QueryTags(tagQuery)
  {
    SplitOnLower(tagQuery, ',');
    var ps := SplitOn(tagQuery, ",");
    forall i | 0 <= i < |ps| ensures Lower(Strip(Lower(ps[i]))) == Lower(Strip(ps[i])) {
      StripLower(ps[i]);
      LowerIdempotent(Strip(ps[i]));
    }
  }

  /** A query of only whitespace and commas has only empty query tags, so it hits nothing. */
  lemma BlankTagQuery(ms: seq<CachedMemory>, tagQuery: string)
    requires forall j :: 0 <= j < |tagQuery| ==> IsSpace(tagQuery[j]) || tagQuery[j] == ','
    ensures forall i :: 0 <= i < |QueryTags(tagQuery)| ==> QueryTags(tagQuery)[i] == ""
    ensures TagHits(TagIndexOf(ms), QueryTags(tagQuery)) == {}
  {
    var ps := SplitOn(tagQuery, [',']);
    assert ps == SplitOn(tagQuery, ",");
    SplitOnPieces(tagQuery, ',');
    forall i | 0 <= i < |ps| ensures Strip(ps[i]) == "" {
      forall j | 0 <= j < |ps[i]| ensures IsSpace(ps[i][j]) {
        var d := ps[i][j];
        assert d in ps[i] && d != ',';
        assert d in tagQuery;
        var k :| 0 <= k < |tagQuery| && tagQuery[k] == d;
      }
    }
    EmptyTagAbsent(ms);
  }

  /** The hits depend on the query tags only as a set: their order and repetitions do not matter. */
  lemma TagHitsOrderFree(ix: Index, qs1: seq<string>, qs2: seq<string>)
    requires forall t :: t in qs1 <==> t in qs2
    ensures TagHits(ix, qs1) == TagHits(ix, qs2)
  {
  }

  /** Extending the query tags by one adds that tag's list. */
  lemma TagHitsSnoc(ix: Index, qs: seq<string>, t: string)
    ensures TagHits(ix, qs + [t]) == TagHits(ix, qs) + set p | p in Bucket(ix, t)
  {
    assert forall x :: x in qs + [t] <==> x in qs || x == t;
  }

  /** Taking one more query tag adds that tag's list. */
  lemma TagHitsTakeSnoc(ix: Index, qs: seq<string>, k: nat)
    requires k < |qs|
    ensures TagHits(ix, qs[..k + 1]) == TagHits(ix, qs[..k]) + set p | p in Bucket(ix, qs[k])
  {
    Snoc(qs[..k + 1]);
    assert qs[..k + 1][..k] == qs[..k];
    TagHitsSnoc(ix, qs[..k], qs[k]);
  }

  /** Visiting one more hit adds it to the eligible ones when it passes the filter. */
  lemma EligibleAdd(ms: seq<CachedMemory>, done: set<nat>, p: nat, opType: Option<int>)
    ensures Eligible(ms, done + {p}, opType) ==
      Eligible(ms, done, opType) + if p < |ms| && OpMatches(ms[p].opType, opType) then {p} else {}
  {
  }

  /** Every hit is a position of a cached record. */
  lemma TagHitsBounded(ms: seq<CachedMemory>, qs: seq<string>)
    ensures forall p :: p in TagHits(TagIndexOf(ms), qs) ==> p < |ms|
  {
    forall p | p in TagHits(TagIndexOf(ms), qs) ensures p < |ms| {
      var t := TagHitWitness(ms, qs, p);
    }
  }

  /** An eligible hit is a cached record passing the filter and carrying a query tag. */
  lemma EligibleRecord(ms: seq<CachedMemory>, qs: seq<string>, opType: Option<int>, p: nat)
    requires p in Eligible(ms, TagHits(TagIndexOf(ms), qs), opType)
    ensures p < |ms| && OpMatches(ms[p].opType, opType) && exists t :: t in qs && t in TagPieces(ms[p].tags)
  {
    var t := TagHitWitness(ms, qs, p);
  }

  /**
   * Whatever eligible hits a tag search picks, it returns cached records
   * carrying one of the query tags and passing the operation filter.
   */
  lemma TagResultsMatch(ms: seq<CachedMemory>, qs: seq<string>, opType: Option<int>, picked: seq<nat>)
    requires forall i :: 0 <= i < |picked| ==> picked[i] in Eligible(ms, TagHits(TagIndexOf(ms), qs), opType)
    ensures forall i :: 0 <= i < |picked| ==> picked[i] < |ms|
    ensures forall m :: m in SortByTimestamp(Select(ms, picked)) ==>
      m in ms && OpMatches(m.opType, opType) && exists t :: t in qs && t in TagPieces(m.tags)
  {
    forall i | 0 <= i < |picked| ensures picked[i] < |ms| {
      EligibleRecord(ms, qs, opType, picked[i]);
    }
    var sel := Select(ms, picked);
    forall m | m in SortByTimestamp(sel)
      ensures m in ms && OpMatches(m.opType, opType) && exists t :: t in qs && t in TagPieces(m.tags)
    {
      SortedMember(sel, Timestamp, m);
      var i := SelectMember(ms, picked, m);
      EligibleRecord(ms, qs, opType, picked[i]);
    }
  }

  // -------------------------------------------------------------- counts

  /** `sum(1 for m in memories if m['opType'] == op)`. */
  function CountOp(ms: seq<CachedMemory>, op: int): (n: nat)
    ensures n <= |ms|
  {
    if ms == [] then 0
    else CountOp(ms[..|ms| - 1], op) + (if ms[|ms| - 1].opType == op then 1 else 0)
  }

  /**
   * Inserts plus searches never exceed the records, and equal them exactly
   * when every record's operation is 0 or 1.
   */
  lemma {:induction false} OperationCounts(ms: seq<CachedMemory>)
    ensures CountOp(ms, 0) + CountOp(ms, 1) <= |ms|
    ensures CountOp(ms, 0) + CountOp(ms, 1) == |ms| <==> forall i :: 0 <= i < |ms| ==> ms[i].opType == 0 || ms[i].opType == 1
  {
    if ms != [] {
      var init := ms[..|ms| - 1];
      OperationCounts(init);
      if CountOp(ms, 0) + CountOp(ms, 1) == |ms| {
        forall i | 0 <= i < |ms| ensures ms[i].opType == 0 || ms[i].opType == 1 {
          if i < |init| {
            assert ms[i] == init[i];
          }
        }
      }
      if forall i :: 0 <= i < |ms| ==> ms[i].opType == 0 || ms[i].opType == 1 {
        forall i | 0 <= i < |init| ensures init[i].opType == 0 || init[i].opType == 1 {
          assert ms[i] == init[i];
        }
      }
    }
  }

  /** `get_recent`'s answer: the records passing the filter, newest first, cut with `[:limit]`. */
  function Recent(ms: seq<CachedMemory>, limit: int, opType: Option<int>): seq<CachedMemory>
  {
    PyTake(SortByTimestamp(Matching(ms, OpQuery(opType))), limit)
  }

  /**
   * The recent records pass the filter and are newest first; for
   * `limit >= 0` there are `limit` of them or all that pass; none left out
   * is newer than one returned.
   */
  lemma RecentFacts(ms: seq<CachedMemory>, limit: int, opType: Option<int>)
    ensures forall m :: m in Recent(ms, limit, opType) ==> m in ms && OpMatches(m.opType, opType)
    ensures NonIncreasing(Recent(ms, limit, opType), Timestamp)
    ensures 0 <= limit ==> |Recent(ms, limit, opType)| == Min(limit, |Matching(ms, OpQuery(opType))|)
    ensures forall m :: m in ms && OpMatches(m.opType, opType) && m !in Recent(ms, limit, opType) ==>
      forall d :: d in Recent(ms, limit, opType) ==> d.timestamp >= m.timestamp
  {
    var f := Matching(ms, OpQuery(opType));
    MatchingMembers(ms, OpQuery(opType));
    SortedPrefix(f, Timestamp, limit);
    forall m | m in ms && OpMatches(m.opType, opType) && m !in Recent(ms, limit, opType)
      ensures forall d :: d in Recent(ms, limit, opType) ==> d.timestamp >= m.timestamp
    {
      TopOfSorted(f, Timestamp, limit, m);
    }
  }

  /**
   * What a scanning search returns for a cap `n`: the first `n` matches in
   * cache order (all of them when fewer), newest first.
   */
  lemma ScanFacts(ms: seq<CachedMemory>, q: Query, n: nat)
    ensures |SortByTimestamp(PyTake(Matching(ms, q), n))| == Min(n, |Matching(ms, q)|)
    ensures forall m :: m in SortByTimestamp(PyTake(Matching(ms, q), n)) ==> m in ms && Matches(m, q)
    ensures NonIncreasing(SortByTimestamp(PyTake(Matching(ms, q), n)), Timestamp)
    ensures |Matching(ms, q)| <= n ==> multiset(SortByTimestamp(PyTake(Matching(ms, q), n))) == multiset(Matching(ms, q))
  {
    var f := Matching(ms, q);
    var t := PyTake(f, n);
    var r := SortByTimestamp(t);
    forall m | m in r ensures m in ms && Matches(m, q) {
      assert m in multiset(r);
      assert m in multiset(t);
      assert m in f;
    }
    if |f| <= n {
      assert t == f;
    }
  }

  // ---------------------------------------------------------- tag stats

  /** Adding `ks` under one position makes a key's list longer by its occurrences in `ks`. */
  lemma {:induction false} AddAllLength(ix: Index, ks: seq<string>, p: nat, t: string)
    ensures |Bucket(AddAll(ix, ks, p), t)| == |Bucket(ix, t)| + multiset(ks)[t]
    decreases |ks|
  {
    if ks != [] {
      AddAllLength(ix, ks[..|ks| - 1], p, t);
      AddBucket(AddAll(ix, ks[..|ks| - 1], p), ks[|ks| - 1], p, t);
      SnocMultiset(ks);
    }
  }

  /** The count of a tag is the number of its occurrences among all records' tag pieces. */
  lemma {:induction false} TagCount(ms: seq<CachedMemory>, t: string)
    ensures |Bucket(TagIndexOf(ms), t)| == multiset(AllPieces(ms))[t]
  {
    if ms != [] {
      var init := ms[..|ms| - 1];
      var last := TagPieces(ms[|ms| - 1].tags);
      TagCount(init, t);
      AddAllLength(TagIndexOf(init), last, |ms| - 1, t);
      assert multiset(AllPieces(init) + last) == multiset(AllPieces(init)) + multiset(last);
    }
  }

  /** `{tag: len(ids) for tag, ids in tag_index.items()}`, as its items in key order. */
  function TagStats(ix: Index): seq<(string, nat)>
  {
    seq(|ix.keys|, i requires 0 <= i < |ix.keys| => (ix.keys[i], |Bucket(ix, ix.keys[i])|))
  }

  /**
   * The tag statistics of the cached records: one entry per distinct tag
   * piece, in first-seen order, each with its number of occurrences.
   */
  lemma TagStatsCounts(ms: seq<CachedMemory>)
    ensures var r := TagStats(TagIndexOf(ms));
      && |r| == |Dedup(AllPieces(ms))|
      && forall i :: 0 <= i < |r| ==> r[i].0 == Dedup(AllPieces(ms))[i] && r[i].1 == multiset(AllPieces(ms))[r[i].0]
  {
    TagIndexKeys(ms);
    var r := TagStats(TagIndexOf(ms));
    forall i | 0 <= i < |r| ensures r[i].1 == multiset(AllPieces(ms))[r[i].0] {
      TagCount(ms, r[i].0);
    }
  }

  function Count(e: (string, nat)): int { e.1 }

  /** `sorted(stats.items(), key=lambda x: x[1], reverse=True)[:limit]`. */
  function Trending(ix: Index, limit: int): seq<(string, nat)>
  {
    PyTake(SortDesc(TagStats(ix), Count), limit)
  }

  /**
   * Trending tags: at most `limit` (for `limit >= 0`) of the tag statistics,
   * most used first, equal counts in first-seen order, and no tag left out
   * that is used more than one kept.
   */
  lemma TrendingFacts(ix: Index, limit: int)
    ensures 0 <= limit ==> |Trending(ix, limit)| == Min(limit, |ix.keys|)
    ensures forall e :: e in Trending(ix, limit) ==> e.0 in ix.keys && e.1 == |Bucket(ix, e.0)|
    ensures NonIncreasing(Trending(ix, limit), Count)
    ensures forall c :: KeyFilter(Trending(ix, limit), Count, c) <= KeyFilter(TagStats(ix), Count, c)
    ensures forall e :: e in TagStats(ix) && e !in Trending(ix, limit) ==> forall d :: d in Trending(ix, limit) ==> d.1 >= e.1
  {
    SortedPrefix(TagStats(ix), Count, limit);
    forall e | e in TagStats(ix) && e !in Trending(ix, limit) ensures forall d :: d in Trending(ix, limit) ==> d.1 >= e.1 {
      TopOfSorted(TagStats(ix), Count, limit, e);
    }
  }

  /** The key whose list is longest, the first such in key order (`max(..., key=len)`), if any. */
  function MostActive(ix: Index): (r: Option<string>)
    ensures r.None? <==> ix.keys == []
    ensures r.Some? ==> r.value in ix.keys && forall k :: k in ix.keys ==> |Bucket(ix, k)| <= |Bucket(ix, r.value)|
    ensures r.Some? ==> exists i :: 0 <= i < |ix.keys| && ix.keys[i] == r.value &&
                                  forall j :: 0 <= j < i ==> |Bucket(ix, ix.keys[j])| < |Bucket(ix, r.value)|
  {
    if ix.keys == [] then None
    else
      var i := FirstMax(ix.keys, k => |Bucket(ix, k)|);
      Some(ix.keys[i])
  }
}
