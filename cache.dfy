/**
 * The Monad cache: an in-memory copy of the ledger's memory records with a
 * tag index and a user index, filled by a sync and read by the queries.
 * The ledger reads are the caller's `total` (None when reading it raised)
 * and `fetch` (None when reading one record raised); the clock is `now`.
 */
module Cache {
  import opened Wrappers
  import opened Text
  import opened Seqs
  import opened MonadLogger
  import opened CacheIndex

  /** `get_stats()`: the fixed answer before the first sync, the figures after it. */
  datatype Stats =
    | Unsynced
    | Synced(lastSync: Option<int>, totalMemories: nat, insertOperations: nat, searchOperations: nat,
             uniqueTags: nat, uniqueUsers: nat, mostActiveUser: Option<string>)

  class MonadCache {
    var memories: seq<CachedMemory>
    var tagIndex: Index
    var userIndex: Index
    var synced: bool
    var lastSync: Option<int>

    /** Both indices describe `memories`, the records are in ledger-id order, and a sync time is known once synced. */
    ghost predicate Valid()
      reads this
    {
      && tagIndex == TagIndexOf(memories)
      && userIndex == UserIndexOf(memories)
      && IdsIncreasing(memories)
      && (synced <==> lastSync.Some?)
    }

    constructor ()
      ensures Valid()
      ensures memories == [] && tagIndex == EmptyIndex && userIndex == EmptyIndex
      ensures !synced && lastSync == None
    {
      memories := [];
      tagIndex := EmptyIndex;
      userIndex := EmptyIndex;
      synced := false;
      lastSync := None;
    }

    /** `_build_indices`: both indices cleared and rebuilt from `memories`. */
    method BuildIndices()
      modifies this
      ensures tagIndex == TagIndexOf(memories) && userIndex == UserIndexOf(memories)
      ensures memories == old(memories) && synced == old(synced) && lastSync == old(lastSync)
    {
      var tags, users := IndexAll(memories);
      tagIndex := tags;
      userIndex := users;
    }

    /**
     * `sync_from_blockchain`: a failed read of the total changes nothing; a
     * total of zero only marks the cache synced (keeping what it held);
     * otherwise every id below the total is fetched, failures skipped, and
     * the indices rebuilt.
     */
    method SyncFromBlockchain(total: Option<nat>, fetch: nat -> Option<RawMemory>, now: int)
      requires Valid()
      modifies this
      ensures Valid()
      ensures total.None? ==>
        memories == old(memories) && synced == old(synced) && lastSync == old(lastSync)
      ensures total == Some(0) ==> memories == old(memories) && synced && lastSync == Some(now)
      ensures total.Some? && total.value > 0 ==>
        memories == Fetched(fetch, total.value) && synced && lastSync == Some(now)
    {
      if total.None? {
        return;
      }
      var n := total.value;
      if n == 0 {
        synced := true;
        lastSync := Some(now);
        return;
      }
      var fetched := FetchAll(fetch, n);
      FetchedIdsIncreasing(fetch, n);
      memories := fetched;
      BuildIndices();
      synced := true;
      lastSync := Some(now);
    }

    /** `refresh`: a sync. */
    method Refresh(total: Option<nat>, fetch: nat -> Option<RawMemory>, now: int)
      requires Valid()
      modifies this
      ensures Valid()
      ensures total.None? ==>
        memories == old(memories) && synced == old(synced) && lastSync == old(lastSync)
      ensures total == Some(0) ==> memories == old(memories) && synced && lastSync == Some(now)
      ensures total.Some? && total.value > 0 ==>
        memories == Fetched(fetch, total.value) && synced && lastSync == Some(now)
    {
      SyncFromBlockchain(total, fetch, now);
    }

    /**
     * `search_by_tags`. The hits are collected as a set and visited in an
     * order the model leaves open; `picked` records the positions visited
     * and kept. They are distinct eligible hits, as many as the cap allows
     * (all when fewer), and the answer is their records newest first.
     */
    method SearchByTags(tagQuery: string, limit: int, opType: Option<int>) returns (r: seq<CachedMemory>, picked: seq<nat>)
      requires Valid()
      ensures !synced ==> r == [] && picked == []
      ensures synced ==>
        var eligible := Eligible(memories, TagHits(tagIndex, QueryTags(tagQuery)), opType);
        && (forall i :: 0 <= i < |picked| ==> picked[i] in eligible)
        && (forall i, j :: 0 <= i < j < |picked| ==> picked[i] != picked[j])
        && |picked| == Min(LoopLimit(limit), |eligible|)
        && r == SortByTimestamp(Select(memories, picked))
    {
      if !synced {
        return [], [];
      }
      var ms := memories;
      var qs := QueryTags(tagQuery);
      var matching := CollectHits(tagIndex, qs);
      TagHitsBounded(ms, qs);
      r, picked := PickEligible(ms, matching, limit, opType);
    }

    /** `search_by_title`: title matches in cache order, cut at the cap, newest first. */
    method SearchByTitle(query: string, limit: int, opType: Option<int>) returns (r: seq<CachedMemory>)
      ensures !synced ==> r == []
      ensures synced ==> r == SortByTimestamp(PyTake(Matching(memories, TitleQuery(Lower(query), opType)), LoopLimit(limit)))
    {
      if !synced {
        return [];
      }
      var found := ScanMatches(memories, TitleQuery(Lower(query), opType), limit);
      r := SortByTimestamp(found);
    }

    /** `search_by_summary`: summary matches in cache order, cut at the cap, newest first. */
    method SearchBySummary(query: string, limit: int) returns (r: seq<CachedMemory>)
      ensures !synced ==> r == []
      ensures synced ==> r == SortByTimestamp(PyTake(Matching(memories, SummaryQuery(Lower(query))), LoopLimit(limit)))
    {
      if !synced {
        return [];
      }
      var found := ScanMatches(memories, SummaryQuery(Lower(query)), limit);
      r := SortByTimestamp(found);
    }

    /** `get_recent`. */
    function GetRecent(limit: int, opType: Option<int>): (r: seq<CachedMemory>)
      reads this
      ensures !synced ==> r == []
      ensures synced ==> r == Recent(memories, limit, opType)
    {
      if !synced then [] else Recent(memories, limit, opType)
    }

    /**
     * `get_by_user`: read through the user index, the first `limit` of the
     * user's positions (Python slicing), newest first. It is the same as
     * scanning the records for the user.
     */
    function GetByUser(userAddress: string, limit: int): (r: seq<CachedMemory>)
      requires Valid()
      reads this
      ensures !synced ==> r == []
      ensures synced ==> r == SortByTimestamp(PyTake(Matching(memories, UserQuery(Lower(userAddress))), limit))
    {
      var u := Lower(userAddress);
      UserIndexSelect(memories, u);
      if !synced then []
      else if u !in userIndex.buckets then
        assert Bucket(userIndex, u) == [];
        []
      else
        var ids := PyTake(userIndex.buckets[u], limit);
        SelectTake(memories, userIndex.buckets[u], limit);
        SortByTimestamp(Select(memories, ids))
    }

    /** `get_tag_stats`: each tag with the length of its list, in first-seen order; empty before a sync. */
    function GetTagStats(): (r: seq<(string, nat)>)
      reads this
      ensures !synced ==> r == []
      ensures synced ==> r == TagStats(tagIndex)
    {
      if !synced then [] else TagStats(tagIndex)
    }

    /** `get_trending_tags`. */
    function GetTrendingTags(limit: int): (r: seq<(string, nat)>)
      reads this
      ensures !synced ==> r == []
      ensures synced ==> r == Trending(tagIndex, limit)
    {
      PyTake(SortDesc(GetTagStats(), Count), limit)
    }

    /** `get_stats`. */
    function GetStats(): (r: Stats)
      reads this
      ensures r.Synced? <==> synced
      ensures r.Synced? ==> r.lastSync == lastSync && r.totalMemories == |memories|
      ensures r.Synced? ==>
        r.insertOperations == CountOp(memories, InsertOp) && r.searchOperations == CountOp(memories, SearchOp)
      ensures r.Synced? ==> r.insertOperations + r.searchOperations <= r.totalMemories
      ensures r.Synced? ==> (r.insertOperations + r.searchOperations == r.totalMemories <==>
        forall i :: 0 <= i < |memories| ==> memories[i].opType == InsertOp || memories[i].opType == SearchOp)
      ensures r.Synced? && Valid() ==>
        r.uniqueTags == |Dedup(AllPieces(memories))| && r.uniqueUsers == |Dedup(AllUsers(memories))|
      ensures r.Synced? ==> r.uniqueTags == |tagIndex.keys| && r.uniqueUsers == |userIndex.keys|
      ensures r.Synced? ==> (r.mostActiveUser.None? <==> userIndex.keys == [])
      ensures r.Synced? && r.mostActiveUser.Some? ==>
        exists i :: 0 <= i < |userIndex.keys| && userIndex.keys[i] == r.mostActiveUser.value &&
          (forall u :: u in userIndex.keys ==> |Bucket(userIndex, u)| <= |Bucket(userIndex, userIndex.keys[i])|) &&
          (forall j :: 0 <= j < i ==> |Bucket(userIndex, userIndex.keys[j])| < |Bucket(userIndex, userIndex.keys[i])|)
    {
      if !synced then Unsynced
      else
        OperationCounts(memories);
        TagIndexKeys(memories);
        UserIndexKeys(memories);
        Synced(lastSync, |memories|, CountOp(memories, InsertOp), CountOp(memories, SearchOp),
               |tagIndex.keys|, |userIndex.keys|, MostActive(userIndex))
    }
  }

  /** The first loop of `search_by_tags`: the union of the lists of the query tags that are keys. */
  method CollectHits(ix: Index, qs: seq<string>) returns (matching: set<nat>)
    ensures matching == TagHits(ix, qs)
  {
    matching := {};
    var k := 0;
    while k < |qs|
      invariant 0 <= k <= |qs|
      invariant matching == TagHits(ix, qs[..k])
    {
      TagHitsTakeSnoc(ix, qs, k);
      if qs[k] in ix.buckets {
        matching := matching + set p | p in ix.buckets[qs[k]];
      }
      k := k + 1;
    }
    TakeAll(qs);
  }

  /** The loop both scanning searches share: append each match, stop once the cap is reached. */
  method ScanMatches(ms: seq<CachedMemory>, q: Query, limit: int) returns (results: seq<CachedMemory>)
    ensures results == PyTake(Matching(ms, q), LoopLimit(limit))
  {
    results := [];
    var i := 0;
    while i < |ms|
      invariant i <= |ms| && Scanned(ms, q, i, results)
      invariant |results| < LoopLimit(limit)
    {
      ScanStep(ms, q, i, results);
      if Matches(ms[i], q) {
        results := results + [ms[i]];
        if |results| >= limit {
          ScanStop(ms, q, i, results, LoopLimit(limit));
          return;
        }
      }
      i := i + 1;
    }
    ScanDone(ms, q, results, LoopLimit(limit));
  }

  /**
   * The second loop of `search_by_tags`: visit the hits in some order,
   * keep those passing the filter, stop once the cap is reached, and sort
   * what was kept newest first.
   */
  method PickEligible(ms: seq<CachedMemory>, matching: set<nat>, limit: int, opType: Option<int>)
    returns (r: seq<CachedMemory>, picked: seq<nat>)
    requires forall p :: p in matching ==> p < |ms|
    ensures forall i :: 0 <= i < |picked| ==> picked[i] in Eligible(ms, matching, opType)
    ensures forall i, j :: 0 <= i < j < |picked| ==> picked[i] != picked[j]
    ensures |picked| == Min(LoopLimit(limit), |Eligible(ms, matching, opType)|)
    ensures r == SortByTimestamp(Select(ms, picked))
  {
    var results: seq<CachedMemory> := [];
    picked := [];
    ghost var kept: set<nat> := {};
    var remaining := matching;
    assert matching - remaining == {};
    while remaining != {}
      invariant Picking(ms, matching, remaining, kept, picked, opType)
      invariant |picked| < LoopLimit(limit)
      invariant results == Select(ms, picked)
      decreases |remaining|
    {
      var p :| p in remaining;
      PickStep(ms, matching, remaining, kept, picked, opType, p);
      remaining := remaining - {p};
      if OpMatches(ms[p].opType, opType) {
        SelectSnoc(ms, picked, p);
        results := results + [ms[p]];
        picked := picked + [p];
        kept := kept + {p};
        if |results| >= limit {
          PickedFacts(ms, matching, remaining, kept, picked, opType);
          r := SortByTimestamp(results);
          return;
        }
      }
    }
    PickedFacts(ms, matching, remaining, kept, picked, opType);
    r := SortByTimestamp(results);
  }

  /**
   * The state of the second loop of `search_by_tags`: the hits visited so
   * far are those no longer remaining, `kept` are the eligible ones among
   * them, and `picked` lists them in the order they were kept.
   */
  ghost predicate Picking(ms: seq<CachedMemory>, matching: set<nat>, remaining: set<nat>, kept: set<nat>,
                          picked: seq<nat>, opType: Option<int>) {
    && (forall p :: p in matching ==> p < |ms|)
    && remaining <= matching
    && kept == Eligible(ms, matching - remaining, opType)
    && Enumerates(picked, kept)
    && (forall i :: 0 <= i < |picked| ==> picked[i] < |ms|)
  }

  /** Visiting one more hit keeps the loop state, the hit joining `kept` and `picked` when it passes the filter. */
  lemma PickStep(ms: seq<CachedMemory>, matching: set<nat>, remaining: set<nat>, kept: set<nat>,
                 picked: seq<nat>, opType: Option<int>, p: nat)
    requires Picking(ms, matching, remaining, kept, picked, opType) && p in remaining
    ensures p < |ms| && p !in kept
    ensures OpMatches(ms[p].opType, opType) ==> Picking(ms, matching, remaining - {p}, kept + {p}, picked + [p], opType)
    ensures !OpMatches(ms[p].opType, opType) ==> Picking(ms, matching, remaining - {p}, kept, picked, opType)
  {
    var done := matching - remaining;
    assert matching - (remaining - {p}) == done + {p};
    EligibleAdd(ms, done, p, opType);
    if OpMatches(ms[p].opType, opType) {
      EnumeratesSnoc(picked, kept, p);
    }
  }

  /** What the loop state says about `picked`: eligible hits, each once, all of them once nothing remains. */
  lemma PickedFacts(ms: seq<CachedMemory>, matching: set<nat>, remaining: set<nat>, kept: set<nat>,
                    picked: seq<nat>, opType: Option<int>)
    requires Picking(ms, matching, remaining, kept, picked, opType)
    ensures forall i :: 0 <= i < |picked| ==> picked[i] in Eligible(ms, matching, opType)
    ensures forall i, j :: 0 <= i < j < |picked| ==> picked[i] != picked[j]
    ensures |picked| <= |Eligible(ms, matching, opType)|
    ensures remaining == {} ==> |picked| == |Eligible(ms, matching, opType)|
  {
    SubsetSize(kept, Eligible(ms, matching, opType));
    if remaining == {} {
      assert matching - remaining == matching;
    }
  }

  /** `ps` lists the elements of `s`, each once. */
  ghost predicate Enumerates(ps: seq<nat>, s: set<nat>) {
    && |ps| == |s|
    && (forall i :: 0 <= i < |ps| ==> ps[i] in s)
    && (forall i, j :: 0 <= i < j < |ps| ==> ps[i] != ps[j])
  }

  lemma EnumeratesSnoc(ps: seq<nat>, s: set<nat>, p: nat)
    requires Enumerates(ps, s) && p !in s
    ensures Enumerates(ps + [p], s + {p})
  {
  }

  /** `_fetch_all`: ids `0..n-1` in order, each record read stamped with its id, a failed read skipped. */
  method FetchAll(fetch: nat -> Option<RawMemory>, n: nat) returns (ms: seq<CachedMemory>)
    ensures ms == Fetched(fetch, n)
  {
    ms := [];
    var i := 0;
    while i < n
      invariant 0 <= i <= n
      invariant ms == Fetched(fetch, i)
    {
      match fetch(i) {
        case None =>
        case Some(raw) =>
          ms := ms + [Stamp(GetMemory(raw), i)];
      }
      i := i + 1;
    }
  }

  /** The loop of `_build_indices` over all records, from empty indices. */
  method IndexAll(ms: seq<CachedMemory>) returns (tags: Index, users: Index)
    ensures tags == TagIndexOf(ms) && users == UserIndexOf(ms)
  {
    tags := EmptyIndex;
    users := EmptyIndex;
    var i := 0;
    while i < |ms|
      invariant 0 <= i <= |ms|
      invariant tags == TagIndexOf(ms[..i]) && users == UserIndexOf(ms[..i])
    {
      IndexOfSnoc(ms, i);
      tags, users := IndexRecord(tags, users, ms[i], i);
      i := i + 1;
    }
    TakeAll(ms);
  }

  /** One pass of that loop: record `m` at position `p` is filed under its tag pieces and its user. */
  method IndexRecord(tags: Index, users: Index, m: CachedMemory, p: nat) returns (tags': Index, users': Index)
    ensures tags' == AddAll(tags, TagPieces(m.tags), p)
    ensures users' == if Lower(m.user) == "" then users else Add(users, Lower(m.user), p)
  {
    tags' := tags;
    var lowered := Lower(m.tags);
    if lowered != "" {
      tags' := AddPieces(tags, SplitOn(lowered, ","), p);
    }
    users' := users;
    var user := Lower(m.user);
    if user != "" {
      users' := Add(users, user, p);
    }
  }

  /** The inner loop of `_build_indices`: each piece stripped and, unless empty, filed under position `p`. */
  method AddPieces(ix: Index, parts: seq<string>, p: nat) returns (r: Index)
    ensures r == AddAll(ix, NonEmptyStripped(parts), p)
  {
    r := ix;
    var j := 0;
    while j < |parts|
      invariant 0 <= j <= |parts|
      invariant r == AddAll(ix, NonEmptyStripped(parts[..j]), p)
    {
      NonEmptyStrippedSnoc(parts, j);
      var tag := Strip(parts[j]);
      if tag != "" {
        AddAllSnoc(ix, NonEmptyStripped(parts[..j]), tag, p);
        r := Add(r, tag, p);
      }
      j := j + 1;
    }
    TakeAll(parts);
  }

  /** A subset is no larger. */
  lemma {:induction false} SubsetSize(a: set<nat>, b: set<nat>)
    requires a <= b
    ensures |a| <= |b|
    decreases |b|
  {
    if a != {} {
      var x :| x in a;
      SubsetSize(a - {x}, b - {x});
    }
  }
}
