/** The replay cache as it runs: a map that its calls update, and the eviction by sorting. */
module ReplayStore {
  import opened Common
  import opened ReplayCache

  datatype Candidate = Candidate(key: Key, at: Time)

  predicate Sorted(cs: seq<Candidate>) {
    forall i, j :: 0 <= i < j < |cs| ==> cs[i].at <= cs[j].at
  }

  /** `sort.Slice` by stamp; equal stamps may end in any order. */
  method SortByStamp(candidates: seq<Candidate>) returns (sorted: seq<Candidate>)
    ensures Sorted(sorted) && multiset(sorted) == multiset(candidates)
  {
    sorted := [];
    for i := 0 to |candidates|
      invariant Sorted(sorted) && multiset(sorted) == multiset(candidates[..i])
    {
      var at: nat;
      var x := candidates[i];
      at := FindPlace(sorted, x.at);
      assert candidates[..i + 1] == candidates[..i] + [x];
      assert sorted == sorted[..at] + sorted[at..];
      sorted := sorted[..at] + [x] + sorted[at..];
    }
    assert candidates[..|candidates|] == candidates;
  }

  method FindPlace(sorted: seq<Candidate>, stamp: Time) returns (at: nat)
    requires Sorted(sorted)
    ensures at <= |sorted| && (forall i :: 0 <= i < at ==> sorted[i].at <= stamp) && (forall i :: at <= i < |sorted| ==> stamp <= sorted[i].at)
  {
    at := 0;
    while at < |sorted| && sorted[at].at < stamp
      invariant at <= |sorted| && forall i :: 0 <= i < at ==> sorted[i].at <= stamp
    {
      at := at + 1;
    }
  }

  /** The candidates are the entries, each once. */
  predicate CandidatesOf(cs: seq<Candidate>, entries: Entries) {
    && |cs| == |entries|
    && (forall i :: 0 <= i < |cs| ==> cs[i].key in entries && cs[i].at == entries[cs[i].key].at)
    && (forall i, j :: 0 <= i < j < |cs| ==> cs[i].key != cs[j].key)
  }

  function KeysOf(cs: seq<Candidate>): set<Key> {
    set i | 0 <= i < |cs| :: cs[i].key
  }

  lemma EarlyKey(cs: seq<Candidate>, n: nat, j: nat)
    requires n <= |cs| && j < |cs|
    ensures j < n ==> cs[j].key in KeysOf(cs[..n])
  {
    if j < n { assert cs[..n][j] == cs[j]; }
  }

  lemma KeysSnoc(cs: seq<Candidate>, i: nat)
    requires i < |cs|
    ensures KeysOf(cs[..i + 1]) == KeysOf(cs[..i]) + {cs[i].key}
  {
    assert cs[..i + 1][i] == cs[i];
    forall j | 0 <= j < i ensures cs[..i + 1][j] == cs[..i][j] {}
  }

  lemma {:induction false} KeysCount(cs: seq<Candidate>)
    requires forall i, j :: 0 <= i < j < |cs| ==> cs[i].key != cs[j].key
    ensures |KeysOf(cs)| == |cs|
  {
    if cs != [] {
      var init, last := cs[..|cs| - 1], cs[|cs| - 1];
      KeysCount(init);
      assert KeysOf(cs) == KeysOf(init) + {last.key};
      assert last.key !in KeysOf(init);
    }
  }

  /** Keys that are all different stay so in any order. */
  lemma SortedCandidates(cs: seq<Candidate>, sorted: seq<Candidate>, entries: Entries)
    requires CandidatesOf(cs, entries) && multiset(sorted) == multiset(cs)
    ensures CandidatesOf(sorted, entries)
  {
    assert |sorted| == |multiset(sorted)| == |cs|;
    forall i | 0 <= i < |sorted| ensures sorted[i] in cs {
      assert sorted[i] in multiset(sorted);
    }
    forall i, j | 0 <= i < j < |sorted| ensures sorted[i].key != sorted[j].key {
      Twice(sorted, i, j);
      OnceEach(cs, sorted[i]);
    }
  }

  lemma Twice(cs: seq<Candidate>, i: nat, j: nat)
    requires i < j < |cs|
    ensures cs[i] == cs[j] ==> multiset(cs)[cs[i]] >= 2
  {
    assert cs == cs[..i] + [cs[i]] + cs[i + 1..j] + [cs[j]] + cs[j + 1..];
  }

  lemma {:induction false} OnceEach(cs: seq<Candidate>, x: Candidate)
    requires forall i, j :: 0 <= i < j < |cs| ==> cs[i].key != cs[j].key
    ensures multiset(cs)[x] <= 1
  {
    if cs != [] {
      var init, last := cs[..|cs| - 1], cs[|cs| - 1];
      assert cs == init + [last];
      OnceEach(init, x);
      assert last !in init;
    }
  }

  /** Dropping the first of the sorted candidates is an eviction. */
  lemma FirstAreOldest(sorted: seq<Candidate>, entries: Entries, count: nat)
    requires CandidatesOf(sorted, entries) && Sorted(sorted)
    ensures var n := if count > |entries| then |entries| else count;
            Evictable(entries, count, KeysOf(sorted[..n]))
  {
    var n := if count > |entries| then |entries| else count;
    var gone := KeysOf(sorted[..n]);
    KeysCount(sorted);
    KeysCount(sorted[..n]);
    SameKeys(KeysOf(sorted), entries.Keys);
    forall k, k' | k in gone && k' in entries && k' !in gone ensures entries[k].at <= entries[k'].at {
      assert k' in KeysOf(sorted);
      var i :| 0 <= i < n && sorted[i].key == k;
      var j :| 0 <= j < |sorted| && sorted[j].key == k';
      EarlyKey(sorted, n, j);
      assert n <= j;
    }
  }

  lemma SameKeys(a: set<Key>, b: set<Key>)
    requires a <= b && |a| == |b|
    ensures a == b
  {
    assert b == a + (b - a);
    assert |b - a| == 0;
  }

  class ReplayEntries {
    var entries: Entries

    constructor ()
      ensures entries == map[]
    {
      entries := map[];
    }

    /** `evictOldestCodexReasoningReplayEntries`. */
    method EvictOldest(count: nat) returns (ghost gone: set<Key>)
      modifies this
      ensures Evictable(old(entries), count, gone) && entries == old(entries) - gone
    {
      gone := {};
      if count <= 0 || |entries| == 0 {
        assert entries - gone == entries;
        return;
      }
      var candidates := CollectCandidates();
      var sorted := SortByStamp(candidates);
      SortedCandidates(candidates, sorted, entries);
      FirstAreOldest(sorted, entries, count);
      var n := if count > |sorted| then |sorted| else count;
      gone := KeysOf(sorted[..n]);
      hide *;
      DeleteFirst(sorted, n);
    }

    method DeleteFirst(sorted: seq<Candidate>, n: nat)
      requires n <= |sorted|
      modifies this
      ensures entries == old(entries) - KeysOf(sorted[..n])
    {
      for i := 0 to n
        invariant entries == old(entries) - KeysOf(sorted[..i])
      {
        KeysSnoc(sorted, i);
        entries := entries - {sorted[i].key};
      }
    }

    /** The candidates, in the order in which the map happens to be walked. */
    method CollectCandidates() returns (candidates: seq<Candidate>)
      ensures CandidatesOf(candidates, entries)
    {
      candidates := [];
      var todo := entries.Keys;
      while todo != {}
        invariant todo <= entries.Keys && |candidates| + |todo| == |entries|
        invariant forall i :: 0 <= i < |candidates| ==>
                    candidates[i].key in entries && candidates[i].key !in todo && candidates[i].at == entries[candidates[i].key].at
        invariant forall i, j :: 0 <= i < j < |candidates| ==> candidates[i].key != candidates[j].key
        decreases todo
      {
        var key :| key in todo;
        candidates := candidates + [Candidate(key, entries[key].at)];
        todo := todo - {key};
      }
    }

    /** `CacheCodexReasoningReplayItems`, behind the normalization of the items; `None` says that
        nothing was left of them. */
    method CacheItems(key: Option<Key>, normalized: Option<Items>, now: Time) returns (ok: bool, ghost gone: set<Key>)
      modifies this
      ensures ok == (key.Some? && normalized.Some?)
      ensures if ok then Steps(old(entries), Store(key.value, normalized.value, now), gone, entries) else entries == old(entries)
    {
      gone := {};
      if key.None? || normalized.None? {
        return false, gone;
      }
      entries := entries[key.value := Entry(normalized.value, now)];
      if |entries| > MAX_ENTRIES {
        gone := EvictOldest(EVICT_BATCH);
      }
      return true, gone;
    }

    /** `GetCodexReasoningReplayItems`. */
    method GetItems(key: Option<Key>, now: Time) returns (items: Option<Items>)
      modifies this
      ensures key.None? ==> items == None && entries == old(entries)
      ensures key.Some? ==> Steps(old(entries), Get(key.value, now), {}, entries)
      ensures key.Some? ==> items == Found(old(entries), key.value, now)
    {
      if key.None? || key.value !in entries {
        return None;
      }
      var entry := entries[key.value];
      if now - entry.at > TTL {
        entries := entries - {key.value};
        return None;
      }
      entries := entries[key.value := entry.(at := now)];
      items := Some(entry.items);
    }

    method DeleteItem(key: Option<Key>)
      modifies this
      ensures if key.Some? then Steps(old(entries), Delete(key.value), {}, entries) else entries == old(entries)
    {
      if key.Some? {
        entries := entries - {key.value};
      }
    }

    method ClearAll()
      modifies this
      ensures Steps(old(entries), Clear, {}, entries)
    {
      entries := map[];
    }

    /** `purgeExpiredCodexReasoningReplayCache`. */
    method PurgeExpired(now: Time)
      modifies this
      ensures Steps(old(entries), Purge(now), {}, entries)
    {
      var todo := entries.Keys;
      while todo != {}
        invariant todo <= old(entries).Keys
        invariant entries == map k | k in old(entries) && (k in todo || !Expired(old(entries)[k], now)) :: old(entries)[k]
        decreases todo
      {
        var key :| key in todo;
        if now - entries[key].at > TTL {
          entries := entries - {key};
        }
        todo := todo - {key};
      }
    }
  }
}
