/** The bounded cache of reasoning items for replay. The clock is a parameter; the order in which a
    Go map is walked, and in which an unstable sort leaves equal stamps, is left open. */
module ReplayCache {
  import opened Common
  import opened Strings

  type Key = string
  type Items = seq<string>
  type Time = int

  datatype Entry = Entry(items: Items, at: Time)

  type Entries = map<Key, Entry>

  const TTL: Time := 3_600_000_000_000
  const MAX_ENTRIES := 10240
  const EVICT_BATCH := 128

  // ---------------------------------------------------------------------- keys

  const NUL: char := '\0'

  /** `codexReasoningReplayCacheKey`; the empty key means that there is nothing to cache under. */
  function CacheKey(model: string, session: string): Option<Key> {
    var m, s := TrimSpace(model), TrimSpace(session);
    if m == "" || s == "" then None else Some("codex-reasoning-replay" + [NUL] + m + [NUL] + s)
  }

  lemma SplitAtNul(a: string, b: string, c: string, d: string)
    requires NUL !in a && NUL !in c && a + [NUL] + b == c + [NUL] + d
    ensures a == c && b == d
  {
    var whole := a + [NUL] + b;
    assert forall i :: 0 <= i < |a| ==> whole[i] == a[i];
    assert forall i :: 0 <= i < |c| ==> whole[i] == c[i];
    assert whole[|a|] == NUL && whole[|c|] == NUL;
    assert |a| == |c|;
    assert whole[..|a|] == a && whole[..|c|] == c && whole[|a| + 1..] == b && whole[|c| + 1..] == d;
  }

  lemma {:induction false} TrimmedWithin(s: string)
    ensures forall c :: c in TrimSpace(s) ==> c in s
  {
    TrimLeftKeeps(s);
    TrimRightKeeps(TrimLeft(s));
  }

  /** There is a key exactly for a model and a session that are both more than space. */
  lemma KeyIs(model: string, session: string)
    ensures CacheKey(model, session) ==
              if TrimSpace(model) == "" || TrimSpace(session) == "" then None
              else Some("codex-reasoning-replay\0" + TrimSpace(model) + "\0" + TrimSpace(session))
  {
    hide TrimSpace;
    assert "codex-reasoning-replay\0" == "codex-reasoning-replay" + [NUL] && "\0" == [NUL];
  }

  /** Keys of model names without a NUL tell model and session apart. */
  lemma KeysDiffer(model: string, session: string, model': string, session': string)
    requires NUL !in model && NUL !in model'
    requires CacheKey(model, session).Some? && CacheKey(model, session) == CacheKey(model', session')
    ensures TrimSpace(model) == TrimSpace(model') && TrimSpace(session) == TrimSpace(session')
  {
    TrimmedWithin(model);
    TrimmedWithin(model');
    var head := "codex-reasoning-replay" + [NUL];
    var tail, tail' := TrimSpace(model) + [NUL] + TrimSpace(session), TrimSpace(model') + [NUL] + TrimSpace(session');
    assert CacheKey(model, session).value == head + tail && CacheKey(model', session').value == head + tail';
    assert (head + tail)[|head|..] == tail && (head + tail')[|head|..] == tail';
    hide TrimSpace, CacheKey;
    SplitAtNul(TrimSpace(model), TrimSpace(session), TrimSpace(model'), TrimSpace(session'));
  }

  // ------------------------------------------------------------------- changes

  /** `gone` may be what an eviction of `count` removes: that many, and none younger than one kept. */
  predicate Evictable(entries: Entries, count: nat, gone: set<Key>) {
    && gone <= entries.Keys
    && |gone| == (if count > |entries| then |entries| else count)
    && forall k, k' :: k in gone && k' in entries && k' !in gone ==> entries[k].at <= entries[k'].at
  }

  predicate Expired(e: Entry, now: Time) {
    now - e.at > TTL
  }

  datatype Op =
    | Store(key: Key, items: Items, now: Time)
    | Get(key: Key, now: Time)
    | Delete(key: Key)
    | Clear
    | Purge(now: Time)

  /** What a call leaves; `gone` is what an eviction removed, if there was one. */
  predicate Steps(entries: Entries, op: Op, gone: set<Key>, after: Entries) {
    match op
    case Store(key, items, now) =>
      var stored := entries[key := Entry(items, now)];
      if |stored| > MAX_ENTRIES then Evictable(stored, EVICT_BATCH, gone) && after == stored - gone
      else gone == {} && after == stored
    case Get(key, now) =>
      && gone == {}
      && if key !in entries then after == entries
         else if Expired(entries[key], now) then after == entries - {key}
         else after == entries[key := entries[key].(at := now)]
    case Delete(key) => gone == {} && after == entries - {key}
    case Clear => gone == {} && after == map[]
    case Purge(now) => gone == {} && after == map k | k in entries && !Expired(entries[k], now) :: entries[k]
  }

  /** What a read finds. */
  function Found(entries: Entries, key: Key, now: Time): Option<Items> {
    if key in entries && !Expired(entries[key], now) then Some(entries[key].items) else None
  }

  // ------------------------------------------------------------------ eviction

  lemma SizeWithout(entries: Entries, gone: set<Key>)
    requires gone <= entries.Keys
    ensures |entries - gone| == |entries| - |gone|
  {
    assert (entries - gone).Keys == entries.Keys - gone;
    assert |entries.Keys - gone| == |entries.Keys| - |gone|;
  }

  /** An entry that at least as many entries as are evicted are older than is never evicted. */
  lemma YoungSurvives(entries: Entries, count: nat, gone: set<Key>, key: Key, older: set<Key>)
    requires Evictable(entries, count, gone) && key in entries && |older| >= count
    requires older <= entries.Keys && forall k :: k in older ==> entries[k].at < entries[key].at
    ensures key !in gone
  {
    assert key in gone ==> older <= gone - {key};
    if older <= gone - {key} { Fits(older, gone - {key}); }
  }

  lemma Fits(a: set<Key>, b: set<Key>)
    requires a <= b
    ensures |a| <= |b|
  {
    assert b == a + (b - a);
  }

  /** The entries touched before that of `key`. */
  function Older(entries: Entries, key: Key): set<Key>
    requires key in entries
  {
    set k | k in entries && entries[k].at < entries[key].at
  }

  lemma {:induction false} LatestOf(entries: Entries, keys: set<Key>) returns (latest: Key)
    requires keys <= entries.Keys && keys != {}
    ensures latest in keys && forall k :: k in keys ==> entries[k].at <= entries[latest].at
    decreases |keys|
  {
    latest :| latest in keys;
    var others := keys - {latest};
    if others != {} {
      var other := LatestOf(entries, others);
      if entries[other].at > entries[latest].at { latest := other; }
    }
  }

  /** No entry outside of `keys` is older than one inside. */
  predicate Oldest(entries: Entries, keys: set<Key>) {
    keys <= entries.Keys && forall k, k' :: k in keys && k' in entries && k' !in keys ==> entries[k].at <= entries[k'].at
  }

  /** From a set of the oldest, all but `count` can be spared while `key` stays among the victims. */
  lemma {:induction false} Victims(entries: Entries, count: nat, key: Key, keys: set<Key>) returns (gone: set<Key>)
    requires key in keys && Oldest(entries, keys) && |Older(entries, key)| < count <= |keys|
    ensures key in gone && |gone| == count && Oldest(entries, gone)
    decreases |keys|
  {
    if |keys| == count { return keys; }
    var others := keys - {key};
    assert |others| == |keys| - 1;
    var latest := LatestOf(entries, others);
    if entries[latest].at < entries[key].at { Fits(others, Older(entries, key)); }
    assert entries[latest].at >= entries[key].at;
    gone := Victims(entries, count, key, keys - {latest});
  }

  /** Main result on eviction, exactly: an entry survives whatever the order of the map and of equal
      stamps, if and only if at least as many entries as go are older than it. */
  lemma SurvivesIff(entries: Entries, count: nat, key: Key)
    requires key in entries && count <= |entries|
    ensures (forall gone :: Evictable(entries, count, gone) ==> key !in gone) <==> |Older(entries, key)| >= count
  {
    if |Older(entries, key)| >= count {
      forall gone | Evictable(entries, count, gone) ensures key !in gone {
        YoungSurvives(entries, count, gone, key, Older(entries, key));
      }
    } else {
      assert |entries.Keys| == |entries|;
      var gone := Victims(entries, count, key, entries.Keys);
      assert Evictable(entries, count, gone);
    }
  }

  /** Storing under a new key into a full cache: the new entry is safe if and only if at least a batch
      of the entries carries stamps before it. */
  lemma StoredSurvivesIff(entries: Entries, key: Key, items: Items, now: Time)
    requires |entries| == 10240 && key !in entries
    ensures (forall gone, after :: Steps(entries, Store(key, items, now), gone, after) ==> key in after)
            <==> |set k | k in entries && entries[k].at < now| >= 128
  {
    var stored := entries[key := Entry(items, now)];
    StoreSize(entries, key, Entry(items, now));
    SurvivesIff(stored, EVICT_BATCH, key);
    assert Older(stored, key) == set k | k in entries && entries[k].at < now;
    if gone :| Evictable(stored, EVICT_BATCH, gone) && key in gone {
      assert Steps(entries, Store(key, items, now), gone, stored - gone);
    }
  }

  predicate Distinct(entries: Entries) {
    forall k, k' :: k in entries && k' in entries && k != k' ==> entries[k].at != entries[k'].at
  }

  /** With different stamps there is only one choice: the least recently touched. */
  lemma EvictionUnique(entries: Entries, count: nat, a: set<Key>, b: set<Key>)
    requires Distinct(entries) && Evictable(entries, count, a) && Evictable(entries, count, b)
    ensures a == b
  {
    Differences(a, b);
    assert a - b == {} <==> b - a == {};
  }

  lemma Differences(a: set<Key>, b: set<Key>)
    requires |a| == |b|
    ensures |a - b| == |b - a|
  {
    assert a == a * b + (a - b) && b == a * b + (b - a);
  }

  // ---------------------------------------------------------------------- runs

  /** The time a call reads, where it reads one. */
  predicate ReadsClock(op: Op) {
    op.Store? || op.Get? || op.Purge?
  }

  /** The clock moves on with every call that stamps an entry. */
  predicate Ticks(clock: Time, op: Op) {
    ReadsClock(op) ==> clock < op.now
  }

  function ClockAfter(clock: Time, op: Op): Time {
    if ReadsClock(op) then op.now else clock
  }

  /** At most so many entries, none from the future, no two stamped alike. */
  predicate Inv(entries: Entries, clock: Time) {
    && |entries| <= MAX_ENTRIES && Distinct(entries)
    && forall k :: k in entries ==> entries[k].at <= clock
  }

  lemma StoreSize(entries: Entries, key: Key, e: Entry)
    ensures |entries[key := e]| == if key in entries then |entries| else |entries| + 1
  {
    assert entries[key := e].Keys == entries.Keys + {key};
  }

  lemma PurgeSize(entries: Entries, now: Time)
    ensures |map k | k in entries && !Expired(entries[k], now) :: entries[k]| <= |entries|
  {
    var kept := map k | k in entries && !Expired(entries[k], now) :: entries[k];
    Fits(kept.Keys, entries.Keys);
  }

  /** Every entry of `gone` was touched before every entry of `after`. */
  predicate AllOlder(entries: Entries, gone: set<Key>, after: Entries)
    requires gone <= entries.Keys
  {
    forall k, k' :: k in gone && k' in after ==> entries[k].at < after[k'].at
  }

  /** Storing where there is room. */
  lemma StoreFits(entries: Entries, clock: Time, key: Key, items: Items, now: Time)
    requires Inv(entries, clock) && clock < now && (key in entries || |entries| < 10240)
    ensures Inv(entries[key := Entry(items, now)], now)
  {
    StoreSize(entries, key, Entry(items, now));
  }

  /** Storing into a full cache: the new entry is there, and exactly the batch of the entries touched
      longest ago is gone. */
  lemma StoreOverflows(entries: Entries, clock: Time, key: Key, items: Items, now: Time, gone: set<Key>, after: Entries)
    requires Inv(entries, clock) && clock < now && key !in entries && |entries| == 10240
    requires Steps(entries, Store(key, items, now), gone, after)
    ensures |gone| == 128 && gone <= entries.Keys && after == entries[key := Entry(items, now)] - gone && key in after
    ensures AllOlder(entries, gone, after)
    ensures Inv(after, now) && |after| == 10240 + 1 - 128
  {
    var stored := entries[key := Entry(items, now)];
    StoreSize(entries, key, Entry(items, now));
    assert Evictable(stored, EVICT_BATCH, gone);
    YoungSurvives(stored, EVICT_BATCH, gone, key, entries.Keys);
    SizeWithout(stored, gone);
    assert Distinct(stored) && forall k :: k in stored ==> stored[k].at <= now;
    hide Steps, Inv;
    OldestGone(entries, key, Entry(items, now), gone);
    KeepsDistinct(stored, gone, now);
  }

  lemma KeepsDistinct(stored: Entries, gone: set<Key>, now: Time)
    requires Distinct(stored) && (forall k :: k in stored ==> stored[k].at <= now) && |stored - gone| <= MAX_ENTRIES
    ensures Inv(stored - gone, now)
  {
  }

  lemma OldestGone(entries: Entries, key: Key, e: Entry, gone: set<Key>)
    requires Distinct(entries[key := e]) && key !in entries && key !in gone
    requires Evictable(entries[key := e], EVICT_BATCH, gone)
    ensures gone <= entries.Keys && AllOlder(entries, gone, entries[key := e] - gone)
  {
    var stored := entries[key := e];
    forall k, k' | k in gone && k' in stored - gone ensures entries[k].at < (stored - gone)[k'].at {
      assert stored[k].at <= stored[k'].at && k != k';
    }
  }

  lemma StepKeeps(entries: Entries, clock: Time, op: Op, gone: set<Key>, after: Entries)
    requires Inv(entries, clock) && Ticks(clock, op) && Steps(entries, op, gone, after)
    ensures Inv(after, ClockAfter(clock, op))
  {
    match op
    case Store(key, items, now) =>
      StoreSize(entries, key, Entry(items, now));
      if key in entries || |entries| < MAX_ENTRIES {
        StoreFits(entries, clock, key, items, now);
      } else {
        StoreOverflows(entries, clock, key, items, now, gone, after);
      }
    case Get(key, now) =>
      if key in entries {
        if Expired(entries[key], now) { SizeWithout(entries, {key}); } else { StoreSize(entries, key, entries[key].(at := now)); }
      }
    case Delete(key) =>
      Fits((entries - {key}).Keys, entries.Keys);
    case Clear =>
    case Purge(now) => PurgeSize(entries, now);
  }

  /** Every call keeps the bound, whatever the clock does. */
  lemma StepBounded(entries: Entries, op: Op, gone: set<Key>, after: Entries)
    requires |entries| <= MAX_ENTRIES && Steps(entries, op, gone, after)
    ensures |after| <= 10240
  {
    match op
    case Store(key, items, now) =>
      StoreSize(entries, key, Entry(items, now));
      var stored := entries[key := Entry(items, now)];
      if |stored| > MAX_ENTRIES { SizeWithout(stored, gone); }
    case Get(key, now) =>
      if key in entries && !Expired(entries[key], now) { StoreSize(entries, key, entries[key].(at := now)); }
      Fits((entries - {key}).Keys, entries.Keys);
    case Delete(key) => Fits((entries - {key}).Keys, entries.Keys);
    case Clear =>
    case Purge(now) => PurgeSize(entries, now);
  }

  datatype Call = Call(op: Op, gone: set<Key>, after: Entries)

  /** A run of calls from `entries`. */
  predicate Runs(entries: Entries, calls: seq<Call>)
    decreases |calls|
  {
    calls == [] || (Steps(entries, calls[0].op, calls[0].gone, calls[0].after) && Runs(calls[0].after, calls[1..]))
  }

  /** The clock moves on throughout. */
  predicate TicksThroughout(clock: Time, calls: seq<Call>)
    decreases |calls|
  {
    calls == [] || (Ticks(clock, calls[0].op) && TicksThroughout(ClockAfter(clock, calls[0].op), calls[1..]))
  }

  function EndOf(entries: Entries, calls: seq<Call>): Entries {
    if calls == [] then entries else calls[|calls| - 1].after
  }

  /** While the clock moves on, no two entries ever carry the same stamp. */
  lemma {:induction false} TickingRunKeeps(entries: Entries, clock: Time, calls: seq<Call>)
    requires Inv(entries, clock) && Runs(entries, calls) && TicksThroughout(clock, calls)
    ensures Distinct(EndOf(entries, calls))
    decreases |calls|
  {
    if calls != [] {
      var call := calls[0];
      StepKeeps(entries, clock, call.op, call.gone, call.after);
      assert EndOf(entries, calls) == EndOf(call.after, calls[1..]);
      hide Inv, Steps, Ticks, ClockAfter, Distinct;
      TickingRunKeeps(call.after, ClockAfter(clock, call.op), calls[1..]);
    }
  }

  /** What was last stored under a key, unless it was removed since. */
  function LastStored(calls: seq<Call>, key: Key): Option<Items> {
    if calls == [] then None
    else
      var op := calls[|calls| - 1].op;
      if op.Store? && op.key == key then Some(op.items)
      else if op.Clear? || (op.Delete? && op.key == key) then None
      else LastStored(calls[..|calls| - 1], key)
  }

  /** Main result: in every run, whatever the clock does, the cache stays within its bound, and every
      entry holds exactly what was last stored under its key and not removed since. */
  lemma {:induction false} RunKeeps(calls: seq<Call>)
    requires Runs(map[], calls)
    ensures |EndOf(map[], calls)| <= 10240
    ensures forall k :: k in EndOf(map[], calls) ==> LastStored(calls, k) == Some(EndOf(map[], calls)[k].items)
  {
    assert [] + calls == calls;
    RunFrom(map[], calls, []);
  }

  /** The calls `rest` after the calls `before`. */
  lemma {:induction false} RunFrom(entries: Entries, rest: seq<Call>, before: seq<Call>)
    requires |entries| <= MAX_ENTRIES && Runs(entries, rest)
    requires forall k :: k in entries ==> LastStored(before, k) == Some(entries[k].items)
    ensures |EndOf(entries, rest)| <= MAX_ENTRIES
    ensures forall k :: k in EndOf(entries, rest) ==> LastStored(before + rest, k) == Some(EndOf(entries, rest)[k].items)
    decreases |rest|
  {
    hide Steps;
    if rest == [] {
      assert before + rest == before;
    } else {
      var call := rest[0];
      StepBounded(entries, call.op, call.gone, call.after);
      StepItems(entries, call, before);
      assert before + rest == (before + [call]) + rest[1..];
      assert EndOf(entries, rest) == EndOf(call.after, rest[1..]);
      RunFrom(call.after, rest[1..], before + [call]);
    }
  }

  lemma StepItems(entries: Entries, call: Call, before: seq<Call>)
    requires Steps(entries, call.op, call.gone, call.after)
    requires forall k :: k in entries ==> LastStored(before, k) == Some(entries[k].items)
    ensures forall k :: k in call.after ==> LastStored(before + [call], k) == Some(call.after[k].items)
  {
    hide Evictable, Expired;
    assert (before + [call])[..|before|] == before;
  }

  /** A call that neither touches nor removes `key`, last touched at `t`: a purge counts as removing
      only what has been left alone for more than an hour. */
  predicate LeavesAlone(call: Call, key: Key, t: Time) {
    && key !in call.gone
    && match call.op
       case Store(k, _, _) => k != key
       case Get(k, _) => k != key
       case Delete(k) => k != key
       case Clear => false
       case Purge(now) => now - t <= TTL
  }

  /** Main result on reading: whatever calls for other keys come in between, an entry that is neither
      deleted nor evicted can be read for exactly an hour after it was last touched. */
  lemma {:induction false} ReadableForAnHour(entries: Entries, key: Key, calls: seq<Call>, now: Time)
    requires key in entries && Runs(entries, calls)
    requires forall i :: 0 <= i < |calls| ==> LeavesAlone(calls[i], key, entries[key].at)
    ensures Found(EndOf(entries, calls), key, now) == if now - entries[key].at <= 3_600_000_000_000 then Some(entries[key].items) else None
    decreases |calls|
  {
    if calls != [] {
      var call := calls[0];
      assert LeavesAlone(call, key, entries[key].at);
      LeftAlone(entries, call, key);
      hide Steps, LeavesAlone;
      assert forall i :: 0 <= i < |calls[1..]| ==> calls[1..][i] == calls[i + 1];
      ReadableForAnHour(call.after, key, calls[1..], now);
      assert EndOf(entries, calls) == EndOf(call.after, calls[1..]);
    }
  }

  lemma LeftAlone(entries: Entries, call: Call, key: Key)
    requires key in entries && Steps(entries, call.op, call.gone, call.after) && LeavesAlone(call, key, entries[key].at)
    ensures key in call.after && call.after[key] == entries[key]
  {
  }

  /** An entry that was just read survives the next overflow. */
  lemma ReadSurvives(entries: Entries, clock: Time, key: Key, t: Time, read: Entries,
                     other: Key, items: Items, now: Time, gone: set<Key>, after: Entries)
    requires Inv(entries, clock) && clock < t < now && key in entries && !Expired(entries[key], t) && key != other
    requires Steps(entries, Get(key, t), {}, read) && Steps(read, Store(other, items, now), gone, after)
    ensures key in after && after[key] == Entry(entries[key].items, t)
  {
    var stored := read[other := Entry(items, now)];
    StoreSize(entries, key, entries[key].(at := t));
    StoreSize(read, other, Entry(items, now));
    if |stored| > MAX_ENTRIES {
      var older := entries.Keys - {key};
      assert entries.Keys == older + {key};
      YoungSurvives(stored, EVICT_BATCH, gone, key, older);
    }
  }

  /** Without a moving clock a new entry can be evicted at once: where all stamps are equal, any batch
      may go. */
  lemma TieExample(entries: Entries, key: Key, now: Time, gone: set<Key>)
    requires |entries| == MAX_ENTRIES && key !in entries && forall k :: k in entries ==> entries[k].at == now
    requires gone <= entries.Keys && |gone| == EVICT_BATCH - 1
    ensures Steps(entries, Store(key, [], now), gone + {key}, entries[key := Entry([], now)] - (gone + {key}))
  {
    var stored := entries[key := Entry([], now)];
    StoreSize(entries, key, Entry([], now));
    assert gone + {key} <= stored.Keys;
    assert |gone + {key}| == EVICT_BATCH;
  }
}
