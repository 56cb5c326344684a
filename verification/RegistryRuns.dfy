/** Availability listings, their cache, and runs: what holds after any sequence of operations. */
module RegistryRuns {
  import opened Common
  import opened Strings
  import opened RegistryState
  import opened RegistrySpec

  // ------------------------------------------------------------------ marks

  function Marking(s: State, c: ClientID, id: ModelID, now: Time): State {
    if id !in s.models then s
    else s.(models := s.models[id := s.models[id].(quota := s.models[id].quota[c := now])], cache := map[])
  }

  function Unmarking(s: State, c: ClientID, id: ModelID): State {
    if id !in s.models then s
    else s.(models := s.models[id := s.models[id].(quota := s.models[id].quota - {c})], cache := map[])
  }

  function Suspending(s: State, c: ClientID, id: ModelID, reason: string): State {
    if c == "" || id == "" || id !in s.models || c in s.models[id].suspended then s
    else s.(models := s.models[id := s.models[id].(suspended := s.models[id].suspended[c := reason])], cache := map[])
  }

  function Resuming(s: State, c: ClientID, id: ModelID): State {
    if c == "" || id == "" || id !in s.models || c !in s.models[id].suspended then s
    else s.(models := s.models[id := s.models[id].(suspended := s.models[id].suspended - {c})], cache := map[])
  }

  /** Marks that have not run out. */
  function Cooling(r: Registration, now: Time): set<ClientID> {
    set c | c in r.quota && now < r.quota[c] + QUOTA_WINDOW
  }

  function WithoutExpired(r: Registration, now: Time): Registration {
    r.(quota := map c | c in r.quota && c in Cooling(r, now) :: r.quota[c])
  }

  function Cleaned(models: map<ModelID, Registration>, now: Time): map<ModelID, Registration> {
    map id | id in models :: WithoutExpired(models[id], now)
  }

  function Cleaning(s: State, now: Time): State {
    var models := Cleaned(s.models, now);
    s.(models := models, cache := if models == s.models then s.cache else map[])
  }

  /** A quota mark counts from the moment it is set until the window has passed, and cleaning up then
      drops it; taking it back ends it at once. */
  lemma MarkLasts(s: State, c: ClientID, id: ModelID, t: Time, now: Time)
    requires id in s.models
    ensures var marked := Marking(s, c, id, t);
            && (c in Cooling(marked.models[id], now) <==> now - t < QUOTA_WINDOW)
            && (c in Cleaning(marked, now).models[id].quota <==> now - t < QUOTA_WINDOW)
            && c !in Cooling(Unmarking(marked, c, id).models[id], now)
            && forall d :: d != c ==> (d in Cooling(marked.models[id], now) <==> d in Cooling(s.models[id], now))
  {
  }

  /** A suspension lasts until it is resumed; suspending again does not change its reason. */
  lemma SuspensionLasts(s: State, c: ClientID, id: ModelID, reason: string, again: string)
    requires c != "" && id != "" && id in s.models && c !in s.models[id].suspended
    ensures var suspended := Suspending(s, c, id, reason);
            && suspended.models[id].suspended == s.models[id].suspended[c := reason]
            && Suspending(suspended, c, id, again) == suspended
            && Resuming(suspended, c, id) == s.(cache := map[])
  {
    assert s.models[id].suspended[c := reason] - {c} == s.models[id].suspended;
    var resumed := Resuming(Suspending(s, c, id, reason), c, id);
    assert resumed.models[id] == s.models[id];
    assert resumed.models == s.models;
  }

  // --------------------------------------------------------------- listings

  predicate IsQuota(reason: string) {
    EqualFold(reason, "quota")
  }

  function QuotaSuspended(r: Registration): set<ClientID> {
    set c | c in r.suspended && IsQuota(r.suspended[c])
  }

  function OtherSuspended(r: Registration): set<ClientID> {
    set c | c in r.suspended && !IsQuota(r.suspended[c])
  }

  /** Whether a model with `count` listings, `expired` cooling clients and the given suspensions is
      offered. */
  predicate Offered(count: int, expired: nat, cooldown: nat, other: nat) {
    count - expired - other > 0 || (count > 0 && (expired > 0 || cooldown > 0) && other == 0)
  }

  predicate Shown(r: Registration, now: Time) {
    Offered(r.count, |Cooling(r, now)|, |QuotaSuspended(r)|, |OtherSuspended(r)|)
  }

  /** The models on offer at `now` with the description each is rendered from. */
  function Listing(models: map<ModelID, Registration>, now: Time): Infos {
    map id | id in models && Shown(models[id], now) :: models[id].info
  }

  /** When marks of the given clients will have run out. */
  function Ends(r: Registration, cs: set<ClientID>): set<Time> {
    set c | c in cs && c in r.quota :: r.quota[c] + QUOTA_WINDOW
  }

  /** When the running marks of some models will have run out. */
  function RecoveriesOf(models: map<ModelID, Registration>, ids: set<ModelID>, now: Time): set<Time> {
    set id, t | id in ids && id in models && t in Ends(models[id], Cooling(models[id], now)) :: t
  }

  function Recoveries(models: map<ModelID, Registration>, now: Time): set<Time> {
    RecoveriesOf(models, models.Keys, now)
  }

  lemma RecoveriesWith(models: map<ModelID, Registration>, ids: set<ModelID>, id: ModelID, now: Time)
    requires id in models
    ensures RecoveriesOf(models, ids + {id}, now) ==
            RecoveriesOf(models, ids, now) + Ends(models[id], Cooling(models[id], now))
  {
  }

  lemma EndsWith(r: Registration, cs: set<ClientID>, c: ClientID)
    requires c in r.quota
    ensures Ends(r, cs + {c}) == Ends(r, cs) + {r.quota[c] + QUOTA_WINDOW}
  {
  }

  /** One more recovery time is taken into account. */
  function Sooner(e: Option<Time>, t: Time): Option<Time> {
    if e.None? || t < e.value then Some(t) else e
  }

  lemma EarliestWith(ts: set<Time>, e: Option<Time>, t: Time)
    requires Earliest(ts, e)
    ensures Earliest(ts + {t}, Sooner(e, t))
  {
  }

  ghost predicate Earliest(ts: set<Time>, e: Option<Time>) {
    match e
    case None => forall u :: u !in ts
    case Some(t) => t in ts && forall u :: u in ts ==> t <= u
  }

  lemma {:induction false} EarliestExists(ts: set<Time>)
    ensures exists e :: Earliest(ts, e)
    decreases |ts|
  {
    if t :| t in ts {
      EarliestExists(ts - {t});
      var e :| Earliest(ts - {t}, e);
      assert forall u :: u in ts ==> u == t || u in ts - {t};
      assert Earliest(ts, Some(if e.None? then t else Min(t, e.value)));
    } else {
      assert Earliest(ts, None);
    }
  }

  lemma EarliestUnique(ts: set<Time>, a: Option<Time>, b: Option<Time>)
    requires Earliest(ts, a) && Earliest(ts, b)
    ensures a == b
  {
  }

  ghost function Expiry(models: map<ModelID, Registration>, now: Time): (e: Option<Time>)
    ensures Earliest(Recoveries(models, now), e)
  {
    EarliestExists(Recoveries(models, now));
    var e :| Earliest(Recoveries(models, now), e);
    e
  }

  predicate Fresh(entry: CacheEntry, now: Time) {
    entry.expiresAt.None? || now < entry.expiresAt.value
  }

  /** What a listing request answers. */
  function Answer(s: State, handler: string, now: Time): Infos {
    if handler in s.cache && Fresh(s.cache[handler], now) then s.cache[handler].listing else Listing(s.models, now)
  }

  ghost function Listed(s: State, handler: string, now: Time): State {
    if handler in s.cache && Fresh(s.cache[handler], now) then s
    else s.(cache := s.cache[handler := CacheEntry(Listing(s.models, now), Expiry(s.models, now))])
  }

  /** From `now` until the earliest recovery the listing stays the same. */
  lemma ListingHolds(models: map<ModelID, Registration>, now: Time, t: Time)
    requires now <= t && Fresh(CacheEntry(map[], Expiry(models, now)), t)
    ensures Listing(models, t) == Listing(models, now)
  {
    forall id | id in models ensures Cooling(models[id], t) == Cooling(models[id], now) {
      forall c | c in Cooling(models[id], now) ensures c in Cooling(models[id], t) {
        assert models[id].quota[c] + QUOTA_WINDOW in Ends(models[id], Cooling(models[id], now));
        assert models[id].quota[c] + QUOTA_WINDOW in Recoveries(models, now);
      }
    }
  }

  /** Cleaning up never changes what is listed from then on. */
  lemma CleanedListing(models: map<ModelID, Registration>, now: Time, t: Time)
    requires now <= t
    ensures Listing(Cleaned(models, now), t) == Listing(models, t)
  {
    forall id | id in models
      ensures Cooling(WithoutExpired(models[id], now), t) == Cooling(models[id], t)
    {
    }
  }

  // ------------------------------------------------------------------- runs

  datatype Op =
    | Register(client: ClientID, provider: Provider, infos: seq<Option<ModelInfo>>)
    | Unregister(client: ClientID)
    | SetQuota(client: ClientID, id: ModelID, now: Time)
    | ClearQuota(client: ClientID, id: ModelID)
    | Suspend(client: ClientID, id: ModelID, reason: string)
    | Resume(client: ClientID, id: ModelID)
    | Cleanup(now: Time)
    | List(handler: string, now: Time)

  ghost function Apply(s: State, op: Op): State {
    match op
    case Register(c, p, ms) => Registered(s, c, p, ms)
    case Unregister(c) => Unregistered(s, c)
    case SetQuota(c, id, now) => Marking(s, c, id, now)
    case ClearQuota(c, id) => Unmarking(s, c, id)
    case Suspend(c, id, reason) => Suspending(s, c, id, reason)
    case Resume(c, id) => Resuming(s, c, id)
    case Cleanup(now) => Cleaning(s, now)
    case List(h, now) => Listed(s, h, now)
  }

  ghost function Run(s: State, ops: seq<Op>): State
    decreases |ops|
  {
    if ops == [] then s else Run(Apply(s, ops[0]), ops[1..])
  }

  /** The clock readings of the listing requests. */
  function Readings(ops: seq<Op>): set<Time> {
    set op | op in ops && op.List? :: op.now
  }

  /** An entry holds what was built for these registrations at the reading `b`. */
  ghost predicate BuiltAt(entry: CacheEntry, models: map<ModelID, Registration>, b: Time) {
    entry == CacheEntry(Listing(models, b), Expiry(models, b))
  }

  /** Every cached listing was built for the registrations as they are, at one of the readings. */
  ghost predicate CacheBuilt(s: State, readings: set<Time>) {
    forall h :: h in s.cache ==> exists b :: b in readings && BuiltAt(s.cache[h], s.models, b)
  }

  lemma MarksKeepCounts(s: State, id: ModelID, r: Registration, cache: map<string, CacheEntry>)
    requires RefCounts(s) && id in s.models
    requires r == s.models[id].(quota := r.quota, suspended := r.suspended)
    ensures RefCounts(s.(models := s.models[id := r], cache := cache))
  {
    var s' := s.(models := s.models[id := r], cache := cache);
    forall i ensures SlotCounts(s', i) {
      assert SlotCounts(s, i);
      assert Shares(s', i) == Shares(s, i);
    }
  }

  lemma CacheKeepsCounts(s: State, cache: map<string, CacheEntry>)
    requires RefCounts(s)
    ensures RefCounts(s.(cache := cache))
  {
    var s' := s.(cache := cache);
    forall i ensures SlotCounts(s', i) {
      assert SlotCounts(s, i);
      assert Shares(s', i) == Shares(s, i);
    }
  }

  lemma CleaningKeepsCounts(s: State, now: Time)
    requires RefCounts(s)
    ensures RefCounts(Cleaning(s, now))
  {
    var s' := Cleaning(s, now);
    forall i ensures SlotCounts(s', i) {
      assert SlotCounts(s, i);
      assert Shares(s', i) == Shares(s, i);
    }
  }

  /** Every operation keeps the reference counts right. */
  lemma StepKeepsCounts(s: State, op: Op)
    requires RefCounts(s)
    ensures RefCounts(Apply(s, op))
  {
    match op
    case Register(c, p, ms) => RegisteredCounts(s, c, p, ms);
    case Unregister(c) => UnregisteredCounts(s, c);
    case SetQuota(c, id, now) =>
      if id in s.models { MarksKeepCounts(s, id, Marking(s, c, id, now).models[id], map[]); }
    case ClearQuota(c, id) =>
      if id in s.models { MarksKeepCounts(s, id, Unmarking(s, c, id).models[id], map[]); }
    case Suspend(c, id, reason) =>
      if Suspending(s, c, id, reason) != s { MarksKeepCounts(s, id, Suspending(s, c, id, reason).models[id], map[]); }
    case Resume(c, id) =>
      if Resuming(s, c, id) != s { MarksKeepCounts(s, id, Resuming(s, c, id).models[id], map[]); }
    case Cleanup(now) => CleaningKeepsCounts(s, now);
    case List(h, now) => CacheKeepsCounts(s, Listed(s, h, now).cache);
  }

  /** Every operation keeps the cache built, whatever the clock does: it drops the cache, or changes
      nothing that a listing shows, or is a listing request, whose reading is one more. */
  lemma StepKeepsCache(s: State, op: Op, readings: set<Time>)
    requires CacheBuilt(s, readings)
    ensures CacheBuilt(Apply(s, op), readings + if op.List? then {op.now} else {})
  {
    var s' := Apply(s, op);
    if op.List? && s' != s {
      assert BuiltAt(s'.cache[op.handler], s'.models, op.now);
    } else {
      assert s'.cache == map[] || s' == s;
    }
  }

  /** What a listing request answers from a cache that was built: the listing for its own reading of the
      clock, or for a later one that an earlier request read. */
  lemma AnswerIs(s: State, readings: set<Time>, handler: string, now: Time)
    requires CacheBuilt(s, readings)
    ensures exists b :: (b == now || (b in readings && now < b)) && Answer(s, handler, now) == Listing(s.models, b)
  {
    if handler in s.cache && Fresh(s.cache[handler], now) {
      var b :| b in readings && BuiltAt(s.cache[handler], s.models, b);
      if b <= now { ListingHolds(s.models, b, now); }
    } else {
      assert Answer(s, handler, now) == Listing(s.models, now);
    }
  }

  /** After any run from a state with right counts the counts are right. */
  lemma {:induction false} RunKeepsCounts(s: State, ops: seq<Op>)
    requires RefCounts(s)
    ensures RefCounts(Run(s, ops))
    decreases |ops|
  {
    hide RefCounts, Apply;
    if ops != [] {
      StepKeepsCounts(s, ops[0]);
      RunKeepsCounts(Apply(s, ops[0]), ops[1..]);
    }
  }

  /** After any run from a state with a built cache the cache is built. */
  lemma {:induction false} RunKeepsCache(s: State, ops: seq<Op>, readings: set<Time>)
    requires CacheBuilt(s, readings)
    ensures CacheBuilt(Run(s, ops), readings + Readings(ops))
    decreases |ops|
  {
    hide CacheBuilt, Apply;
    if ops != [] {
      var more := if ops[0].List? then {ops[0].now} else {};
      StepKeepsCache(s, ops[0], readings);
      RunKeepsCache(Apply(s, ops[0]), ops[1..], readings + more);
      assert ops == [ops[0]] + ops[1..];
      assert readings + more + Readings(ops[1..]) == readings + Readings(ops);
    } else {
      assert readings + Readings(ops) == readings;
    }
  }

  lemma EmptyCounts()
    ensures RefCounts(EMPTY)
  {
    forall id ensures SlotCounts(EMPTY, id) {
      forall p ensures Shares(EMPTY, id)(p) == 0 {
        assert Under(EMPTY.clientModels, EMPTY.clientProviders, p) == map[];
      }
    }
  }

  /** Main result on counting: after any run of a new registry a model is present exactly when some
      client lists it, its count is the number of listings, and each provider's counter is the
      number of listings by that provider's clients. */
  lemma CountsAfterAnyRun(ops: seq<Op>, id: ModelID)
    ensures var s := Run(EMPTY, ops);
            && (id in s.models <==> exists c :: c in s.clientModels && id in s.clientModels[c])
            && (id in s.models ==>
                 && s.models[id].count == Total(s.clientModels, id)
                 && s.models[id].infoByProvider.Keys == s.models[id].providers.Keys
                 && forall p :: p != "" ==> At(s.models[id].providers, p) == Total(Under(s.clientModels, s.clientProviders, p), id))
  {
    EmptyCounts();
    RunKeepsCounts(EMPTY, ops);
    var s := Run(EMPTY, ops);
    assert SlotCounts(s, id);
    TotalPositive(s.clientModels, id);
    forall p ensures Shares(s, id)(p) == Total(Under(s.clientModels, s.clientProviders, p), id) {
    }
  }

  /** Main result on the cache: after any run, whatever the clock does, a listing request is answered
      with what building the listing for its own reading of the clock would give, or for a later one
      that an earlier request read. */
  lemma ListingsWereBuilt(ops: seq<Op>, handler: string, now: Time)
    ensures exists b :: (b == now || (b in Readings(ops) && now < b)) &&
                        Answer(Run(EMPTY, ops), handler, now) == Listing(Run(EMPTY, ops).models, b)
  {
    RunKeepsCache(EMPTY, ops, {});
    assert {} + Readings(ops) == Readings(ops);
    AnswerIs(Run(EMPTY, ops), Readings(ops), handler, now);
  }

  /** So a request that does not read the clock before an earlier request did is never answered with a
      stale listing. */
  lemma ListingsAreNeverStale(ops: seq<Op>, handler: string, now: Time)
    requires forall b :: b in Readings(ops) ==> b <= now
    ensures Answer(Run(EMPTY, ops), handler, now) == Listing(Run(EMPTY, ops).models, now)
  {
    ListingsWereBuilt(ops, handler, now);
  }

  /** Main result on re-registration, for whole runs: after any run, registering a client again is
      the same as unregistering it and registering it, exactly when no stray mark is around. */
  lemma RegisterAfterAnyRun(ops: seq<Op>, c: ClientID, p: Provider, ms: seq<Option<ModelInfo>>)
    ensures var s := Run(EMPTY, ops);
            Apply(s, Register(c, p, ms)) == Run(s, [Unregister(c), Register(c, p, ms)]) <==> !StrayMarks(s, c, ms)
  {
    EmptyCounts();
    RunKeepsCounts(EMPTY, ops);
    var s := Run(EMPTY, ops);
    RegisteredIsRebuild(s, c, p, ms);
    RunTwo(s, Unregister(c), Register(c, p, ms));
    RebuildIsTwoSteps(s, c, p, ms);
  }

  /** Every quota and suspension mark names a client that lists the model. */
  ghost predicate MarksOfListers(s: State) {
    forall id, d :: id in s.models && (d in s.models[id].quota || d in s.models[id].suspended) ==> Lists(s, d, id)
  }

  predicate Lists(s: State, c: ClientID, id: ModelID) {
    c in s.clientModels && id in s.clientModels[c]
  }

  /** Where marks name only listers, no mark is stray: registering a client again is rebuilding. */
  lemma ListersMarksSuffice(ops: seq<Op>, c: ClientID, p: Provider, ms: seq<Option<ModelInfo>>)
    requires MarksOfListers(Run(EMPTY, ops))
    ensures var s := Run(EMPTY, ops);
            Apply(s, Register(c, p, ms)) == Run(s, [Unregister(c), Register(c, p, ms)])
  {
    RegisterAfterAnyRun(ops, c, p, ms);
    EmptyCounts();
    RunKeepsCounts(EMPTY, ops);
    var s := Run(EMPTY, ops);
    hide Run, Apply;
    if StrayMarks(s, c, ms) {
      var id :| StrayMark(SlotOf(s.models, id), c, Mult(s.clientModels[c], id), Mult(RawIDs(ms), id));
      NoStrayMark(s, c, id, Mult(RawIDs(ms), id));
    }
  }

  lemma NoStrayMark(s: State, c: ClientID, id: ModelID, n: nat)
    requires RefCounts(s) && MarksOfListers(s) && c in s.clientModels
    ensures !StrayMark(SlotOf(s.models, id), c, Mult(s.clientModels[c], id), n)
  {
    var k := Mult(s.clientModels[c], id);
    MultMember(s.clientModels[c], id);
    assert SlotCounts(s, id);
    if id in s.models && k > 0 && s.models[id].count == k {
      forall d | d != c ensures d !in s.models[id].quota && d !in s.models[id].suspended {
        OthersListNot(s, c, d, id);
      }
    }
  }

  lemma OthersListNot(s: State, c: ClientID, d: ClientID, id: ModelID)
    requires c in s.clientModels && d != c && Total(s.clientModels, id) == Mult(s.clientModels[c], id)
    ensures !Lists(s, d, id)
  {
    TotalSplit(s.clientModels, c, id);
    if d in s.clientModels {
      TotalSplit(s.clientModels - {c}, d, id);
      MultMember(s.clientModels[d], id);
    }
  }

  lemma RebuildIsTwoSteps(s: State, c: ClientID, p: Provider, ms: seq<Option<ModelInfo>>)
    requires RefCounts(s)
    ensures Registered(Unregistered(s, c), c, p, ms) == Rebuild(s, c, p, ms)
  {
    var u := Unregistered(s, c);
    assert u.clientProviders - {c} == u.clientProviders;
  }

  /** A new registry after client "a" registered model "m". */
  lemma OneClient(m: seq<Option<ModelInfo>>)
    requires m == [Some(ModelInfo("m", ""))]
    ensures RawIDs(m) == ["m"]
    ensures var s := Apply(EMPTY, Register("a", "p", m));
            && s.clientModels == map["a" := ["m"]]
            && "m" in s.models && s.models["m"].count == 1 && s.models["m"].quota == map[] && s.models["m"].suspended == map[]
            && s.cache == map[]
  {
    RawIDsHaveInfos(m);
    assert m[..0] == [] && RawIDs(m[..0]) == [];
    assert RawIDs(m) == RawIDs(m[..0]) + ["m"];
    AddAllAt(map[], "p", FirstInfos(m), ["m"], "m");
    assert Mult(["m"], "m") == 1;
    AddTimesIs(None, "p", InfoFor(FirstInfos(m), "m"), 1);
  }

  lemma RunTwo(s: State, first: Op, second: Op)
    ensures Run(s, [first, second]) == Apply(Apply(s, first), second)
  {
    assert [first, second][1..] == [second] && [second][1..] == [];
    assert Run(Apply(s, first), [second]) == Run(Apply(Apply(s, first), second), []);
  }

  /** Stray marks do occur: a quota mark may name a client that never listed the model, and then
      registering the lister again keeps the mark while rebuilding loses it. */
  lemma StrayMarkExample()
    ensures var m := [Some(ModelInfo("m", ""))];
            var s := Run(EMPTY, [Register("a", "p", m), SetQuota("b", "m", 0)]);
            StrayMarks(s, "a", m) && Apply(s, Register("a", "p", m)) != Run(s, [Unregister("a"), Register("a", "p", m)])
  {
    var m := [Some(ModelInfo("m", ""))];
    var first, second := Register("a", "p", m), SetQuota("b", "m", 0);
    OneClient(m);
    RunTwo(EMPTY, first, second);
    StrayAfterForeignMark(Apply(Apply(EMPTY, first), second), m);
    RegisterAfterAnyRun([first, second], "a", "p", m);
  }

  lemma StrayAfterForeignMark(s: State, m: seq<Option<ModelInfo>>)
    requires RawIDs(m) == ["m"] && s.clientModels == map["a" := ["m"]]
    requires "m" in s.models && s.models["m"].count == 1 && "b" in s.models["m"].quota
    ensures StrayMarks(s, "a", m)
  {
    assert Mult(["m"], "m") == 1;
    assert ForeignMark(s.models["m"], "a");
    assert StrayMark(SlotOf(s.models, "m"), "a", Mult(s.clientModels["a"], "m"), Mult(RawIDs(m), "m"));
  }
}
