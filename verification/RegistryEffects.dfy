/** What registering and unregistering a client does to descriptions and marks, said of the request. */
module RegistryEffects {
  import opened Common
  import opened RegistryState
  import opened RegistrySpec
  import opened RegistryRuns

  // ------------------------------------------------------------- the request

  /** Entry `k` names the model `id`. */
  predicate Names(ms: seq<Option<ModelInfo>>, k: nat, id: ModelID) {
    k < |ms| && ms[k].Some? && ms[k].value.id == id
  }

  function Naming(ms: seq<Option<ModelInfo>>, id: ModelID): set<nat> {
    set k: nat | k < |ms| && Names(ms, k, id)
  }

  lemma NamingLast(ms: seq<Option<ModelInfo>>, m: Option<ModelInfo>, id: ModelID)
    ensures Naming(ms + [m], id) == Naming(ms, id) + if m.Some? && m.value.id == id then {|ms|} else {}
    ensures |Naming(ms + [m], id)| == |Naming(ms, id)| + if m.Some? && m.value.id == id then 1 else 0
  {
    var all := ms + [m];
    assert all[|ms|] == m && forall k :: 0 <= k < |ms| ==> all[k] == ms[k];
    assert forall k: nat :: k < |ms| ==> Names(all, k, id) == Names(ms, k, id);
    assert |ms| !in Naming(ms, id);
  }

  /** A client lists a model as often as the request names it. */
  lemma {:induction false} RequestCounts(ms: seq<Option<ModelInfo>>, id: ModelID)
    requires id != ""
    ensures Mult(RawIDs(ms), id) == |Naming(ms, id)|
  {
    if ms == [] {
      assert Naming(ms, id) == {};
    } else {
      var init, m := ms[..|ms| - 1], ms[|ms| - 1];
      RequestCounts(init, id);
      NamingLast(init, m, id);
      assert ms == init + [m];
      hide Naming;
      assert RawIDs(ms) == RawIDs(init) + if m.Some? && m.value.id != "" then [m.value.id] else [];
    }
  }

  /** Of several descriptions of a model the first counts. */
  lemma {:induction false} FirstCounts(ms: seq<Option<ModelInfo>>, k: nat, id: ModelID)
    requires id != "" && Names(ms, k, id) && forall j :: 0 <= j < k ==> !Names(ms, j, id)
    ensures id in FirstInfos(ms) && FirstInfos(ms)[id] == ms[k].value
  {
    var n := |ms| - 1;
    assert forall j :: 0 <= j < n ==> Names(ms[..n], j, id) == Names(ms, j, id);
    if k < n {
      FirstCounts(ms[..n], k, id);
    } else {
      NeverNamed(ms[..n], id);
    }
  }

  lemma {:induction false} NeverNamed(ms: seq<Option<ModelInfo>>, id: ModelID)
    requires forall j :: 0 <= j < |ms| ==> !Names(ms, j, id)
    ensures id !in FirstInfos(ms)
  {
    if ms != [] {
      var n := |ms| - 1;
      assert forall j :: 0 <= j < n ==> Names(ms[..n], j, id) == Names(ms, j, id);
      assert !Names(ms, n, id);
      NeverNamed(ms[..n], id);
    }
  }

  // -------------------------------------------------------------- registering

  /** The slot of a model that a client now lists: its description, and its marks. */
  lemma RegisteredSlot(s: State, c: ClientID, p: Provider, ms: seq<Option<ModelInfo>>, id: ModelID)
    requires RefCounts(s) && id in RawIDs(ms)
    ensures var s' := Registered(s, c, p, ms);
            && id in s'.models
            && var r, info := s'.models[id], InfoFor(FirstInfos(ms), id);
               && r.info == info && (p != "" ==> p in r.infoByProvider && r.infoByProvider[p] == info)
               && (id in s.models && c in s.clientModels ==>
                     r.quota == s.models[id].quota - {c} && r.suspended == s.models[id].suspended - {c})
               && (id in s.models && c !in s.clientModels ==> r.quota == s.models[id].quota && r.suspended == s.models[id].suspended)
               && (id !in s.models ==> r.quota == map[] && r.suspended == map[])
  {
    RawIDsHaveInfos(ms);
    var n, info, slot := Mult(RawIDs(ms), id), InfoFor(FirstInfos(ms), id), SlotOf(s.models, id);
    MultMember(RawIDs(ms), id);
    if c !in s.clientModels {
      AddAllAt(s.models, p, FirstInfos(ms), RawIDs(ms), id);
      AddTimesIs(slot, p, info, n);
    } else {
      var k, q := Mult(s.clientModels[c], id), ProviderOf(s, c);
      ReregisteredAt(s, c, p, ms, id);
      ClientHolds(s, c, id);
      if k > 0 {
        ReconciledOverlap(slot, c, q, p, k, n, info);
      } else {
        ReconciledFresh(slot, c, q, p, n, info);
        AddTimesIs(slot, p, info, n);
      }
    }
    hide RefCounts, RawIDs, FirstInfos, Reconciled, AddTimes, AddAll;
  }

  /** Main result on registering: whoever registers as entry `k` the first description of a model is
      recorded with it, and the model, also under the client's provider, carries it from then on. */
  lemma RegisteredDescribes(s: State, c: ClientID, p: Provider, ms: seq<Option<ModelInfo>>, k: nat, id: ModelID)
    requires RefCounts(s) && id != "" && Names(ms, k, id) && forall j :: 0 <= j < k ==> !Names(ms, j, id)
    ensures var s' := Registered(s, c, p, ms);
            && c in s'.clientModels && Mult(s'.clientModels[c], id) == |Naming(ms, id)|
            && c in s'.clientInfos && id in s'.clientInfos[c] && s'.clientInfos[c][id] == ms[k].value
            && (if p != "" then c in s'.clientProviders && s'.clientProviders[c] == p else c !in s'.clientProviders)
            && id in s'.models && s'.models[id].info == ms[k].value
            && (p != "" ==> p in s'.models[id].infoByProvider && s'.models[id].infoByProvider[p] == ms[k].value)
  {
    RequestCounts(ms, id);
    FirstCounts(ms, k, id);
    RawIDsHaveInfos(ms);
    RegisteredSlot(s, c, p, ms, id);
    hide RefCounts, RawIDs, FirstInfos, AddAll, PassesAt, Naming, Names;
  }

  /** A client that registers again loses its marks on the models it lists, and nobody else loses any. */
  lemma RegisteredMarks(s: State, c: ClientID, p: Provider, ms: seq<Option<ModelInfo>>, k: nat, id: ModelID, d: ClientID)
    requires RefCounts(s) && id != "" && Names(ms, k, id)
    ensures var s' := Registered(s, c, p, ms);
            && id in s'.models
            && var quota := if id in s.models then s.models[id].quota else map[];
               var suspended := if id in s.models then s.models[id].suspended else map[];
               if d == c && c in s.clientModels then d !in s'.models[id].quota && d !in s'.models[id].suspended
               else && (d in s'.models[id].quota <==> d in quota) && (d in quota ==> s'.models[id].quota[d] == quota[d])
                    && (d in s'.models[id].suspended <==> d in suspended) && (d in suspended ==> s'.models[id].suspended[d] == suspended[d])
  {
    NamedIsListed(ms, k, id);
    RegisteredSlot(s, c, p, ms, id);
    hide RefCounts, RawIDs, FirstInfos, Registered;
  }

  lemma NamedIsListed(ms: seq<Option<ModelInfo>>, k: nat, id: ModelID)
    requires id != "" && Names(ms, k, id)
    ensures id in RawIDs(ms)
  {
    RequestCounts(ms, id);
    assert k in Naming(ms, id);
    MultMember(RawIDs(ms), id);
  }

  /** A model that the client listed neither before nor now keeps its registration. */
  lemma OthersUntouched(s: State, c: ClientID, p: Provider, ms: seq<Option<ModelInfo>>, id: ModelID)
    requires RefCounts(s) && id !in RawIDs(ms) && (c in s.clientModels ==> id !in s.clientModels[c])
    ensures SlotOf(Registered(s, c, p, ms).models, id) == SlotOf(s.models, id)
  {
    RawIDsHaveInfos(ms);
    MultMember(RawIDs(ms), id);
    if c !in s.clientModels {
      AddAllAt(s.models, p, FirstInfos(ms), RawIDs(ms), id);
    } else {
      MultMember(s.clientModels[c], id);
      RemoveAllAt(s.models, c, ProviderOf(s, c), s.clientModels[c], id);
      if RawIDs(ms) != [] { ReregisteredAt(s, c, p, ms, id); }
    }
    hide RefCounts, RawIDs, FirstInfos, AddAll, RemoveAll;
  }

  /** An unregistered client leaves nothing behind: no entry in a table, and no mark on what it listed. */
  lemma UnregisterForgets(s: State, c: ClientID, id: ModelID)
    requires RefCounts(s) && c in s.clientModels && id in s.clientModels[c]
    ensures var u := Unregistered(s, c);
            && c !in u.clientModels && c !in u.clientInfos && c !in u.clientProviders
            && (id in u.models ==>
                  && id in s.models && c !in u.models[id].quota && c !in u.models[id].suspended
                  && u.models[id].info == s.models[id].info)
            && (id in u.models <==> exists d :: d != c && d in s.clientModels && id in s.clientModels[d])
  {
    var k := Mult(s.clientModels[c], id);
    MultMember(s.clientModels[c], id);
    ClientHolds(s, c, id);
    RemoveAllAt(s.models, c, ProviderOf(s, c), s.clientModels[c], id);
    RemoveTimesIs(SlotOf(s.models, id), c, ProviderOf(s, c), k, k);
    UnregisteredCounts(s, c);
    assert SlotCounts(Unregistered(s, c), id);
    TotalPositive(Unregistered(s, c).clientModels, id);
    assert forall d :: d in Unregistered(s, c).clientModels <==> d != c && d in s.clientModels;
    hide RefCounts, RemoveAll, RemoveTimes, Shares;
  }

  // -------------------------------------------------------------------- marks

  predicate SameAt<V(==)>(a: map<ClientID, V>, b: map<ClientID, V>, c: ClientID) {
    (c in a <==> c in b) && (c in a ==> a[c] == b[c])
  }

  /** Nothing differs but marks of one client on one model, and what is cached. */
  ghost predicate OnlyMarks(s: State, t: State, c: ClientID, id: ModelID) {
    && t.clientModels == s.clientModels && t.clientInfos == s.clientInfos && t.clientProviders == s.clientProviders
    && t.models.Keys == s.models.Keys
    && forall m :: m in s.models ==>
         && t.models[m] == s.models[m].(quota := t.models[m].quota, suspended := t.models[m].suspended)
         && forall d :: m != id || d != c ==>
              SameAt(t.models[m].quota, s.models[m].quota, d) && SameAt(t.models[m].suspended, s.models[m].suspended, d)
  }

  lemma OneSlot(s: State, t: State, c: ClientID, id: ModelID, r: Registration)
    requires id in s.models && t == s.(models := s.models[id := r], cache := t.cache)
    requires r == s.models[id].(quota := r.quota, suspended := r.suspended)
    requires forall d :: d != c ==> SameAt(r.quota, s.models[id].quota, d) && SameAt(r.suspended, s.models[id].suspended, d)
    ensures OnlyMarks(s, t, c, id)
  {
    hide SameAt;
    assert forall m, d :: m in s.models && m != id ==>
      SameAt(s.models[m].quota, s.models[m].quota, d) && SameAt(s.models[m].suspended, s.models[m].suspended, d) by { Reflexive(); }
  }

  lemma Reflexive()
    ensures forall a: map<ClientID, Time>, d :: SameAt(a, a, d)
    ensures forall a: map<ClientID, string>, d :: SameAt(a, a, d)
  {
  }

  /** Setting or clearing a quota mark touches nothing else, no suspension in particular. */
  lemma QuotaMarksOnly(s: State, c: ClientID, id: ModelID, now: Time)
    ensures OnlyMarks(s, Marking(s, c, id, now), c, id) && OnlyMarks(s, Unmarking(s, c, id), c, id)
    ensures id in s.models ==>
              && Marking(s, c, id, now).models[id].suspended == s.models[id].suspended
              && Unmarking(s, c, id).models[id].suspended == s.models[id].suspended
  {
    if id in s.models {
      var r := s.models[id];
      OneSlot(s, Marking(s, c, id, now), c, id, r.(quota := r.quota[c := now]));
      OneSlot(s, Unmarking(s, c, id), c, id, r.(quota := r.quota - {c}));
      hide OnlyMarks;
    } else {
      Reflexive();
      hide SameAt;
    }
  }

  /** Suspending or resuming touches nothing else, no quota mark in particular. */
  lemma SuspensionsOnly(s: State, c: ClientID, id: ModelID, reason: string)
    ensures OnlyMarks(s, Suspending(s, c, id, reason), c, id) && OnlyMarks(s, Resuming(s, c, id), c, id)
    ensures id in s.models ==>
              && Suspending(s, c, id, reason).models[id].quota == s.models[id].quota
              && Resuming(s, c, id).models[id].quota == s.models[id].quota
  {
    SameStays(s, c, id);
    if id in s.models {
      var r := s.models[id];
      if c !in r.suspended && c != "" && id != "" {
        OneSlot(s, Suspending(s, c, id, reason), c, id, r.(suspended := r.suspended[c := reason]));
      } else if c in r.suspended && c != "" && id != "" {
        OneSlot(s, Resuming(s, c, id), c, id, r.(suspended := r.suspended - {c}));
      }
    }
    hide OnlyMarks;
  }

  lemma SameStays(s: State, c: ClientID, id: ModelID)
    ensures OnlyMarks(s, s, c, id)
  {
    Reflexive();
    hide SameAt;
  }

  /** Cleaning up forgets the marks set at least five minutes ago and nothing else. */
  lemma CleaningKeeps(s: State, now: Time)
    ensures var t := Cleaning(s, now);
            && t.clientModels == s.clientModels && t.clientInfos == s.clientInfos && t.clientProviders == s.clientProviders
            && t.models.Keys == s.models.Keys
            && forall m :: m in s.models ==>
                 && t.models[m] == s.models[m].(quota := t.models[m].quota)
                 && forall c :: if c in s.models[m].quota && now < s.models[m].quota[c] + 300_000_000_000
                                then SameAt(t.models[m].quota, s.models[m].quota, c) else c !in t.models[m].quota
  {
  }

  /** It drops what is cached exactly if there was such a mark; listing changes nothing but what is cached. */
  lemma CleaningCache(s: State, handler: string, now: Time)
    ensures var stale := exists m, c :: m in s.models && c in s.models[m].quota && s.models[m].quota[c] + 300_000_000_000 <= now;
            Cleaning(s, now).cache == if stale then map[] else s.cache
    ensures Listed(s, handler, now) == s.(cache := Listed(s, handler, now).cache)
  {
    var models := Cleaned(s.models, now);
    if m, c :| m in s.models && c in s.models[m].quota && s.models[m].quota[c] + 300_000_000_000 <= now {
      assert c !in models[m].quota;
    } else {
      forall m | m in s.models ensures models[m] == s.models[m] {
        assert models[m].quota == s.models[m].quota;
      }
      assert models == s.models;
    }
    hide Listing, Fresh;
  }
}
