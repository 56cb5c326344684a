/** The registry object. Each public method is one locked section; its contract gives the whole new
    state as an operation of RegistrySpec or RegistryRuns. */
module Registry {
  import opened Common
  import opened Strings
  import opened RegistryState
  import opened RegistrySpec
  import opened RegistryRuns
  import opened RegistryOffers
  import opened RegistryScan

  type Counts = map<ModelID, nat>

  /** `counts` holds the multiplicities of `ids`. */
  ghost predicate CountsOf(counts: Counts, ids: seq<ModelID>) {
    (forall id :: id in counts <==> id in ids) && (forall id :: N(counts, id) == Mult(ids, id))
  }

  /** A count read like Go's `m[k]`. */
  function N(counts: Counts, id: ModelID): nat {
    if id in counts then counts[id] else 0
  }

  lemma CountSnoc(counts: Counts, ids: seq<ModelID>, x: ModelID)
    requires CountsOf(counts, ids)
    ensures CountsOf(counts[x := N(counts, x) + 1], ids + [x])
  {
    var more := counts[x := N(counts, x) + 1];
    forall id ensures N(more, id) == Mult(ids + [x], id) {
      assert N(counts, id) == Mult(ids, id);
    }
  }

  /** Deleting an unregistered client's tables again changes nothing. */
  lemma UnregisteredForgets(s: State, c: ClientID)
    requires RefCounts(s)
    ensures var u := Unregistered(s, c);
            u.clientModels - {c} == u.clientModels && u.clientInfos - {c} == u.clientInfos && u.clientProviders - {c} == u.clientProviders
  {
  }

  /** The registrations half way through cleaning, with `todo` still to clean. */
  function HalfCleaned(models: map<ModelID, Registration>, now: Time, todo: set<ModelID>): map<ModelID, Registration> {
    map id | id in models :: if id in todo then models[id] else WithoutExpired(models[id], now)
  }

  lemma HalfCleanedEnds(models: map<ModelID, Registration>, now: Time)
    ensures HalfCleaned(models, now, models.Keys) == models && HalfCleaned(models, now, {}) == Cleaned(models, now)
  {
    hide WithoutExpired;
  }

  lemma HalfCleanedNext(models: map<ModelID, Registration>, now: Time, todo: set<ModelID>, id: ModelID)
    requires id in todo && id in models
    ensures var half, next := HalfCleaned(models, now, todo), HalfCleaned(models, now, todo - {id});
            && id in half && half[id] == models[id]
            && next == half[id := WithoutExpired(models[id], now)]
            && (WithoutExpired(models[id], now) == models[id] ==> next == half)
            && (WithoutExpired(models[id], now) != models[id] ==> next != models)
  {
    hide WithoutExpired;
    var next := HalfCleaned(models, now, todo - {id});
    assert next[id] == WithoutExpired(models[id], now);
  }

  lemma Tabled(s: State, c: ClientID)
    requires RefCounts(s) && c in s.clientProviders
    ensures c in s.clientModels && c in s.clientInfos
  {
  }

  /** How often a scan for provider `p` has met `id`, with the clients of `todo` still to visit. */
  ghost function SeenCount(s: State, p: Provider, todo: set<ClientID>, id: ModelID): nat {
    Total(Unvisited(TrimmedLists(Under(s.clientModels, s.clientProviders, p)), todo), id)
  }

  ghost function Unvisited(lists: Lists, todo: set<ClientID>): Lists {
    map c | c in lists && c !in todo :: lists[c]
  }

  lemma SeenEnds(s: State, p: Provider)
    ensures forall id :: SeenCount(s, p, s.clientProviders.Keys, id) == 0
    ensures forall id :: SeenCount(s, p, {}, id) == ScanCount(s, p, id)
  {
    var all := TrimmedLists(Under(s.clientModels, s.clientProviders, p));
    assert Unvisited(all, {}) == all;
    assert Unvisited(all, s.clientProviders.Keys) == map[];
  }

  lemma SeenNext(s: State, p: Provider, todo: set<ClientID>, c: ClientID, id: ModelID)
    requires c in todo && c in s.clientProviders && c in s.clientModels
    ensures SeenCount(s, p, todo - {c}, id) == SeenCount(s, p, todo, id)
            + if s.clientProviders[c] == p then Mult(TrimmedIDs(s.clientModels[c]), id) else 0
  {
    hide Total, TrimmedIDs;
    var all := TrimmedLists(Under(s.clientModels, s.clientProviders, p));
    var before, after := Unvisited(all, todo), Unvisited(all, todo - {c});
    if s.clientProviders[c] == p {
      assert after == before[c := TrimmedIDs(s.clientModels[c])];
      TotalAfter(before, c, TrimmedIDs(s.clientModels[c]), id);
    } else {
      assert after == before;
    }
  }

  class ModelRegistry {
    var models: map<ModelID, Registration>
    var clientModels: map<ClientID, seq<ModelID>>
    var clientModelInfos: map<ClientID, map<ModelID, ModelInfo>>
    var clientProviders: map<ClientID, Provider>
    var availableModelsCache: map<string, CacheEntry>

    /** The clock readings of the listing requests so far. */
    ghost var readings: set<Time>

    ghost function Abs(): State
      reads this
    {
      State(models, clientModels, clientModelInfos, clientProviders, availableModelsCache)
    }

    ghost predicate Valid()
      reads this
    {
      RefCounts(Abs()) && CacheBuilt(Abs(), readings)
    }

    constructor ()
      ensures Valid() && Abs() == EMPTY
    {
      models, clientModels, clientModelInfos, clientProviders, availableModelsCache := map[], map[], map[], map[], map[];
      readings := {};
      new;
      EmptyCounts();
    }

    // ---------------------------------------------------- one registration

    method AddModelRegistration(id: ModelID, provider: Provider, info: ModelInfo)
      modifies this`models
      ensures models == if id == "" then old(models) else WithSlot(old(models), id, AddOne(SlotOf(old(models), id), provider, info))
    {
      if id == "" {
        return;
      }
      if id in models {
        var existing := models[id];
        existing := existing.(count := existing.count + 1, info := info);
        if provider != "" {
          existing := existing.(providers := existing.providers[provider := At(existing.providers, provider) + 1],
                                infoByProvider := existing.infoByProvider[provider := info]);
        }
        models := models[id := existing];
        return;
      }
      var registration := Registration(info, map[], 1, map[], map[], map[]);
      if provider != "" {
        registration := registration.(providers := map[provider := 1], infoByProvider := map[provider := info]);
      }
      models := models[id := registration];
    }

    method RemoveModelRegistration(client: ClientID, id: ModelID, provider: Provider)
      modifies this`models
      ensures models == WithSlot(old(models), id, RemoveOne(SlotOf(old(models), id), client, provider))
    {
      if id !in models {
        assert models - {id} == models;
        return;
      }
      var registration := models[id];
      registration := registration.(count := registration.count - 1);
      registration := registration.(quota := registration.quota - {client});
      registration := registration.(suspended := registration.suspended - {client});
      if registration.count < 0 {
        registration := registration.(count := 0);
      }
      if provider != "" && provider in registration.providers {
        var count := registration.providers[provider];
        if count <= 1 {
          registration := registration.(providers := registration.providers - {provider},
                                        infoByProvider := registration.infoByProvider - {provider});
        } else {
          registration := registration.(providers := registration.providers[provider := count - 1]);
        }
      }
      models := models[id := registration];
      if registration.count <= 0 {
        models := models - {id};
        assert models == old(models) - {id};
      }
    }

    method AddRepeatedly(id: ModelID, provider: Provider, info: ModelInfo, times: nat)
      requires id != ""
      modifies this`models
      ensures forall i :: SlotOf(models, i) ==
                if i == id then AddTimes(SlotOf(old(models), i), provider, info, times) else SlotOf(old(models), i)
    {
      for i := 0 to times
        invariant forall j :: SlotOf(models, j) ==
                    if j == id then AddTimes(SlotOf(old(models), j), provider, info, i) else SlotOf(old(models), j)
      {
        AddModelRegistration(id, provider, info);
      }
    }

    method RemoveRepeatedly(client: ClientID, id: ModelID, provider: Provider, times: nat)
      modifies this`models
      ensures forall i :: SlotOf(models, i) ==
                if i == id then RemoveTimes(SlotOf(old(models), i), client, provider, times) else SlotOf(old(models), i)
    {
      for i := 0 to times
        invariant forall j :: SlotOf(models, j) ==
                    if j == id then RemoveTimes(SlotOf(old(models), j), client, provider, i) else SlotOf(old(models), j)
      {
        RemoveModelRegistration(client, id, provider);
      }
    }

    // --------------------------------------------------------- registration

    /** Collects the usable identifiers of a request, the distinct ones, the first description of
        each, and their multiplicities. */
    method ReadRequest(ms: seq<Option<ModelInfo>>)
      returns (unique: seq<ModelID>, raw: seq<ModelID>, infos: Infos, counts: Counts)
      ensures raw == RawIDs(ms) && infos == FirstInfos(ms) && CountsOf(counts, raw)
      ensures forall id :: id in unique <==> id in raw
      ensures forall i, j :: 0 <= i < j < |unique| ==> unique[i] != unique[j]
    {
      unique, raw, infos, counts := [], [], map[], map[];
      for i := 0 to |ms|
        invariant raw == RawIDs(ms[..i]) && infos == FirstInfos(ms[..i]) && CountsOf(counts, raw)
        invariant forall id :: id in unique <==> id in raw
        invariant forall id :: id in infos <==> id in raw
        invariant forall a, b :: 0 <= a < b < |unique| ==> unique[a] != unique[b]
      {
        var m := ms[i];
        assert ms[..i + 1][..i] == ms[..i];
        if m.None? || m.value.id == "" {
          continue;
        }
        var id := m.value.id;
        CountSnoc(counts, raw, id);
        raw := raw + [id];
        counts := counts[id := N(counts, id) + 1];
        if id !in infos {
          infos := infos[id := m.value];
          unique := unique + [id];
        }
      }
      assert ms[..|ms|] == ms;
    }

    /** Counts a list. */
    method CountList(ids: seq<ModelID>) returns (counts: Counts)
      ensures CountsOf(counts, ids)
    {
      counts := map[];
      for i := 0 to |ids|
        invariant CountsOf(counts, ids[..i])
      {
        assert ids[..i + 1] == ids[..i] + [ids[i]];
        CountSnoc(counts, ids[..i], ids[i]);
        counts := counts[ids[i] := N(counts, ids[i]) + 1];
      }
      assert ids[..|ids|] == ids;
    }

    /** First pass, in any order over the new counts. */
    method MoveFromOldProvider(oldProvider: Provider, provider: Provider, oldCounts: Counts, newCounts: Counts)
      requires oldProvider != provider && oldProvider != ""
      modifies this`models
      ensures forall id :: SlotOf(models, id) ==
                MovePass(SlotOf(old(models), id), oldProvider, provider, N(oldCounts, id), N(newCounts, id))
    {
      var todo := newCounts.Keys;
      while todo != {}
        invariant todo <= newCounts.Keys
        invariant forall id :: SlotOf(models, id) ==
                    if id in todo then SlotOf(old(models), id)
                    else MovePass(SlotOf(old(models), id), oldProvider, provider, N(oldCounts, id), N(newCounts, id))
        decreases |todo|
      {
        var id :| id in todo;
        todo := todo - {id};
        var newCount, oldCount := N(newCounts, id), N(oldCounts, id);
        if newCount == 0 || oldCount == 0 {
          continue;
        }
        var toRemove := if oldCount < newCount then oldCount else newCount;
        if id in models && oldProvider in models[id].providers {
          var reg := models[id];
          var count := reg.providers[oldProvider];
          if count <= toRemove {
            models := models[id := reg.(providers := reg.providers - {oldProvider},
                                        infoByProvider := reg.infoByProvider - {oldProvider})];
          } else {
            models := models[id := reg.(providers := reg.providers[oldProvider := count - toRemove])];
          }
        }
      }
    }

    /** Second pass, in any order over the removed models. */
    method RemoveGone(client: ClientID, oldProvider: Provider, oldCounts: Counts, newCounts: Counts)
      modifies this`models
      ensures forall id :: SlotOf(models, id) ==
                GonePass(SlotOf(old(models), id), client, oldProvider, N(oldCounts, id), N(newCounts, id))
    {
      var removed := set id | id in oldCounts && N(newCounts, id) == 0;
      while removed != {}
        invariant forall id :: id in removed ==> N(newCounts, id) == 0
        invariant forall id :: SlotOf(models, id) ==
                    if id in removed then SlotOf(old(models), id)
                    else GonePass(SlotOf(old(models), id), client, oldProvider, N(oldCounts, id), N(newCounts, id))
        decreases |removed|
      {
        var id :| id in removed;
        removed := removed - {id};
        RemoveRepeatedly(client, id, oldProvider, N(oldCounts, id));
      }
    }

    /** Third pass, in any order over the old counts. */
    method RemoveSurplus(client: ClientID, oldProvider: Provider, oldCounts: Counts, newCounts: Counts)
      modifies this`models
      ensures forall id :: SlotOf(models, id) ==
                SurplusPass(SlotOf(old(models), id), client, oldProvider, N(oldCounts, id), N(newCounts, id))
    {
      var todo := oldCounts.Keys;
      while todo != {}
        invariant forall id :: SlotOf(models, id) ==
                    if id in todo then SlotOf(old(models), id)
                    else SurplusPass(SlotOf(old(models), id), client, oldProvider, N(oldCounts, id), N(newCounts, id))
        decreases |todo|
      {
        var id :| id in todo;
        todo := todo - {id};
        var oldCount, newCount := N(oldCounts, id), N(newCounts, id);
        if newCount == 0 || oldCount <= newCount {
          continue;
        }
        RemoveRepeatedly(client, id, oldProvider, oldCount - newCount);
      }
    }

    /** Fourth pass, in any order over the new counts. */
    method AddMissing(provider: Provider, infos: Infos, oldCounts: Counts, newCounts: Counts)
      requires newCounts.Keys <= infos.Keys && "" !in newCounts
      modifies this`models
      ensures forall id :: SlotOf(models, id) ==
                MissingPass(SlotOf(old(models), id), provider, N(oldCounts, id), N(newCounts, id), InfoFor(infos, id))
    {
      var todo := newCounts.Keys;
      while todo != {}
        invariant todo <= newCounts.Keys
        invariant forall id :: SlotOf(models, id) ==
                    if id in todo then SlotOf(old(models), id)
                    else MissingPass(SlotOf(old(models), id), provider, N(oldCounts, id), N(newCounts, id), InfoFor(infos, id))
        decreases |todo|
      {
        var id :| id in todo;
        todo := todo - {id};
        var newCount, oldCount := N(newCounts, id), N(oldCounts, id);
        if newCount <= oldCount {
          continue;
        }
        AddRepeatedly(id, provider, infos[id], newCount - oldCount);
      }
    }

    /** Fifth pass, over the distinct identifiers of the request. */
    method RefreshKept(client: ClientID, oldProvider: Provider, provider: Provider, infos: Infos,
                       unique: seq<ModelID>, oldCounts: Counts, newCounts: Counts)
      requires forall id :: id in unique <==> id in newCounts
      requires forall i, j :: 0 <= i < j < |unique| ==> unique[i] != unique[j]
      requires forall id :: id in newCounts ==> newCounts[id] > 0 && id in infos
      modifies this`models
      ensures forall id :: SlotOf(models, id) ==
                RefreshPass(SlotOf(old(models), id), client, oldProvider, provider, N(oldCounts, id), N(newCounts, id), InfoFor(infos, id))
    {
      for i := 0 to |unique|
        invariant forall id :: SlotOf(models, id) ==
                    if id !in unique[..i] then SlotOf(old(models), id)
                    else RefreshPass(SlotOf(old(models), id), client, oldProvider, provider, N(oldCounts, id), N(newCounts, id), InfoFor(infos, id))
      {
        var id := unique[i];
        assert unique[..i + 1] == unique[..i] + [id];
        assert id !in unique[..i];
        if id !in models {
          continue;
        }
        var reg := models[id].(info := infos[id]);
        if provider != "" {
          reg := reg.(infoByProvider := reg.infoByProvider[provider := infos[id]]);
        }
        reg := reg.(quota := reg.quota - {client}, suspended := reg.suspended - {client});
        models := models[id := reg];
        if oldProvider != provider && provider != "" {
          if N(oldCounts, id) == 0 {
            continue;
          }
          var overlap := if N(oldCounts, id) < N(newCounts, id) then N(oldCounts, id) else N(newCounts, id);
          models := models[id := reg.(providers := reg.providers[provider := At(reg.providers, provider) + overlap])];
        }
      }
      assert unique[..|unique|] == unique;
    }

    /** Takes out everything the client lists; the cache is left to the caller. */
    method UnregisterClientInternal(client: ClientID)
      requires forall c :: c in clientProviders ==> clientProviders[c] != ""
      modifies this`models, this`clientModels, this`clientModelInfos, this`clientProviders
      ensures Abs() == Unregistered(old(Abs()), client).(cache := old(availableModelsCache))
    {
      var provider, hasProvider := "", client in clientProviders;
      if hasProvider {
        provider := clientProviders[client];
      }
      if client !in clientModels {
        if hasProvider {
          clientProviders := clientProviders - {client};
        }
        assert clientProviders == old(clientProviders) - {client};
        return;
      }
      var listed := clientModels[client];
      for i := 0 to |listed|
        invariant clientModels == old(clientModels) && clientModelInfos == old(clientModelInfos)
        invariant clientProviders == old(clientProviders)
        invariant models == RemoveAll(old(models), client, provider, listed[..i])
      {
        assert listed[..i + 1][..i] == listed[..i];
        DropListed(client, hasProvider, provider, listed[i]);
      }
      assert listed[..|listed|] == listed;
      clientModels := clientModels - {client};
      clientModelInfos := clientModelInfos - {client};
      clientProviders := clientProviders - {client};
    }

    /** One listed model of a client that leaves. */
    method DropListed(client: ClientID, hasProvider: bool, provider: Provider, id: ModelID)
      requires hasProvider <==> provider != ""
      modifies this`models
      ensures models == WithSlot(old(models), id, RemoveOne(SlotOf(old(models), id), client, provider))
    {
      if id !in models {
        assert models - {id} == models;
        return;
      }
      var registration := models[id];
      registration := registration.(count := registration.count - 1);
      registration := registration.(quota := registration.quota - {client}, suspended := registration.suspended - {client});
      if hasProvider && provider in registration.providers {
        var count := registration.providers[provider];
        if count <= 1 {
          registration := registration.(providers := registration.providers - {provider},
                                        infoByProvider := registration.infoByProvider - {provider});
        } else {
          registration := registration.(providers := registration.providers[provider := count - 1]);
        }
      }
      models := models[id := registration];
      if registration.count <= 0 {
        models := models - {id};
        assert models == old(models) - {id};
      }
    }

    method UnregisterClient(client: ClientID)
      requires Valid()
      modifies this
      ensures Valid() && readings == old(readings)
      ensures Abs() == Apply(old(Abs()), Unregister(client))
    {
      ghost var before := Abs();
      UnregisterClientInternal(client);
      availableModelsCache := map[];
      StepKeepsCounts(before, Unregister(client));
    }

    /** Registers a client, or reconciles a known one with a new list. */
    method RegisterClient(client: ClientID, clientProvider: string, ms: seq<Option<ModelInfo>>)
      requires Valid()
      modifies this
      ensures Valid() && readings == old(readings)
      ensures Abs() == Apply(old(Abs()), Register(client, ToLower(clientProvider), ms))
      ensures !StrayMarks(old(Abs()), client, ms) ==>
                Abs() == Rebuild(old(Abs()), client, ToLower(clientProvider), ms)
    {
      var provider := ToLower(clientProvider);
      ghost var op := Register(client, provider, ms);
      StepKeepsCounts(Abs(), op);
      StepKeepsCache(Abs(), op, readings);
      RegisteredIsRebuild(Abs(), client, provider, ms);
      hide RefCounts, CacheBuilt, StrayMarks, Rebuild, Registered;
      RegisterLocked(client, provider, ms);
    }

    method RegisterLocked(client: ClientID, provider: Provider, ms: seq<Option<ModelInfo>>)
      requires RefCounts(Abs())
      modifies this`models, this`clientModels, this`clientModelInfos, this`clientProviders, this`availableModelsCache
      ensures Abs() == Registered(old(Abs()), client, provider, ms)
    {
      ghost var before := Abs();
      var unique, raw, infos, newCounts := ReadRequest(ms);
      RawIDsHaveInfos(ms);
      assert raw != [] ==> raw[0] in raw;
      if unique == [] {
        Forget(client);
      } else {
        assert unique[0] in raw;
        hide Reregistered, AddAll, FirstInfos;
        if client !in clientModels {
          AddNewClient(client, provider, infos, raw);
        } else {
          Reconcile(client, provider, ms, unique, raw, infos, newCounts);
        }
      }
    }

    /** A request without models: the client leaves. */
    method Forget(client: ClientID)
      requires RefCounts(Abs())
      modifies this`models, this`clientModels, this`clientModelInfos, this`clientProviders, this`availableModelsCache
      ensures Abs() == Unregistered(old(Abs()), client)
    {
      UnregisteredForgets(Abs(), client);
      UnregisterClientInternal(client);
      hide RefCounts, Unregistered;
      clientModels := clientModels - {client};
      clientModelInfos := clientModelInfos - {client};
      clientProviders := clientProviders - {client};
      availableModelsCache := map[];
    }

    method AddNewClient(client: ClientID, provider: Provider, infos: Infos, raw: seq<ModelID>)
      requires forall id :: id in raw ==> id in infos && id != ""
      modifies this`models, this`clientModels, this`clientModelInfos, this`clientProviders, this`availableModelsCache
      ensures Abs() == WithClient(old(Abs()).(models := AddAll(old(models), provider, infos, raw)), client, provider, infos, raw)
    {
      for i := 0 to |raw|
        invariant Abs() == old(Abs()).(models := models)
        invariant models == AddAll(old(models), provider, infos, raw[..i])
      {
        assert raw[..i + 1][..i] == raw[..i];
        AddModelRegistration(raw[i], provider, infos[raw[i]]);
      }
      assert raw[..|raw|] == raw;
      StoreClient(client, provider, infos, raw);
    }

    /** The five passes, and then the client tables. */
    method Reconcile(client: ClientID, provider: Provider, ghost ms: seq<Option<ModelInfo>>,
                     unique: seq<ModelID>, raw: seq<ModelID>, infos: Infos, newCounts: Counts)
      requires RefCounts(Abs()) && client in clientModels
      requires raw == RawIDs(ms) && infos == FirstInfos(ms) && CountsOf(newCounts, raw)
      requires forall id :: id in unique <==> id in raw
      requires forall i, j :: 0 <= i < j < |unique| ==> unique[i] != unique[j]
      modifies this`models, this`clientModels, this`clientModelInfos, this`clientProviders, this`availableModelsCache
      ensures Abs() == Reregistered(old(Abs()), client, provider, ms)
    {
      ghost var before := Abs();
      RawIDsHaveInfos(ms);
      forall id | id in newCounts ensures newCounts[id] > 0 {
        MultMember(raw, id);
        assert N(newCounts, id) == Mult(raw, id);
      }
      var oldProvider := if client in clientProviders then clientProviders[client] else "";
      var oldCounts := CountList(clientModels[client]);
      RunPasses(client, oldProvider, provider, infos, unique, oldCounts, newCounts);
      ghost var r := Reregistered(before, client, provider, ms);
      forall id ensures SlotOf(models, id) == SlotOf(r.models, id) {
        ReregisteredAt(before, client, provider, ms, id);
        assert N(oldCounts, id) == Mult(ListOf(before, client), id) && N(newCounts, id) == Mult(raw, id);
      }
      SameSlots(models, r.models);
      StoreClient(client, provider, infos, raw);
    }

    method RunPasses(client: ClientID, oldProvider: Provider, provider: Provider, infos: Infos,
                     unique: seq<ModelID>, oldCounts: Counts, newCounts: Counts)
      requires forall id :: id in unique <==> id in newCounts
      requires forall i, j :: 0 <= i < j < |unique| ==> unique[i] != unique[j]
      requires forall id :: id in newCounts ==> newCounts[id] > 0 && id in infos
      requires "" !in newCounts
      modifies this`models
      ensures forall id :: SlotOf(models, id) ==
                Reconciled(SlotOf(old(models), id), client, oldProvider, provider, N(oldCounts, id), N(newCounts, id), InfoFor(infos, id))
    {
      if oldProvider != provider && oldProvider != "" {
        MoveFromOldProvider(oldProvider, provider, oldCounts, newCounts);
      }
      RemoveGone(client, oldProvider, oldCounts, newCounts);
      RemoveSurplus(client, oldProvider, oldCounts, newCounts);
      AddMissing(provider, infos, oldCounts, newCounts);
      RefreshKept(client, oldProvider, provider, infos, unique, oldCounts, newCounts);
    }

    /** Updates the client tables and drops the cached listings. */
    method StoreClient(client: ClientID, provider: Provider, infos: Infos, raw: seq<ModelID>)
      modifies this`clientModels, this`clientModelInfos, this`clientProviders, this`availableModelsCache
      ensures Abs() == WithClient(old(Abs()), client, provider, infos, raw)
    {
      clientModels := clientModels[client := raw];
      clientModelInfos := clientModelInfos[client := infos];
      if provider != "" {
        clientProviders := clientProviders[client := provider];
      } else {
        clientProviders := clientProviders - {client};
      }
      availableModelsCache := map[];
    }

    // ----------------------------------------------------------------- marks

    method SetModelQuotaExceeded(client: ClientID, id: ModelID, now: Time)
      requires Valid()
      modifies this`models, this`availableModelsCache
      ensures Valid()
      ensures Abs() == Apply(old(Abs()), SetQuota(client, id, now))
    {
      StepKeepsCounts(Abs(), SetQuota(client, id, now));
      StepKeepsCache(Abs(), SetQuota(client, id, now), readings);
      if id in models {
        models := models[id := models[id].(quota := models[id].quota[client := now])];
        availableModelsCache := map[];
      }
    }

    method ClearModelQuotaExceeded(client: ClientID, id: ModelID)
      requires Valid()
      modifies this`models, this`availableModelsCache
      ensures Valid()
      ensures Abs() == Apply(old(Abs()), ClearQuota(client, id))
    {
      StepKeepsCounts(Abs(), ClearQuota(client, id));
      if id in models {
        models := models[id := models[id].(quota := models[id].quota - {client})];
        availableModelsCache := map[];
      }
    }

    method SuspendClientModel(client: ClientID, id: ModelID, reason: string)
      requires Valid()
      modifies this`models, this`availableModelsCache
      ensures Valid()
      ensures Abs() == Apply(old(Abs()), Suspend(client, id, reason))
    {
      StepKeepsCounts(Abs(), Suspend(client, id, reason));
      if client == "" || id == "" || id !in models || client in models[id].suspended {
        return;
      }
      models := models[id := models[id].(suspended := models[id].suspended[client := reason])];
      availableModelsCache := map[];
    }

    method ResumeClientModel(client: ClientID, id: ModelID)
      requires Valid()
      modifies this`models, this`availableModelsCache
      ensures Valid()
      ensures Abs() == Apply(old(Abs()), Resume(client, id))
    {
      StepKeepsCounts(Abs(), Resume(client, id));
      if client == "" || id == "" || id !in models || client !in models[id].suspended {
        return;
      }
      models := models[id := models[id].(suspended := models[id].suspended - {client})];
      availableModelsCache := map[];
    }

    method CleanupExpiredQuotas(now: Time)
      requires Valid()
      modifies this`models, this`availableModelsCache
      ensures Valid()
      ensures Abs() == Apply(old(Abs()), Cleanup(now))
      ensures forall t :: now <= t ==> Listing(models, t) == Listing(old(models), t)
    {
      StepKeepsCounts(Abs(), Cleanup(now));
      StepKeepsCache(Abs(), Cleanup(now), readings);
      forall t | now <= t ensures Listing(Cleaned(models, now), t) == Listing(models, t) {
        CleanedListing(models, now, t);
      }
      var invalidated := CleanModels(now);
      if invalidated {
        availableModelsCache := map[];
      }
    }

    /** Cleans every registration, in any order, and tells whether a mark was dropped. */
    method CleanModels(now: Time) returns (invalidated: bool)
      modifies this`models
      ensures models == Cleaned(old(models), now)
      ensures invalidated <==> models != old(models)
    {
      ghost var before := models;
      HalfCleanedEnds(before, now);
      hide Cleaned, HalfCleaned, WithoutExpired;
      invalidated := false;
      var todo := models.Keys;
      while todo != {}
        invariant todo <= before.Keys
        invariant models == HalfCleaned(before, now, todo)
        invariant invalidated <==> models != before
        decreases todo
      {
        var id :| id in todo;
        HalfCleanedNext(before, now, todo, id);
        var reg, changed := CleanRegistration(models[id], now);
        todo := todo - {id};
        models := models[id := reg];
        if changed {
          invalidated := true;
        }
      }
    }

    /** Drops the marks of one registration that have run out. */
    method CleanRegistration(registration: Registration, now: Time) returns (reg: Registration, changed: bool)
      ensures reg == WithoutExpired(registration, now)
      ensures changed <==> reg != registration
    {
      reg, changed := registration, false;
      var marks := registration.quota.Keys;
      while marks != {}
        invariant marks <= registration.quota.Keys
        invariant reg == registration.(quota := reg.quota)
        invariant forall c :: c in registration.quota && (c in marks || c in Cooling(registration, now)) <==> c in reg.quota
        invariant forall c :: c in reg.quota ==> reg.quota[c] == registration.quota[c]
        invariant changed <==> exists c :: c in registration.quota && c !in reg.quota
        decreases |marks|
      {
        var c :| c in marks;
        marks := marks - {c};
        if now - reg.quota[c] >= QUOTA_WINDOW {
          reg := reg.(quota := reg.quota - {c});
          changed := true;
          assert c in registration.quota && c !in reg.quota;
        }
      }
      assert reg.quota == WithoutExpired(registration, now).quota;
      if !changed {
        assert reg.quota == registration.quota;
      }
    }

    // -------------------------------------------------------------- listings

    /** Builds the listing and finds when it may change next. */
    method BuildAvailableModels(now: Time) returns (listing: Infos, expiresAt: Option<Time>)
      ensures listing == Listing(models, now) && Earliest(Recoveries(models, now), expiresAt)
    {
      listing, expiresAt := map[], None;
      var todo := models.Keys;
      ghost var done: set<ModelID> := {};
      while todo != {}
        invariant done == models.Keys - todo && todo <= models.Keys
        invariant forall id :: id in listing <==> id in done && Shown(models[id], now)
        invariant forall id :: id in listing ==> listing[id] == models[id].info
        invariant Earliest(RecoveriesOf(models, done, now), expiresAt)
        decreases |todo|
      {
        hide Shown, Ends, Cooling, RecoveriesOf;
        var id :| id in todo;
        var shown;
        shown, expiresAt := ScanRegistration(now, models[id], expiresAt, RecoveriesOf(models, done, now));
        RecoveriesWith(models, done, id, now);
        todo, done := todo - {id}, done + {id};
        if shown {
          listing := listing[id := models[id].info];
        }
      }
      assert done == models.Keys;
    }

    /** Whether a model is on offer, and the expiry its marks allow. */
    method ScanRegistration(now: Time, registration: Registration, soonest: Option<Time>, ghost seen: set<Time>)
      returns (shown: bool, expiresAt: Option<Time>)
      requires Earliest(seen, soonest)
      ensures shown == Shown(registration, now)
      ensures Earliest(seen + Ends(registration, Cooling(registration, now)), expiresAt)
    {
      hide Cooling, Ends, Earliest;
      var expired, cooldown, other;
      expired, expiresAt := ScanQuota(now, registration, soonest, seen);
      cooldown, other := ScanSuspended(registration);
      var effective := registration.count - expired - other;
      if effective < 0 {
        effective := 0;
      }
      shown := effective > 0 || (registration.count > 0 && (expired > 0 || cooldown > 0) && other == 0);
    }

    /** Counts the running marks of one model and lowers the expiry to their earliest end. */
    method ScanQuota(now: Time, registration: Registration, soonest: Option<Time>, ghost seen: set<Time>)
      returns (expired: nat, expiresAt: Option<Time>)
      requires Earliest(seen, soonest)
      ensures expired == |Cooling(registration, now)|
      ensures Earliest(seen + Ends(registration, Cooling(registration, now)), expiresAt)
    {
      expired, expiresAt := 0, soonest;
      var marks := registration.quota.Keys;
      ghost var counted: set<ClientID> := {};
      assert seen + Ends(registration, counted) == seen;
      while marks != {}
        invariant marks <= registration.quota.Keys
        invariant forall c :: c in counted <==> c in Cooling(registration, now) && c !in marks
        invariant expired == |counted| && counted !! marks
        invariant Earliest(seen + Ends(registration, counted), expiresAt)
        decreases |marks|
      {
        var c :| c in marks;
        var recoveryAt := registration.quota[c] + QUOTA_WINDOW;
        if now < recoveryAt {
          expired := expired + 1;
          EndsWith(registration, counted, c);
          EarliestWith(seen + Ends(registration, counted), expiresAt, recoveryAt);
          assert seen + Ends(registration, counted + {c}) == seen + Ends(registration, counted) + {recoveryAt};
          counted := counted + {c};
          if expiresAt.None? || recoveryAt < expiresAt.value {
            expiresAt := Some(recoveryAt);
          }
        }
        marks := marks - {c};
      }
      assert counted == Cooling(registration, now);
    }

    /** Counts the suspensions of one model by kind. */
    method ScanSuspended(registration: Registration) returns (cooldown: nat, other: nat)
      ensures cooldown == |QuotaSuspended(registration)| && other == |OtherSuspended(registration)|
    {
      cooldown, other := 0, 0;
      var clients := registration.suspended.Keys;
      ghost var quotas: set<ClientID>, others: set<ClientID> := {}, {};
      while clients != {}
        invariant clients <= registration.suspended.Keys
        invariant forall c :: c in quotas <==> c in QuotaSuspended(registration) && c !in clients
        invariant forall c :: c in others <==> c in OtherSuspended(registration) && c !in clients
        invariant cooldown == |quotas| && other == |others|
        decreases |clients|
      {
        var c :| c in clients;
        if IsQuota(registration.suspended[c]) {
          cooldown, quotas := cooldown + 1, quotas + {c};
        } else {
          other, others := other + 1, others + {c};
        }
        clients := clients - {c};
      }
      assert quotas == QuotaSuspended(registration) && others == OtherSuspended(registration);
    }

    /** Answers from the cache when it can, and otherwise builds and caches. */
    method GetAvailableModels(handler: string, now: Time) returns (listing: Infos)
      requires Valid()
      modifies this`availableModelsCache, this`readings
      ensures Valid() && readings == old(readings) + {now}
      ensures exists b :: (b == now || (b in old(readings) && now < b)) && listing == Listing(models, b)
      ensures Abs() == Apply(old(Abs()), List(handler, now))
    {
      StepKeepsCounts(Abs(), List(handler, now));
      StepKeepsCache(Abs(), List(handler, now), readings);
      AnswerIs(Abs(), readings, handler, now);
      readings := readings + {now};
      if handler in availableModelsCache {
        var entry := availableModelsCache[handler];
        if entry.expiresAt.None? || now < entry.expiresAt.value {
          return entry.listing;
        }
      }
      var expiresAt;
      listing, expiresAt := BuildAvailableModels(now);
      EarliestUnique(Recoveries(models, now), expiresAt, Expiry(models, now));
      availableModelsCache := availableModelsCache[handler := CacheEntry(listing, expiresAt)];
    }

    /** Recounts what the clients of one provider list. */
    method ScanProvider(provider: Provider) returns (counts: Counts, infos: Infos)
      requires RefCounts(Abs())
      ensures forall id :: N(counts, id) == ScanCount(Abs(), provider, id)
      ensures Collected(Abs(), provider, counts, infos)
    {
      counts, infos := map[], map[];
      var todo := clientProviders.Keys;
      SeenEnds(Abs(), provider);
      assert Collected(Abs(), provider, counts, infos);
      hide Collected, RefCounts, SeenCount, ScanCount;
      while todo != {}
        invariant todo <= clientProviders.Keys
        invariant forall id :: N(counts, id) == SeenCount(Abs(), provider, todo, id)
        invariant Collected(Abs(), provider, counts, infos)
        decreases |todo|
      {
        var client :| client in todo;
        Tabled(Abs(), client);
        forall id
          ensures SeenCount(Abs(), provider, todo - {client}, id) == SeenCount(Abs(), provider, todo, id)
                  + if clientProviders[client] == provider then Mult(TrimmedIDs(clientModels[client]), id) else 0
        {
          SeenNext(Abs(), provider, todo, client, id);
        }
        if clientProviders[client] == provider {
          counts, infos := ScanClient(provider, client, counts, infos);
        }
        todo := todo - {client};
      }
    }

    method ScanClient(provider: Provider, client: ClientID, before: Counts, known: Infos) returns (counts: Counts, infos: Infos)
      requires client in clientModels && client in clientModelInfos && client in clientProviders && clientProviders[client] == provider
      requires Collected(Abs(), provider, before, known)
      ensures forall id :: N(counts, id) == N(before, id) + Mult(TrimmedIDs(clientModels[client]), id)
      ensures Collected(Abs(), provider, counts, infos)
    {
      counts, infos := before, known;
      var ids := clientModels[client];
      hide Collected, TrimmedIDs, TrimSpace;
      assert TrimmedIDs([]) == [] by { NothingTrimmed(); }
      for i := 0 to |ids|
        invariant forall id :: N(counts, id) == N(before, id) + Mult(TrimmedIDs(ids[..i]), id)
        invariant Collected(Abs(), provider, counts, infos)
      {
        TrimmedSnoc(ids, i);
        var id := TrimSpace(ids[i]);
        if id != "" {
          counts, infos := MeetModel(provider, client, id, counts, infos);
        }
      }
      assert ids[..|ids|] == ids;
    }

    method MeetModel(provider: Provider, client: ClientID, id: ModelID, before: Counts, known: Infos) returns (counts: Counts, infos: Infos)
      requires client in clientModelInfos && client in clientProviders && clientProviders[client] == provider
      requires ListsTrimmed(Abs(), client, id) && Collected(Abs(), provider, before, known)
      ensures counts == before[id := N(before, id) + 1]
      ensures Collected(Abs(), provider, counts, infos)
    {
      counts, infos := before[id := N(before, id) + 1], known;
      if id !in infos {
        if id in clientModelInfos[client] {
          infos := infos[id := clientModelInfos[client][id]];
        } else if id in models {
          infos := infos[id := models[id].info];
        }
      }
    }

    /** Lists the models one provider's clients offer. */
    method GetAvailableModelsByProvider(provider: string, now: Time) returns (result: Infos)
      requires Valid()
      ensures var p := ToLower(TrimSpace(provider));
              if p == "" then result == map[]
              else result.Keys == ByProvider(Abs(), p, now)
      ensures forall id :: id in result ==> Described(Abs(), ToLower(TrimSpace(provider)), id, result[id])
    {
      var p := ToLower(TrimSpace(provider));
      result := map[];
      if p == "" {
        return;
      }
      var counts, infos := ScanProvider(p);
      var todo := counts.Keys;
      while todo != {}
        invariant todo <= counts.Keys
        invariant forall id :: id in result <==>
                    id in counts && id !in todo && id in infos && OfferedBy(models, clientProviders, p, id, counts[id], now)
        invariant forall id :: id in result ==> Described(Abs(), p, id, result[id])
        decreases |todo|
      {
        var id :| id in todo;
        todo := todo - {id};
        var offered := IsOfferedBy(p, id, counts[id], now);
        if offered && id in infos {
          result := result[id := infos[id]];
        }
      }
      ScanFinds(p, counts, infos, now);
    }

    /** What was collected is on offer exactly where it is registered. */
    lemma ScanFinds(p: Provider, counts: Counts, infos: Infos, now: Time)
      requires RefCounts(Abs()) && Collected(Abs(), p, counts, infos)
      requires forall id :: N(counts, id) == ScanCount(Abs(), p, id)
      ensures forall id ::
                (id in counts && id in infos && OfferedBy(models, clientProviders, p, id, counts[id], now))
                <==> id in models && OfferedBy(models, clientProviders, p, id, ScanCount(Abs(), p, id), now)
    {
      forall id | id in infos ensures id in models {
        DescribedIsRegistered(Abs(), p, id, infos[id]);
      }
      hide RefCounts, Described, ScanCount;
    }

    method IsOfferedBy(provider: Provider, id: ModelID, count: nat, now: Time) returns (offered: bool)
      ensures offered == OfferedBy(models, clientProviders, provider, id, count, now)
    {
      var expired: nat, cooldown: nat, other: nat := 0, 0, 0;
      if id in models {
        var registration := models[id];
        var running := set c | c in registration.quota && now - registration.quota[c] < QUOTA_WINDOW;
        assert running == Cooling(registration, now);
        expired := CountClients(provider, running);
        cooldown := CountClients(provider, QuotaSuspended(registration));
        other := CountClients(provider, OtherSuspended(registration));
      }
      var effective: int := count - expired - other;
      if effective < 0 {
        effective := 0;
      }
      offered := effective > 0 || (count > 0 && (expired > 0 || cooldown > 0) && other == 0);
    }

    /** How many of the given clients belong to a provider. */
    method CountClients(provider: Provider, cs: set<ClientID>) returns (n: nat)
      ensures n == |ClientsOf(clientProviders, cs, provider)|
    {
      n := 0;
      var todo := cs;
      ghost var counted: set<ClientID> := {};
      while todo != {}
        invariant todo <= cs && n == |counted|
        invariant forall c :: c in counted <==> c in ClientsOf(clientProviders, cs, provider) && c !in todo
        decreases |todo|
      {
        var c :| c in todo;
        if c != "" && c in clientProviders && clientProviders[c] == provider {
          n, counted := n + 1, counted + {c};
        }
        todo := todo - {c};
      }
      assert counted == ClientsOf(clientProviders, cs, provider);
    }
  }
}
