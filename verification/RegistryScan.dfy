/** The per-provider listing, which recounts the client tables instead of reading the counters. */
module RegistryScan {
  import opened Common
  import opened Strings
  import opened RegistryState
  import opened RegistrySpec
  import opened RegistryRuns

  /** The identifiers of a list as the scan reads them: trimmed, blanks skipped. */
  function TrimmedIDs(ids: seq<ModelID>): seq<ModelID> {
    if ids == [] then []
    else
      var id := TrimSpace(ids[|ids| - 1]);
      TrimmedIDs(ids[..|ids| - 1]) + if id == "" then [] else [id]
  }

  ghost function TrimmedLists(lists: Lists): Lists {
    map c | c in lists :: TrimmedIDs(lists[c])
  }

  /** How often the scan for provider `p` meets `id`. */
  ghost function ScanCount(s: State, p: Provider, id: ModelID): nat {
    Total(TrimmedLists(Under(s.clientModels, s.clientProviders, p)), id)
  }

  /** Those of the clients `cs` that belong to `p`. */
  function ClientsOf(cp: map<ClientID, Provider>, cs: set<ClientID>, p: Provider): set<ClientID> {
    set c | c in cs && c != "" && c in cp && cp[c] == p
  }

  /** Whether the scan offers `id`, met `count` times, for provider `p`. */
  predicate OfferedBy(models: map<ModelID, Registration>, cp: map<ClientID, Provider>, p: Provider, id: ModelID, count: int, now: Time) {
    if id !in models then Offered(count, 0, 0, 0)
    else Offered(count, |ClientsOf(cp, Cooling(models[id], now), p)|,
                 |ClientsOf(cp, QuotaSuspended(models[id]), p)|, |ClientsOf(cp, OtherSuspended(models[id]), p)|)
  }

  predicate Trimmed(id: ModelID) {
    TrimSpace(id) == id
  }

  /** Every listed identifier is free of surrounding space. */
  ghost predicate AllTrimmed(s: State) {
    forall c :: c in s.clientModels ==> forall id :: id in s.clientModels[c] ==> Trimmed(id)
  }

  lemma {:induction false} TrimmedIDsSame(ids: seq<ModelID>)
    requires forall id :: id in ids ==> Trimmed(id)
    requires "" !in ids
    ensures TrimmedIDs(ids) == ids
  {
    if ids != [] {
      TrimmedIDsSame(ids[..|ids| - 1]);
      assert Trimmed(ids[|ids| - 1]);
    }
  }

  /** Main result on the scan: where identifiers are trimmed, recounting the tables gives exactly
      the counters the registrations keep. */
  lemma ScanIsCounter(s: State, p: Provider, id: ModelID)
    requires RefCounts(s) && AllTrimmed(s) && p != ""
    ensures ScanCount(s, p, id) == if id in s.models then At(s.models[id].providers, p) else 0
  {
    TrimmedListsSame(s, p);
    assert SlotCounts(s, id);
    assert Shares(s, id)(p) == Total(Under(s.clientModels, s.clientProviders, p), id);
    if id !in s.models {
      UnlistedShare(s, id, p);
    }
  }

  lemma TrimmedListsSame(s: State, p: Provider)
    requires RefCounts(s) && AllTrimmed(s)
    ensures TrimmedLists(Under(s.clientModels, s.clientProviders, p)) == Under(s.clientModels, s.clientProviders, p)
  {
    var under := Under(s.clientModels, s.clientProviders, p);
    var trimmed := TrimmedLists(under);
    forall c | c in under ensures trimmed[c] == under[c] {
      TrimmedIDsSame(s.clientModels[c]);
    }
    assert trimmed.Keys == under.Keys;
  }

  /** The same for all models at once. */
  lemma ScanIsCounters(s: State, p: Provider)
    requires RefCounts(s) && p != ""
    ensures AllTrimmed(s) ==> forall id ::
              && ScanCount(s, p, id) == (if id in s.models then At(s.models[id].providers, p) else 0)
              && (id in s.models && p in s.models[id].providers ==> s.models[id].providers[p] > 0)
  {
    if AllTrimmed(s) {
      forall id
        ensures ScanCount(s, p, id) == if id in s.models then At(s.models[id].providers, p) else 0
        ensures id in s.models && p in s.models[id].providers ==> s.models[id].providers[p] > 0
      {
        ScanIsCounter(s, p, id);
        assert SlotCounts(s, id);
      }
    }
  }

  /** The client lists `id`, give or take surrounding space. */
  predicate ListsTrimmed(s: State, c: ClientID, id: ModelID) {
    c in s.clientModels && exists i :: 0 <= i < |s.clientModels[c]| && TrimSpace(s.clientModels[c][i]) == id
  }

  /** A description the scan may give for `id`: some client of the provider lists it, and it is that
      client's own, or the registration's where that client has none. */
  ghost predicate Described(s: State, p: Provider, id: ModelID, info: ModelInfo) {
    exists c :: c in s.clientProviders && s.clientProviders[c] == p && DescribedBy(s, c, id, info)
  }

  predicate DescribedBy(s: State, c: ClientID, id: ModelID, info: ModelInfo) {
    && ListsTrimmed(s, c, id) && c in s.clientInfos
    && if id in s.clientInfos[c] then info == s.clientInfos[c][id] else id in s.models && info == s.models[id].info
  }

  /** What the scan has collected: positive counts, and a description for every counted model that
      is still registered. */
  ghost predicate Collected(s: State, p: Provider, counts: map<ModelID, nat>, infos: Infos) {
    && (forall id :: id in counts ==> counts[id] > 0)
    && (forall id :: id in infos ==> id in counts && Described(s, p, id, infos[id]))
    && (forall id :: id in counts && id !in infos ==> id !in s.models)
  }

  /** Only registered models are described. */
  lemma DescribedIsRegistered(s: State, p: Provider, id: ModelID, info: ModelInfo)
    requires RefCounts(s) && Described(s, p, id, info)
    ensures id in s.models
  {
    var c :| c in s.clientProviders && DescribedBy(s, c, id, info);
    if id in s.clientInfos[c] {
      assert id in s.clientModels[c];
      TotalPositive(s.clientModels, id);
      assert SlotCounts(s, id);
      assert Total(s.clientModels, id) > 0;
    } else {
      assert DescribedBy(s, c, id, info);
      assert ListsTrimmed(s, c, id);
      assert info == s.models[id].info;
    }
  }

  /** Where identifiers are trimmed, the description is the own one of a client of the provider. */
  lemma OwnDescription(s: State, p: Provider, id: ModelID, info: ModelInfo)
    requires RefCounts(s) && AllTrimmed(s) && Described(s, p, id, info)
    ensures exists c :: && c in s.clientProviders && s.clientProviders[c] == p && c in s.clientModels && id in s.clientModels[c]
                        && c in s.clientInfos && id in s.clientInfos[c] && info == s.clientInfos[c][id]
  {
    var c :| c in s.clientProviders && s.clientProviders[c] == p && DescribedBy(s, c, id, info);
    var i :| 0 <= i < |s.clientModels[c]| && TrimSpace(s.clientModels[c][i]) == id;
    assert Trimmed(s.clientModels[c][i]);
    assert id in s.clientModels[c];
  }

  lemma NothingTrimmed()
    ensures TrimmedIDs([]) == []
  {
  }

  lemma TrimmedSnoc(ids: seq<ModelID>, i: nat)
    requires i < |ids|
    ensures TrimmedIDs(ids[..i + 1]) == TrimmedIDs(ids[..i]) + if TrimSpace(ids[i]) == "" then [] else [TrimSpace(ids[i])]
  {
    assert ids[..i + 1][..i] == ids[..i];
  }

  /** Scanning one more client adds its trimmed identifiers. */
  lemma TotalAfter(lists: Lists, c: ClientID, ids: seq<ModelID>, id: ModelID)
    requires c !in lists
    ensures Total(lists[c := ids], id) == Total(lists, id) + Mult(ids, id)
  {
    TotalWith(lists, c, ids, id);
    assert lists - {c} == lists;
  }
}
