/** The whole registry as a value: its operations, its reference-count invariant, and the theorem
    that re-registering a client equals taking it out and registering it afresh. */
module RegistrySpec {
  import opened Common
  import opened RegistryState

  type Lists = map<ClientID, seq<ModelID>>
  type Infos = map<ModelID, ModelInfo>

  datatype CacheEntry = CacheEntry(listing: Infos, expiresAt: Option<Time>)

  datatype State = State(
    models: map<ModelID, Registration>,
    clientModels: Lists,
    clientInfos: map<ClientID, Infos>,
    clientProviders: map<ClientID, Provider>,
    cache: map<string, CacheEntry>)

  const EMPTY := State(map[], map[], map[], map[], map[])

  // ------------------------------------------------------------- operations

  /** The usable identifiers of a registration request, repeats included. */
  function RawIDs(ms: seq<Option<ModelInfo>>): seq<ModelID> {
    if ms == [] then []
    else
      var m := ms[|ms| - 1];
      RawIDs(ms[..|ms| - 1]) + if m.Some? && m.value.id != "" then [m.value.id] else []
  }

  /** The first description given for each identifier. */
  function FirstInfos(ms: seq<Option<ModelInfo>>): Infos {
    if ms == [] then map[]
    else
      var m, before := ms[|ms| - 1], FirstInfos(ms[..|ms| - 1]);
      if m.Some? && m.value.id != "" && m.value.id !in before then before[m.value.id := m.value] else before
  }

  function AddAll(models: map<ModelID, Registration>, p: Provider, infos: Infos, ids: seq<ModelID>): map<ModelID, Registration>
    requires forall id :: id in ids ==> id in infos
  {
    if ids == [] then models
    else
      var before, id := AddAll(models, p, infos, ids[..|ids| - 1]), ids[|ids| - 1];
      WithSlot(before, id, AddOne(SlotOf(before, id), p, infos[id]))
  }

  function RemoveAll(models: map<ModelID, Registration>, c: ClientID, p: Provider, ids: seq<ModelID>): map<ModelID, Registration> {
    if ids == [] then models
    else
      var before, id := RemoveAll(models, c, p, ids[..|ids| - 1]), ids[|ids| - 1];
      WithSlot(before, id, RemoveOne(SlotOf(before, id), c, p))
  }

  function ProviderOf(s: State, c: ClientID): Provider {
    if c in s.clientProviders then s.clientProviders[c] else ""
  }

  function ListOf(s: State, c: ClientID): seq<ModelID> {
    if c in s.clientModels then s.clientModels[c] else []
  }

  /** Taking a client out. */
  function Unregistered(s: State, c: ClientID): State {
    if c !in s.clientModels then s.(clientProviders := s.clientProviders - {c}, cache := map[])
    else State(RemoveAll(s.models, c, ProviderOf(s, c), s.clientModels[c]),
               s.clientModels - {c}, s.clientInfos - {c}, s.clientProviders - {c}, map[])
  }

  /** Records what client `c` now lists, under which provider and with which descriptions. */
  function WithClient(s: State, c: ClientID, p: Provider, infos: Infos, ids: seq<ModelID>): State {
    s.(clientModels := s.clientModels[c := ids],
       clientInfos := s.clientInfos[c := infos],
       clientProviders := if p != "" then s.clientProviders[c := p] else s.clientProviders - {c},
       cache := map[])
  }

  /** Registering a client that lists nothing so far. */
  function Added(s: State, c: ClientID, p: Provider, ms: seq<Option<ModelInfo>>): State {
    RawIDsHaveInfos(ms);
    var ids, infos := RawIDs(ms), FirstInfos(ms);
    if ids == [] then s.(cache := map[])
    else WithClient(s.(models := AddAll(s.models, p, infos, ids)), c, p, infos, ids)
  }

  function Rebuild(s: State, c: ClientID, p: Provider, ms: seq<Option<ModelInfo>>): State {
    Added(Unregistered(s, c), c, p, ms)
  }

  /** The description a request gives for `id`; any value where it gives none. */
  function InfoFor(infos: Infos, id: ModelID): ModelInfo {
    if id in infos then infos[id] else ModelInfo(id, "")
  }

  /** What the five passes make of the slot of `id`. */
  function PassesAt(s: State, c: ClientID, p: Provider, ms: seq<Option<ModelInfo>>, id: ModelID): Slot {
    Reconciled(SlotOf(s.models, id), c, ProviderOf(s, c), p,
               Mult(ListOf(s, c), id), Mult(RawIDs(ms), id), InfoFor(FirstInfos(ms), id))
  }

  function Reregistered(s: State, c: ClientID, p: Provider, ms: seq<Option<ModelInfo>>): State {
    var ids, infos := RawIDs(ms), FirstInfos(ms);
    var models := map id | id in s.models.Keys + infos.Keys && PassesAt(s, c, p, ms, id).Some?
                      :: PassesAt(s, c, p, ms, id).value;
    WithClient(s.(models := models), c, p, infos, ids)
  }

  /** The code's own case split. */
  function Registered(s: State, c: ClientID, p: Provider, ms: seq<Option<ModelInfo>>): State {
    if RawIDs(ms) == [] then Unregistered(s, c)
    else if c !in s.clientModels then Added(s, c, p, ms)
    else Reregistered(s, c, p, ms)
  }

  // --------------------------------------------------------- fold lemmas

  lemma RawIDsHaveInfos(ms: seq<Option<ModelInfo>>)
    ensures forall id :: id in RawIDs(ms) <==> id in FirstInfos(ms)
    ensures "" !in RawIDs(ms)
  {
  }

  lemma {:induction false} AddAllAt(models: map<ModelID, Registration>, p: Provider, infos: Infos, ids: seq<ModelID>, id: ModelID)
    requires forall i :: i in ids ==> i in infos
    ensures SlotOf(AddAll(models, p, infos, ids), id) ==
            AddTimes(SlotOf(models, id), p, InfoFor(infos, id), Mult(ids, id))
  {
    if ids != [] {
      var n := |ids| - 1;
      AddAllAt(models, p, infos, ids[..n], id);
      MultSnoc(ids, n, id);
      assert ids[..n + 1] == ids;
    }
  }

  lemma {:induction false} RemoveAllAt(models: map<ModelID, Registration>, c: ClientID, p: Provider, ids: seq<ModelID>, id: ModelID)
    ensures SlotOf(RemoveAll(models, c, p, ids), id) == RemoveTimes(SlotOf(models, id), c, p, Mult(ids, id))
  {
    if ids != [] {
      var n := |ids| - 1;
      RemoveAllAt(models, c, p, ids[..n], id);
      MultSnoc(ids, n, id);
      assert ids[..n + 1] == ids;
    }
  }

  lemma RebuildAt(s: State, c: ClientID, p: Provider, ms: seq<Option<ModelInfo>>, id: ModelID)
    requires c in s.clientModels
    ensures SlotOf(Rebuild(s, c, p, ms).models, id) ==
            Rebuilt(SlotOf(s.models, id), c, ProviderOf(s, c), p, Mult(s.clientModels[c], id),
                    Mult(RawIDs(ms), id), InfoFor(FirstInfos(ms), id))
  {
    RawIDsHaveInfos(ms);
    var u := Unregistered(s, c);
    RemoveAllAt(s.models, c, ProviderOf(s, c), s.clientModels[c], id);
    AddAllAt(u.models, p, FirstInfos(ms), RawIDs(ms), id);
  }

  lemma ReregisteredAt(s: State, c: ClientID, p: Provider, ms: seq<Option<ModelInfo>>, id: ModelID)
    requires c in s.clientModels && RefCounts(s)
    ensures SlotOf(Reregistered(s, c, p, ms).models, id) == PassesAt(s, c, p, ms, id)
  {
    if id !in s.models && id !in FirstInfos(ms) {
      RawIDsHaveInfos(ms);
      MultMember(RawIDs(ms), id);
      ClientHolds(s, c, id);
    }
  }

  // ------------------------------------------------ reference-count invariant

  /** How often all clients together list `id`. */
  ghost function Total(lists: Lists, id: ModelID): nat
    decreases |lists|
  {
    if lists == map[] then 0
    else var c :| c in lists; Mult(lists[c], id) + Total(lists - {c}, id)
  }

  /** The clients of one provider. */
  ghost function Under(lists: Lists, cp: map<ClientID, Provider>, p: Provider): Lists {
    map c | c in lists && c in cp && cp[c] == p :: lists[c]
  }

  /** A slot counts right: present iff listed, `count` is the total, and the provider counters are
      the providers' shares. */
  ghost predicate Counted(slot: Slot, total: nat, share: Provider -> nat) {
    (slot.Some? <==> total > 0) &&
    (slot.Some? ==>
      var r := slot.value;
      && r.count == total
      && r.infoByProvider.Keys == r.providers.Keys
      && (forall p :: p in r.providers <==> p != "" && share(p) > 0)
      && (forall p :: p in r.providers ==> r.providers[p] == share(p)))
  }

  ghost function Shares(s: State, id: ModelID): Provider -> nat {
    p => Total(Under(s.clientModels, s.clientProviders, p), id)
  }

  ghost predicate SlotCounts(s: State, id: ModelID) {
    Counted(SlotOf(s.models, id), Total(s.clientModels, id), Shares(s, id))
  }

  lemma RemovedCounted(slot: Slot, c: ClientID, p: Provider, k: nat, total: nat, share: Provider -> nat, share': Provider -> nat)
    requires Counted(slot, total, share) && Holds(slot, p, k) && total >= k
    requires forall q :: q != "" ==> share'(q) == share(q) - if q == p then k else 0
    ensures Counted(RemoveTimes(slot, c, p, k), total - k, share')
  {
    if k > 0 {
      RemoveTimesIs(slot, c, p, k, k);
    }
  }

  lemma AddedCounted(slot: Slot, p: Provider, info: ModelInfo, n: nat, total: nat, share: Provider -> nat, share': Provider -> nat)
    requires Counted(slot, total, share)
    requires slot.None? ==> forall q :: q != "" ==> share(q) == 0
    requires forall q :: q != "" ==> share'(q) == share(q) + if q == p then n else 0
    ensures Counted(AddTimes(slot, p, info, n), total + n, share')
  {
    if n > 0 {
      AddTimesIs(slot, p, info, n);
    }
  }

  /** Every counter is what the client tables say it is. */
  ghost predicate RefCounts(s: State) {
    TablesFit(s) && forall id :: SlotCounts(s, id)
  }

  /** The client tables speak of the same clients, hold no empty lists or names, and describe exactly
      what a client lists. */
  ghost predicate TablesFit(s: State) {
    && (forall c :: c in s.clientModels ==> s.clientModels[c] != [] && "" !in s.clientModels[c])
    && s.clientInfos.Keys == s.clientModels.Keys
    && s.clientProviders.Keys <= s.clientModels.Keys
    && (forall c :: c in s.clientProviders ==> s.clientProviders[c] != "")
    && (forall c, id :: c in s.clientInfos ==> (id in s.clientInfos[c] <==> id in s.clientModels[c]))
  }

  lemma {:induction false} TotalSplit(lists: Lists, c: ClientID, id: ModelID)
    requires c in lists
    ensures Total(lists, id) == Mult(lists[c], id) + Total(lists - {c}, id)
    decreases |lists|
  {
    var d :| d in lists && Total(lists, id) == Mult(lists[d], id) + Total(lists - {d}, id);
    if d != c {
      TotalSplit(lists - {d}, c, id);
      TotalSplit(lists - {c}, d, id);
      assert lists - {d} - {c} == lists - {c} - {d};
    }
  }

  lemma TotalWith(lists: Lists, c: ClientID, ids: seq<ModelID>, id: ModelID)
    ensures Total(lists[c := ids], id) == Mult(ids, id) + Total(lists - {c}, id)
  {
    TotalSplit(lists[c := ids], c, id);
    assert lists[c := ids] - {c} == lists - {c};
  }

  lemma {:induction false} TotalMono(a: Lists, b: Lists, id: ModelID)
    requires forall c :: c in a ==> c in b && a[c] == b[c]
    ensures Total(a, id) <= Total(b, id)
    decreases |a|
  {
    if a != map[] {
      var c :| c in a;
      TotalSplit(a, c, id);
      TotalSplit(b, c, id);
      TotalMono(a - {c}, b - {c}, id);
    }
  }

  /** A model is listed by someone exactly when its total is positive. */
  lemma {:induction false} TotalPositive(lists: Lists, id: ModelID)
    ensures Total(lists, id) > 0 <==> exists c :: c in lists && id in lists[c]
    decreases |lists|
  {
    if lists != map[] {
      var c :| c in lists;
      TotalSplit(lists, c, id);
      MultMember(lists[c], id);
      TotalPositive(lists - {c}, id);
      if d :| d in lists && id in lists[d] && d != c {
        assert (lists - {c})[d] == lists[d];
      }
    }
  }

  /** A client's listings are part of the total, and under its provider part of that share. */
  lemma ClientShare(s: State, c: ClientID, id: ModelID)
    requires c in s.clientModels
    ensures Total(s.clientModels, id) >= Mult(s.clientModels[c], id)
    ensures ProviderOf(s, c) != "" ==>
              Total(Under(s.clientModels, s.clientProviders, ProviderOf(s, c)), id) >= Mult(s.clientModels[c], id)
  {
    TotalSplit(s.clientModels, c, id);
    if ProviderOf(s, c) != "" {
      TotalSplit(Under(s.clientModels, s.clientProviders, ProviderOf(s, c)), c, id);
    }
  }

  /** When nobody else lists the model, every provider's share is the client's own. */
  lemma SoleShare(s: State, c: ClientID, id: ModelID, q: Provider)
    requires c in s.clientModels && q != ""
    requires Total(s.clientModels, id) == Mult(s.clientModels[c], id)
    ensures Total(Under(s.clientModels, s.clientProviders, q), id) ==
            if q == ProviderOf(s, c) then Mult(s.clientModels[c], id) else 0
  {
    TotalSplit(s.clientModels, c, id);
    var under := Under(s.clientModels, s.clientProviders, q);
    TotalMono(under - {c}, s.clientModels - {c}, id);
    if q == ProviderOf(s, c) {
      TotalSplit(under, c, id);
    } else {
      assert under - {c} == under;
    }
  }

  /** The invariant gives the client's own share of every counter. */
  lemma ClientHolds(s: State, c: ClientID, id: ModelID)
    requires RefCounts(s) && c in s.clientModels
    ensures Holds(SlotOf(s.models, id), ProviderOf(s, c), Mult(s.clientModels[c], id))
  {
    assert SlotCounts(s, id);
    ClientShare(s, c, id);
    var k, p := Mult(s.clientModels[c], id), ProviderOf(s, c);
    if Total(s.clientModels, id) == k {
      forall q | q != "" ensures Shares(s, id)(q) == if q == p then k else 0 {
        SoleShare(s, c, id, q);
      }
    }
    CountedHolds(SlotOf(s.models, id), Total(s.clientModels, id), Shares(s, id), p, k);
  }

  lemma CountedHolds(slot: Slot, total: nat, share: Provider -> nat, p: Provider, k: nat)
    requires Counted(slot, total, share) && total >= k
    requires p != "" ==> share(p) >= k
    requires total == k ==> forall q :: q != "" ==> share(q) == if q == p then k else 0
    ensures Holds(slot, p, k)
  {
    if slot.Some? && total == k {
      assert forall q :: q in slot.value.providers <==> q != "" && q == p;
      assert slot.value.providers == if p == "" then map[] else map[p := k];
    }
  }

  /** Shares of a provider before and after one client's entry is removed or written. */
  lemma UnderWithout(lists: Lists, cp: map<ClientID, Provider>, c: ClientID, q: Provider)
    ensures Under(lists - {c}, cp - {c}, q) == Under(lists, cp, q) - {c}
  {
  }

  lemma ShareWithout(s: State, c: ClientID, q: Provider, id: ModelID)
    requires c in s.clientModels && q != ""
    ensures Total(Under(s.clientModels - {c}, s.clientProviders - {c}, q), id) ==
            Total(Under(s.clientModels, s.clientProviders, q), id) -
            if q == ProviderOf(s, c) then Mult(s.clientModels[c], id) else 0
  {
    UnderWithout(s.clientModels, s.clientProviders, c, q);
    var under := Under(s.clientModels, s.clientProviders, q);
    if q == ProviderOf(s, c) {
      TotalSplit(under, c, id);
    } else {
      assert under - {c} == under;
    }
  }

  lemma UnregisteredTables(s: State, c: ClientID)
    requires TablesFit(s)
    ensures TablesFit(Unregistered(s, c))
  {
    hide RemoveAll;
  }

  /** Taking a client out keeps every counter right. */
  lemma UnregisteredCounts(s: State, c: ClientID)
    requires RefCounts(s)
    ensures RefCounts(Unregistered(s, c))
  {
    UnregisteredTables(s, c);
    hide TablesFit, Counted, RemoveAll;
    var u := Unregistered(s, c);
    if c in s.clientModels {
      forall id ensures SlotCounts(u, id) {
        UnregisteredSlot(s, c, id);
      }
    } else {
      UnknownIs(s, c);
      forall id ensures SlotCounts(u, id) {
        assert SlotCounts(s, id);
        WithoutCache(s, id);
      }
    }
  }

  lemma UnknownIs(s: State, c: ClientID)
    requires TablesFit(s) && c !in s.clientModels
    ensures Unregistered(s, c) == s.(cache := map[])
  {
    assert c !in s.clientProviders;
    assert s.clientProviders - {c} == s.clientProviders;
  }

  lemma WithoutCache(s: State, id: ModelID)
    requires SlotCounts(s, id)
    ensures SlotCounts(s.(cache := map[]), id)
  {
    assert Shares(s.(cache := map[]), id) == Shares(s, id);
  }

  lemma UnregisteredSlot(s: State, c: ClientID, id: ModelID)
    requires RefCounts(s) && c in s.clientModels
    ensures SlotCounts(Unregistered(s, c), id)
  {
    var k, p, u := Mult(s.clientModels[c], id), ProviderOf(s, c), Unregistered(s, c);
    assert SlotCounts(s, id);
    ClientHolds(s, c, id);
    RemoveAllAt(s.models, c, p, s.clientModels[c], id);
    TotalSplit(s.clientModels, c, id);
    forall q | q != ""
      ensures Shares(u, id)(q) == Shares(s, id)(q) - if q == p then k else 0
    {
      ShareWithout(s, c, q, id);
    }
    RemovedCounted(SlotOf(s.models, id), c, p, k, Total(s.clientModels, id), Shares(s, id), Shares(u, id));
  }

  lemma ShareWith(s: State, c: ClientID, p: Provider, ids: seq<ModelID>, q: Provider, id: ModelID)
    requires c !in s.clientModels && q != ""
    ensures Total(Under(s.clientModels[c := ids], if p != "" then s.clientProviders[c := p] else s.clientProviders - {c}, q), id) ==
            Total(Under(s.clientModels, s.clientProviders, q), id) + if q == p then Mult(ids, id) else 0
  {
    var cp := if p != "" then s.clientProviders[c := p] else s.clientProviders - {c};
    var before, after := Under(s.clientModels, s.clientProviders, q), Under(s.clientModels[c := ids], cp, q);
    if q == p {
      assert after == before[c := ids];
      TotalWith(before, c, ids, id);
      assert before - {c} == before;
    } else {
      assert after == before;
    }
  }

  /** Registering a new client keeps every counter right. */
  lemma AddedCounts(s: State, c: ClientID, p: Provider, ms: seq<Option<ModelInfo>>)
    requires RefCounts(s) && c !in s.clientModels
    ensures RefCounts(Added(s, c, p, ms))
  {
    AddedTables(s, c, p, ms);
    hide TablesFit, Counted, AddAll, RawIDs, FirstInfos;
    var a := Added(s, c, p, ms);
    forall id ensures SlotCounts(a, id) {
      assert SlotCounts(s, id);
      if RawIDs(ms) != [] {
        AddedSlot(s, c, p, ms, id);
      }
    }
  }

  lemma AddedTables(s: State, c: ClientID, p: Provider, ms: seq<Option<ModelInfo>>)
    requires TablesFit(s)
    ensures TablesFit(Added(s, c, p, ms))
  {
    RawIDsHaveInfos(ms);
    hide AddAll, RawIDs, FirstInfos;
  }

  lemma UnlistedShare(s: State, id: ModelID, q: Provider)
    requires Total(s.clientModels, id) == 0
    ensures Shares(s, id)(q) == 0
  {
    TotalMono(Under(s.clientModels, s.clientProviders, q), s.clientModels, id);
  }

  lemma AddedSlotIs(s: State, c: ClientID, p: Provider, ms: seq<Option<ModelInfo>>, id: ModelID)
    requires RawIDs(ms) != []
    ensures SlotOf(Added(s, c, p, ms).models, id) ==
            AddTimes(SlotOf(s.models, id), p, InfoFor(FirstInfos(ms), id), Mult(RawIDs(ms), id))
  {
    RawIDsHaveInfos(ms);
    AddAllAt(s.models, p, FirstInfos(ms), RawIDs(ms), id);
    hide AddAll, AddTimes, RawIDs, FirstInfos;
  }

  lemma AddedTotalIs(s: State, c: ClientID, p: Provider, ms: seq<Option<ModelInfo>>, id: ModelID)
    requires c !in s.clientModels && RawIDs(ms) != []
    ensures Total(Added(s, c, p, ms).clientModels, id) == Total(s.clientModels, id) + Mult(RawIDs(ms), id)
  {
    TotalWith(s.clientModels, c, RawIDs(ms), id);
    hide AddAll, RawIDs, FirstInfos, Total;
    assert s.clientModels - {c} == s.clientModels;
  }

  lemma AddedShareIs(s: State, c: ClientID, p: Provider, ms: seq<Option<ModelInfo>>, q: Provider, id: ModelID)
    requires c !in s.clientModels && RawIDs(ms) != [] && q != ""
    ensures Shares(Added(s, c, p, ms), id)(q) == Shares(s, id)(q) + if q == p then Mult(RawIDs(ms), id) else 0
  {
    ShareWith(s, c, p, RawIDs(ms), q, id);
    hide AddAll, RawIDs, FirstInfos, Total, Under;
  }

  lemma AddedSlot(s: State, c: ClientID, p: Provider, ms: seq<Option<ModelInfo>>, id: ModelID)
    requires SlotCounts(s, id) && c !in s.clientModels && RawIDs(ms) != []
    ensures SlotCounts(Added(s, c, p, ms), id)
  {
    var infos, a := FirstInfos(ms), Added(s, c, p, ms);
    var n, total := Mult(RawIDs(ms), id), Total(s.clientModels, id);
    AddedSlotIs(s, c, p, ms, id);
    AddedTotalIs(s, c, p, ms, id);
    hide Added, AddAll, AddTimes, RawIDs, FirstInfos, Total, Under;
    forall q | q != ""
      ensures Shares(a, id)(q) == Shares(s, id)(q) + if q == p then n else 0
    {
      AddedShareIs(s, c, p, ms, q, id);
    }
    if total == 0 {
      forall q ensures Shares(s, id)(q) == 0 { UnlistedShare(s, id, q); }
    }
    AddedCounted(SlotOf(s.models, id), p, InfoFor(infos, id), n, total, Shares(s, id), Shares(a, id));
  }

  // ------------------------------------------- re-registration is rebuilding

  /** Some model carries a stray mark for this re-registration. */
  ghost predicate StrayMarks(s: State, c: ClientID, ms: seq<Option<ModelInfo>>) {
    c in s.clientModels &&
    exists id :: StrayMark(SlotOf(s.models, id), c, Mult(s.clientModels[c], id), Mult(RawIDs(ms), id))
  }

  /** Registering a client gives exactly the state that taking it out and registering it afresh
      gives, unless a stray mark is in the way; then the two always differ. */
  lemma RegisteredIsRebuild(s: State, c: ClientID, p: Provider, ms: seq<Option<ModelInfo>>)
    requires RefCounts(s)
    ensures Registered(s, c, p, ms) == Rebuild(s, c, p, ms) <==> !StrayMarks(s, c, ms)
  {
    RawIDsHaveInfos(ms);
    if RawIDs(ms) == [] {
      assert !StrayMarks(s, c, ms);
    } else if c !in s.clientModels {
      assert s.clientProviders - {c} == s.clientProviders;
    } else {
      var a, b := Reregistered(s, c, p, ms), Rebuild(s, c, p, ms);
      RebuildTables(s, c, p, ms);
      forall id
        ensures SlotOf(a.models, id) == SlotOf(b.models, id)
                <==> !StrayMark(SlotOf(s.models, id), c, Mult(s.clientModels[c], id), Mult(RawIDs(ms), id))
      {
        SlotIsRebuilt(s, c, p, ms, id);
      }
      if !StrayMarks(s, c, ms) {
        SameSlots(a.models, b.models);
      }
    }
  }

  lemma SlotIsRebuilt(s: State, c: ClientID, p: Provider, ms: seq<Option<ModelInfo>>, id: ModelID)
    requires RefCounts(s) && c in s.clientModels
    ensures SlotOf(Reregistered(s, c, p, ms).models, id) == SlotOf(Rebuild(s, c, p, ms).models, id)
            <==> !StrayMark(SlotOf(s.models, id), c, Mult(s.clientModels[c], id), Mult(RawIDs(ms), id))
  {
    ReregisteredAt(s, c, p, ms, id);
    RebuildAt(s, c, p, ms, id);
    ClientHolds(s, c, id);
    ReconciledIsRebuilt(SlotOf(s.models, id), c, ProviderOf(s, c), p, Mult(s.clientModels[c], id),
                        Mult(RawIDs(ms), id), InfoFor(FirstInfos(ms), id));
  }

  /** Writing a client's tables hides whether they were cleared before. */
  lemma WithClientForgets(s: State, u: State, c: ClientID, p: Provider, infos: Infos, ids: seq<ModelID>)
    requires u.clientModels == s.clientModels - {c} && u.clientInfos == s.clientInfos - {c}
    requires u.clientProviders == s.clientProviders - {c}
    ensures WithClient(u, c, p, infos, ids) == WithClient(s.(models := u.models), c, p, infos, ids)
  {
    assert u.clientModels[c := ids] == s.clientModels[c := ids];
    assert u.clientInfos[c := infos] == s.clientInfos[c := infos];
    assert u.clientProviders[c := p] == s.clientProviders[c := p];
    assert u.clientProviders - {c} == s.clientProviders - {c};
  }

  lemma RebuildTables(s: State, c: ClientID, p: Provider, ms: seq<Option<ModelInfo>>)
    requires c in s.clientModels && RawIDs(ms) != []
    ensures Rebuild(s, c, p, ms) == Reregistered(s, c, p, ms).(models := Rebuild(s, c, p, ms).models)
  {
    var ids, infos, u := RawIDs(ms), FirstInfos(ms), Unregistered(s, c);
    WithClientForgets(s, u, c, p, infos, ids);
    RawIDsHaveInfos(ms);
    assert Rebuild(s, c, p, ms) == WithClient(u.(models := AddAll(u.models, p, infos, ids)), c, p, infos, ids);
  }

  /** Registering a client, new or known, keeps every counter right. */
  lemma RegisteredCounts(s: State, c: ClientID, p: Provider, ms: seq<Option<ModelInfo>>)
    requires RefCounts(s)
    ensures RefCounts(Registered(s, c, p, ms))
  {
    UnregisteredCounts(s, c);
    if RawIDs(ms) != [] {
      AddedCounts(Unregistered(s, c), c, p, ms);
      if c in s.clientModels {
        var a, b := Reregistered(s, c, p, ms), Rebuild(s, c, p, ms);
        RebuildTables(s, c, p, ms);
        forall id ensures SlotCounts(a, id) {
          assert SlotCounts(b, id);
          ReregisteredAt(s, c, p, ms, id);
          RebuildAt(s, c, p, ms, id);
          ClientHolds(s, c, id);
          ReconciledCounters(SlotOf(s.models, id), c, ProviderOf(s, c), p, Mult(s.clientModels[c], id),
                             Mult(RawIDs(ms), id), InfoFor(FirstInfos(ms), id));
          assert Shares(a, id) == Shares(b, id);
        }
      } else {
        AddedCounts(s, c, p, ms);
      }
    }
  }
}
