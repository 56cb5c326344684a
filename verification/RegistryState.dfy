/** The model registry as values: registrations, the effect of each operation on one model's
    registration, and the effect of each operation on the whole registry. */
module RegistryState {
  import opened Common

  type ClientID = string
  type ModelID = string
  type Provider = string

  /** Clock readings and spans, in nanoseconds. */
  type Time = int

  const QUOTA_WINDOW: Time := 300_000_000_000

  /** A model description; only its identifier matters to the registry. */
  datatype ModelInfo = ModelInfo(id: ModelID, description: string)

  datatype Registration = Registration(
    info: ModelInfo,
    infoByProvider: map<Provider, ModelInfo>,
    count: int,
    quota: map<ClientID, Time>,
    providers: map<Provider, int>,
    suspended: map<ClientID, string>)

  /** What the registry holds under one model ID. */
  type Slot = Option<Registration>

  function SlotOf(models: map<ModelID, Registration>, id: ModelID): Slot {
    if id in models then Some(models[id]) else None
  }

  function WithSlot(models: map<ModelID, Registration>, id: ModelID, s: Slot): map<ModelID, Registration> {
    if s.Some? then models[id := s.value] else models - {id}
  }

  /** Registrations are determined by their slots. */
  lemma SameSlots(a: map<ModelID, Registration>, b: map<ModelID, Registration>)
    requires forall id :: SlotOf(a, id) == SlotOf(b, id)
    ensures a == b
  {
    forall id ensures id in a <==> id in b {
      assert SlotOf(a, id) == SlotOf(b, id);
    }
    forall id | id in a ensures a[id] == b[id] {
      assert SlotOf(a, id) == SlotOf(b, id);
    }
  }

  // ---------------------------------------------------------------- one slot

  /** Lowers a provider counter by `n`, dropping the provider and its description at zero. */
  function DropProvider(r: Registration, p: Provider, n: int): Registration {
    if p !in r.providers then r
    else if r.providers[p] <= n then r.(providers := r.providers - {p}, infoByProvider := r.infoByProvider - {p})
    else r.(providers := r.providers[p := r.providers[p] - n])
  }

  function ClearMarks(r: Registration, c: ClientID): Registration {
    r.(quota := r.quota - {c}, suspended := r.suspended - {c})
  }

  function AddOne(s: Slot, p: Provider, info: ModelInfo): Slot {
    match s
    case Some(r) =>
      var r1 := r.(count := r.count + 1, info := info);
      Some(if p == "" then r1
           else r1.(providers := r1.providers[p := At(r1.providers, p) + 1],
                    infoByProvider := r1.infoByProvider[p := info]))
    case None =>
      Some(Registration(info, if p == "" then map[] else map[p := info], 1, map[],
                        if p == "" then map[] else map[p := 1], map[]))
  }

  function RemoveOne(s: Slot, c: ClientID, p: Provider): Slot {
    match s
    case None => None
    case Some(r) =>
      var r1 := ClearMarks(r.(count := if r.count - 1 < 0 then 0 else r.count - 1), c);
      var r2 := if p == "" then r1 else DropProvider(r1, p, 1);
      if r2.count <= 0 then None else Some(r2)
  }

  function AddTimes(s: Slot, p: Provider, info: ModelInfo, n: nat): Slot {
    if n == 0 then s else AddOne(AddTimes(s, p, info, n - 1), p, info)
  }

  function RemoveTimes(s: Slot, c: ClientID, p: Provider, n: nat): Slot {
    if n == 0 then s else RemoveOne(RemoveTimes(s, c, p, n - 1), c, p)
  }

  /** Updates what stays attached to the client: the description, the client's marks, and for a
      provider change the new provider's counter. */
  function Refresh(s: Slot, c: ClientID, p: Provider, info: ModelInfo, moved: nat): Slot {
    match s
    case None => None
    case Some(r) =>
      var r1 := r.(info := info,
                   infoByProvider := if p == "" then r.infoByProvider else r.infoByProvider[p := info]);
      var r2 := ClearMarks(r1, c);
      Some(if moved == 0 then r2 else r2.(providers := r2.providers[p := At(r2.providers, p) + moved]))
  }

  /** How many copies of a model move from the old provider to the new one. */
  function Moved(oldP: Provider, newP: Provider, k: nat, n: nat): nat {
    if oldP != newP && newP != "" then Min(k, n) else 0
  }

  /** First pass: overlapping copies leave the old provider's counter. */
  function MovePass(s: Slot, oldP: Provider, newP: Provider, k: nat, n: nat): Slot {
    if oldP != newP && oldP != "" && Min(k, n) > 0 && s.Some?
    then Some(DropProvider(s.value, oldP, Min(k, n))) else s
  }

  /** Second and third pass: models no longer listed, then surplus copies. */
  function GonePass(s: Slot, c: ClientID, oldP: Provider, k: nat, n: nat): Slot {
    if n == 0 then RemoveTimes(s, c, oldP, k) else s
  }

  function SurplusPass(s: Slot, c: ClientID, oldP: Provider, k: nat, n: nat): Slot {
    if 0 < n < k then RemoveTimes(s, c, oldP, k - n) else s
  }

  /** Fourth pass: missing copies. */
  function MissingPass(s: Slot, newP: Provider, k: nat, n: nat, info: ModelInfo): Slot {
    if k < n then AddTimes(s, newP, info, n - k) else s
  }

  /** Fifth pass: what stays attached to the client is refreshed. */
  function RefreshPass(s: Slot, c: ClientID, oldP: Provider, newP: Provider, k: nat, n: nat, info: ModelInfo): Slot {
    if n > 0 then Refresh(s, c, newP, info, Moved(oldP, newP, k, n)) else s
  }

  /** The five passes of a re-registration, seen from one model that the client listed `k` times
      before and lists `n` times now. */
  function Reconciled(s: Slot, c: ClientID, oldP: Provider, newP: Provider, k: nat, n: nat, info: ModelInfo): Slot {
    var s1 := MovePass(s, oldP, newP, k, n);
    var s2 := GonePass(s1, c, oldP, k, n);
    var s3 := SurplusPass(s2, c, oldP, k, n);
    var s4 := MissingPass(s3, newP, k, n, info);
    RefreshPass(s4, c, oldP, newP, k, n, info)
  }

  /** Taking the client out completely and registering it afresh. */
  function Rebuilt(s: Slot, c: ClientID, oldP: Provider, newP: Provider, k: nat, n: nat, info: ModelInfo): Slot {
    AddTimes(RemoveTimes(s, c, oldP, k), newP, info, n)
  }

  /** The slot's counters have room for the client: it is listed `k` times, all under `p`. */
  ghost predicate Holds(s: Slot, p: Provider, k: nat) {
    (k > 0 ==> s.Some?) &&
    (s.Some? ==>
      && s.value.count > 0 && s.value.count >= k
      && s.value.infoByProvider.Keys == s.value.providers.Keys
      && (forall q :: q in s.value.providers ==> q != "" && s.value.providers[q] > 0)
      && (k > 0 && p != "" ==> At(s.value.providers, p) >= k)
      && (s.value.count == k ==> s.value.providers == if p == "" then map[] else map[p := k]))
  }

  /** Some client other than `c` has a quota or suspension mark here. */
  ghost predicate ForeignMark(r: Registration, c: ClientID) {
    exists d :: d != c && (d in r.quota || d in r.suspended)
  }

  function Lowered(m: map<Provider, int>, p: Provider, n: int): map<Provider, int> {
    if p == "" || n == 0 then m else if At(m, p) == n then m - {p} else m[p := At(m, p) - n]
  }

  /** What repeated removal leaves of a registration. */
  function Reduced(r: Registration, c: ClientID, p: Provider, n: nat): Registration {
    ClearMarks(r, c).(
      count := r.count - n,
      providers := Lowered(r.providers, p, n),
      infoByProvider := if p == "" || At(r.providers, p) != n then r.infoByProvider else r.infoByProvider - {p})
  }

  /** Closed form of repeated removal. */
  lemma {:induction false} RemoveTimesIs(s: Slot, c: ClientID, p: Provider, k: nat, n: nat)
    requires s.Some? && Holds(s, p, k) && 0 < n <= k
    ensures RemoveTimes(s, c, p, n) == if s.value.count == n then None else Some(Reduced(s.value, c, p, n))
  {
    var r := s.value;
    if n == 1 {
      assert RemoveTimes(s, c, p, 0) == s;
    } else {
      RemoveTimesIs(s, c, p, k, n - 1);
      ReducedOnce(s, c, p, k, n);
      hide Reduced, RemoveOne;
    }
  }

  /** One more removal. */
  lemma ReducedOnce(s: Slot, c: ClientID, p: Provider, k: nat, n: nat)
    requires s.Some? && Holds(s, p, k) && 1 < n <= k
    ensures RemoveOne(Some(Reduced(s.value, c, p, n - 1)), c, p) == if s.value.count == n then None else Some(Reduced(s.value, c, p, n))
    ensures s.value.count >= n
  {
    var r, q := s.value, Reduced(s.value, c, p, n - 1);
    assert ClearMarks(q, c).quota == r.quota - {c};
    assert ClearMarks(q, c).suspended == r.suspended - {c};
    assert p != "" ==> At(q.providers, p) == At(r.providers, p) - (n - 1);
    assert Lowered(q.providers, p, 1) == Lowered(r.providers, p, n);
  }

  /** What repeated addition makes of a registration. */
  function Increased(r: Registration, p: Provider, info: ModelInfo, n: nat): Registration {
    r.(info := info, count := r.count + n,
       providers := if p == "" then r.providers else r.providers[p := At(r.providers, p) + n],
       infoByProvider := if p == "" then r.infoByProvider else r.infoByProvider[p := info])
  }

  /** Closed form of repeated addition. */
  lemma {:induction false} AddTimesIs(s: Slot, p: Provider, info: ModelInfo, n: nat)
    requires n > 0
    ensures AddTimes(s, p, info, n) ==
            Some(Increased(if s.Some? then s.value else Registration(info, map[], 0, map[], map[], map[]), p, info, n))
  {
    if n == 1 {
      assert AddTimes(s, p, info, 0) == s;
    } else {
      AddTimesIs(s, p, info, n - 1);
      var r := if s.Some? then s.value else Registration(info, map[], 0, map[], map[], map[]);
      var q := Increased(r, p, info, n - 1);
      assert AddOne(Some(q), p, info) == Some(Increased(r, p, info, n)) by {
        if p != "" {
          assert q.providers[p := At(q.providers, p) + 1] == r.providers[p := At(r.providers, p) + n];
          assert q.infoByProvider[p := info] == r.infoByProvider[p := info];
        }
      }
    }
  }

  ghost predicate Marked(r: Registration, c: ClientID) {
    c in r.quota || c in r.suspended
  }

  /** The two ways the five passes can differ from starting afresh. The client was the only lister
      and stays one while somebody else's mark sits on the model: rebuilding drops that mark. Or the
      client newly lists a model on which it already has a mark: the passes drop that mark. */
  ghost predicate StrayMark(s: Slot, c: ClientID, k: nat, n: nat) {
    n > 0 && s.Some? &&
    if k > 0 then s.value.count == k && ForeignMark(s.value, c) else Marked(s.value, c)
  }

  /** The overlap after the old provider's counter was lowered: `m` copies moved. */
  function AfterMove(r: Registration, oldP: Provider, newP: Provider, m: nat): Registration {
    if oldP != newP && oldP != "" then DropProvider(r, oldP, m) else r
  }

  lemma FewerCounters(r: Registration, c: ClientID, oldP: Provider, newP: Provider, k: nat, n: nat)
    requires Holds(Some(r), oldP, k) && 0 < n < k
    ensures Lowered(AfterMove(r, oldP, newP, n).providers, oldP, k - n) ==
            if oldP == newP then Lowered(r.providers, oldP, k - n) else Lowered(r.providers, oldP, k)
    ensures AfterMove(r, oldP, newP, n).infoByProvider == r.infoByProvider
    ensures oldP == newP != "" ==>
              Lowered(r.providers, oldP, k - n) == Lowered(r.providers, oldP, k)[oldP := At(Lowered(r.providers, oldP, k), oldP) + n]
  {
  }

  lemma OverlapFewer(s: Slot, c: ClientID, oldP: Provider, newP: Provider, k: nat, n: nat, info: ModelInfo)
    requires Holds(s, oldP, k) && 0 < n < k
    ensures Reconciled(s, c, oldP, newP, k, n, info) ==
            Refresh(Some(Reduced(AfterMove(s.value, oldP, newP, n), c, oldP, k - n)), c, newP, info, Moved(oldP, newP, k, n))
  {
    var r1 := AfterMove(s.value, oldP, newP, n);
    assert Holds(Some(r1), oldP, k - n);
    RemoveTimesIs(Some(r1), c, oldP, k - n, k - n);
  }

  function MoreThan(r: Registration, p: Provider, info: ModelInfo, n: nat): Registration {
    if n == 0 then r else Increased(r, p, info, n)
  }

  lemma OverlapMore(s: Slot, c: ClientID, oldP: Provider, newP: Provider, k: nat, n: nat, info: ModelInfo)
    requires Holds(s, oldP, k) && 0 < k <= n
    ensures Reconciled(s, c, oldP, newP, k, n, info) ==
            Refresh(Some(MoreThan(AfterMove(s.value, oldP, newP, k), newP, info, n - k)), c, newP, info, Moved(oldP, newP, k, n))
  {
    if k < n {
      AddTimesIs(Some(AfterMove(s.value, oldP, newP, k)), newP, info, n - k);
    }
  }

  lemma FewerIsGoal(r: Registration, c: ClientID, oldP: Provider, newP: Provider, k: nat, n: nat, info: ModelInfo)
    requires Holds(Some(r), oldP, k) && 0 < n < k
    ensures Refresh(Some(Reduced(AfterMove(r, oldP, newP, n), c, oldP, k - n)), c, newP, info, Moved(oldP, newP, k, n))
            == Some(Increased(Reduced(r, c, oldP, k), newP, info, n))
  {
    FewerCounters(r, c, oldP, newP, k, n);
    var r3 := Reduced(AfterMove(r, oldP, newP, n), c, oldP, k - n);
    assert r3.quota - {c} == r.quota - {c} && r3.suspended - {c} == r.suspended - {c};
    assert newP != "" ==> r3.infoByProvider[newP := info] == Reduced(r, c, oldP, k).infoByProvider[newP := info];
  }

  lemma MoreSameProvider(r: Registration, c: ClientID, p: Provider, k: nat, n: nat, info: ModelInfo)
    requires Holds(Some(r), p, k) && 0 < k <= n
    ensures Refresh(Some(MoreThan(r, p, info, n - k)), c, p, info, 0) == Some(Increased(Reduced(r, c, p, k), p, info, n))
  {
    if p != "" {
      var low, v := Lowered(r.providers, p, k), At(r.providers, p) + n - k;
      assert low[p := v] == r.providers[p := v];
      assert r.providers[p := At(r.providers, p)] == r.providers;
      assert Reduced(r, c, p, k).infoByProvider[p := info] == r.infoByProvider[p := info];
      assert r.infoByProvider[p := info][p := info] == r.infoByProvider[p := info];
    }
  }

  lemma MoreOtherProvider(r: Registration, c: ClientID, oldP: Provider, newP: Provider, k: nat, n: nat, info: ModelInfo)
    requires Holds(Some(r), oldP, k) && 0 < k <= n && oldP != newP
    ensures Refresh(Some(MoreThan(if oldP == "" then r else DropProvider(r, oldP, k), newP, info, n - k)),
                    c, newP, info, if newP == "" then 0 else k)
            == Some(Increased(Reduced(r, c, oldP, k), newP, info, n))
  {
    var r1 := if oldP == "" then r else DropProvider(r, oldP, k);
    var low := Reduced(r, c, oldP, k);
    assert r1 == r.(providers := low.providers, infoByProvider := low.infoByProvider);
    MoreMoved(r1, c, newP, k, n, info);
  }

  lemma MoreMoved(r: Registration, c: ClientID, p: Provider, k: nat, n: nat, info: ModelInfo)
    requires 0 < k <= n
    ensures Refresh(Some(MoreThan(r, p, info, n - k)), c, p, info, if p == "" then 0 else k)
            == Some(Increased(ClearMarks(r.(count := r.count - k), c), p, info, n))
  {
    if p != "" && k < n {
      var v := At(r.providers, p);
      assert r.providers[p := v + (n - k)][p := v + n] == r.providers[p := v + n];
      assert r.infoByProvider[p := info][p := info] == r.infoByProvider[p := info];
    }
  }

  /** A model the client lists before and after keeps its registration: the old listings are
      subtracted and the new ones added, whatever order the passes take. */
  lemma ReconciledOverlap(s: Slot, c: ClientID, oldP: Provider, newP: Provider, k: nat, n: nat, info: ModelInfo)
    requires Holds(s, oldP, k) && k > 0 && n > 0
    ensures Reconciled(s, c, oldP, newP, k, n, info) == Some(Increased(Reduced(s.value, c, oldP, k), newP, info, n))
  {
    if n < k {
      OverlapFewer(s, c, oldP, newP, k, n, info);
      FewerIsGoal(s.value, c, oldP, newP, k, n, info);
    } else {
      OverlapMore(s, c, oldP, newP, k, n, info);
      if oldP == newP {
        MoreSameProvider(s.value, c, newP, k, n, info);
      } else {
        MoreOtherProvider(s.value, c, oldP, newP, k, n, info);
      }
    }
  }

  /** A newly listed model is added and the client's marks on it are cleared. */
  lemma ReconciledFresh(s: Slot, c: ClientID, oldP: Provider, newP: Provider, n: nat, info: ModelInfo)
    requires n > 0
    ensures AddTimes(s, newP, info, n).Some?
    ensures Reconciled(s, c, oldP, newP, 0, n, info) == Some(ClearMarks(AddTimes(s, newP, info, n).value, c))
  {
    AddTimesIs(s, newP, info, n);
    var r := AddTimes(s, newP, info, n).value;
    assert newP != "" ==> r.infoByProvider[newP := info] == r.infoByProvider;
  }

  /** On one model, re-registration equals rebuilding exactly when there is no stray mark. */
  lemma ReconciledIsRebuilt(s: Slot, c: ClientID, oldP: Provider, newP: Provider, k: nat, n: nat, info: ModelInfo)
    requires Holds(s, oldP, k)
    ensures Reconciled(s, c, oldP, newP, k, n, info) == Rebuilt(s, c, oldP, newP, k, n, info)
            <==> !StrayMark(s, c, k, n)
  {
    assert RemoveTimes(s, c, oldP, 0) == s;
    if n > 0 {
      AddTimesIs(RemoveTimes(s, c, oldP, k), newP, info, n);
    }
    if k > 0 && n > 0 {
      ReconciledOverlap(s, c, oldP, newP, k, n, info);
      RemoveTimesIs(s, c, oldP, k, k);
      ForeignMarkIs(s.value, c);
      if s.value.count == k {
        assert Reduced(s.value, c, oldP, k).providers == map[];
      }
    } else if n > 0 && s.Some? {
      ReconciledFresh(s, c, oldP, newP, n, info);
      var r := s.value;
      assert c in r.quota ==> c !in r.quota - {c};
      assert c in r.suspended ==> c !in r.suspended - {c};
      assert c !in r.quota ==> r.quota - {c} == r.quota;
      assert c !in r.suspended ==> r.suspended - {c} == r.suspended;
    } else if n > 0 {
      ReconciledFresh(s, c, oldP, newP, n, info);
    }
  }

  lemma ForeignMarkIs(r: Registration, c: ClientID)
    ensures ForeignMark(r, c) <==> r.quota - {c} != map[] || r.suspended - {c} != map[]
  {
    var q, u := r.quota - {c}, r.suspended - {c};
    if q != map[] { var d :| d in q.Keys; }
    if u != map[] { var d :| d in u.Keys; }
    if ForeignMark(r, c) {
      var d :| d != c && (d in r.quota || d in r.suspended);
      assert d in q || d in u;
    }
  }

  /** Stray marks or not, the five passes count like a rebuild. */
  lemma ReconciledCounters(s: Slot, c: ClientID, oldP: Provider, newP: Provider, k: nat, n: nat, info: ModelInfo)
    requires Holds(s, oldP, k)
    ensures var a, b := Reconciled(s, c, oldP, newP, k, n, info), Rebuilt(s, c, oldP, newP, k, n, info);
            && (a.Some? <==> b.Some?)
            && (a.Some? ==> a.value.count == b.value.count && a.value.providers == b.value.providers
                            && a.value.infoByProvider == b.value.infoByProvider && a.value.info == b.value.info)
  {
    ReconciledIsRebuilt(s, c, oldP, newP, k, n, info);
    if StrayMark(s, c, k, n) {
      if k > 0 { StrayCounters(s, c, oldP, newP, k, n, info); } else { ReconciledFresh(s, c, oldP, newP, n, info); }
      hide Reconciled, Rebuilt, Holds, StrayMark;
    }
  }

  /** ... where the client was the only one to list the model. */
  lemma StrayCounters(s: Slot, c: ClientID, oldP: Provider, newP: Provider, k: nat, n: nat, info: ModelInfo)
    requires Holds(s, oldP, k) && StrayMark(s, c, k, n) && k > 0
    ensures var a, b := Reconciled(s, c, oldP, newP, k, n, info), Rebuilt(s, c, oldP, newP, k, n, info);
            && (a.Some? <==> b.Some?)
            && (a.Some? ==> a.value.count == b.value.count && a.value.providers == b.value.providers
                            && a.value.infoByProvider == b.value.infoByProvider && a.value.info == b.value.info)
  {
    AddTimesIs(RemoveTimes(s, c, oldP, k), newP, info, n);
    ReconciledOverlap(s, c, oldP, newP, k, n, info);
    RemoveTimesIs(s, c, oldP, k, k);
    hide RemoveTimes, AddTimes, Reconciled;
    var left := Reduced(s.value, c, oldP, k);
    assert left.providers == map[] && left.infoByProvider == map[];
  }
}
