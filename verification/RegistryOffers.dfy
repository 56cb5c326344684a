/** Which models are on offer, said in terms of listings, quota marks and suspensions. */
module RegistryOffers {
  import opened Common
  import opened Strings
  import opened RegistryState
  import opened RegistrySpec
  import opened RegistryRuns
  import opened RegistryScan

  /** A registered model is listed, with its description, exactly when somebody lists it and either no
      client is suspended for anything but quota, however many are cooling or suspended for quota, or
      there are more listings than clients cooling or otherwise suspended. */
  lemma ListedIff(models: map<ModelID, Registration>, now: Time, id: ModelID)
    requires id in models
    ensures var r := models[id];
            var cooling := set c | c in r.quota && now < r.quota[c] + 300_000_000_000;
            var blocked := set c | c in r.suspended && ToLower(r.suspended[c]) != "quota";
            && (id in Listing(models, now) <==> r.count > 0 && (blocked == {} || |cooling| + |blocked| < r.count))
            && (id in Listing(models, now) ==> Listing(models, now)[id] == r.info)
  {
    var r := models[id];
    assert ToLower("quota") == "quota";
    assert Cooling(r, now) == set c | c in r.quota && now < r.quota[c] + 300_000_000_000;
    assert OtherSuspended(r) == set c | c in r.suspended && ToLower(r.suspended[c]) != "quota";
    hide ToLower;
  }

  /** Main result on offers: after any run, a request that does not read the clock before an earlier one did
      is answered with exactly these models: those that some client lists and of which nobody is suspended
      for anything but quota, or with more listings than clients cooling or otherwise suspended. */
  lemma OnOfferAfterAnyRun(ops: seq<Op>, handler: string, now: Time, id: ModelID)
    requires forall b :: b in Readings(ops) ==> b <= now
    ensures var s := Run(EMPTY, ops);
            var answer := Answer(s, handler, now);
            if forall c :: c in s.clientModels ==> id !in s.clientModels[c] then id !in answer
            else
              && id in s.models
              && var r, n := s.models[id], Total(s.clientModels, id);
                 var cooling := set c | c in r.quota && now < r.quota[c] + 300_000_000_000;
                 var blocked := set c | c in r.suspended && ToLower(r.suspended[c]) != "quota";
                 && (id in answer <==> blocked == {} || |cooling| + |blocked| < n)
                 && (id in answer ==> answer[id] == r.info)
  {
    CountsAfterAnyRun(ops, id);
    ListingsAreNeverStale(ops, handler, now);
    var s := Run(EMPTY, ops);
    TotalPositive(s.clientModels, id);
    if id in s.models { ListedIff(s.models, now, id); }
    hide Run, Answer, Shown, ToLower, Total;
  }

  // ------------------------------------------------------------ by provider

  /** The models that the listing of one provider shows. */
  ghost function ByProvider(s: State, p: Provider, now: Time): set<ModelID> {
    set id | id in s.models && OfferedBy(s.models, s.clientProviders, p, id, ScanCount(s, p, id), now)
  }

  /** The same for the listing of one provider: its clients' listings are counted, and only marks on its
      clients. */
  lemma ProvidedIff(s: State, p: Provider, now: Time, id: ModelID)
    ensures if id !in s.models then id !in ByProvider(s, p, now)
            else
              var r, n := s.models[id], ScanCount(s, p, id);
              var own := set c | c in s.clientProviders && s.clientProviders[c] == p && c != "";
              var cooling := set c | c in r.quota && now < r.quota[c] + 300_000_000_000 && c in own;
              var blocked := set c | c in r.suspended && ToLower(r.suspended[c]) != "quota" && c in own;
              id in ByProvider(s, p, now) <==> n > 0 && (blocked == {} || |cooling| + |blocked| < n)
  {
    if id in s.models {
      var r := s.models[id];
      var own := set c | c in s.clientProviders && s.clientProviders[c] == p && c != "";
      assert ToLower("quota") == "quota";
      hide ToLower, ScanCount;
      assert ClientsOf(s.clientProviders, Cooling(r, now), p)
             == set c | c in r.quota && now < r.quota[c] + 300_000_000_000 && c in own;
      assert ClientsOf(s.clientProviders, OtherSuspended(r), p)
             == set c | c in r.suspended && ToLower(r.suspended[c]) != "quota" && c in own;
    }
  }

  /** After any run in which identifiers are trimmed, the listing of a provider shows what its own clients
      list, by the same rule. */
  lemma ProvidedAfterAnyRun(ops: seq<Op>, p: Provider, now: Time, id: ModelID)
    requires p != "" && AllTrimmed(Run(EMPTY, ops))
    ensures var s := Run(EMPTY, ops);
            var n := Total(Under(s.clientModels, s.clientProviders, p), id);
            if n == 0 then id !in ByProvider(s, p, now)
            else
              && id in s.models
              && var r := s.models[id];
                 var own := set c | c in s.clientProviders && s.clientProviders[c] == p && c != "";
                 var cooling := set c | c in r.quota && now < r.quota[c] + 300_000_000_000 && c in own;
                 var blocked := set c | c in r.suspended && ToLower(r.suspended[c]) != "quota" && c in own;
                 id in ByProvider(s, p, now) <==> blocked == {} || |cooling| + |blocked| < n
  {
    var s := Run(EMPTY, ops);
    EmptyCounts();
    RunKeepsCounts(EMPTY, ops);
    TrimmedListsSame(s, p);
    assert SlotCounts(s, id);
    assert Shares(s, id)(p) == Total(Under(s.clientModels, s.clientProviders, p), id);
    if id !in s.models { UnlistedShare(s, id, p); }
    ProvidedIff(s, p, now, id);
    hide Run, ToLower, ByProvider, SlotCounts, RefCounts, AllTrimmed;
  }

  // -------------------------------------------------------------- two examples

  lemma SoleClient(s: State, now: Time, id: ModelID)
    requires id in s.models && s.models[id].count == 1 && s.cache == map[]
    ensures var blocked := exists c :: c in s.models[id].suspended && ToLower(s.models[id].suspended[c]) != "quota";
            id in Answer(s, "h", now) <==> !blocked
  {
    ListedIff(s.models, now, id);
    var r := s.models[id];
    var blocked := set c | c in r.suspended && ToLower(r.suspended[c]) != "quota";
    hide ToLower, Listing;
    assert blocked == {} <==> !exists c :: c in r.suspended && ToLower(r.suspended[c]) != "quota" by {
      assert forall c :: c in blocked <==> c in r.suspended && ToLower(r.suspended[c]) != "quota";
    }
  }

  /** A model whose only client is over quota is still listed. */
  lemma QuotaExample()
    ensures var m := [Some(ModelInfo("m", ""))];
            "m" in Answer(Run(EMPTY, [Register("a", "p", m), SetQuota("a", "m", 0)]), "h", 1)
  {
    var m := [Some(ModelInfo("m", ""))];
    OneClient(m);
    RunTwo(EMPTY, Register("a", "p", m), SetQuota("a", "m", 0));
    var s := Apply(EMPTY, Register("a", "p", m));
    hide Run, Answer, ToLower, Registered;
    SoleClient(Marking(s, "a", "m", 0), 1, "m");
  }

  /** One whose only client failed for another reason is not. */
  lemma FailureExample(reason: string)
    requires ToLower(reason) != "quota"
    ensures var m := [Some(ModelInfo("m", ""))];
            "m" !in Answer(Run(EMPTY, [Register("a", "p", m), Suspend("a", "m", reason)]), "h", 1)
  {
    var m := [Some(ModelInfo("m", ""))];
    OneClient(m);
    RunTwo(EMPTY, Register("a", "p", m), Suspend("a", "m", reason));
    var s := Apply(EMPTY, Register("a", "p", m));
    hide Run, Answer, ToLower, Registered;
    var stopped := Suspending(s, "a", "m", reason);
    assert stopped.models["m"].suspended["a"] == reason;
    SoleClient(stopped, 1, "m");
  }
}
