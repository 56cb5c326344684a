/** What sanitising a Gemini request leaves alone and what it puts in place of a signature, with every name
    and text written out. */
module GeminiKeeps {
  import opened Common
  import opened Strings
  import opened Json
  import opened Recognisers
  import opened Compatibility
  import opened SignatureForms
  import ClaudeHistory
  import opened ClaudeHistoryProofs
  import opened ClaudeHistoryKeeps
  import opened GeminiRequest

  /** Where a part may carry a signature, the first one found counting. */
  function Places(): seq<Path> {
    [["thoughtSignature"], ["thought_signature"],
     ["functionCall", "thoughtSignature"], ["functionCall", "thought_signature"],
     ["functionResponse", "thoughtSignature"], ["functionResponse", "thought_signature"],
     ["extra_content", "google", "thought_signature"]]
  }

  predicate Carries(part: Json, i: nat) {
    i < 7 && Has(part, Places()[i])
  }

  predicate CarriesFirst(part: Json, i: nat) {
    Carries(part, i) && forall j :: 0 <= j < i ==> !Carries(part, j)
  }

  predicate Unsigned(part: Json) {
    forall i :: 0 <= i < 7 ==> !Carries(part, i)
  }

  /** Neither at nor behind a place of a signature, nor at an object that holds one. */
  predicate Beside(q: Path) {
    forall i :: 0 <= i < 7 ==> !(Places()[i] <= q) && !(q <= Places()[i])
  }

  /** What a signature is replaced by: what is behind its prefix if Gemini replays it, and else the sentinel. */
  function Given(raw: string): string {
    var found := Detect(raw);
    if found == Gemini || found == GeminiBypass then WithoutPrefix(raw) else "skip_thought_signature_validator"
  }

  lemma ReplayGives(raw: string, kind: BlockKind)
    ensures Replay(raw, kind) == Given(raw)
  {
    DecisionIs(Gemini, raw, kind);
    if Decide(Gemini, raw, kind).compatible { ReplayedText(Gemini, raw, kind); }
    hide Detect, WithoutPrefix, Decide;
  }

  lemma FirstIs(part: Json, i: nat)
    requires CarriesFirst(part, i)
    ensures FirstSignature(part, 0) == Some(Text(part, Places()[i]))
  {
    assert Places() == PART_SIGNATURES;
    forall j: nat | j < i ensures !Has(part, PART_SIGNATURES[j]) { assert !Carries(part, j); }
    FirstFrom(part, 0, i);
  }

  lemma {:induction false} FirstFrom(part: Json, from: nat, i: nat)
    requires from <= i < 7 && Has(part, PART_SIGNATURES[i]) && forall j :: from <= j < i ==> !Has(part, PART_SIGNATURES[j])
    ensures FirstSignature(part, from) == Some(Text(part, PART_SIGNATURES[i]))
    decreases i - from
  {
    if from < i { FirstFrom(part, from + 1, i); }
  }

  lemma {:induction false} NoneFrom(part: Json, from: nat)
    requires Unsigned(part)
    ensures FirstSignature(part, from).None?
    decreases 7 - from
  {
    if from < 7 {
      assert !Carries(part, from) && Places() == PART_SIGNATURES;
      NoneFrom(part, from + 1);
    }
  }

  /** Everything beside the signatures. */
  lemma BesideKept(part: Json, modelTurn: bool, q: Path)
    requires Beside(q)
    ensures Get(SanitizePart(part, modelTurn), q) == Get(part, q)
  {
    assert |PART_SIGNATURES| == 7 && Places() == PART_SIGNATURES;
    forall i | 0 <= i < 7 ensures Apart(PART_SIGNATURES[i], q) { ApartUnlessPrefix(PART_SIGNATURES[i], q); }
    DeleteAllApart(part, PART_SIGNATURES, q);
    if !Has(part, RESPONSE) && NeedsSignature(part) {
      SignedIsObject(part);
      BareKeepsMembers(part);
      SetBeside(ClaudeHistory.DeleteAll(part, PART_SIGNATURES), Str(ReplayOf(part)), q);
    }
    hide ReplayOf, FirstSignature, Beside;
  }

  lemma SetBeside(bare: Json, v: Json, q: Path)
    requires bare.Obj? && q != [] && q[0] != "thoughtSignature"
    ensures Get(Set(bare, ["thoughtSignature"], v), q) == Get(bare, q)
  {
    SetMember(bare, "thoughtSignature", v);
  }

  /** What a part looks like afterwards: nothing beside its signatures changes, its objects stay; a response
      carries no signature, a part of another turn and one that needs none is as before, and any other carries
      one signature, in one place. */
  ghost predicate Keeps(part: Json, k: Json, modelTurn: bool) {
    && (forall q: Path :: Beside(q) ==> Get(k, q) == Get(part, q))
    && (Has(k, ["functionCall"]) <==> Has(part, ["functionCall"]))
    && (Has(k, ["functionResponse"]) <==> Has(part, ["functionResponse"]))
    && if Has(part, ["functionResponse"]) then Unsigned(k)
       else if !modelTurn || (Unsigned(part) && !Has(part, ["functionCall"]) && !Has(part, ["thought"])) then k == part
       else
         && (forall i :: 0 <= i < 7 ==> (Carries(k, i) <==> i == 0))
         && (Unsigned(part) ==> Get(k, ["thoughtSignature"]) == Some(Str("skip_thought_signature_validator")))
         && forall i: nat :: CarriesFirst(part, i) ==> Get(k, ["thoughtSignature"]) == Some(Str(Given(Text(part, Places()[i]))))
  }

  lemma NothingGives()
    ensures Given("") == "skip_thought_signature_validator"
  {
    assert TrimSpace("") == "";
    DetectBlank("");
  }

  lemma {:induction false} SomeFirst(part: Json, i: nat) returns (first: nat)
    requires Carries(part, i)
    ensures CarriesFirst(part, first)
    decreases i
  {
    if j :| 0 <= j < i && Carries(part, j) {
      first := SomeFirst(part, j);
    } else {
      first := i;
    }
  }

  lemma NeedIs(part: Json)
    ensures NeedsSignature(part) <==> !(Unsigned(part) && !Has(part, ["functionCall"]) && !Has(part, ["thought"]))
  {
    if Unsigned(part) {
      NoneFrom(part, 0);
    } else {
      var i :| 0 <= i < 7 && Carries(part, i);
      var first := SomeFirst(part, i);
      FirstIs(part, first);
    }
    hide FirstSignature, Has, Places;
  }

  /** What a part that is given a signature carries. */
  lemma SignedCarries(part: Json)
    requires NeedsSignature(part) && !Has(part, RESPONSE)
    ensures var k := SanitizePart(part, true);
            && (forall i :: 0 <= i < 7 ==> (Carries(k, i) <==> i == 0))
            && Get(k, ["thoughtSignature"]) == Some(Str(ReplayOf(part)))
            && (Has(k, CALL) <==> Has(part, CALL)) && !Has(k, RESPONSE)
  {
    SignedIsObject(part);
    BareKeepsMembers(part);
    DeletedIsBare(part);
    PathsApart();
    var bare := ClaudeHistory.DeleteAll(part, PART_SIGNATURES);
    var k := Set(bare, THOUGHT_SIGNATURE, Str(ReplayOf(part)));
    hide ReplayOf, FirstSignature, ClaudeHistory.DeleteAll, NeedsSignature;
    SetMember(bare, "thoughtSignature", Str(ReplayOf(part)));
    assert |"functionResponse"| == 16 && |"functionCall"| == 12 && |"thoughtSignature"| == 16;
    assert "functionResponse"[0] != "thoughtSignature"[0];
    assert Places() == PART_SIGNATURES;
    forall i | 1 <= i < 7 ensures !Carries(k, i) {
      assert Apart(PART_SIGNATURES[0], PART_SIGNATURES[i]);
      SetBeside(bare, Str(ReplayOf(part)), PART_SIGNATURES[i]);
      assert !Has(bare, PART_SIGNATURES[i]);
    }
  }

  lemma SignatureGiven(part: Json, i: nat)
    requires CarriesFirst(part, i)
    ensures ReplayOf(part) == Given(Text(part, Places()[i]))
  {
    FirstIs(part, i);
    ReplayGives(Text(part, Places()[i]), KindOf(part));
    hide Replay, Given, FirstSignature, KindOf, Places, Text;
  }

  lemma SentinelGiven(part: Json)
    requires Unsigned(part)
    ensures ReplayOf(part) == "skip_thought_signature_validator"
  {
    NoneFrom(part, 0);
    NothingGives();
    ReplayGives("", KindOf(part));
    hide Replay, Given, FirstSignature, KindOf, Unsigned;
  }

  lemma PartKeeps(part: Json, modelTurn: bool)
    ensures Keeps(part, SanitizePart(part, modelTurn), modelTurn)
  {
    var k := SanitizePart(part, modelTurn);
    forall q: Path | Beside(q) ensures Get(k, q) == Get(part, q) { BesideKept(part, modelTurn, q); }
    NeedIs(part);
    if Has(part, RESPONSE) {
      BareKeepsMembers(part);
      DeletedIsBare(part);
      assert Places() == PART_SIGNATURES;
      assert forall i :: 0 <= i < 7 ==> (Carries(k, i) <==> Has(k, PART_SIGNATURES[i]));
    } else if modelTurn && NeedsSignature(part) {
      SignedCarries(part);
      if Unsigned(part) { SentinelGiven(part); }
      forall i: nat | CarriesFirst(part, i) ensures ReplayOf(part) == Given(Text(part, Places()[i])) { SignatureGiven(part, i); }
    }
    hide ReplayOf, Given, Unsigned, Carries, CarriesFirst, NeedsSignature, Beside, Get, ClaudeHistory.DeleteAll, Set;
  }

  /** A turn afterwards: every part as `Keeps` says, everything but the parts unchanged. */
  ghost predicate TurnKeeps(content: Json, k: Json) {
    if !IsArr(Get(content, ["parts"])) then k == content
    else
      var parts, kept := Get(content, ["parts"]).value.items, Get(k, ["parts"]);
      && IsArr(kept) && |kept.value.items| == |parts|
      && (forall j :: 0 <= j < |parts| ==> Keeps(parts[j], kept.value.items[j], Text(content, ["role"]) == "model"))
      && forall q: Path :: q != [] && q[0] != "parts" ==> Get(k, q) == Get(content, q)
  }

  lemma ContentKeeps(content: Json)
    ensures TurnKeeps(content, SanitizeContent(content))
  {
    if IsArr(Get(content, PARTS)) {
      var parts, turn := Get(content, PARTS).value.items, IsModelTurn(content);
      var k, kept := SanitizeContent(content), SanitizeParts(parts, turn);
      SetAgain(content, "parts", Arr(kept));
      forall j | 0 <= j < |parts| ensures Keeps(parts[j], kept[j], turn) { PartKeeps(parts[j], turn); }
      forall q: Path | q != [] && q[0] != "parts" ensures Get(k, q) == Get(content, q) {
        GetSetApart(content, PARTS, Arr(kept), q);
      }
      hide GeminiRequest.SanitizePart, Keeps;
    }
  }

  /** Main result: in a sanitised request every turn stays where it was, with all its parts, and nothing beside
      the signatures changes; a part of a model turn that is a call or a thought or carries a signature has one
      afterwards, the first it carried if Gemini replays that, and else the sentinel. */
  lemma RequestKeeps(payload: Json)
    ensures var path := if Has(payload, ["contents"]) then ["contents"] else ["request", "contents"];
            var k := SanitizeRequest(payload, ContentsPath(payload));
            if !IsArr(Get(payload, path)) then k == payload
            else
              var contents, kept := Get(payload, path).value.items, Get(k, path);
              && IsArr(kept) && |kept.value.items| == |contents|
              && (forall i :: 0 <= i < |contents| ==> TurnKeeps(contents[i], kept.value.items[i]))
              && forall q :: Apart(path, q) ==> Get(k, q) == Get(payload, q)
  {
    var path := ContentsPath(payload);
    if IsArr(Get(payload, path)) {
      var contents := Get(payload, path).value.items;
      var kept := SanitizeContents(contents);
      GetSet(payload, path, Arr(kept));
      forall i | 0 <= i < |contents| ensures TurnKeeps(contents[i], kept[i]) { ContentKeeps(contents[i]); }
      forall q | Apart(path, q) ensures Get(Set(payload, path, Arr(kept)), q) == Get(payload, q) {
        GetSetApart(payload, path, Arr(kept), q);
      }
      hide SanitizeContent, TurnKeeps, Get, Set;
    }
  }

  /** A part passes validation exactly if it is no call and carries no signature, or a sentinel or Gemini
      signature without a prefix. */
  lemma PartOkIs(part: Json)
    ensures var sig := TrimSpace(Text(part, ["thoughtSignature"]));
            PartOk(part) <==>
              || (!Has(part, ["functionCall"]) && !Has(part, ["thoughtSignature"]))
              || (AfterHash(sig).None? && (Detect(sig) == GeminiBypass || Detect(sig) == Gemini))
  {
    var sig := TrimSpace(Text(part, ["thoughtSignature"]));
    TrimTwice(Text(part, ["thoughtSignature"]));
    if AfterHash(sig).None? {
      DetectIff(Gemini, sig);
      DetectIff(GeminiBypass, sig);
    } else {
      if Accepts(Gemini, sig) { AcceptedHasNoHash(Gemini, sig); }
      if Accepts(GeminiBypass, sig) { AcceptedHasNoHash(GeminiBypass, sig); }
    }
    assert IsBypass(sig) || IsGemini(sig) ==> sig != "" by { assert TrimSpace("") == ""; }
    hide Detect, TrimSpace, IsBypass, IsGemini, AfterHash, Get;
  }
}
