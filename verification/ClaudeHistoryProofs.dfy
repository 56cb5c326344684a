/** What sanitising a Claude history guarantees. */
module ClaudeHistoryProofs {
  import opened Common
  import opened Strings
  import opened Json
  import opened Recognisers
  import opened NormalForms
  import opened Compatibility
  import opened ClaudeHistory

  // --------------------------------------------------------------- decisions

  /** The only signatures that one normalization does not settle: for Claude, those in R-form whose inner
      text ends in a line break. */
  predicate Settled(target: Provider, raw: string) {
    !(target == Claude && Detect(raw) == Claude && WrapsBreak(StripClaudePrefix(WithoutPrefix(raw))))
  }

  /** Settled signatures are those whose normalized form has nothing left to trim. */
  lemma SettledIs(target: Provider, raw: string)
    requires NormalizeTarget(target) == target
    ensures Settled(target, raw) <==> (Matches(target, Detect(raw)) ==> TrimSpace(Normalized(target, raw)) == Normalized(target, raw))
  {
    if Matches(target, Detect(raw)) {
      if target == Claude {
        var payload := WithoutPrefix(raw);
        DetectedIsAccepted(raw);
        FormsAgree(payload);
        var n := ToEForm(payload, true).value;
        EFormIsSignature(payload, true);
        EFormEnd(payload, true);
        TrimmedDecodes(n);
        EFormFirst(payload, true);
        EndsInBreak(n);
      } else {
        PlainNormalizedIsStable(target, raw);
      }
    }
  }

  /** Deciding on what a compatible signature was normalized to: compatible again, and normalized to
      its trimmed self. */
  lemma DecideAgain(target: Provider, raw: string, kind: BlockKind)
    requires Decide(target, raw, kind).compatible && NormalizeTarget(target) == target
    ensures var n := Decide(target, raw, kind).normalized;
            && n != "" && TrimSpace(n) != "" && TrimSpace(raw) != ""
            && Decide(target, n, kind).compatible && Decide(target, n, kind).normalized == TrimSpace(n)
            && Settled(target, n) && (Settled(target, raw) <==> TrimSpace(n) == n)
            && (n == raw ==> TrimSpace(n) == n)
  {
    if target == Claude {
      ClaudeNormalizedIsStable(raw);
      TrimTwice(Normalized(Claude, raw));
    } else {
      PlainNormalizedIsStable(target, raw);
    }
    assert Detect("") == Unknown;
    DetectBlank(raw);
    SettledIs(target, raw);
    SettledIs(target, Decide(target, raw, kind).normalized);
  }

  lemma DetectBlank(raw: string)
    ensures TrimSpace(raw) == "" ==> Detect(raw) == Unknown
  {
  }

  /** The bypass sentinel is compatible with Gemini and stays as it is. */
  lemma DecideSentinel(kind: BlockKind)
    ensures Decide(Gemini, SKIP_VALIDATOR, kind).compatible
    ensures Decide(Gemini, SKIP_VALIDATOR, kind).normalized == SKIP_VALIDATOR
    ensures TrimSpace(SKIP_VALIDATOR) == SKIP_VALIDATOR && Settled(Gemini, SKIP_VALIDATOR)
  {
    var s := SKIP_VALIDATOR;
    assert s[0] == 's' && s[|s| - 1] == 'r';
    TrimmedStays(s);
    assert IsBypass(s);
    AcceptedHasNoHash(GeminiBypass, s);
    DetectNoHash(GeminiBypass, s);
    NoPrefix(s);
  }

  // ----------------------------------------------------------- thinking parts

  predicate IsThinking(part: Json) {
    PartType(part) == "thinking"
  }

  predicate IsTool(part: Json) {
    PartType(part) == "tool_use"
  }

  lemma TextPresent(part: Json, path: Path)
    requires Text(part, path) != ""
    ensures Has(part, path)
  {
  }

  lemma SetSignature(part: Json, t: string)
    requires Has(part, SIGNATURE)
    ensures Text(Set(part, SIGNATURE, Str(t)), SIGNATURE) == t
    ensures PartType(Set(part, SIGNATURE, Str(t))) == PartType(part)
  {
    GetSet(part, SIGNATURE, Str(t));
    GetSetApart(part, SIGNATURE, Str(t), ["type"]);
  }

  /** A thinking part that survives carries a signature the target can replay. */
  lemma ThinkingSurvives(part: Json, target: Provider)
    requires IsThinking(part) && NormalizeTarget(target) == target && SanitizeThinking(part, target).kept.Some?
    ensures var k := SanitizeThinking(part, target).kept.value;
            && IsThinking(k) && Has(k, SIGNATURE) && Decide(target, Text(part, SIGNATURE), ClaudeThinking).compatible
            && Text(k, SIGNATURE) == Decide(target, Text(part, SIGNATURE), ClaudeThinking).normalized
            && Decide(target, Text(k, SIGNATURE), ClaudeThinking).compatible
            && TrimSpace(Text(k, SIGNATURE)) != ""
  {
    var raw := Text(part, SIGNATURE);
    var d := Decide(target, raw, ClaudeThinking);
    assert d.compatible;
    DecideAgain(target, raw, ClaudeThinking);
    assert TrimSpace("") == "";
    TextPresent(part, SIGNATURE);
    SetSignature(part, d.normalized);
  }

  /** Sanitising a surviving thinking part again keeps it, and changes it only by trimming. */
  lemma ThinkingTwice(part: Json, target: Provider)
    requires IsThinking(part) && NormalizeTarget(target) == target && SanitizeThinking(part, target).kept.Some?
    ensures var k := SanitizeThinking(part, target).kept.value;
            && SanitizeThinking(k, target).kept.Some? && Settled(target, Text(k, SIGNATURE))
            && (SanitizeThinking(k, target).kept == Some(k) <==> Settled(target, Text(part, SIGNATURE)))
  {
    ThinkingSurvives(part, target);
    var raw, k := Text(part, SIGNATURE), SanitizeThinking(part, target).kept.value;
    var n := Text(k, SIGNATURE);
    DecideAgain(target, raw, ClaudeThinking);
    if TrimSpace(n) != n {
      SetSignature(k, TrimSpace(n));
    }
  }

  /** Thinking parts are dropped only where no signature matches. */
  lemma ThinkingDropped(part: Json, target: Provider)
    requires SanitizeThinking(part, target).kept.None? && NormalizeTarget(target) == target
    ensures Settled(target, Text(part, SIGNATURE))
  {
  }

  // --------------------------------------------------------------- tool calls

  /** What a tool call's signature field holds afterwards. */
  function FieldAfter(part: Json, target: Provider, path: Path): Option<Json> {
    if !Has(part, path) then None
    else
      var d := ToolDecision(part, target, path);
      match d.action
      case Preserve => if d.normalized != "" && d.normalized != Text(part, path) then Some(Str(d.normalized)) else Get(part, path)
      case ReplaceWithBypass => Some(Str(d.replacement))
      case _ => None
  }

  predicate AllApart(paths: seq<Path>) {
    (forall i, j :: 0 <= i < j < |paths| ==> Apart(paths[i], paths[j]) && Apart(paths[j], paths[i]))
    && forall i :: 0 <= i < |paths| ==> paths[i] != []
  }

  lemma PathsAreApart()
    ensures AllApart(PROVENANCE_PATHS) && AllApart(SIGNATURE_PATHS)
    ensures forall i :: 0 <= i < |PROVENANCE_PATHS| ==> Apart(PROVENANCE_PATHS[i], ["type"])
    ensures forall i :: 0 <= i < |SIGNATURE_PATHS| ==> Apart(SIGNATURE_PATHS[i], ["type"])
  {
    assert |PROVENANCE_PATHS| == 5 && |SIGNATURE_PATHS| == 4;
    assert PROVENANCE_PATHS[..4] == SIGNATURE_PATHS;
    assert PROVENANCE_PATHS[0] == ["signature"] && PROVENANCE_PATHS[1] == ["thoughtSignature"];
    assert PROVENANCE_PATHS[2] == ["thought_signature"] && PROVENANCE_PATHS[4] == ["model"];
    assert PROVENANCE_PATHS[3] == ["extra_content", "google", "thought_signature"];
    NamesDiffer();
  }

  lemma NamesDiffer()
    ensures "signature" != "thoughtSignature" && "thoughtSignature" != "thought_signature" && "thought_signature" != "signature"
    ensures "extra_content" != "signature" && "extra_content" != "thoughtSignature" && "extra_content" != "thought_signature"
    ensures "model" != "signature" && "model" != "thoughtSignature" && "model" != "thought_signature" && "model" != "extra_content"
    ensures "type" != "signature" && "type" != "thoughtSignature" && "type" != "thought_signature" && "type" != "extra_content" && "type" != "model"
  {
    assert |"signature"| == 9 && |"thoughtSignature"| == 16 && |"thought_signature"| == 17;
    assert |"extra_content"| == 13 && |"model"| == 5 && |"type"| == 4;
  }

  lemma {:induction false} ToolFieldsAt(part: Json, target: Provider, paths: seq<Path>, i: nat)
    requires AllApart(paths) && i < |paths|
    ensures Get(ToolFields(part, target, paths), paths[i]) == FieldAfter(part, target, paths[i])
  {
    var n := |paths| - 1;
    var before := ToolFields(part, target, paths[..n]);
    ToolFieldsApart(part, target, paths[..n], paths[n]);
    if i < n {
      ToolFieldsAt(part, target, paths[..n], i);
      ToolFieldApart(part, before, target, paths[n], paths[i]);
    } else {
      ToolFieldSame(part, before, target, paths[n]);
    }
  }

  lemma ToolFieldSame(part: Json, updated: Json, target: Provider, path: Path)
    requires path != [] && Get(updated, path) == Get(part, path)
    ensures Get(ToolField(part, updated, target, path), path) == FieldAfter(part, target, path)
  {
    if Has(part, path) {
      var d := ToolDecision(part, target, path);
      GetSet(updated, path, Str(d.normalized));
      GetSet(updated, path, Str(d.replacement));
      GetDelete(updated, path);
    }
  }

  lemma ToolFieldApart(part: Json, updated: Json, target: Provider, path: Path, q: Path)
    requires Apart(path, q) && (Has(part, path) ==> Has(updated, path))
    ensures Get(ToolField(part, updated, target, path), q) == Get(updated, q)
  {
    if Has(part, path) {
      var d := ToolDecision(part, target, path);
      GetSetApart(updated, path, Str(d.normalized), q);
      GetSetApart(updated, path, Str(d.replacement), q);
      GetDeleteApart(updated, path, q);
    }
  }

  lemma {:induction false} ToolFieldsApart(part: Json, target: Provider, paths: seq<Path>, q: Path)
    requires AllApart(paths) && forall i :: 0 <= i < |paths| ==> Apart(paths[i], q)
    ensures Get(ToolFields(part, target, paths), q) == Get(part, q)
  {
    if paths != [] {
      var n := |paths| - 1;
      ToolFieldsApart(part, target, paths[..n], q);
      ToolFieldsApart(part, target, paths[..n], paths[n]);
      ToolFieldApart(part, ToolFields(part, target, paths[..n]), target, paths[n], q);
    }
  }

  // -------------------------------------------------------------------- tidying

  predicate IsTidy(part: Json) {
    !IsEmptyObject(part, GOOGLE) && !IsEmptyObject(part, EXTRA)
  }

  function Member(part: Json, name: string): Option<Json> {
    if part.Obj? && name in part.fields then Some(part.fields[name]) else None
  }

  lemma GetOne(part: Json, name: string)
    ensures Get(part, [name]) == Member(part, name)
  {
    assert [name][1..] == [];
  }

  lemma GetGoogle(part: Json)
    ensures Get(part, GOOGLE) == if Member(part, "extra_content").Some? then Member(Member(part, "extra_content").value, "google") else None
    ensures Get(part, EXTRA) == Member(part, "extra_content")
  {
    assert GOOGLE[1..] == ["google"] && GOOGLE[0] == "extra_content";
    GetOne(part, "extra_content");
    if Member(part, "extra_content").Some? { GetOne(Member(part, "extra_content").value, "google"); }
  }

  lemma DeleteGoogle(part: Json)
    requires IsEmptyObject(part, GOOGLE)
    ensures part.Obj? && Member(part, "extra_content").Some? && Member(part, "extra_content").value.Obj?
    ensures Delete(part, GOOGLE) ==
            Obj(part.fields["extra_content" := Obj(part.fields["extra_content"].fields - {"google"})])
  {
    GetGoogle(part);
    assert GOOGLE[1..] == ["google"] && GOOGLE[0] == "extra_content";
  }

  /** Tidying leaves no empty provenance object behind, and leaves a tidy part alone. */
  lemma TidyIsTidy(part: Json)
    ensures IsTidy(Tidy(part))
    ensures IsTidy(part) ==> Tidy(part) == part
    ensures TidyChanges(part) <==> Tidy(part) != part
  {
    GetGoogle(part);
    var one := DropEmpty(part, GOOGLE);
    if IsEmptyObject(part, GOOGLE) {
      DeleteGoogle(part);
      assert "google" in part.fields["extra_content"].fields;
      assert one.fields["extra_content"] != part.fields["extra_content"];
    }
    GetGoogle(one);
    if IsEmptyObject(one, EXTRA) {
      assert Delete(one, EXTRA) == Obj(one.fields - {"extra_content"});
      GetGoogle(Delete(one, EXTRA));
    }
  }

  /** Tidying touches no path that leads elsewhere, and no value inside the provenance objects. */
  lemma TidyKeeps(part: Json, q: Path)
    requires (Apart(GOOGLE, q) && Apart(EXTRA, q)) || (|q| == 3 && q[..2] == GOOGLE)
    ensures Get(Tidy(part), q) == Get(part, q)
  {
    if Apart(GOOGLE, q) && Apart(EXTRA, q) {
      GetDeleteApart(part, GOOGLE, q);
      GetDeleteApart(DropEmpty(part, GOOGLE), EXTRA, q);
    } else {
      TidyKeepsInner(part, q);
    }
  }

  lemma GetInner(part: Json, q: Path)
    requires |q| == 3 && q[..2] == GOOGLE
    ensures Get(part, q) == if Get(part, GOOGLE).Some? then Member(Get(part, GOOGLE).value, q[2]) else None
  {
    assert q[0] == q[..2][0] == "extra_content" && q[1] == q[..2][1] == "google";
    assert q[1..][1..] == [q[2]] && q[1..][0] == "google";
    GetGoogle(part);
    if Get(part, GOOGLE).Some? { GetOne(Get(part, GOOGLE).value, q[2]); }
  }

  lemma TidyKeepsInner(part: Json, q: Path)
    requires |q| == 3 && q[..2] == GOOGLE
    ensures Get(Tidy(part), q) == Get(part, q)
  {
    var one := DropEmpty(part, GOOGLE);
    GetInner(part, q);
    GetInner(one, q);
    GetInner(Tidy(part), q);
    GetGoogle(part);
    if IsEmptyObject(part, GOOGLE) {
      DeleteGoogle(part);
    }
    GetGoogle(one);
    if IsEmptyObject(one, EXTRA) {
      assert Delete(one, EXTRA) == Obj(one.fields - {"extra_content"});
      GetGoogle(Tidy(part));
    }
  }

  lemma TidyKeepsPaths(part: Json, i: nat)
    requires i < |PROVENANCE_PATHS|
    ensures Get(Tidy(part), PROVENANCE_PATHS[i]) == Get(part, PROVENANCE_PATHS[i])
    ensures PartType(Tidy(part)) == PartType(part)
  {
    PathsAreApart();
    NamesDiffer();
    TidyKeeps(part, ["type"]);
    if i == 3 {
      assert PROVENANCE_PATHS[3][..2] == GOOGLE;
    }
    TidyKeeps(part, PROVENANCE_PATHS[i]);
  }

  // ------------------------------------------------------- tool calls, twice

  predicate ToolSettled(part: Json, target: Provider) {
    forall i :: 0 <= i < |SIGNATURE_PATHS| && Has(part, SIGNATURE_PATHS[i]) ==> Settled(target, Text(part, SIGNATURE_PATHS[i]))
  }

  /** The signature a sanitised tool call carries at each path. */
  lemma ToolAfter(part: Json, target: Provider, i: nat)
    requires i < |SIGNATURE_PATHS|
    ensures var k := SanitizeTool(part, target).kept.value;
            Get(k, SIGNATURE_PATHS[i]) == FieldAfter(part, target, SIGNATURE_PATHS[i]) && PartType(k) == PartType(part)
  {
    PathsAreApart();
    var fields := ToolFields(part, target, SIGNATURE_PATHS);
    assert PROVENANCE_PATHS[i] == SIGNATURE_PATHS[i];
    TidyKeepsPaths(fields, i);
    ToolFieldsAt(part, target, SIGNATURE_PATHS, i);
    ToolFieldsApart(part, target, SIGNATURE_PATHS, ["type"]);
  }

  /** A compatible signature on a tool call holds its normalized form afterwards. */
  lemma FieldNormalized(part: Json, k: Json, target: Provider, path: Path)
    requires NormalizeTarget(target) == target && Get(k, path) == FieldAfter(part, target, path)
    requires Has(part, path) && ToolDecision(part, target, path).compatible && ToolDecision(part, target, path).normalized != ""
    ensures Has(k, path) && Text(k, path) == ToolDecision(part, target, path).normalized
    ensures ToolDecision(k, target, path) == Decide(target, ToolDecision(part, target, path).normalized, ToolKind(target))
  {
    hide Detect, Normalized;
    assert ToolDecision(part, target, path).action == Preserve;
    hide Decide, TrimSpace;
  }

  /** Such a signature changes exactly when its normalized form is another text. */
  lemma CompatibleChanges(part: Json, target: Provider, path: Path)
    requires Has(part, path) && ToolDecision(part, target, path).compatible
    ensures var n := ToolDecision(part, target, path).normalized;
            ToolFieldChanges(part, target, path) <==> n != "" && n != Text(part, path)
  {
    hide Detect, Normalized;
    assert ToolDecision(part, target, path).action == Preserve;
    hide Decide, TrimSpace;
  }

  /** A compatible signature on a tool call, decided on twice. */
  lemma FieldTwiceCompatible(part: Json, k: Json, target: Provider, path: Path)
    requires NormalizeTarget(target) == target && Get(k, path) == FieldAfter(part, target, path)
    requires Has(part, path) && ToolDecision(part, target, path).compatible
    ensures Has(k, path) && ToolDecision(k, target, path).compatible && Settled(target, Text(k, path))
    ensures ToolFieldChanges(k, target, path) <==> !Settled(target, Text(part, path))
    ensures ToolFieldChanges(k, target, path) ==> FieldAfter(k, target, path) != Get(k, path)
  {
    DecideAgain(target, Text(part, path), ToolKind(target));
    FieldNormalized(part, k, target, path);
    CompatibleChanges(k, target, path);
    if ToolFieldChanges(k, target, path) { FieldChanged(k, target, path); }
    hide Detect, Normalized, Decide, TrimSpace, Settled, FieldAfter, ToolFieldChanges, Get;
  }

  lemma FieldChanged(part: Json, target: Provider, path: Path)
    requires NormalizeTarget(target) == target && ToolFieldChanges(part, target, path)
    ensures FieldAfter(part, target, path) != Get(part, path)
  {
    hide Detect, Normalized, TrimSpace;
    DecideSentinel(ToolKind(target));
  }

  /** A signature left on a tool call is one the target can replay; it is settled, and deciding on
      it again changes it exactly when the original was not settled. */
  lemma FieldTwice(part: Json, k: Json, target: Provider, path: Path)
    requires NormalizeTarget(target) == target && Get(k, path) == FieldAfter(part, target, path)
    ensures Has(k, path) ==> ToolDecision(k, target, path).compatible && Settled(target, Text(k, path))
    ensures Has(k, path) ==> Has(part, path)
    ensures ToolFieldChanges(k, target, path) <==> Has(part, path) && !Settled(target, Text(part, path))
    ensures ToolFieldChanges(k, target, path) ==> FieldAfter(k, target, path) != Get(k, path)
  {
    if Has(part, path) {
      if ToolDecision(part, target, path).compatible {
        FieldTwiceCompatible(part, k, target, path);
        hide ToolDecision, Settled, ToolFieldChanges, FieldAfter, Get, Text, Has;
      } else {
        FieldTwiceIncompatible(part, k, target, path);
        hide ToolDecision, Settled, ToolFieldChanges, FieldAfter, Get, Text, Has;
      }
    } else {
      hide Detect, Normalized;
    }
  }

  /** An incompatible one goes or is replaced for good. */
  lemma FieldTwiceIncompatible(part: Json, k: Json, target: Provider, path: Path)
    requires NormalizeTarget(target) == target && Get(k, path) == FieldAfter(part, target, path)
    requires Has(part, path) && !ToolDecision(part, target, path).compatible
    ensures Has(k, path) ==> ToolDecision(k, target, path).compatible && Settled(target, Text(k, path))
    ensures Settled(target, Text(part, path)) && !ToolFieldChanges(k, target, path)
  {
    hide Detect, Normalized, TrimSpace;
    assert Settled(target, Text(part, path));
    DecideSentinel(ToolKind(target));
  }

  lemma {:induction false} ToolFieldsUnchanged(part: Json, target: Provider, paths: seq<Path>)
    requires forall i :: 0 <= i < |paths| ==> !ToolFieldChanges(part, target, paths[i])
    ensures ToolFields(part, target, paths) == part
  {
    if paths != [] {
      ToolFieldsUnchanged(part, target, paths[..|paths| - 1]);
    }
  }

  /** Sanitising a tool call again changes nothing exactly when its signatures were settled. */
  lemma ToolTwice(part: Json, target: Provider)
    requires NormalizeTarget(target) == target
    ensures var k := SanitizeTool(part, target).kept.value;
            && PartType(k) == PartType(part) && ToolSettled(k, target)
            && (SanitizeTool(k, target).kept == Some(k) <==> ToolSettled(part, target))
  {
    var k := SanitizeTool(part, target).kept.value;
    ToolAfter(part, target, 0);
    forall i | 0 <= i < |SIGNATURE_PATHS|
      ensures Get(k, SIGNATURE_PATHS[i]) == FieldAfter(part, target, SIGNATURE_PATHS[i])
      ensures Has(k, SIGNATURE_PATHS[i]) ==> Settled(target, Text(k, SIGNATURE_PATHS[i]))
      ensures ToolFieldChanges(k, target, SIGNATURE_PATHS[i])
              <==> Has(part, SIGNATURE_PATHS[i]) && !Settled(target, Text(part, SIGNATURE_PATHS[i]))
      ensures ToolFieldChanges(k, target, SIGNATURE_PATHS[i]) ==>
                Get(SanitizeTool(k, target).kept.value, SIGNATURE_PATHS[i]) != Get(k, SIGNATURE_PATHS[i])
    {
      ToolAfter(part, target, i);
      FieldTwice(part, k, target, SIGNATURE_PATHS[i]);
      ToolAfter(k, target, i);
    }
    if ToolSettled(part, target) {
      ToolFieldsUnchanged(k, target, SIGNATURE_PATHS);
    }
    TidyIsTidy(ToolFields(part, target, SIGNATURE_PATHS));
    TidyIsTidy(k);
  }

  // ------------------------------------------------------ stripped tool calls

  lemma {:induction false} DeleteAllApart(part: Json, paths: seq<Path>, q: Path)
    requires forall i :: 0 <= i < |paths| ==> Apart(paths[i], q)
    ensures Get(DeleteAll(part, paths), q) == Get(part, q)
  {
    if paths != [] {
      var n := |paths| - 1;
      DeleteAllApart(part, paths[..n], q);
      GetDeleteApart(DeleteAll(part, paths[..n]), paths[n], q);
    }
  }

  lemma {:induction false} DeleteAllGone(part: Json, paths: seq<Path>, i: nat)
    requires AllApart(paths) && i < |paths|
    ensures !Has(DeleteAll(part, paths), paths[i])
  {
    var n := |paths| - 1;
    if i < n {
      DeleteAllGone(part, paths[..n], i);
      GetDeleteApart(DeleteAll(part, paths[..n]), paths[n], paths[i]);
    } else {
      GetDelete(DeleteAll(part, paths[..n]), paths[n]);
    }
  }

  lemma {:induction false} DeleteAllMissing(part: Json, paths: seq<Path>)
    requires !HasAny(part, paths)
    ensures DeleteAll(part, paths) == part
  {
    if paths != [] {
      var n := |paths| - 1;
      assert forall i :: 0 <= i < n ==> paths[..n][i] == paths[i];
      DeleteAllMissing(part, paths[..n]);
      DeleteMissing(part, paths[n]);
    }
  }

  /** A stripped tool call carries no provenance field, and stripping it again changes nothing. */
  lemma StripTwice(part: Json)
    ensures var k := StripTool(part).kept.value;
            !HasAny(k, PROVENANCE_PATHS) && PartType(k) == PartType(part) && StripTool(k) == Outcome(Some(k), false, NO_REPORT)
    ensures StripTool(part).changed <==> StripTool(part).kept.value != part
  {
    PathsAreApart();
    var bare := DeleteAll(part, PROVENANCE_PATHS);
    var k := Tidy(bare);
    DeleteAllApart(part, PROVENANCE_PATHS, ["type"]);
    TidyKeepsPaths(bare, 0);
    forall i | 0 <= i < |PROVENANCE_PATHS| ensures !Has(k, PROVENANCE_PATHS[i]) {
      DeleteAllGone(part, PROVENANCE_PATHS, i);
      TidyKeepsPaths(bare, i);
    }
    DeleteAllMissing(k, PROVENANCE_PATHS);
    TidyIsTidy(bare);
    TidyIsTidy(k);
    if !HasAny(part, PROVENANCE_PATHS) {
      DeleteAllMissing(part, PROVENANCE_PATHS);
    }
  }

  // --------------------------------------------------------- parts and messages

  /** The signatures of a part that would be kept are settled. */
  predicate PartSettled(part: Json, target: Provider, opts: Options) {
    if IsTool(part) then opts.dropToolSignatures || ToolSettled(part, target)
    else if IsThinking(part) then KeepsPlaceholder(part, target, opts) || Settled(target, Text(part, SIGNATURE))
    else true
  }

  /** What is promised of a part that was kept. */
  predicate Clean(part: Json, target: Provider, opts: Options) {
    && (IsThinking(part) ==>
          KeepsPlaceholder(part, target, opts) || Decide(target, Text(part, SIGNATURE), ClaudeThinking).compatible)
    && (IsTool(part) ==>
          if opts.dropToolSignatures then !HasAny(part, PROVENANCE_PATHS)
          else forall i :: 0 <= i < |SIGNATURE_PATHS| && Has(part, SIGNATURE_PATHS[i]) ==>
                 ToolDecision(part, target, SIGNATURE_PATHS[i]).compatible)
  }

  lemma ToolIsClean(part: Json, target: Provider)
    requires NormalizeTarget(target) == target
    ensures var k := SanitizeTool(part, target).kept.value;
            forall i :: 0 <= i < |SIGNATURE_PATHS| && Has(k, SIGNATURE_PATHS[i]) ==> ToolDecision(k, target, SIGNATURE_PATHS[i]).compatible
  {
    var k := SanitizeTool(part, target).kept.value;
    forall i | 0 <= i < |SIGNATURE_PATHS| && Has(k, SIGNATURE_PATHS[i])
      ensures ToolDecision(k, target, SIGNATURE_PATHS[i]).compatible
    {
      ToolAfter(part, target, i);
      FieldTwice(part, k, target, SIGNATURE_PATHS[i]);
    }
  }

  /** A kept part is of the same type and clean; sanitising it again keeps it, changes it exactly
      when it was not settled, and never a third time. */
  lemma PartTwice(part: Json, target: Provider, opts: Options)
    requires NormalizeTarget(target) == target && SanitizePart(part, target, opts).kept.Some?
    ensures var k := SanitizePart(part, target, opts).kept.value;
            && PartType(k) == PartType(part) && Clean(k, target, opts) && PartSettled(k, target, opts)
            && SanitizePart(k, target, opts).kept.Some?
            && (SanitizePart(k, target, opts).kept == Some(k) <==> PartSettled(part, target, opts))
  {
    if IsTool(part) {
      if opts.dropToolSignatures {
        StripTwice(part);
      } else {
        ToolTwice(part, target);
        ToolIsClean(part, target);
      }
    } else if IsThinking(part) && !KeepsPlaceholder(part, target, opts) {
      ThinkingSurvives(part, target);
      ThinkingTwice(part, target);
    }
  }

  /** Only sanitised thinking parts are dropped, and nothing of theirs was unsettled. */
  lemma PartDropped(part: Json, target: Provider, opts: Options)
    requires NormalizeTarget(target) == target && SanitizePart(part, target, opts).kept.None?
    ensures IsThinking(part) && PartSettled(part, target, opts) && SanitizePart(part, target, opts).changed
  {
    ThinkingDropped(part, target);
  }

  /** A part that does not count as changed is kept as it was. */
  lemma PartUnchanged(part: Json, target: Provider, opts: Options)
    requires !SanitizePart(part, target, opts).changed
    ensures SanitizePart(part, target, opts).kept == Some(part)
  {
    if IsTool(part) {
      if opts.dropToolSignatures {
        StripTwice(part);
      } else {
        ToolFieldsUnchanged(part, target, SIGNATURE_PATHS);
        TidyIsTidy(part);
      }
    }
  }

  /** A rewritten signature is another one than before. */
  lemma ThinkingChanged(part: Json, target: Provider)
    requires IsThinking(part) && NormalizeTarget(target) == target && SanitizeThinking(part, target).changed
    ensures SanitizeThinking(part, target).kept != Some(part)
  {
    var raw := Text(part, SIGNATURE);
    var d := Decide(target, raw, ClaudeThinking);
    if d.compatible {
      DecideAgain(target, raw, ClaudeThinking);
      assert TrimSpace("") == "";
      TextPresent(part, SIGNATURE);
      SetSignature(part, d.normalized);
    }
  }

  lemma ToolChanged(part: Json, target: Provider)
    requires NormalizeTarget(target) == target && SanitizeTool(part, target).changed
    ensures SanitizeTool(part, target).kept != Some(part)
  {
    if i :| 0 <= i < |SIGNATURE_PATHS| && ToolFieldChanges(part, target, SIGNATURE_PATHS[i]) {
      FieldChanged(part, target, SIGNATURE_PATHS[i]);
      ToolAfter(part, target, i);
    } else {
      ToolFieldsUnchanged(part, target, SIGNATURE_PATHS);
      TidyIsTidy(part);
    }
    hide ToolFieldChanges, FieldAfter, ToolFields, Get;
  }

  /** A part counts as changed exactly when it was: rewritten to something else, or dropped. */
  lemma PartChanged(part: Json, target: Provider, opts: Options)
    requires NormalizeTarget(target) == target
    ensures SanitizePart(part, target, opts).changed <==> SanitizePart(part, target, opts).kept != Some(part)
  {
    if !SanitizePart(part, target, opts).changed {
      PartUnchanged(part, target, opts);
    } else if IsTool(part) {
      if opts.dropToolSignatures { StripTwice(part); } else { ToolChanged(part, target); }
    } else {
      ThinkingChanged(part, target);
    }
  }

  lemma {:induction false} UnchangedParts(parts: seq<Json>, target: Provider, opts: Options)
    requires !AnyChanged(parts, target, opts)
    ensures KeptParts(parts, target, opts) == parts
  {
    hide SanitizePart;
    if parts != [] {
      var n := |parts| - 1;
      assert forall i :: 0 <= i < n ==> parts[..n][i] == parts[i];
      UnchangedParts(parts[..n], target, opts);
      PartUnchanged(parts[n], target, opts);
    }
  }

  /** The parts of a message count as changed exactly when what is kept of them differs. */
  lemma {:induction false} PartsChanged(parts: seq<Json>, target: Provider, opts: Options)
    requires NormalizeTarget(target) == target
    ensures AnyChanged(parts, target, opts) <==> KeptParts(parts, target, opts) != parts
    ensures |KeptParts(parts, target, opts)| <= |parts|
  {
    hide SanitizePart;
    if parts != [] {
      var n := |parts| - 1;
      PartsChanged(parts[..n], target, opts);
      PartChanged(parts[n], target, opts);
      assert forall i :: 0 <= i < n ==> parts[..n][i] == parts[i];
      assert parts == parts[..n] + [parts[n]];
      var before, last := KeptParts(parts[..n], target, opts), SanitizePart(parts[n], target, opts).kept;
      if last.Some? {
        assert before + [last.value] == parts ==> before == parts[..n] && last.value == parts[n] by {
          assert |before| == n && before + [last.value] == parts ==> before == parts[..n];
        }
      }
    }
  }

  predicate PartsSettled(parts: seq<Json>, target: Provider, opts: Options) {
    forall i :: 0 <= i < |parts| ==> PartSettled(parts[i], target, opts)
  }

  predicate AllClean(parts: seq<Json>, target: Provider, opts: Options) {
    forall i :: 0 <= i < |parts| ==> Clean(parts[i], target, opts)
  }

  lemma KeptPartsSnoc(parts: seq<Json>, last: Json, target: Provider, opts: Options)
    ensures var kept := SanitizePart(last, target, opts).kept;
            KeptParts(parts + [last], target, opts) == KeptParts(parts, target, opts) + if kept.Some? then [kept.value] else []
  {
    hide SanitizePart;
    assert (parts + [last])[..|parts|] == parts;
  }

  lemma PartsWithLast(parts: seq<Json>, last: Json, target: Provider, opts: Options)
    ensures AllClean(parts + [last], target, opts) <==> AllClean(parts, target, opts) && Clean(last, target, opts)
    ensures PartsSettled(parts + [last], target, opts) <==> PartsSettled(parts, target, opts) && PartSettled(last, target, opts)
  {
    hide Clean, PartSettled;
    var all := parts + [last];
    assert all[|parts|] == last && forall i :: 0 <= i < |parts| ==> all[i] == parts[i];
  }

  /** The kept parts of a message are clean and settled; sanitising them again keeps each, and
      changes none exactly when the originals were settled. */
  lemma {:induction false} PartsTwice(parts: seq<Json>, target: Provider, opts: Options)
    requires NormalizeTarget(target) == target
    ensures var kept := KeptParts(parts, target, opts);
            && AllClean(kept, target, opts) && PartsSettled(kept, target, opts)
            && |KeptParts(kept, target, opts)| == |kept|
            && (KeptParts(kept, target, opts) == kept <==> PartsSettled(parts, target, opts))
  {
    if parts == [] {
      NoPartsTwice(target, opts);
    } else {
      var init, part := parts[..|parts| - 1], parts[|parts| - 1];
      assert parts == init + [part];
      PartsTwice(init, target, opts);
      PartsWithLast(init, part, target, opts);
      KeptPartsSnoc(init, part, target, opts);
      var last := SanitizePart(part, target, opts).kept;
      if last.Some? {
        PartTwice(part, target, opts);
        LastTwice(KeptParts(init, target, opts), last.value, target, opts);
      } else {
        PartDropped(part, target, opts);
      }
      hide *;
      assert KeptParts(init, target, opts) + [] == KeptParts(init, target, opts);
    }
  }

  lemma NoPartsTwice(target: Provider, opts: Options)
    ensures KeptParts([], target, opts) == [] && AllClean([], target, opts) && PartsSettled([], target, opts)
  {
    hide SanitizePart, Clean, PartSettled;
  }

  /** One more kept part, sanitised again. */
  lemma LastTwice(kept: seq<Json>, last: Json, target: Provider, opts: Options)
    requires SanitizePart(last, target, opts).kept.Some? && |KeptParts(kept, target, opts)| == |kept|
    ensures var again := KeptParts(kept + [last], target, opts);
            && |again| == |kept + [last]|
            && (again == kept + [last] <==> KeptParts(kept, target, opts) == kept && SanitizePart(last, target, opts).kept.value == last)
    ensures AllClean(kept + [last], target, opts) <==> AllClean(kept, target, opts) && Clean(last, target, opts)
    ensures PartsSettled(kept + [last], target, opts) <==> PartsSettled(kept, target, opts) && PartSettled(last, target, opts)
  {
    KeptPartsSnoc(kept, last, target, opts);
    PartsWithLast(kept, last, target, opts);
    hide *;
    SnocEqual(KeptParts(kept, target, opts), SanitizePart(last, target, opts).kept.value, kept, last);
  }
}
