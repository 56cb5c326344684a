/** What sanitising a Claude history leaves alone and what it puts in place of a signature, with every name
    and text written out. */
module ClaudeHistoryKeeps {
  import opened Common
  import opened Strings
  import opened Base64
  import opened Json
  import opened Recognisers
  import opened NormalForms
  import opened Compatibility
  import opened ClaudeHistory
  import opened ClaudeHistoryProofs
  import opened ClaudeHistoryTheorems

  // ------------------------------------------------------------------- target

  /** Stands somewhere in a text. */
  ghost predicate Occurs(t: string, s: string) {
    exists i :: 0 <= i <= |s| && t <= s[i..]
  }

  lemma {:induction false} ContainsIs(s: string, t: string)
    ensures Contains(s, t) <==> Occurs(t, s)
  {
    if s == "" {
      assert s[0..] == s;
    } else {
      ContainsIs(s[1..], t);
      if i :| 0 <= i <= |s| && t <= s[i..] {
        if i > 0 { assert s[1..][i - 1..] == s[i..]; }
      }
      if i :| 0 <= i <= |s[1..]| && t <= s[1..][i..] {
        assert s[i + 1..] == s[1..][i..];
      }
      assert s[0..] == s;
    }
  }

  /** For whom a history is sanitised: the provider asked for, or, if none is, the one that the name of the
      model tells, in any case of letters. */
  lemma TargetIs(opts: Options)
    ensures var t, name, asked := TargetOf(opts), ToLower(TrimSpace(opts.targetModel)), opts.target;
            && (asked != Unknown ==> t == if asked == GeminiBypass then Gemini else asked)
            && (asked == Unknown ==>
                  && (t == Claude <==> Occurs("claude", name))
                  && (t == Gemini <==> Occurs("gemini", name) && !Occurs("claude", name))
                  && (t == Gpt <==>
                        && !Occurs("claude", name) && !Occurs("gemini", name)
                        && (Occurs("gpt", name) || Occurs("openai", name) || Occurs("codex", name)
                            || "o1" <= name || "o3" <= name || "o4" <= name))
                  && t in [Claude, Gemini, Gpt, Unknown])
  {
    var name := ToLower(TrimSpace(opts.targetModel));
    ContainsIs(name, "claude");
    ContainsIs(name, "gemini");
    ContainsIs(name, "gpt");
    ContainsIs(name, "openai");
    ContainsIs(name, "codex");
    if opts.targetModel == "" {
      assert TrimSpace("") == "" && name == "";
      NothingOccurs();
    }
    hide Occurs, Contains;
  }

  lemma NothingOccurs()
    ensures !Occurs("claude", "") && !Occurs("gemini", "") && !Occurs("gpt", "") && !Occurs("openai", "") && !Occurs("codex", "")
  {
  }

  // --------------------------------------------------------------- decisions

  /** Which signatures are replayed, and what happens with the others. */
  lemma DecisionIs(target: Provider, raw: string, kind: BlockKind)
    ensures var d, found := Decide(target, raw, kind), Detect(raw);
            && (d.compatible <==> || (target == Claude && found == Claude) || (target == Gpt && found == Gpt)
                                  || ((target == Gemini || target == GeminiBypass) && (found == Gemini || found == GeminiBypass)))
            && (d.action == Preserve <==> d.compatible)
            && (d.action == ReplaceWithBypass <==>
                  !d.compatible && (target == Gemini || target == GeminiBypass) && kind != ClaudeThinking && kind != GptReasoning)
            && d.action != DropSignature
            && (d.action == NoReplacement <==> target == Unknown || target == Other)
            && d.replacement == (if d.action == ReplaceWithBypass then "skip_thought_signature_validator" else "")
            && (!d.compatible ==> d.normalized == "")
  {
    hide Detect, Normalized;
  }

  lemma ReplayedClaude(payload: string)
    requires IsClaude(payload)
    ensures var s, e := StripClaudePrefix(payload), ToEForm(payload, false);
            && s != "" && e.Some? && DecodeStd(s).Some? && (s[0] == 'E' || s[0] == 'R')
            && (s[0] == 'E' ==> e.value == s)
            && (s[0] == 'R' ==> BytesOf(e.value) == DecodeStd(s).value)
  {
    FormsAgree(payload);
  }

  /** What a replayed signature reads: a Gemini or GPT one what is behind its prefix, a Claude one in E-form
      itself, and one in R-form its inner text. */
  lemma ReplayedText(target: Provider, raw: string, kind: BlockKind)
    requires Decide(target, raw, kind).compatible
    ensures var n, payload := Decide(target, raw, kind).normalized, WithoutPrefix(raw);
            if target == Claude then
              var s := StripClaudePrefix(payload);
              && s != "" && DecodeStd(s).Some? && (s[0] == 'E' || s[0] == 'R')
              && (s[0] == 'E' ==> n == s) && (s[0] == 'R' ==> BytesOf(n) == DecodeStd(s).value)
            else n == payload != ""
  {
    DecisionIs(target, raw, kind);
    DetectedIsAccepted(raw);
    assert TrimSpace("") == "";
    if target == Claude {
      ReplayedClaude(WithoutPrefix(raw));
      hide StripClaudePrefix, IsClaude, Detect, ToEForm;
    } else {
      hide Detect;
    }
  }

  // -------------------------------------------------------------------- paths

  /** Neither at a signature field of a tool call nor behind one, and not at an object that goes when such a
      field was all it held. */
  predicate Elsewhere(q: Path) {
    && q != [] && q[0] != "signature" && q[0] != "thoughtSignature" && q[0] != "thought_signature"
    && !(["extra_content", "google", "thought_signature"] <= q)
    && q != ["extra_content"] && q != ["extra_content", "google"]
  }

  lemma {:induction false} DeleteKeeps(part: Json, path: Path, q: Path)
    requires Get(part, path) == Some(Obj(map[])) && !(q <= path)
    ensures Get(Delete(part, path), q) == Get(part, q)
  {
    if path != [] && path[0] == q[0] {
      TailPrefix(q, path);
      DeleteKeeps(part.fields[path[0]], path[1..], q[1..]);
    }
  }

  /** Tidying changes nothing but the two objects it may remove. */
  lemma TidyElsewhere(part: Json, q: Path)
    requires q != [] && q != ["extra_content"] && q != ["extra_content", "google"]
    ensures Get(Tidy(part), q) == Get(part, q)
  {
    assert !(q <= GOOGLE) && !(q <= EXTRA);
    if IsEmptyObject(part, GOOGLE) { DeleteKeeps(part, GOOGLE, q); }
    var one := DropEmpty(part, GOOGLE);
    if IsEmptyObject(one, EXTRA) { DeleteKeeps(one, EXTRA, q); }
  }

  lemma PrefixesOf(q: Path, p: Path)
    requires |p| == 3
    ensures q <= p ==> q == [] || q == [p[0]] || q == [p[0], p[1]] || q == p
  {
    if q <= p { assert q == p[..|q|]; }
  }

  lemma ElsewhereIsApart(q: Path)
    requires Elsewhere(q)
    ensures forall i :: 0 <= i < |SIGNATURE_PATHS| ==> Apart(SIGNATURE_PATHS[i], q)
    ensures q[0] != "model" ==> forall i :: 0 <= i < |PROVENANCE_PATHS| ==> Apart(PROVENANCE_PATHS[i], q)
  {
    var inner := ["extra_content", "google", "thought_signature"];
    PrefixesOf(q, inner);
    ApartUnlessPrefix(inner, q);
    assert SIGNATURE_PATHS[3] == inner && PROVENANCE_PATHS[3] == inner && |PROVENANCE_PATHS| == 5;
  }

  // --------------------------------------------------------------- tool calls

  /** Stripping a tool call keeps everything but its five provenance fields, and these go. */
  lemma StripKeeps(part: Json, q: Path)
    ensures var k := StripTool(part).kept.value;
            && (Elsewhere(q) && q[0] != "model" ==> Get(k, q) == Get(part, q))
            && !Has(k, ["signature"]) && !Has(k, ["thoughtSignature"]) && !Has(k, ["thought_signature"]) && !Has(k, ["model"])
            && !Has(k, ["extra_content", "google", "thought_signature"])
  {
    var bare := DeleteAll(part, PROVENANCE_PATHS);
    PathsAreApart();
    if Elsewhere(q) && q[0] != "model" {
      ElsewhereIsApart(q);
      DeleteAllApart(part, PROVENANCE_PATHS, q);
      TidyElsewhere(bare, q);
    }
    StripGone(part);
  }

  lemma StripGone(part: Json)
    ensures var k := StripTool(part).kept.value;
            && !Has(k, ["signature"]) && !Has(k, ["thoughtSignature"]) && !Has(k, ["thought_signature"]) && !Has(k, ["model"])
            && !Has(k, ["extra_content", "google", "thought_signature"])
  {
    var bare := DeleteAll(part, PROVENANCE_PATHS);
    PathsAreApart();
    assert |PROVENANCE_PATHS| == 5 && PROVENANCE_PATHS[0] == ["signature"] && PROVENANCE_PATHS[1] == ["thoughtSignature"];
    assert PROVENANCE_PATHS[2] == ["thought_signature"] && PROVENANCE_PATHS[4] == ["model"];
    assert PROVENANCE_PATHS[3] == ["extra_content", "google", "thought_signature"];
    forall i | 0 <= i < 5 ensures !Has(Tidy(bare), PROVENANCE_PATHS[i]) {
      DeleteAllGone(part, PROVENANCE_PATHS, i);
      TidyKeepsPaths(bare, i);
    }
  }

  /** Sanitising a tool call keeps everything but its four signature fields. */
  lemma ToolKeeps(part: Json, target: Provider, q: Path)
    requires Elsewhere(q)
    ensures Get(SanitizeTool(part, target).kept.value, q) == Get(part, q)
  {
    PathsAreApart();
    ElsewhereIsApart(q);
    ToolFieldsApart(part, target, SIGNATURE_PATHS, q);
    TidyElsewhere(ToolFields(part, target, SIGNATURE_PATHS), q);
  }

  /** What becomes of a signature: it is replayed, replaced by the sentinel if Gemini is the target, or goes. */
  function Replayed(part: Json, target: Provider, path: Path): Option<Json> {
    var d := Decide(target, Text(part, path), AnyBlock);
    if !Has(part, path) then None
    else if d.compatible then (if Text(part, path) == d.normalized then Get(part, path) else Some(Str(d.normalized)))
    else if target == Gemini then Some(Str("skip_thought_signature_validator"))
    else None
  }

  lemma FieldAfterIs(part: Json, target: Provider, path: Path)
    requires NormalizeTarget(target) == target
    ensures FieldAfter(part, target, path) == Replayed(part, target, path)
  {
    var kind := ToolKind(target);
    if Decide(target, Text(part, path), kind).compatible { DecideAgain(target, Text(part, path), kind); }
    DecisionIs(target, Text(part, path), AnyBlock);
    DecisionIs(target, Text(part, path), kind);
    assert Decide(target, Text(part, path), kind).normalized == Decide(target, Text(part, path), AnyBlock).normalized;
    hide Normalized, Detect, Decide, Get, TrimSpace, Settled;
  }

  /** What becomes of the signature in each of the four fields of a tool call. */
  lemma ToolSignature(part: Json, target: Provider, path: Path)
    requires NormalizeTarget(target) == target
    requires path in [["signature"], ["thoughtSignature"], ["thought_signature"], ["extra_content", "google", "thought_signature"]]
    ensures Get(SanitizeTool(part, target).kept.value, path) == Replayed(part, target, path)
  {
    var i: nat :| i < 4 && path == SIGNATURE_PATHS[i];
    ToolAfter(part, target, i);
    FieldAfterIs(part, target, path);
    hide *;
  }

  // ------------------------------------------------------ provenance objects

  /** At the place of a provenance object, but no object. */
  predicate Solid(part: Json, q: Path) {
    (q == ["extra_content"] || q == ["extra_content", "google"]) && Has(part, q) && !Get(part, q).value.Obj?
  }

  lemma SolidHides(part: Json, q: Path)
    requires Solid(part, q)
    ensures !Has(part, ["extra_content", "google", "thought_signature"])
    ensures Tidy(part) == part
  {
    GetInner(part, ["extra_content", "google", "thought_signature"]);
    GetGoogle(part);
  }

  lemma {:induction false} FieldsBeside(part: Json, target: Provider, paths: seq<Path>, q: Path)
    requires AllApart(paths) && forall i :: 0 <= i < |paths| ==> Apart(paths[i], q) || !Has(part, paths[i])
    ensures Get(ToolFields(part, target, paths), q) == Get(part, q)
    ensures Get(DeleteAll(part, paths), q) == Get(part, q)
  {
    if paths != [] {
      var n := |paths| - 1;
      FieldsBeside(part, target, paths[..n], q);
      FieldsBeside(part, target, paths[..n], paths[n]);
      if Apart(paths[n], q) {
        ToolFieldApart(part, ToolFields(part, target, paths[..n]), target, paths[n], q);
        GetDeleteApart(DeleteAll(part, paths[..n]), paths[n], q);
      } else {
        DeleteMissing(DeleteAll(part, paths[..n]), paths[n]);
      }
    }
  }

  /** No empty provenance object is left, and what stands in the place of one and is no object is kept. */
  lemma ProvenanceObjects(part: Json, target: Provider, opts: Options, q: Path)
    requires Text(part, ["type"]) == "tool_use" && (q == ["extra_content"] || q == ["extra_content", "google"])
    ensures var k := SanitizePart(part, target, opts).kept;
            k.Some? && Get(k.value, q) != Some(Obj(map[])) && (Solid(part, q) ==> Get(k.value, q) == Get(part, q))
  {
    var bare, fields := DeleteAll(part, PROVENANCE_PATHS), ToolFields(part, target, SIGNATURE_PATHS);
    TidyIsTidy(bare);
    TidyIsTidy(fields);
    if Solid(part, q) {
      PathsAreApart();
      SolidHides(part, q);
      SolidIsApart(part, q);
      FieldsBeside(part, target, PROVENANCE_PATHS, q);
      FieldsBeside(part, target, SIGNATURE_PATHS, q);
      SolidHides(bare, q);
      SolidHides(fields, q);
    }
    hide Tidy, DeleteAll, ToolFields, TidyChanges, ToolFieldChanges, HasAny;
  }

  lemma SolidIsApart(part: Json, q: Path)
    requires Solid(part, q)
    ensures forall i :: 0 <= i < |PROVENANCE_PATHS| ==> Apart(PROVENANCE_PATHS[i], q) || !Has(part, PROVENANCE_PATHS[i])
    ensures forall i :: 0 <= i < |SIGNATURE_PATHS| ==> Apart(SIGNATURE_PATHS[i], q) || !Has(part, SIGNATURE_PATHS[i])
  {
    SolidHides(part, q);
    assert PROVENANCE_PATHS[3] == SIGNATURE_PATHS[3] == ["extra_content", "google", "thought_signature"] && |PROVENANCE_PATHS| == 5;
    hide Has;
  }

  // ----------------------------------------------------------- thinking parts

  /** Whether a part survives: all but thinking parts do, and of those the ones with a replayable signature
      and, for Claude, the empty ones without a signature unless these are unwanted. */
  predicate Survives(part: Json, target: Provider, opts: Options) {
    var found := Detect(Text(part, ["signature"]));
    || Text(part, ["type"]) != "thinking"
    || (target == Claude && found == Claude) || (target == Gpt && found == Gpt)
    || (target == Gemini && (found == Gemini || found == GeminiBypass))
    || (target == Claude && IsPlaceholder(part) && !opts.dropEmptyPlaceholders)
  }

  /** An empty placeholder, by where its text is. */
  lemma PlaceholderIs(part: Json, t: string)
    ensures var blank := TrimSpace(Text(part, ["signature"])) == "" && TrimSpace(t) == "";
            && (Get(part, ["text"]) == Some(Str(t)) ==> (IsPlaceholder(part) <==> blank))
            && (Get(part, ["text"]).None? && Get(part, ["thinking"]) == Some(Str(t)) ==> (IsPlaceholder(part) <==> blank))
            && (Get(part, ["text"]).None? && Get(part, ["thinking"]).None? && t == "" ==> (IsPlaceholder(part) <==> blank))
            && (Get(part, ["text"]).None? && Get(part, ["thinking", "text"]) == Some(Str(t)) ==> (IsPlaceholder(part) <==> blank))
            && (Get(part, ["text"]).None? && Get(part, ["thinking", "text"]).None? && Get(part, ["thinking", "thinking"]) == Some(Str(t)) ==>
                  (IsPlaceholder(part) <==> blank))
  {
    GetInside(part, "thinking", "text");
    GetInside(part, "thinking", "thinking");
    hide TrimSpace, Get;
  }

  lemma GetInside(part: Json, outer: string, inner: string)
    ensures Get(part, [outer, inner]) == if Get(part, [outer]).Some? then Get(Get(part, [outer]).value, [inner]) else None
    ensures Get(part, [outer, inner]).Some? ==> Get(part, [outer]).Some? && Get(part, [outer]).value.Obj?
  {
    GetOne(part, outer);
    assert [outer, inner][1..] == [inner];
    if Get(part, [outer]).Some? { GetOne(Get(part, [outer]).value, inner); }
  }

  lemma PlaceholderIsBare(part: Json, target: Provider, opts: Options)
    requires KeepsPlaceholder(part, target, opts)
    ensures !Decide(target, Text(part, ["signature"]), ClaudeThinking).compatible
  {
    DetectBlank(Text(part, ["signature"]));
  }

  /** What survives of a thinking part: all of it but its signature, which is replayed; of a placeholder, all. */
  lemma ThinkingKeeps(part: Json, target: Provider, opts: Options, q: Path)
    requires Text(part, ["type"]) == "thinking" && NormalizeTarget(target) == target
    ensures var k, d := SanitizePart(part, target, opts).kept, Decide(target, Text(part, ["signature"]), ClaudeThinking);
            && (k.Some? <==> Survives(part, target, opts))
            && (k.Some? && q != [] && q[0] != "signature" ==> Get(k.value, q) == Get(part, q))
            && (k.Some? && !d.compatible ==> k == Some(part))
            && (k.Some? && d.compatible ==> Get(k.value, ["signature"]) == Replayed(part, target, ["signature"]))
  {
    if KeepsPlaceholder(part, target, opts) { PlaceholderIsBare(part, target, opts); }
    hide Detect, IsPlaceholder;
    DecisionIs(target, Text(part, ["signature"]), ClaudeThinking);
    DecisionIs(target, Text(part, ["signature"]), AnyBlock);
    if !KeepsPlaceholder(part, target, opts) && SanitizeThinking(part, target).kept.Some? {
      ThinkingSurvives(part, target);
      if q != [] && q[0] != "signature" {
        GetSetApart(part, SIGNATURE, Str(Decide(target, Text(part, SIGNATURE), ClaudeThinking).normalized), q);
      }
    }
  }

  // --------------------------------------------------------------- the history

  /** What a part that survives keeps. */
  ghost predicate Keeps(part: Json, k: Json, target: Provider, opts: Options) {
    var t := Text(part, ["type"]);
    if t == "tool_use" then
      && Get(k, ["extra_content"]) != Some(Obj(map[])) && Get(k, ["extra_content", "google"]) != Some(Obj(map[]))
      && (Solid(part, ["extra_content"]) ==> Get(k, ["extra_content"]) == Get(part, ["extra_content"]))
      && (Solid(part, ["extra_content", "google"]) ==> Get(k, ["extra_content", "google"]) == Get(part, ["extra_content", "google"]))
      && (forall q: Path :: Elsewhere(q) && (opts.dropToolSignatures ==> q[0] != "model") ==> Get(k, q) == Get(part, q))
      && (opts.dropToolSignatures ==>
            && !Has(k, ["signature"]) && !Has(k, ["thoughtSignature"]) && !Has(k, ["thought_signature"]) && !Has(k, ["model"])
            && !Has(k, ["extra_content", "google", "thought_signature"]))
      && (!opts.dropToolSignatures ==>
            && Get(k, ["signature"]) == Replayed(part, target, ["signature"])
            && Get(k, ["thoughtSignature"]) == Replayed(part, target, ["thoughtSignature"])
            && Get(k, ["thought_signature"]) == Replayed(part, target, ["thought_signature"])
            && Get(k, ["extra_content", "google", "thought_signature"])
               == Replayed(part, target, ["extra_content", "google", "thought_signature"]))
    else if t == "thinking" then
      && (forall q: Path :: q != [] && q[0] != "signature" ==> Get(k, q) == Get(part, q))
      && if Decide(target, Text(part, ["signature"]), AnyBlock).compatible
         then Get(k, ["signature"]) == Replayed(part, target, ["signature"]) else k == part
    else k == part
  }

  lemma PartKeeps(part: Json, target: Provider, opts: Options)
    requires NormalizeTarget(target) == target
    ensures var k := SanitizePart(part, target, opts).kept;
            (k.Some? <==> Survives(part, target, opts)) && (k.Some? ==> Keeps(part, k.value, target, opts))
  {
    var t, k := Text(part, ["type"]), SanitizePart(part, target, opts).kept;
    if t == "tool_use" {
      ToolPartKeeps(part, target, opts);
    } else if t == "thinking" {
      forall q: Path ensures k.Some? && q != [] && q[0] != "signature" ==> Get(k.value, q) == Get(part, q) {
        ThinkingKeeps(part, target, opts, q);
      }
      ThinkingKeeps(part, target, opts, []);
    }
    hide SanitizeThinking, SanitizeTool, StripTool, Replayed, Decide;
  }

  lemma ToolPartKeeps(part: Json, target: Provider, opts: Options)
    requires Text(part, ["type"]) == "tool_use" && NormalizeTarget(target) == target
    ensures var k := SanitizePart(part, target, opts).kept;
            k.Some? && Keeps(part, k.value, target, opts)
  {
    var k := SanitizePart(part, target, opts).kept.value;
    forall q: Path ensures Elsewhere(q) && (opts.dropToolSignatures ==> q[0] != "model") ==> Get(k, q) == Get(part, q) {
      StripKeeps(part, q);
      if Elsewhere(q) { ToolKeeps(part, target, q); }
    }
    StripGone(part);
    ToolSignature(part, target, ["signature"]);
    ToolSignature(part, target, ["thoughtSignature"]);
    ToolSignature(part, target, ["thought_signature"]);
    ToolSignature(part, target, ["extra_content", "google", "thought_signature"]);
    ProvenanceObjects(part, target, opts, ["extra_content"]);
    ProvenanceObjects(part, target, opts, ["extra_content", "google"]);
    hide SanitizeTool, StripTool, Elsewhere, Replayed, Get, Solid;
  }

  function Surviving(parts: seq<Json>, target: Provider, opts: Options): seq<Json> {
    if parts == [] then []
    else
      var n := |parts| - 1;
      Surviving(parts[..n], target, opts) + if Survives(parts[n], target, opts) then [parts[n]] else []
  }

  /** The parts that survive, in their order, and what is kept of each. */
  ghost predicate AllKeep(parts: seq<Json>, kept: seq<Json>, target: Provider, opts: Options) {
    |kept| == |parts| && forall i :: 0 <= i < |parts| ==> Keeps(parts[i], kept[i], target, opts)
  }

  lemma {:induction false} PartsKeep(parts: seq<Json>, target: Provider, opts: Options)
    requires NormalizeTarget(target) == target
    ensures AllKeep(Surviving(parts, target, opts), KeptParts(parts, target, opts), target, opts)
  {
    hide SanitizePart, Survives, Keeps;
    if parts != [] {
      var n := |parts| - 1;
      PartsKeep(parts[..n], target, opts);
      PartKeeps(parts[n], target, opts);
    }
  }

  lemma MessageKeeps(message: Json, target: Provider, opts: Options)
    requires NormalizeTarget(target) == target
    ensures var m, surviving := SanitizeMessage(message, target, opts), Surviving(PartsOf(message), target, opts);
            && (m.None? <==> opts.dropEmptyMessages && PartsOf(message) != [] && surviving == [])
            && (m.Some? ==> SameButContent(m.value, message) && AllKeep(surviving, PartsOf(m.value), target, opts))
  {
    MessageStays(message, target, opts);
    if IsArr(Content(message)) {
      MessageIs(message, target, opts);
      PartsKeep(PartsOf(message), target, opts);
      hide Keeps, Surviving;
      if PartsOf(message) != [] { NothingKept(PartsOf(message), target, opts); }
    }
    hide SanitizePart, KeptParts, AnyChanged, SameButContent, Keeps;
  }

  /** The messages that remain: all, or all but those whose parts are all lost. */
  function Remaining(messages: seq<Json>, target: Provider, opts: Options): seq<Json> {
    if messages == [] then []
    else
      var n := |messages| - 1;
      var lost := opts.dropEmptyMessages && PartsOf(messages[n]) != [] && Surviving(PartsOf(messages[n]), target, opts) == [];
      Remaining(messages[..n], target, opts) + if lost then [] else [messages[n]]
  }

  ghost predicate MessageKept(message: Json, m: Json, target: Provider, opts: Options) {
    SameButContent(m, message) && AllKeep(Surviving(PartsOf(message), target, opts), PartsOf(m), target, opts)
  }

  lemma {:induction false} MessagesKeep(messages: seq<Json>, target: Provider, opts: Options)
    requires NormalizeTarget(target) == target
    ensures var kept, remaining := KeptMessages(messages, target, opts), Remaining(messages, target, opts);
            |kept| == |remaining| && forall i :: 0 <= i < |kept| ==> MessageKept(remaining[i], kept[i], target, opts)
  {
    hide SanitizeMessage, PartsOf, Surviving, AllKeep, SameButContent;
    if messages != [] {
      MessagesKeep(messages[..|messages| - 1], target, opts);
      MessageKeeps(messages[|messages| - 1], target, opts);
    }
  }

  /** Main result: of every history exactly the parts that survive are left, message by message and in order,
      with all they held but their signatures; a tool call keeps its identifier, its name, its input and
      whatever else it has, and where that is asked for it has no provenance left. */
  lemma HistoryKeeps(payload: Json, opts: Options)
    ensures var target, after := TargetOf(opts), MessagesOf(Sanitize(payload, opts));
            var remaining := Remaining(MessagesOf(payload), target, opts);
            |after| == |remaining| && forall i :: 0 <= i < |after| ==> MessageKept(remaining[i], after[i], target, opts)
  {
    hide TargetOf, MessageKept, AnyModified, SanitizeMessage;
    if IsArr(Get(payload, MESSAGES)) {
      SanitizeIs(payload, opts);
      TargetIsNormal(opts);
      MessagesKeep(MessagesOf(payload), TargetOf(opts), opts);
    } else {
      assert Sanitize(payload, opts) == payload && MessagesOf(payload) == [];
      NoneRemain(TargetOf(opts), opts);
    }
  }

  lemma NoneRemain(target: Provider, opts: Options)
    ensures Remaining([], target, opts) == []
  {
  }

  // --------------------------------------------------------------- the report

  function AllParts(messages: seq<Json>): seq<Json> {
    if messages == [] then [] else AllParts(messages[..|messages| - 1]) + PartsOf(messages[|messages| - 1])
  }

  /** How many decisions ask for an action. */
  function Tally(ds: seq<Decision>, a: Action): nat {
    if ds == [] then 0 else Tally(ds[..|ds| - 1], a) + if ds[|ds| - 1].action == a then 1 else 0
  }

  lemma {:induction false} TallyJoins(ds: seq<Decision>, es: seq<Decision>, a: Action)
    ensures Tally(ds + es, a) == Tally(ds, a) + Tally(es, a)
  {
    if es == [] {
      assert ds + es == ds;
    } else {
      TallyJoins(ds, es[..|es| - 1], a);
      assert ds + es == (ds + es[..|es| - 1]) + [es[|es| - 1]];
    }
  }

  /** The parts whose provenance is stripped. */
  predicate Stripped(part: Json) {
    Text(part, ["type"]) == "tool_use" && StripTool(part).kept != Some(part)
  }

  function StrippedParts(parts: seq<Json>): seq<Json> {
    if parts == [] then []
    else StrippedParts(parts[..|parts| - 1]) + if Stripped(parts[|parts| - 1]) then [parts[|parts| - 1]] else []
  }

  lemma {:induction false} ToolReportsAre(ds: seq<Decision>)
    ensures ToolReports(ds).preserved == Tally(ds, Preserve) && ToolReports(ds).replaced == Tally(ds, ReplaceWithBypass)
    ensures ToolReports(ds).droppedBlocks == 0
  {
    if ds != [] { ToolReportsAre(ds[..|ds| - 1]); }
  }

  predicate ReportFits(r: Report, parts: seq<Json>, target: Provider, opts: Options) {
    && r.preserved == Tally(r.decisions, Preserve) && r.replaced == Tally(r.decisions, ReplaceWithBypass)
    && r.droppedBlocks == |parts| - |Surviving(parts, target, opts)|
    && (opts.dropToolSignatures ==> r.droppedSignatures == |StrippedParts(parts)|)
  }

  lemma {:induction false} SurvivingJoins(a: seq<Json>, b: seq<Json>, target: Provider, opts: Options)
    ensures |Surviving(a + b, target, opts)| == |Surviving(a, target, opts)| + |Surviving(b, target, opts)|
    ensures |StrippedParts(a + b)| == |StrippedParts(a)| + |StrippedParts(b)|
  {
    hide Survives, Stripped;
    if b == [] {
      assert a + b == a;
    } else {
      var n := |b| - 1;
      SurvivingJoins(a, b[..n], target, opts);
      assert (a + b)[..|a + b| - 1] == a + b[..n] && (a + b)[|a + b| - 1] == b[n];
    }
  }

  lemma FitsJoin(r: Report, a: seq<Json>, s: Report, b: seq<Json>, target: Provider, opts: Options)
    requires ReportFits(r, a, target, opts) && ReportFits(s, b, target, opts)
    ensures ReportFits(Plus(r, s), a + b, target, opts)
  {
    TallyJoins(r.decisions, s.decisions, Preserve);
    TallyJoins(r.decisions, s.decisions, ReplaceWithBypass);
    SurvivingJoins(a, b, target, opts);
    hide Tally, Surviving, StrippedParts;
  }

  lemma SinglePart(part: Json, target: Provider, opts: Options)
    ensures |Surviving([part], target, opts)| == if Survives(part, target, opts) then 1 else 0
    ensures |StrippedParts([part])| == if Stripped(part) then 1 else 0
  {
    hide Survives, Stripped;
    assert [part][..0] == [] && Surviving([], target, opts) == [] && StrippedParts([]) == [];
  }

  lemma ThinkingFits(part: Json, target: Provider)
    ensures var o := SanitizeThinking(part, target);
            && o.report.preserved == Tally(o.report.decisions, Preserve)
            && o.report.replaced == Tally(o.report.decisions, ReplaceWithBypass)
            && o.report.droppedSignatures == 0 && o.report.droppedBlocks == if o.kept.Some? then 0 else 1
  {
    var d := Decide(target, Text(part, SIGNATURE), ClaudeThinking);
    DecisionIs(target, Text(part, SIGNATURE), ClaudeThinking);
    hide Decide;
    assert forall a: Action :: Tally([d], a) == if d.action == a then 1 else 0 by { assert [d][..0] == []; }
  }

  lemma StripFits(part: Json)
    requires Text(part, ["type"]) == "tool_use"
    ensures StripTool(part).report == NO_REPORT.(droppedSignatures := if Stripped(part) then 1 else 0)
  {
    PartChanged(part, Claude, Options(Claude, "", false, true, false));
    hide DeleteAll, HasAny, TidyChanges, Tidy;
  }

  lemma PartFits(part: Json, target: Provider, opts: Options)
    requires NormalizeTarget(target) == target
    ensures ReportFits(SanitizePart(part, target, opts).report, [part], target, opts)
  {
    PartKeeps(part, target, opts);
    SinglePart(part, target, opts);
    if PartType(part) == "tool_use" {
      StripFits(part);
      ToolReportsAre(ToolDecisions(part, target, SIGNATURE_PATHS));
    } else {
      ThinkingFits(part, target);
    }
    hide SanitizeThinking, StripTool, Survives, Surviving, StrippedParts, KeepsPlaceholder, Keeps, ToolReports, ToolDecisions, ToolFields;
    assert Tally([], Preserve) == 0 && Tally([], ReplaceWithBypass) == 0;
  }

  lemma {:induction false} PartsFit(parts: seq<Json>, target: Provider, opts: Options)
    requires NormalizeTarget(target) == target
    ensures ReportFits(PartsReport(parts, target, opts), parts, target, opts)
  {
    hide SanitizePart, Survives, Stripped;
    if parts != [] {
      var n := |parts| - 1;
      PartsFit(parts[..n], target, opts);
      PartFits(parts[n], target, opts);
      FitsJoin(PartsReport(parts[..n], target, opts), parts[..n],
               SanitizePart(parts[n], target, opts).report, [parts[n]], target, opts);
      assert parts == parts[..n] + [parts[n]];
      hide ReportFits;
    }
  }

  lemma MessageReportIs(message: Json, target: Provider, opts: Options)
    ensures MessageReport(message, target, opts) == PartsReport(PartsOf(message), target, opts)
  {
  }

  lemma {:induction false} MessagesFit(messages: seq<Json>, target: Provider, opts: Options)
    requires NormalizeTarget(target) == target
    ensures ReportFits(MessagesReport(messages, target, opts), AllParts(messages), target, opts)
  {
    hide PartsReport, Survives, Stripped;
    if messages != [] {
      var n := |messages| - 1;
      MessagesFit(messages[..n], target, opts);
      PartsFit(PartsOf(messages[n]), target, opts);
      FitsJoin(MessagesReport(messages[..n], target, opts), AllParts(messages[..n]),
               PartsReport(PartsOf(messages[n]), target, opts), PartsOf(messages[n]), target, opts);
      MessageReportIs(messages[n], target, opts);
      hide ReportFits, MessageReport, PartsOf;
    }
  }

  /** Main result: of every report the counters mean what their names say. Preserved and replaced are the
      decisions to do so, dropped blocks are the parts that do not survive, and where provenance is stripped
      the dropped signatures are the tool calls that this changes. */
  lemma ReportMeans(payload: Json, opts: Options)
    ensures ReportFits(SanitizeReport(payload, opts), AllParts(MessagesOf(payload)), TargetOf(opts), opts)
  {
    hide MessagesReport, TargetOf, Survives, Stripped;
    TargetIsNormal(opts);
    MessagesFit(MessagesOf(payload), TargetOf(opts), opts);
  }
}
