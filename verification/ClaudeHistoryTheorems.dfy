/** The guarantees of Claude history sanitising, for whole histories. */
module ClaudeHistoryTheorems {
  import opened Common
  import opened Strings
  import opened Json
  import opened Recognisers
  import opened Compatibility
  import opened ClaudeHistory
  import opened ClaudeHistoryProofs
  import opened NormalForms
  import SignatureWalks

  lemma TargetIsNormal(opts: Options)
    ensures NormalizeTarget(TargetOf(opts)) == TargetOf(opts)
  {
  }

  // ---------------------------------------------------------------- messages

  /** Whether or not a message is rewritten, its content afterwards is the kept parts. */
  lemma MessageIs(message: Json, target: Provider, opts: Options)
    requires IsArr(Content(message))
    ensures var parts, m := Content(message).value.items, SanitizeMessage(message, target, opts);
            && (m.None? <==> AnyChanged(parts, target, opts) && KeptParts(parts, target, opts) == [] && opts.dropEmptyMessages)
            && (m.Some? ==> m.value == Set(message, ["content"], Arr(KeptParts(parts, target, opts)))
                            && Content(m.value) == Some(Arr(KeptParts(parts, target, opts))))
  {
    hide SanitizePart;
    var parts := Content(message).value.items;
    if !AnyChanged(parts, target, opts) {
      UnchangedParts(parts, target, opts);
      SetSame(message, ["content"], Arr(parts));
    }
    GetSet(message, ["content"], Arr(KeptParts(parts, target, opts)));
  }

  predicate MessageSettled(message: Json, target: Provider, opts: Options) {
    IsArr(Content(message)) ==> PartsSettled(Content(message).value.items, target, opts)
  }

  predicate MessageClean(message: Json, target: Provider, opts: Options) {
    IsArr(Content(message)) ==> AllClean(Content(message).value.items, target, opts)
  }

  lemma SetContentTwice(message: Json, v: Json, w: Json)
    requires Has(message, ["content"])
    ensures Set(Set(message, ["content"], v), ["content"], w) == Set(message, ["content"], w)
    ensures Set(message, ["content"], v) == Set(message, ["content"], w) <==> v == w
  {
    GetSet(message, ["content"], v);
    GetSet(message, ["content"], w);
    assert ["content"][1..] == [];
    if message.Obj? {
      assert message.fields["content" := v]["content" := w] == message.fields["content" := w];
    }
  }

  /** A kept message is clean and settled; sanitising it again keeps it, and changes it exactly when
      the original was not settled. */
  lemma MessageTwice(message: Json, target: Provider, opts: Options)
    requires NormalizeTarget(target) == target
    ensures var m := SanitizeMessage(message, target, opts);
            if m.None? then MessageSettled(message, target, opts)
            else && MessageClean(m.value, target, opts) && MessageSettled(m.value, target, opts)
                 && SanitizeMessage(m.value, target, opts).Some?
                 && (SanitizeMessage(m.value, target, opts) == Some(m.value) <==> MessageSettled(message, target, opts))
  {
    hide SanitizePart, Clean, PartSettled;
    if IsArr(Content(message)) {
      var parts := Content(message).value.items;
      var kept := KeptParts(parts, target, opts);
      MessageIs(message, target, opts);
      PartsTwice(parts, target, opts);
      var m := SanitizeMessage(message, target, opts);
      if m.Some? {
        MessageIs(m.value, target, opts);
        SetContentTwice(message, Arr(kept), Arr(KeptParts(kept, target, opts)));
        assert kept == [] ==> !AnyChanged(kept, target, opts);
      }
    }
  }

  predicate MessagesSettled(messages: seq<Json>, target: Provider, opts: Options) {
    forall i :: 0 <= i < |messages| ==> MessageSettled(messages[i], target, opts)
  }

  predicate MessagesClean(messages: seq<Json>, target: Provider, opts: Options) {
    forall i :: 0 <= i < |messages| ==> MessageClean(messages[i], target, opts)
  }

  lemma {:induction false} MessagesTwice(messages: seq<Json>, target: Provider, opts: Options)
    requires NormalizeTarget(target) == target
    ensures var kept := KeptMessages(messages, target, opts);
            && MessagesClean(kept, target, opts) && MessagesSettled(kept, target, opts)
            && |KeptMessages(kept, target, opts)| == |kept|
            && (KeptMessages(kept, target, opts) == kept <==> MessagesSettled(messages, target, opts))
  {
    hide SanitizeMessage, MessageSettled, MessageClean;
    if messages != [] {
      var n := |messages| - 1;
      var before, last := KeptMessages(messages[..n], target, opts), SanitizeMessage(messages[n], target, opts);
      MessagesTwice(messages[..n], target, opts);
      MessageTwice(messages[n], target, opts);
      assert MessagesSettled(messages, target, opts) <==> MessagesSettled(messages[..n], target, opts) && MessageSettled(messages[n], target, opts) by {
        assert forall i :: 0 <= i < n ==> messages[..n][i] == messages[i];
      }
      if last.Some? {
        var kept := before + [last.value];
        assert kept[..|kept| - 1] == before;
        var again := KeptMessages(before, target, opts);
        assert KeptMessages(kept, target, opts) == again + [SanitizeMessage(last.value, target, opts).value];
        assert again + [SanitizeMessage(last.value, target, opts).value] == kept
          <==> again == before && SanitizeMessage(last.value, target, opts).value == last.value;
      } else {
        assert before + [] == before;
      }
    }
  }

  lemma UnmodifiedMessage(message: Json, target: Provider, opts: Options)
    requires !MessageModified(message, target, opts)
    ensures SanitizeMessage(message, target, opts) == Some(message)
  {
    hide KeptParts, AnyChanged, Get;
  }

  lemma {:induction false} UnmodifiedMessages(messages: seq<Json>, target: Provider, opts: Options)
    requires !AnyModified(messages, target, opts)
    ensures KeptMessages(messages, target, opts) == messages
  {
    hide SanitizeMessage, MessageModified;
    if messages != [] {
      var n := |messages| - 1;
      assert forall i :: 0 <= i < n ==> messages[..n][i] == messages[i];
      UnmodifiedMessages(messages[..n], target, opts);
      UnmodifiedMessage(messages[n], target, opts);
    }
  }

  // ----------------------------------------------------------------- payloads

  function MessagesOf(payload: Json): seq<Json> {
    if IsArr(Get(payload, MESSAGES)) then Get(payload, MESSAGES).value.items else []
  }

  lemma SanitizeIs(payload: Json, opts: Options)
    requires IsArr(Get(payload, MESSAGES))
    ensures Sanitize(payload, opts) == Set(payload, MESSAGES, Arr(KeptMessages(MessagesOf(payload), TargetOf(opts), opts)))
    ensures Get(Sanitize(payload, opts), MESSAGES) == Some(Arr(KeptMessages(MessagesOf(payload), TargetOf(opts), opts)))
  {
    hide SanitizeMessage, MessageModified;
    var messages := MessagesOf(payload);
    if !AnyModified(messages, TargetOf(opts), opts) {
      UnmodifiedMessages(messages, TargetOf(opts), opts);
      SetSame(payload, MESSAGES, Arr(messages));
    }
    GetSet(payload, MESSAGES, Arr(KeptMessages(messages, TargetOf(opts), opts)));
  }

  /** Main result: every message of a sanitised history is clean. A thinking part carries a
      signature that the target replays, or is a permitted empty placeholder; a tool call carries
      only signatures that the target replays, or no provenance at all where that was asked for. */
  lemma SanitizedIsClean(payload: Json, opts: Options)
    ensures MessagesClean(MessagesOf(Sanitize(payload, opts)), TargetOf(opts), opts)
  {
    hide SanitizeMessage, MessageClean, MessageSettled, TargetOf, AnyModified;
    if IsArr(Get(payload, MESSAGES)) {
      SanitizeIs(payload, opts);
      TargetIsNormal(opts);
      MessagesTwice(MessagesOf(payload), TargetOf(opts), opts);
    }
  }

  /** Main result: sanitising twice is sanitising once, exactly when no message carries, for Claude, a
      Claude signature in R-form whose inner text ends in a line break; and a third time never changes
      anything. */
  lemma SanitizeTwice(payload: Json, opts: Options)
    ensures var once := Sanitize(payload, opts);
            && (Sanitize(once, opts) == once <==> MessagesSettled(MessagesOf(payload), TargetOf(opts), opts))
            && Sanitize(Sanitize(once, opts), opts) == Sanitize(once, opts)
  {
    hide SanitizeMessage, MessageClean, MessageSettled, TargetOf, AnyModified;
    if IsArr(Get(payload, MESSAGES)) {
      TargetIsNormal(opts);
      SettledPayload(payload, opts);
      SettledPayload(Sanitize(payload, opts), opts);
    } else {
      assert Sanitize(payload, opts) == payload;
    }
  }

  lemma SettledPayload(payload: Json, opts: Options)
    requires IsArr(Get(payload, MESSAGES)) && NormalizeTarget(TargetOf(opts)) == TargetOf(opts)
    ensures var once := Sanitize(payload, opts);
            && IsArr(Get(once, MESSAGES)) && MessagesSettled(MessagesOf(once), TargetOf(opts), opts)
            && (Sanitize(once, opts) == once <==> MessagesSettled(MessagesOf(payload), TargetOf(opts), opts))
  {
    hide SanitizeMessage, MessageClean, MessageSettled, TargetOf, AnyModified, Sanitize;
    var once, messages := Sanitize(payload, opts), MessagesOf(payload);
    SanitizeIs(payload, opts);
    MessagesTwice(messages, TargetOf(opts), opts);
    SanitizeIs(once, opts);
    var kept := KeptMessages(messages, TargetOf(opts), opts);
    var again := KeptMessages(kept, TargetOf(opts), opts);
    if again == kept {
      SetSame(once, MESSAGES, Arr(kept));
    }
  }

  /** A history of one thinking part. */
  function History(raw: string): Json {
    var part := Obj(map["type" := Str("thinking"), "signature" := Str(raw)]);
    Obj(map["messages" := Arr([Obj(map["content" := Arr([part])])])])
  }

  lemma HistoryParts(raw: string)
    ensures IsArr(Get(History(raw), MESSAGES)) && |MessagesOf(History(raw))| == 1
    ensures var content := Content(MessagesOf(History(raw))[0]);
            && IsArr(content) && |content.value.items| == 1
            && PartType(content.value.items[0]) == "thinking" && Text(content.value.items[0], SIGNATURE) == raw
  {
    var part := Obj(map["type" := Str("thinking"), "signature" := Str(raw)]);
    var message := Obj(map["content" := Arr([part])]);
    assert Get(part, ["type"]) == Some(Str("thinking")) && Get(part, SIGNATURE) == Some(Str(raw));
    assert Get(message, ["content"]) == Some(Arr([part]));
    assert Get(History(raw), MESSAGES) == Some(Arr([message]));
  }

  /** A history of one thinking part settles at once exactly when its signature is settled. */
  lemma HistorySettled(raw: string, opts: Options)
    requires TrimSpace(raw) != ""
    ensures Sanitize(Sanitize(History(raw), opts), opts) == Sanitize(History(raw), opts) <==> Settled(TargetOf(opts), raw)
  {
    hide Sanitize, Settled, TargetOf, History;
    HistoryParts(raw);
    SanitizeTwice(History(raw), opts);
    var message := MessagesOf(History(raw))[0];
    var part := Content(message).value.items[0];
    assert MessagesSettled(MessagesOf(History(raw)), TargetOf(opts), opts) <==> MessageSettled(message, TargetOf(opts), opts);
    assert MessageSettled(message, TargetOf(opts), opts) <==> PartSettled(part, TargetOf(opts), opts);
    assert "thinking" != "tool_use";
  }

  /** Sanitising a history for Claude does not always settle it at once. */
  lemma UnsettledHistory(opts: Options)
    requires TargetOf(opts) == Claude
    ensures exists raw :: Sanitize(Sanitize(History(raw), opts), opts) != Sanitize(History(raw), opts)
  {
    hide Sanitize, History, TargetOf, Settled, TrimSpace, IsClaude, Detect;
    var raw := SignatureWalks.WrappedBreak();
    WrappedIsUnsettled(raw);
    HistorySettled(raw, opts);
  }

  lemma WrappedIsUnsettled(raw: string)
    requires StripClaudePrefix(raw) == TrimSpace(raw) == raw != "" && AfterHash(raw).None?
    requires ClaudeOk(raw, true) && WrapsBreak(raw)
    ensures !Settled(Claude, raw)
  {
    hide TrimSpace, ClaudeOk, WrapsBreak, Detect;
    DetectNoHash(Claude, raw);
    NoPrefix(raw);
  }

  // ---------------------------------------------------------- what is changed

  lemma MessageChanged(message: Json, target: Provider, opts: Options)
    requires NormalizeTarget(target) == target
    ensures MessageModified(message, target, opts) <==> SanitizeMessage(message, target, opts) != Some(message)
  {
    if IsArr(Content(message)) {
      MessageIs(message, target, opts);
      PartsChanged(Content(message).value.items, target, opts);
    }
    hide KeptParts, AnyChanged;
  }

  lemma ModifiedLast(messages: seq<Json>, last: Json, target: Provider, opts: Options)
    ensures AnyModified(messages + [last], target, opts) <==> AnyModified(messages, target, opts) || MessageModified(last, target, opts)
  {
    hide MessageModified;
    var all := messages + [last];
    assert all[|messages|] == last && forall i :: 0 <= i < |messages| ==> all[i] == messages[i];
  }

  lemma KeptLast(messages: seq<Json>, last: Json, target: Provider, opts: Options)
    ensures var m := SanitizeMessage(last, target, opts);
            KeptMessages(messages + [last], target, opts) == KeptMessages(messages, target, opts) + if m.Some? then [m.value] else []
  {
    hide SanitizeMessage;
    assert (messages + [last])[..|messages|] == messages;
  }

  lemma {:induction false} MessagesChanged(messages: seq<Json>, target: Provider, opts: Options)
    requires NormalizeTarget(target) == target
    ensures AnyModified(messages, target, opts) <==> KeptMessages(messages, target, opts) != messages
    ensures |KeptMessages(messages, target, opts)| <= |messages|
  {
    if messages != [] {
      var init, last := messages[..|messages| - 1], messages[|messages| - 1];
      MessagesChanged(init, target, opts);
      MessageChanged(last, target, opts);
      assert messages == init + [last];
      ModifiedLast(init, last, target, opts);
      KeptLast(init, last, target, opts);
      hide *;
      var before, m := KeptMessages(init, target, opts), SanitizeMessage(last, target, opts);
      if m.Some? {
        assert before + [m.value] == init + [last] <==> before == init && m.value == last;
      }
    }
  }

  /** A payload is rewritten exactly when that changes it. */
  lemma PayloadChanged(payload: Json, opts: Options)
    ensures Sanitize(payload, opts) != payload
            <==> IsArr(Get(payload, MESSAGES)) && AnyModified(MessagesOf(payload), TargetOf(opts), opts)
  {
    hide KeptMessages, AnyModified, TargetOf;
    if IsArr(Get(payload, MESSAGES)) {
      SanitizeIs(payload, opts);
      TargetIsNormal(opts);
      MessagesChanged(MessagesOf(payload), TargetOf(opts), opts);
    }
  }

  // ------------------------------------------------------------ what survives

  predicate IsPlainPart(part: Json) {
    !IsTool(part) && !IsThinking(part)
  }

  function PlainParts(parts: seq<Json>): seq<Json> {
    if parts == [] then []
    else PlainParts(parts[..|parts| - 1]) + if IsPlainPart(parts[|parts| - 1]) then [parts[|parts| - 1]] else []
  }

  function PartTypes(parts: seq<Json>): seq<string> {
    if parts == [] then []
    else PartTypes(parts[..|parts| - 1]) + if IsThinking(parts[|parts| - 1]) then [] else [PartType(parts[|parts| - 1])]
  }

  lemma PartKept(part: Json, target: Provider, opts: Options)
    requires NormalizeTarget(target) == target
    ensures var kept := SanitizePart(part, target, opts).kept;
            && (kept.Some? ==> PartType(kept.value) == PartType(part))
            && (!IsThinking(part) ==> kept.Some?)
            && (IsPlainPart(part) ==> kept == Some(part))
  {
    if SanitizePart(part, target, opts).kept.Some? {
      PartTwice(part, target, opts);
    } else {
      PartDropped(part, target, opts);
    }
  }

  /** In one message: parts that are neither thinking nor tool calls survive unchanged and in order, and
      all parts but thinking ones survive in order. */
  lemma {:induction false} PlainPartsSurvive(parts: seq<Json>, target: Provider, opts: Options)
    requires NormalizeTarget(target) == target
    ensures PlainParts(KeptParts(parts, target, opts)) == PlainParts(parts)
    ensures PartTypes(KeptParts(parts, target, opts)) == PartTypes(parts)
  {
    hide SanitizePart, PartType;
    if parts != [] {
      var n := |parts| - 1;
      var before, last := KeptParts(parts[..n], target, opts), SanitizePart(parts[n], target, opts).kept;
      PlainPartsSurvive(parts[..n], target, opts);
      PartKept(parts[n], target, opts);
      if last.Some? {
        assert (before + [last.value])[..|before|] == before;
      } else {
        assert before + [] == before;
      }
    }
  }

  /** The parts of a message; none where its content is not a list. */
  function PartsOf(message: Json): seq<Json> {
    if IsArr(Content(message)) then Content(message).value.items else []
  }

  /** The plain parts of a history, message by message. */
  function PlainOf(messages: seq<Json>): seq<Json> {
    if messages == [] then [] else PlainOf(messages[..|messages| - 1]) + PlainParts(PartsOf(messages[|messages| - 1]))
  }

  /** The types of all parts but thinking ones. */
  function TypesOf(messages: seq<Json>): seq<string> {
    if messages == [] then [] else TypesOf(messages[..|messages| - 1]) + PartTypes(PartsOf(messages[|messages| - 1]))
  }

  /** What is left of a message has its plain parts, and a dropped message had none. */
  lemma MessagePlain(message: Json, target: Provider, opts: Options)
    requires NormalizeTarget(target) == target
    ensures var m := SanitizeMessage(message, target, opts);
            var after := if m.Some? then PartsOf(m.value) else [];
            PlainParts(after) == PlainParts(PartsOf(message)) && PartTypes(after) == PartTypes(PartsOf(message))
  {
    if IsArr(Content(message)) {
      MessageIs(message, target, opts);
      PlainPartsSurvive(PartsOf(message), target, opts);
    }
    hide KeptParts, PlainParts, PartTypes, AnyChanged;
  }

  lemma {:induction false} MessagesPlain(messages: seq<Json>, target: Provider, opts: Options)
    requires NormalizeTarget(target) == target
    ensures PlainOf(KeptMessages(messages, target, opts)) == PlainOf(messages)
    ensures TypesOf(KeptMessages(messages, target, opts)) == TypesOf(messages)
  {
    hide SanitizeMessage, PlainParts, PartTypes, PartsOf;
    if messages != [] {
      var n := |messages| - 1;
      var before, last := KeptMessages(messages[..n], target, opts), SanitizeMessage(messages[n], target, opts);
      MessagesPlain(messages[..n], target, opts);
      MessagePlain(messages[n], target, opts);
      if last.Some? {
        assert (before + [last.value])[..|before|] == before;
      } else {
        NoParts();
        assert before + [] == before;
      }
    }
  }

  lemma NoParts()
    ensures PlainParts([]) == [] && PartTypes([]) == []
  {
  }

  /** Main result: in every payload, all parts that are neither thinking nor tool calls survive unchanged
      and in order, and all parts but thinking ones survive in order; so a message that is dropped as
      empty held none of either. */
  lemma PlainSurvives(payload: Json, opts: Options)
    ensures PlainOf(MessagesOf(Sanitize(payload, opts))) == PlainOf(MessagesOf(payload))
    ensures TypesOf(MessagesOf(Sanitize(payload, opts))) == TypesOf(MessagesOf(payload))
  {
    hide PlainOf, TypesOf, KeptMessages, TargetOf, AnyModified;
    if IsArr(Get(payload, MESSAGES)) {
      SanitizeIs(payload, opts);
      TargetIsNormal(opts);
      MessagesPlain(MessagesOf(payload), TargetOf(opts), opts);
    }
  }

  /** A message goes when empty messages are to be dropped and none of its parts, of which there are
      some, is kept. */
  predicate Dropped(message: Json, target: Provider, opts: Options) {
    && opts.dropEmptyMessages && PartsOf(message) != []
    && forall i :: 0 <= i < |PartsOf(message)| ==> SanitizePart(PartsOf(message)[i], target, opts).kept.None?
  }

  /** The messages that do not go. */
  function Staying(messages: seq<Json>, target: Provider, opts: Options): seq<Json> {
    if messages == [] then []
    else
      var last := messages[|messages| - 1];
      Staying(messages[..|messages| - 1], target, opts) + if Dropped(last, target, opts) then [] else [last]
  }

  /** The two are equal but for what a list of contents holds. */
  predicate SameButContent(a: Json, b: Json) {
    a == b || (IsArr(Content(a)) && IsArr(Content(b)) && Set(a, ["content"], Null) == Set(b, ["content"], Null))
  }

  lemma {:induction false} NothingKept(parts: seq<Json>, target: Provider, opts: Options)
    ensures KeptParts(parts, target, opts) == [] <==> forall i :: 0 <= i < |parts| ==> SanitizePart(parts[i], target, opts).kept.None?
  {
    hide SanitizePart;
    if parts != [] {
      var n := |parts| - 1;
      NothingKept(parts[..n], target, opts);
      assert forall i :: 0 <= i < n ==> parts[..n][i] == parts[i];
    }
  }

  lemma MessageStays(message: Json, target: Provider, opts: Options)
    requires NormalizeTarget(target) == target
    ensures var m := SanitizeMessage(message, target, opts);
            if Dropped(message, target, opts) then m.None? else m.Some? && SameButContent(m.value, message)
  {
    if IsArr(Content(message)) {
      var parts := PartsOf(message);
      MessageIs(message, target, opts);
      NothingKept(parts, target, opts);
      if parts != [] && SanitizePart(parts[0], target, opts).kept.None? { PartDropped(parts[0], target, opts); }
      var m := SanitizeMessage(message, target, opts);
      hide SanitizePart, SanitizeMessage, KeptParts;
      if m.Some? { SetContentTwice(message, Arr(KeptParts(parts, target, opts)), Null); }
    }
  }

  lemma {:induction false} MessagesStay(messages: seq<Json>, target: Provider, opts: Options)
    requires NormalizeTarget(target) == target
    ensures var kept, staying := KeptMessages(messages, target, opts), Staying(messages, target, opts);
            |kept| == |staying| && forall i :: 0 <= i < |kept| ==> SameButContent(kept[i], staying[i])
  {
    hide SanitizeMessage, Dropped, SameButContent;
    if messages != [] {
      MessagesStay(messages[..|messages| - 1], target, opts);
      MessageStays(messages[|messages| - 1], target, opts);
    }
  }

  /** Main result: exactly the messages with parts of which none is kept are dropped, if that is asked
      for; the others stay in order, each changed in nothing but its list of contents, and nothing beside
      the messages changes. */
  lemma FrameSurvives(payload: Json, opts: Options)
    ensures var after, staying := MessagesOf(Sanitize(payload, opts)), Staying(MessagesOf(payload), TargetOf(opts), opts);
            |after| == |staying| && forall i :: 0 <= i < |after| ==> SameButContent(after[i], staying[i])
    ensures forall q :: Apart(MESSAGES, q) ==> Get(Sanitize(payload, opts), q) == Get(payload, q)
  {
    hide SanitizeMessage, Staying, SameButContent, TargetOf, AnyModified;
    if IsArr(Get(payload, MESSAGES)) {
      var messages := MessagesOf(payload);
      SanitizeIs(payload, opts);
      TargetIsNormal(opts);
      MessagesStay(messages, TargetOf(opts), opts);
      forall q | Apart(MESSAGES, q) ensures Get(Sanitize(payload, opts), q) == Get(payload, q) {
        GetSetApart(payload, MESSAGES, Arr(KeptMessages(messages, TargetOf(opts), opts)), q);
      }
    } else {
      assert Sanitize(payload, opts) == payload && MessagesOf(payload) == [];
      assert Staying([], TargetOf(opts), opts) == [] by { NobodyStays(TargetOf(opts), opts); }
    }
  }

  lemma NobodyStays(target: Provider, opts: Options)
    ensures Staying([], target, opts) == []
  {
  }

  // ------------------------------------------------------------------ counting

  function Counted(r: Report): nat {
    r.preserved + r.droppedBlocks + r.droppedSignatures + r.replaced
  }

  lemma {:induction false} ToolReportsCount(ds: seq<Decision>)
    ensures Counted(ToolReports(ds)) == |ds|
  {
    if ds != [] { ToolReportsCount(ds[..|ds| - 1]); }
  }

  lemma ThinkingCounts(part: Json, target: Provider)
    ensures Counted(SanitizeThinking(part, target).report) == |SanitizeThinking(part, target).report.decisions|
  {
    hide Decide;
  }

  lemma ToolCounts(part: Json, target: Provider)
    ensures Counted(SanitizeTool(part, target).report) == |SanitizeTool(part, target).report.decisions|
  {
    hide ToolReports, ToolDecisions, ToolFields, Tidy, TidyChanges, ToolFieldChanges;
    ToolReportsCount(ToolDecisions(part, target, SIGNATURE_PATHS));
  }

  lemma PartCounts(part: Json, target: Provider, opts: Options)
    requires !opts.dropToolSignatures
    ensures Counted(SanitizePart(part, target, opts).report) == |SanitizePart(part, target, opts).report.decisions|
  {
    hide SanitizeTool, SanitizeThinking, KeepsPlaceholder, PartType;
    ThinkingCounts(part, target);
    ToolCounts(part, target);
  }

  lemma {:induction false} PartsCount(parts: seq<Json>, target: Provider, opts: Options)
    requires !opts.dropToolSignatures
    ensures Counted(PartsReport(parts, target, opts)) == |PartsReport(parts, target, opts).decisions|
  {
    hide SanitizePart;
    if parts != [] {
      PartsCount(parts[..|parts| - 1], target, opts);
      PartCounts(parts[|parts| - 1], target, opts);
    }
  }

  lemma {:induction false} MessagesCount(messages: seq<Json>, target: Provider, opts: Options)
    requires !opts.dropToolSignatures
    ensures Counted(MessagesReport(messages, target, opts)) == |MessagesReport(messages, target, opts).decisions|
  {
    hide PartsReport;
    if messages != [] {
      var last := messages[|messages| - 1];
      MessagesCount(messages[..|messages| - 1], target, opts);
      if IsArr(Content(last)) { PartsCount(Content(last).value.items, target, opts); }
    }
  }

  /** Main result: unless tool signatures are stripped wholesale, the four counters of a report add
      up to its number of decisions. */
  lemma CountersAddUp(payload: Json, opts: Options)
    requires !opts.dropToolSignatures
    ensures Counted(SanitizeReport(payload, opts)) == |SanitizeReport(payload, opts).decisions|
  {
    hide MessagesReport, TargetOf;
    if IsArr(Get(payload, MESSAGES)) { MessagesCount(MessagesOf(payload), TargetOf(opts), opts); }
  }
}
