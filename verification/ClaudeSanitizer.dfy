/** The sanitiser of Claude histories as the program runs it: nested loops that append to lists,
    raise flags and count. */
module ClaudeSanitizer {
  import opened Common
  import opened Json
  import opened Compatibility
  import opened ClaudeHistory
  import opened ClaudeHistoryProofs
  import opened ClaudeHistoryTheorems

  method StripClaudeToolUseSignatureFields(part: Json) returns (updated: Json, changed: bool)
    ensures StripTool(part).kept == Some(updated) && StripTool(part).changed == changed
    ensures !HasAny(updated, PROVENANCE_PATHS)
  {
    StripTwice(part);
    PathsAreApart();
    updated, changed := part, false;
    for i := 0 to |PROVENANCE_PATHS|
      invariant updated == DeleteAll(part, PROVENANCE_PATHS[..i])
      invariant changed <==> exists j :: 0 <= j < i && Has(part, PROVENANCE_PATHS[j])
    {
      var path := PROVENANCE_PATHS[i];
      assert PROVENANCE_PATHS[..i + 1][..i] == PROVENANCE_PATHS[..i];
      DeleteAllApart(part, PROVENANCE_PATHS[..i], path);
      if !Has(updated, path) {
        DeleteMissing(updated, path);
        continue;
      }
      updated := Delete(updated, path);
      changed := true;
    }
    assert PROVENANCE_PATHS[..|PROVENANCE_PATHS|] == PROVENANCE_PATHS;
    var tidied := DeleteEmptyObjects(updated);
    changed := changed || tidied.1;
    updated := tidied.0;
  }

  function DeleteEmptyObjects(part: Json): (r: (Json, bool))
    ensures r == (Tidy(part), TidyChanges(part))
  {
    var google := IsEmptyObject(part, GOOGLE);
    var one := if google then Delete(part, GOOGLE) else part;
    var extra := IsEmptyObject(one, EXTRA);
    (if extra then Delete(one, EXTRA) else one, google || extra)
  }

  method DecideField(part: Json, target: Provider, path: Path) returns (d: Decision)
    ensures d == ToolDecision(part, target, path)
  {
    hide Decide;
    var kind := GeminiFunctionCall;
    if target == Claude {
      kind := ClaudeThinking;
    } else if target == Gpt {
      kind := GptReasoning;
    }
    d := Decide(target, Text(part, path), kind);
  }

  method ApplyDecision(part: Json, before: Json, target: Provider, path: Path, d: Decision) returns (updated: Json, changed: bool)
    requires Has(part, path) && d == ToolDecision(part, target, path)
    ensures updated == ToolField(part, before, target, path) && changed == ToolFieldChanges(part, target, path)
  {
    hide ToolDecision;
    updated, changed := before, true;
    match d.action {
      case Preserve =>
        changed := d.normalized != "" && d.normalized != Text(part, path);
        if changed {
          updated := Set(before, path, Str(d.normalized));
        }
      case ReplaceWithBypass =>
        updated := Set(before, path, Str(d.replacement));
      case _ =>
        updated := Delete(before, path);
    }
  }

  lemma MissingField(part: Json, updated: Json, target: Provider, path: Path)
    requires !Has(part, path)
    ensures ToolField(part, updated, target, path) == updated && !ToolFieldChanges(part, target, path)
  {
  }

  /** The loop over the places a tool call may carry a signature in. */
  method SanitizeFields(part: Json, target: Provider, paths: seq<Path>)
    returns (updated: Json, changed: bool, decisions: seq<Decision>)
    ensures updated == ToolFields(part, target, paths) && decisions == ToolDecisions(part, target, paths)
    ensures changed <==> exists i :: 0 <= i < |paths| && ToolFieldChanges(part, target, paths[i])
  {
    hide ToolDecision, ToolField, ToolFieldChanges, Has;
    updated, changed, decisions := part, false, [];
    for i := 0 to |paths|
      invariant updated == ToolFields(part, target, paths[..i])
      invariant decisions == ToolDecisions(part, target, paths[..i])
      invariant changed <==> exists j :: 0 <= j < i && ToolFieldChanges(part, target, paths[j])
    {
      assert paths[..i + 1][..i] == paths[..i];
      if !Has(part, paths[i]) {
        MissingField(part, updated, target, paths[i]);
        continue;
      }
      var d := DecideField(part, target, paths[i]);
      decisions := decisions + [d];
      var fieldChanged;
      updated, fieldChanged := ApplyDecision(part, updated, target, paths[i], d);
      changed := changed || fieldChanged;
    }
    assert paths[..|paths|] == paths;
  }

  method SanitizeClaudeToolUseSignature(part: Json, target: Provider)
    returns (updated: Json, changed: bool, decisions: seq<Decision>)
    ensures SanitizeTool(part, target).kept == Some(updated) && SanitizeTool(part, target).changed == changed
    ensures SanitizeTool(part, target).report.decisions == decisions
  {
    hide ToolFields, ToolDecisions, ToolFieldChanges, Tidy, TidyChanges;
    updated, changed, decisions := SanitizeFields(part, target, SIGNATURE_PATHS);
    var tidied := DeleteEmptyObjects(updated);
    changed := changed || tidied.1;
    updated := tidied.0;
  }

  /** The inner loop: the parts of one message. */
  method SanitizeParts(parts: seq<Json>, target: Provider, opts: Options)
    returns (keptParts: seq<Json>, messageModified: bool, report: Report)
    ensures keptParts == KeptParts(parts, target, opts)
    ensures messageModified == AnyChanged(parts, target, opts)
    ensures report == PartsReport(parts, target, opts)
  {
    hide SanitizePart;
    keptParts, messageModified, report := [], false, NO_REPORT;
    for j := 0 to |parts|
      invariant keptParts == KeptParts(parts[..j], target, opts)
      invariant messageModified <==> exists i :: 0 <= i < j && SanitizePart(parts[i], target, opts).changed
      invariant report == PartsReport(parts[..j], target, opts)
    {
      assert parts[..j + 1][..j] == parts[..j] && parts[..j + 1][j] == parts[j];
      var kept, changed, found := SanitizeOne(parts[j], target, opts);
      if changed {
        messageModified := true;
      }
      if kept.Some? {
        keptParts := keptParts + [kept.value];
      }
      report := Plus(report, found);
    }
    assert parts[..|parts|] == parts;
  }

  /** One part: a tool call, a thinking part, or anything else. */
  method SanitizeOne(part: Json, target: Provider, opts: Options) returns (kept: Option<Json>, changed: bool, report: Report)
    ensures SanitizePart(part, target, opts) == Outcome(kept, changed, report)
  {
    hide Decide, SanitizeTool, StripTool, IsPlaceholder;
    if PartType(part) == "tool_use" {
      if opts.dropToolSignatures {
        var updated, c := StripClaudeToolUseSignatureFields(part);
        StripReport(part);
        return Some(updated), c, NO_REPORT.(droppedSignatures := if c then 1 else 0);
      }
      var updated, c, decisions := SanitizeClaudeToolUseSignature(part, target);
      var counts := CountDecisions(decisions);
      ToolReportIs(part, target);
      return Some(updated), c, counts.(decisions := decisions);
    }
    if PartType(part) != "thinking" {
      return Some(part), false, NO_REPORT;
    }
    if target == Claude && IsPlaceholder(part) && !opts.dropEmptyPlaceholders {
      return Some(part), false, NO_REPORT;
    }
    var raw := Text(part, SIGNATURE);
    var d := Decide(target, raw, ClaudeThinking);
    report := NO_REPORT.(decisions := [d]);
    match d.action {
      case Preserve =>
        report := report.(preserved := 1);
        if d.normalized != "" && d.normalized != raw {
          return Some(Set(part, SIGNATURE, Str(d.normalized))), true, report;
        }
        return Some(part), false, report;
      case ReplaceWithBypass =>
        return Some(Set(part, SIGNATURE, Str(d.replacement))), true, report.(replaced := 1);
      case DropSignature =>
        return Some(Delete(part, SIGNATURE)), true, report.(droppedSignatures := 1);
      case _ =>
        return None, true, report.(droppedBlocks := 1);
    }
  }

  lemma StripReport(part: Json)
    ensures StripTool(part).report == NO_REPORT.(droppedSignatures := if StripTool(part).changed then 1 else 0)
  {
  }

  lemma ToolReportIs(part: Json, target: Provider)
    ensures var r := SanitizeTool(part, target).report;
            r == ToolReports(r.decisions).(decisions := r.decisions)
  {
  }

  method CountDecisions(decisions: seq<Decision>) returns (report: Report)
    ensures report == ToolReports(decisions)
    ensures Counted(report) == |decisions|
  {
    report := NO_REPORT;
    for i := 0 to |decisions|
      invariant report == ToolReports(decisions[..i])
    {
      assert decisions[..i + 1][..i] == decisions[..i];
      report := CountTool(report, decisions[i]);
    }
    assert decisions[..|decisions|] == decisions;
    ToolReportsCount(decisions);
  }

  /** One message of the outer loop. */
  method SanitizeOneMessage(message: Json, target: Provider, opts: Options)
    returns (kept: Option<Json>, modified: bool, report: Report)
    ensures kept == SanitizeMessage(message, target, opts)
    ensures modified == MessageModified(message, target, opts)
    ensures report == MessageReport(message, target, opts)
  {
    hide SanitizePart, KeptParts, PartsReport, AnyChanged;
    if !IsArr(Content(message)) {
      return Some(message), false, NO_REPORT;
    }
    var keptParts, messageModified, found := SanitizeParts(Content(message).value.items, target, opts);
    if messageModified {
      if |keptParts| == 0 && opts.dropEmptyMessages {
        return None, true, found;
      }
      return Some(Set(message, ["content"], Arr(keptParts))), true, found;
    }
    return Some(message), false, found;
  }

  /** The outer loop: the messages of a history. */
  method SanitizeMessages(items: seq<Json>, target: Provider, opts: Options)
    returns (keptMessages: seq<Json>, modified: bool, report: Report)
    ensures keptMessages == KeptMessages(items, target, opts)
    ensures modified == AnyModified(items, target, opts)
    ensures report == MessagesReport(items, target, opts)
  {
    hide SanitizeMessage, MessageModified, MessageReport;
    keptMessages, modified, report := [], false, NO_REPORT;
    for i := 0 to |items|
      invariant keptMessages == KeptMessages(items[..i], target, opts)
      invariant modified <==> exists j :: 0 <= j < i && MessageModified(items[j], target, opts)
      invariant report == MessagesReport(items[..i], target, opts)
    {
      assert items[..i + 1][..i] == items[..i] && items[..i + 1][i] == items[i];
      var kept, messageModified, found := SanitizeOneMessage(items[i], target, opts);
      report := Plus(report, found);
      if messageModified {
        modified := true;
      }
      if kept.Some? {
        keptMessages := keptMessages + [kept.value];
      }
    }
    assert items[..|items|] == items;
  }

  /** The whole history. */
  method SanitizeClaudeMessagesSignaturesForTarget(payload: Json, opts: Options) returns (output: Json, report: Report)
    ensures output == Sanitize(payload, opts) && report == SanitizeReport(payload, opts)
    ensures MessagesClean(MessagesOf(output), TargetOf(opts), opts)
    ensures !opts.dropToolSignatures ==> Counted(report) == |report.decisions|
  {
    hide *;
    SanitizedIsClean(payload, opts);
    if !opts.dropToolSignatures {
      CountersAddUp(payload, opts);
    }
    var target := ChooseTarget(opts);
    output, report := SanitizePayload(payload, target, opts);
  }

  method ChooseTarget(opts: Options) returns (target: Provider)
    ensures target == TargetOf(opts)
  {
    hide NormalizeTarget, ModelProvider;
    target := NormalizeTarget(opts.target);
    if target == Unknown && opts.targetModel != "" {
      target := ModelProvider(opts.targetModel);
    }
  }

  method SanitizePayload(payload: Json, target: Provider, opts: Options) returns (output: Json, report: Report)
    requires target == TargetOf(opts)
    ensures output == Sanitize(payload, opts) && report == SanitizeReport(payload, opts)
  {
    hide Get, Set, TargetOf, KeptMessages, MessagesReport, AnyModified;
    var messages := Get(payload, MESSAGES);
    if !IsArr(messages) {
      return payload, NO_REPORT;
    }
    var keptMessages, modified;
    keptMessages, modified, report := SanitizeMessages(messages.value.items, target, opts);
    output := if modified then Set(payload, MESSAGES, Arr(keptMessages)) else payload;
  }
}
