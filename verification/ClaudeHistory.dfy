/** Sanitising the signatures of a Claude message history for a target provider, as functions. */
module ClaudeHistory {
  import opened Common
  import opened Strings
  import opened Json
  import opened Compatibility

  datatype Options = Options(
    target: Provider, targetModel: string,
    dropEmptyMessages: bool, dropToolSignatures: bool, dropEmptyPlaceholders: bool)

  /** The counters and decisions of `SignatureSanitizeReport`. */
  datatype Report = Report(preserved: nat, droppedBlocks: nat, droppedSignatures: nat, replaced: nat, decisions: seq<Decision>)

  const NO_REPORT := Report(0, 0, 0, 0, [])

  function Plus(a: Report, b: Report): Report {
    Report(a.preserved + b.preserved, a.droppedBlocks + b.droppedBlocks, a.droppedSignatures + b.droppedSignatures,
           a.replaced + b.replaced, a.decisions + b.decisions)
  }

  // ------------------------------------------------------------- model names

  predicate Contains(s: string, t: string)
    decreases |s|
  {
    t <= s || (s != "" && Contains(s[1..], t))
  }

  /** `SignatureProviderFromModelName`. */
  function ModelProvider(name: string): Provider {
    var lower := ToLower(TrimSpace(name));
    if Contains(lower, "claude") then Claude
    else if Contains(lower, "gemini") then Gemini
    else if Contains(lower, "gpt") || Contains(lower, "openai") || Contains(lower, "codex")
            || "o1" <= lower || "o3" <= lower || "o4" <= lower then Gpt
    else Unknown
  }

  function TargetOf(opts: Options): Provider {
    var t := NormalizeTarget(opts.target);
    if t == Unknown && opts.targetModel != "" then ModelProvider(opts.targetModel) else t
  }

  // ------------------------------------------------------------------- parts

  const SIGNATURE: Path := ["signature"]
  const GOOGLE: Path := ["extra_content", "google"]
  const EXTRA: Path := ["extra_content"]

  /** `claudeToolUseSignaturePaths`. */
  const SIGNATURE_PATHS: seq<Path> :=
    [["signature"], ["thoughtSignature"], ["thought_signature"], ["extra_content", "google", "thought_signature"]]

  /** `claudeToolUseProvenancePaths`. */
  const PROVENANCE_PATHS: seq<Path> := SIGNATURE_PATHS + [["model"]]

  /** What happened to one part: what is kept of it, whether it changed, and the report on it. */
  datatype Outcome = Outcome(kept: Option<Json>, changed: bool, report: Report)

  /** `deleteEmptyJSONObjectPath`. */
  function DropEmpty(part: Json, path: Path): Json {
    if Get(part, path) == Some(Obj(map[])) then Delete(part, path) else part
  }

  predicate IsEmptyObject(part: Json, path: Path) {
    Get(part, path) == Some(Obj(map[]))
  }

  function Tidy(part: Json): Json {
    DropEmpty(DropEmpty(part, GOOGLE), EXTRA)
  }

  predicate TidyChanges(part: Json) {
    IsEmptyObject(part, GOOGLE) || IsEmptyObject(DropEmpty(part, GOOGLE), EXTRA)
  }

  function DeleteAll(part: Json, paths: seq<Path>): Json {
    if paths == [] then part else Delete(DeleteAll(part, paths[..|paths| - 1]), paths[|paths| - 1])
  }

  predicate HasAny(part: Json, paths: seq<Path>) {
    exists i :: 0 <= i < |paths| && Has(part, paths[i])
  }

  /** `stripClaudeToolUseSignatureFields`. */
  function StripTool(part: Json): Outcome {
    var bare := DeleteAll(part, PROVENANCE_PATHS);
    var changed := HasAny(part, PROVENANCE_PATHS) || TidyChanges(bare);
    Outcome(Some(Tidy(bare)), changed, NO_REPORT.(droppedSignatures := if changed then 1 else 0))
  }

  function ToolKind(target: Provider): BlockKind {
    if target == Claude then ClaudeThinking else if target == Gpt then GptReasoning else GeminiFunctionCall
  }

  /** The decision on the signature at a path of a tool call. */
  function ToolDecision(part: Json, target: Provider, path: Path): Decision {
    Decide(target, Text(part, path), ToolKind(target))
  }

  /** One signature field of a tool call, read from the original part and written to `updated`. */
  function ToolField(part: Json, updated: Json, target: Provider, path: Path): Json {
    if !Has(part, path) then updated
    else
      var d := ToolDecision(part, target, path);
      match d.action
      case Preserve =>
        if d.normalized != "" && d.normalized != Text(part, path) then Set(updated, path, Str(d.normalized)) else updated
      case ReplaceWithBypass => Set(updated, path, Str(d.replacement))
      case _ => Delete(updated, path)
  }

  predicate ToolFieldChanges(part: Json, target: Provider, path: Path) {
    Has(part, path) &&
    var d := ToolDecision(part, target, path);
    d.action == Preserve ==> d.normalized != "" && d.normalized != Text(part, path)
  }

  function ToolFields(part: Json, target: Provider, paths: seq<Path>): Json {
    if paths == [] then part else ToolField(part, ToolFields(part, target, paths[..|paths| - 1]), target, paths[|paths| - 1])
  }

  function ToolDecisions(part: Json, target: Provider, paths: seq<Path>): seq<Decision> {
    if paths == [] then []
    else
      var path := paths[|paths| - 1];
      ToolDecisions(part, target, paths[..|paths| - 1]) + if Has(part, path) then [ToolDecision(part, target, path)] else []
  }

  /** Counts a tool-call decision. */
  function CountTool(r: Report, d: Decision): Report {
    match d.action
    case Preserve => r.(preserved := r.preserved + 1)
    case ReplaceWithBypass => r.(replaced := r.replaced + 1)
    case _ => r.(droppedSignatures := r.droppedSignatures + 1)
  }

  function ToolReports(ds: seq<Decision>): Report {
    if ds == [] then NO_REPORT else CountTool(ToolReports(ds[..|ds| - 1]), ds[|ds| - 1])
  }

  /** `sanitizeClaudeToolUseSignature`, with the counting of its decisions. */
  function SanitizeTool(part: Json, target: Provider): Outcome {
    var fields := ToolFields(part, target, SIGNATURE_PATHS);
    var ds := ToolDecisions(part, target, SIGNATURE_PATHS);
    var changed := (exists i :: 0 <= i < |SIGNATURE_PATHS| && ToolFieldChanges(part, target, SIGNATURE_PATHS[i])) || TidyChanges(fields);
    Outcome(Some(Tidy(fields)), changed, ToolReports(ds).(decisions := ds))
  }

  /** `claudeThinkingBlockText`. */
  function ThinkingText(part: Json): string {
    var text, thinking := Get(part, ["text"]), Get(part, ["thinking"]);
    if text.Some? && text.value.Str? then text.value.text
    else if thinking.None? then ""
    else if thinking.value.Str? then thinking.value.text
    else
      var t1, t2 := Get(thinking.value, ["text"]), Get(thinking.value, ["thinking"]);
      if t1.Some? && t1.value.Str? then t1.value.text
      else if t2.Some? && t2.value.Str? then t2.value.text
      else ""
  }

  /** `isEmptyClaudeThinkingPlaceholder`. */
  predicate IsPlaceholder(part: Json) {
    TrimSpace(Text(part, SIGNATURE)) == "" && TrimSpace(ThinkingText(part)) == ""
  }

  /** A thinking part. */
  function SanitizeThinking(part: Json, target: Provider): Outcome {
    var raw := Text(part, SIGNATURE);
    var d := Decide(target, raw, ClaudeThinking);
    match d.action
    case Preserve =>
      var report := NO_REPORT.(preserved := 1, decisions := [d]);
      if d.normalized != "" && d.normalized != raw
      then Outcome(Some(Set(part, SIGNATURE, Str(d.normalized))), true, report)
      else Outcome(Some(part), false, report)
    case ReplaceWithBypass =>
      Outcome(Some(Set(part, SIGNATURE, Str(d.replacement))), true, NO_REPORT.(replaced := 1, decisions := [d]))
    case DropSignature =>
      Outcome(Some(Delete(part, SIGNATURE)), true, NO_REPORT.(droppedSignatures := 1, decisions := [d]))
    case _ =>
      Outcome(None, true, NO_REPORT.(droppedBlocks := 1, decisions := [d]))
  }

  function PartType(part: Json): string {
    Text(part, ["type"])
  }

  predicate KeepsPlaceholder(part: Json, target: Provider, opts: Options) {
    target == Claude && IsPlaceholder(part) && !opts.dropEmptyPlaceholders
  }

  function SanitizePart(part: Json, target: Provider, opts: Options): Outcome {
    if PartType(part) == "tool_use" then
      if opts.dropToolSignatures then StripTool(part) else SanitizeTool(part, target)
    else if PartType(part) != "thinking" || KeepsPlaceholder(part, target, opts) then
      Outcome(Some(part), false, NO_REPORT)
    else SanitizeThinking(part, target)
  }

  // ---------------------------------------------------------------- messages

  function KeptParts(parts: seq<Json>, target: Provider, opts: Options): seq<Json> {
    if parts == [] then []
    else
      var kept := SanitizePart(parts[|parts| - 1], target, opts).kept;
      KeptParts(parts[..|parts| - 1], target, opts) + if kept.Some? then [kept.value] else []
  }

  predicate AnyChanged(parts: seq<Json>, target: Provider, opts: Options) {
    exists i :: 0 <= i < |parts| && SanitizePart(parts[i], target, opts).changed
  }

  function PartsReport(parts: seq<Json>, target: Provider, opts: Options): Report {
    if parts == [] then NO_REPORT
    else Plus(PartsReport(parts[..|parts| - 1], target, opts), SanitizePart(parts[|parts| - 1], target, opts).report)
  }

  function Content(message: Json): Option<Json> {
    Get(message, ["content"])
  }

  /** One message; nothing where it is dropped as empty. */
  function SanitizeMessage(message: Json, target: Provider, opts: Options): Option<Json> {
    if !IsArr(Content(message)) then Some(message)
    else
      var parts := Content(message).value.items;
      var kept := KeptParts(parts, target, opts);
      if !AnyChanged(parts, target, opts) then Some(message)
      else if kept == [] && opts.dropEmptyMessages then None
      else Some(Set(message, ["content"], Arr(kept)))
  }

  predicate MessageModified(message: Json, target: Provider, opts: Options) {
    IsArr(Content(message)) && AnyChanged(Content(message).value.items, target, opts)
  }

  function MessageReport(message: Json, target: Provider, opts: Options): Report {
    if IsArr(Content(message)) then PartsReport(Content(message).value.items, target, opts) else NO_REPORT
  }

  function KeptMessages(messages: seq<Json>, target: Provider, opts: Options): seq<Json> {
    if messages == [] then []
    else
      var m := SanitizeMessage(messages[|messages| - 1], target, opts);
      KeptMessages(messages[..|messages| - 1], target, opts) + if m.Some? then [m.value] else []
  }

  function MessagesReport(messages: seq<Json>, target: Provider, opts: Options): Report {
    if messages == [] then NO_REPORT
    else Plus(MessagesReport(messages[..|messages| - 1], target, opts), MessageReport(messages[|messages| - 1], target, opts))
  }

  predicate AnyModified(messages: seq<Json>, target: Provider, opts: Options) {
    exists i :: 0 <= i < |messages| && MessageModified(messages[i], target, opts)
  }

  const MESSAGES: Path := ["messages"]

  /** `SanitizeClaudeMessagesSignaturesForTarget`, the payload. */
  function Sanitize(payload: Json, opts: Options): Json {
    var messages, target := Get(payload, MESSAGES), TargetOf(opts);
    if !IsArr(messages) || !AnyModified(messages.value.items, target, opts) then payload
    else Set(payload, MESSAGES, Arr(KeptMessages(messages.value.items, target, opts)))
  }

  /** The report. */
  function SanitizeReport(payload: Json, opts: Options): Report {
    var messages := Get(payload, MESSAGES);
    if IsArr(messages) then MessagesReport(messages.value.items, TargetOf(opts), opts) else NO_REPORT
  }
}
