/** Which provider can replay a signature, and what to do with one that the target cannot replay. */
module Compatibility {
  import opened Common
  import opened Strings
  import opened Base64
  import opened Recognisers
  import opened NormalForms

  /** `Other` stands for any provider name without a case of its own. */
  datatype Provider = Unknown | Claude | Gemini | GeminiBypass | Gpt | Other

  datatype BlockKind = AnyBlock | ClaudeThinking | GeminiModelPart | GeminiFunctionCall | GptReasoning

  datatype Action = Preserve | DropBlock | DropSignature | ReplaceWithBypass | NoReplacement

  datatype Decision = Decision(
    target: Provider, detected: Provider, kind: BlockKind, compatible: bool,
    action: Action, replacement: string, normalized: string)

  function BeforeHash(s: string): string {
    if s == "" || s[0] == '#' then "" else [s[0]] + BeforeHash(s[1..])
  }

  /** `SignatureProviderFromCachePrefix`. */
  function PrefixProvider(prefix: string): Provider {
    var p := ToLower(TrimSpace(prefix));
    if p == "claude" || p == "anthropic" then Claude
    else if p == "gemini" || p == "google" then Gemini
    else if p == "openai" || p == "gpt" || p == "codex" then Gpt
    else Unknown
  }

  /** `SplitSignatureProviderPrefix`: the provider and the rest, where there is a known prefix. */
  function SplitPrefix(raw: string): Option<(Provider, string)> {
    var sig := TrimSpace(raw);
    var rest := AfterHash(sig);
    if rest.None? || PrefixProvider(BeforeHash(sig)) == Unknown then None
    else Some((PrefixProvider(BeforeHash(sig)), TrimSpace(rest.value)))
  }

  /** `SignaturePayloadWithoutProviderPrefix`. */
  function WithoutPrefix(raw: string): string {
    var split := SplitPrefix(raw);
    if split.Some? then split.value.1 else TrimSpace(raw)
  }

  /** Whether the recogniser of provider `p` accepts a text. */
  predicate Accepts(p: Provider, sig: string) {
    match p
    case GeminiBypass => IsBypass(sig)
    case Gpt => IsGpt(sig)
    case Claude => IsClaude(sig)
    case Gemini => IsGemini(sig)
    case Unknown => false
    case Other => false
  }

  /** `DetectSignatureProviderForBlock`. The block kind plays no part in it. */
  function Detect(raw: string): Provider {
    var sig := TrimSpace(raw);
    if sig == "" then Unknown
    else
      var split := SplitPrefix(sig);
      if split.Some? then
        match split.value.0
        case Gemini =>
          if IsBypass(split.value.1) then GeminiBypass
          else if IsGemini(split.value.1) then Gemini else Unknown
        case Claude => if IsClaude(split.value.1) then Claude else Unknown
        case Gpt => if IsGpt(split.value.1) then Gpt else Unknown
        case _ => Unknown
      else if AfterHash(sig).Some? then Unknown
      else if IsBypass(sig) then GeminiBypass
      else if IsGpt(sig) then Gpt
      else if IsClaude(sig) then Claude
      else if IsGemini(sig) then Gemini
      else Unknown
  }

  /** The first provider of `order` whose recogniser accepts. */
  function FirstAccepting(order: seq<Provider>, sig: string): Provider {
    if order == [] then Unknown else if Accepts(order[0], sig) then order[0] else FirstAccepting(order[1..], sig)
  }

  /** `normalizeSignatureTargetProvider`. */
  function NormalizeTarget(p: Provider): Provider {
    if p == GeminiBypass then Gemini else p
  }

  /** `signatureProviderMatchesTarget`. */
  predicate Matches(target: Provider, detected: Provider) {
    match target
    case Gemini => detected == Gemini || detected == GeminiBypass
    case Claude => detected == Claude
    case Gpt => detected == Gpt
    case _ => false
  }

  /** `normalizeCompatibleSignatureForProvider`; "" where there is no replayable form. */
  function Normalized(target: Provider, raw: string): string {
    var payload := WithoutPrefix(raw);
    match NormalizeTarget(target)
    case Claude => var e := ToEForm(payload, false); if e.Some? then e.value else ""
    case Gemini => if IsBypass(payload) || IsGemini(payload) then payload else ""
    case Gpt => if IsGpt(payload) then payload else ""
    case _ => ""
  }

  /** `DecideSignatureCompatibility`. */
  function Decide(target: Provider, raw: string, kind: BlockKind): Decision {
    var t, detected := NormalizeTarget(target), Detect(raw);
    if Matches(t, detected) then Decision(t, detected, kind, true, Preserve, "", Normalized(t, raw))
    else if t == Gemini && (kind == GeminiFunctionCall || kind == GeminiModelPart || kind == AnyBlock) then
      Decision(t, detected, kind, false, ReplaceWithBypass, SKIP_VALIDATOR, "")
    else if t == Gemini || t == Claude || t == Gpt then Decision(t, detected, kind, false, DropBlock, "", "")
    else Decision(t, detected, kind, false, NoReplacement, "", "")
  }

  // ---------------------------------------------------------------- the lemmas

  lemma AcceptingCounts(p: Provider, q: Provider, sig: string)
    requires AfterHash(TrimSpace(sig)).None? && Accepts(p, sig) && Accepts(q, sig)
    ensures p == q
  {
    AtMostOne(sig);
  }

  lemma {:induction false} FirstAcceptingIs(order: seq<Provider>, sig: string, p: Provider)
    requires AfterHash(TrimSpace(sig)).None? && p in order && Accepts(p, sig)
    ensures FirstAccepting(order, sig) == p
  {
    if Accepts(order[0], sig) {
      AcceptingCounts(p, order[0], sig);
    } else {
      FirstAcceptingIs(order[1..], sig, p);
    }
  }

  lemma {:induction false} NoneAccepting(order: seq<Provider>, sig: string)
    requires forall p :: p in order ==> !Accepts(p, sig)
    ensures FirstAccepting(order, sig) == Unknown
  {
    if order != [] { NoneAccepting(order[1..], sig); }
  }

  lemma AcceptsTrimmed(p: Provider, raw: string)
    ensures Accepts(p, TrimSpace(raw)) == Accepts(p, raw)
  {
    TrimTwice(raw);
  }

  /** Main result: on a text without '#', trying the recognisers in any order at all finds the
      provider that detection finds. */
  lemma DetectInAnyOrder(order: seq<Provider>, raw: string)
    requires AfterHash(TrimSpace(raw)).None?
    requires Claude in order && Gemini in order && Gpt in order && GeminiBypass in order
    ensures FirstAccepting(order, raw) == Detect(raw)
  {
    TrimTwice(raw);
    forall p { AcceptsTrimmed(p, raw); }
    var d := Detect(raw);
    if d != Unknown {
      FirstAcceptingIs(order, raw, d);
    } else {
      assert TrimSpace(raw) == "" ==> forall p :: !Accepts(p, TrimSpace(raw)) by { assert TrimSpace("") == ""; }
      NoneAccepting(order, raw);
    }
  }

  lemma {:induction false} GptHasNoHash(s: string)
    requires forall i :: 0 <= i < |s| ==> GptChar(s[i])
    ensures AfterHash(s).None?
  {
    if s != "" {
      assert GptChar(s[0]);
      forall i | 0 <= i < |s[1..]| ensures GptChar(s[1..][i]) {
        assert s[1..][i] == s[i + 1];
      }
      GptHasNoHash(s[1..]);
    }
  }

  lemma {:induction false} NoHashInside(s: string)
    requires '#' !in s
    ensures AfterHash(s).None?
  {
    if s != "" {
      NoHashInside(s[1..]);
    }
  }

  /** What the Gemini, GPT and bypass recognisers accept has no '#'. */
  lemma AcceptedHasNoHash(p: Provider, sig: string)
    requires Accepts(p, sig) && p != Claude
    ensures AfterHash(TrimSpace(sig)).None?
  {
    var t := TrimSpace(sig);
    hide TrimSpace;
    if p == Gpt {
      GptHasNoHash(t);
    } else if p == Gemini {
      hide Decode, KnownEnvelope;
      DecodedIsPlain(t, DecodeStd(t).Some?);
      PlainHasNoHash(t);
    } else {
      SentinelHasNoHash(t);
    }
  }

  lemma SentinelHasNoHash(t: string)
    requires t == SKIP_VALIDATOR || t == CONTEXT_ENGINEERING
    ensures AfterHash(t).None?
  {
    assert '#' !in SKIP_VALIDATOR && '#' !in CONTEXT_ENGINEERING;
    NoHashInside(t);
  }

  lemma DetectNoHash(p: Provider, sig: string)
    requires AfterHash(TrimSpace(sig)).None? && Accepts(p, sig)
    ensures Detect(sig) == p
  {
    DetectInAnyOrder([Claude, Gemini, Gpt, GeminiBypass], sig);
    FirstAcceptingIs([Claude, Gemini, Gpt, GeminiBypass], sig, p);
  }

  lemma WithoutPrefixTrimmed(raw: string)
    ensures TrimSpace(WithoutPrefix(raw)) == WithoutPrefix(raw)
  {
    TrimTwice(raw);
    var split := SplitPrefix(raw);
    if split.Some? { TrimTwice(AfterHash(TrimSpace(raw)).value); }
  }

  lemma DetectedIsAccepted(raw: string)
    requires Detect(raw) != Unknown
    ensures Accepts(Detect(raw), WithoutPrefix(raw))
  {
    TrimTwice(raw);
  }

  /** The normalized form of a Gemini or GPT signature is detected as the same provider and is its
      own normalized form. */
  lemma PlainNormalizedIsStable(target: Provider, raw: string)
    requires target == Gemini || target == Gpt
    requires Matches(target, Detect(raw))
    ensures var n := Normalized(target, raw);
            n != "" && TrimSpace(n) == n && Detect(n) == Detect(raw) && Normalized(target, n) == n
  {
    var n, p := WithoutPrefix(raw), Detect(raw);
    DetectedIsAccepted(raw);
    WithoutPrefixTrimmed(raw);
    AcceptedHasNoHash(p, n);
    DetectNoHash(p, n);
    assert TrimSpace("") == "";
  }

  /** The normalized form of a Claude signature is detected as Claude; normalizing it again trims
      the line breaks its end may carry. */
  lemma ClaudeNormalizedIsStable(raw: string)
    requires Detect(raw) == Claude
    ensures var n := Normalized(Claude, raw);
            n != "" && Detect(n) == Claude && Normalized(Claude, n) == TrimSpace(n)
            && Detect(TrimSpace(n)) == Claude && Normalized(Claude, TrimSpace(n)) == TrimSpace(n)
            && TrimSpace(n) != ""
  {
    var payload := WithoutPrefix(raw);
    DetectedIsAccepted(raw);
    FormsAgree(payload);
    var n := ToEForm(payload, true).value;
    EFormIsSignature(payload, true);
    TrimmedDecodes(n);
    PlainHasNoHash(TrimSpace(n));
    TrimTwice(n);
    DetectNoHash(Claude, n);
    TrimmedDecodes(TrimSpace(n));
    DetectNoHash(Claude, TrimSpace(n));
    FormsAgree(n);
    FormsAgree(TrimSpace(n));
    EFormIdempotent(payload, true);
    NoPrefix(n);
    NoPrefix(TrimSpace(n));
    NormalizedBare(n);
    NormalizedBare(TrimSpace(n));
    assert n != "";
  }

  lemma FormsAgree(sig: string)
    requires IsClaude(sig)
    ensures ToEForm(sig, false) == ToEForm(sig, true) && ToEForm(sig, true).Some?
  {
  }

  lemma NoPrefix(n: string)
    requires AfterHash(TrimSpace(n)).None?
    ensures WithoutPrefix(n) == TrimSpace(n)
  {
  }

  lemma NormalizedBare(n: string)
    requires AfterHash(TrimSpace(n)).None?
    ensures Normalized(Claude, n) == Normalized(Claude, TrimSpace(n))
    ensures ToEForm(TrimSpace(n), false) == ToEForm(n, false)
  {
    TrimTwice(n);
  }
}
