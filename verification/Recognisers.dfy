/** The four recognisers of signatures: Claude (strict and loose), Gemini envelopes, GPT reasoning
    tokens and Gemini's bypass sentinels. Rejections carry no detail here. */
module Recognisers {
  import opened Common
  import opened Strings
  import opened Base64
  import opened ProtoWire

  const MAX_SIGNATURE_LEN := 32 * 1024 * 1024

  // ----------------------------------------------------------------- Claude

  /** The text after the first '#', or nothing where there is none. */
  function AfterHash(s: string): Option<string> {
    if s == "" then None else if s[0] == '#' then Some(s[1..]) else AfterHash(s[1..])
  }

  /** `stripClaudeSignaturePrefix`. */
  function StripClaudePrefix(raw: string): string {
    var sig := TrimSpace(raw);
    var rest := AfterHash(sig);
    if rest.Some? then TrimSpace(rest.value) else sig
  }

  /** Every field numbered `num` is length-delimited and readable; the last one's payload counts. */
  function LastBytes(fields: seq<Field>, num: nat): (r: Option<Option<seq<byte>>>) {
    if fields == [] then Some(None)
    else
      var f, before := fields[|fields| - 1], LastBytes(fields[..|fields| - 1], num);
      if before.None? || f.num != num then before
      else if f.typ != BYTES then None
      else
        var p := Payload(f.raw);
        if p.None? then None else Some(p)
  }

  /** `extractClaudeBytesField`. */
  function ExtractBytes(msg: seq<byte>, num: nat): Option<seq<byte>> {
    var fields := Fields(msg);
    if fields.None? then None
    else
      var last := LastBytes(fields.value, num);
      if last.None? then None else last.value
  }

  /** What the channel block demands of one field. */
  predicate ChannelFieldOk(f: Field) {
    if f.num == 1 || f.num == 2 || f.num == 7 then f.typ == VARINT && ConsumeVarint(f.raw).Some?
    else if f.num == 6 then f.typ == BYTES && Payload(f.raw).Some? && ValidUtf8(Payload(f.raw).value)
    else true
  }

  /** `inspectClaudeChannelBlock`, as far as acceptance goes. */
  predicate ChannelBlockOk(block: seq<byte>) {
    var fields := Fields(block);
    && fields.Some?
    && (forall i :: 0 <= i < |fields.value| ==> ChannelFieldOk(fields.value[i]))
    && (exists i :: 0 <= i < |fields.value| && fields.value[i].num == 1)
  }

  /** `InspectClaudeSignaturePayload`, as far as acceptance goes. */
  predicate ClaudePayloadOk(payload: seq<byte>) {
    && payload != [] && payload[0] == 0x12
    && var container := ExtractBytes(payload, 2);
    && container.Some?
    && var block := ExtractBytes(container.value, 1);
    && block.Some? && ChannelBlockOk(block.value)
  }

  /** `validateClaudeSingleLayerSignatureContent`. */
  predicate SingleLayerOk(sig: string, strict: bool) {
    var decoded := DecodeStd(sig);
    && decoded.Some? && decoded.value != [] && decoded.value[0] == 0x12
    && (strict ==> ClaudePayloadOk(decoded.value))
  }

  /** A Go string made of the given bytes. */
  function TextOf(b: seq<byte>): (s: string)
    ensures |s| == |b|
    ensures forall i :: 0 <= i < |b| ==> s[i] as int == b[i]
  {
    seq(|b|, i requires 0 <= i < |b| => b[i] as char)
  }

  /** The bytes of a string of single-byte characters. */
  function BytesOf(s: string): (b: seq<byte>)
    requires forall i :: 0 <= i < |s| ==> s[i] as int < 256
    ensures |b| == |s|
    ensures forall i :: 0 <= i < |s| ==> b[i] == s[i] as int
  {
    seq(|s|, i requires 0 <= i < |s| => s[i] as int)
  }

  /** `validateClaudeDoubleLayerSignature`: an outer base64 layer around a single-layer text. */
  predicate DoubleLayerOk(sig: string, strict: bool) {
    var decoded := DecodeStd(sig);
    && decoded.Some? && decoded.value != [] && decoded.value[0] == 'E' as int
    && SingleLayerOk(TextOf(decoded.value), strict)
  }

  /** A stripped signature in E-form or R-form. */
  predicate ClaudeOk(sig: string, strict: bool) {
    && sig != "" && |sig| <= MAX_SIGNATURE_LEN
    && ((sig[0] == 'E' && SingleLayerOk(sig, strict)) || (sig[0] == 'R' && DoubleLayerOk(sig, strict)))
  }

  /** `IsValidClaudeThinkingSignature` in strict mode. */
  predicate IsClaude(raw: string) {
    ClaudeOk(StripClaudePrefix(raw), true)
  }

  // ----------------------------------------------------------------- Gemini

  const SKIP_VALIDATOR := "skip_thought_signature_validator"
  const CONTEXT_ENGINEERING := "context_engineering_is_the_way_to_go"

  /** `IsGeminiThoughtSignatureBypass`. */
  predicate IsBypass(raw: string) {
    var sig := TrimSpace(raw);
    sig == SKIP_VALIDATOR || sig == CONTEXT_ENGINEERING
  }

  /** `isLikelyGeminiOpaquePayload`. */
  predicate OpaquePayload(value: seq<byte>) {
    value != [] && value[0] == 1
  }

  /** A message of length-delimited fields number 1, each an opaque payload. */
  predicate Field1Records(b: seq<byte>)
    decreases |b|
  {
    b == [] ||
    var t := ConsumeTag(b);
    && t.Some? && t.value.num == 1 && t.value.typ == BYTES
    && var rest := b[t.value.size..];
    var v := ConsumeBytes(rest);
    && v.Some? && OpaquePayload(rest[v.value.0..v.value.1]) && Field1Records(rest[v.value.1..])
  }

  /** A message that is a single length-delimited field `num`: its payload. */
  function OnlyBytesField(b: seq<byte>, num: nat): Option<seq<byte>> {
    var t := ConsumeTag(b);
    if t.None? || t.value.num != num || t.value.typ != BYTES then None
    else
      var rest := b[t.value.size..];
      var v := ConsumeBytes(rest);
      if v.None? || v.value.1 != |rest| then None else Some(rest[v.value.0..v.value.1])
  }

  /** `inspectGeminiField2Envelope`. */
  predicate Field2Envelope(b: seq<byte>) {
    var container := OnlyBytesField(b, 2);
    && container.Some?
    && var value := OnlyBytesField(container.value, 1);
    && value.Some? && OpaquePayload(value.value)
  }

  predicate IsHexByte(b: byte) {
    '0' as int <= b <= '9' as int || 'a' as int <= b <= 'f' as int || 'A' as int <= b <= 'F' as int
  }

  predicate IsAsciiUuid(b: seq<byte>) {
    |b| == 36 &&
    forall i :: 0 <= i < 36 ==> if i == 8 || i == 13 || i == 18 || i == 23 then b[i] == '-' as int else IsHexByte(b[i])
  }

  /** `classifyGeminiThoughtSignatureEnvelope` finds one of the two known envelopes. */
  predicate KnownEnvelope(b: seq<byte>) {
    b != [] && !IsAsciiUuid(b) && (Field1Records(b) || Field2Envelope(b))
  }

  /** `decodeGeminiThoughtSignature`: padded base64, or else unpadded. */
  function GeminiBytes(sig: string): Option<seq<byte>> {
    if |sig| > MAX_SIGNATURE_LEN then None
    else if DecodeStd(sig).Some? then DecodeStd(sig)
    else Decode(sig, Std, false)
  }

  /** `isRecognizedGeminiProviderSignature`: no sentinel, and a known envelope. */
  predicate IsGemini(raw: string) {
    var sig := TrimSpace(raw);
    && sig != "" && !IsBypass(sig)
    && var b := GeminiBytes(sig);
    && b.Some? && KnownEnvelope(b.value)
  }

  // -------------------------------------------------------------------- GPT

  predicate GptChar(c: char) {
    InAlphabet(c, Url) || c == '='
  }

  function GptBytes(sig: string): Option<seq<byte>> {
    if Decode(sig, Url, false).Some? then Decode(sig, Url, false) else Decode(sig, Url, true)
  }

  /** `InspectGPTReasoningSignature`. */
  predicate IsGpt(raw: string) {
    var sig := TrimSpace(raw);
    && sig != "" && |sig| <= MAX_SIGNATURE_LEN
    && (forall i :: 0 <= i < |sig| ==> GptChar(sig[i]))
    && "gAAAA" <= sig
    && var b := GptBytes(sig);
    && b.Some? && |b.value| >= 73 && b.value[0] == 0x80 && (|b.value| - 57) % 16 == 0
  }

  // -------------------------------------------------- the recognisers are disjoint

  /** A signature accepted as Claude starts with E or R, and its first byte is that of the form. */
  lemma ClaudeFirst(sig: string)
    requires ClaudeOk(sig, true)
    ensures DecodeStd(sig).Some? && DecodeStd(sig).value != []
    ensures DecodeStd(sig).value[0] == if sig[0] == 'E' then 0x12 else 0x45
    ensures sig[0] == 'E' || sig[0] == 'R'
  {
  }

  /** A Gemini payload starts with the tag of field 1 or 2, minimally encoded or not. */
  lemma GeminiFirst(b: seq<byte>)
    requires KnownEnvelope(b)
    ensures b[0] % 128 == 10 || b[0] % 128 == 18
    ensures b[0] % 128 == 18 ==> Field2Envelope(b)
  {
    if Field1Records(b) { Field1First(b); } else { Field2First(b); }
    hide Field1Records, Field2Envelope, IsAsciiUuid;
  }

  lemma Field1First(b: seq<byte>)
    requires b != [] && Field1Records(b)
    ensures b[0] % 128 == 10
  {
    hide ConsumeTag, ConsumeBytes, OpaquePayload;
    assert ConsumeTag(b).value.num % 16 == 1;
  }

  lemma Field2First(b: seq<byte>)
    requires Field2Envelope(b)
    ensures b != [] && b[0] % 128 == 18
  {
    hide ConsumeTag, ConsumeBytes, OpaquePayload;
    assert ConsumeTag(b).value.num % 16 == 2;
  }

  /** What a Gemini envelope wraps cannot be a Claude channel block: its first byte would be the tag
      of field 0. */
  lemma EnvelopeIsNotClaude(b: seq<byte>)
    requires Field2Envelope(b)
    ensures !ClaudePayloadOk(b)
  {
    SingleBytesField(b);
    var container := OnlyBytesField(b, 2).value;
    var field := Fields(b).value[0];
    assert [field][..0] == [];
    assert LastBytes([], 2) == Some(None);
    assert ExtractBytes(b, 2) == Some(container);
    SingleBytesField(container);
    var value := OnlyBytesField(container, 1).value;
    var inner := Fields(container).value[0];
    assert [inner][..0] == [];
    assert LastBytes([], 1) == Some(None);
    assert ExtractBytes(container, 1) == Some(value);
    NoFieldZero(value);
  }

  lemma ClaudeNotGemini(sig: string)
    requires ClaudeOk(sig, true) && GeminiBytes(sig).Some?
    ensures !KnownEnvelope(GeminiBytes(sig).value)
  {
    ClaudeFirst(sig);
    var b := GeminiBytes(sig).value;
    if KnownEnvelope(b) {
      GeminiFirst(b);
      EnvelopeIsNotClaude(b);
    }
  }

  lemma GptNotGemini(sig: string)
    requires |sig| >= 2 && sig[0] == 'g' && sig[1] == 'A' && GeminiBytes(sig).Some?
    ensures !KnownEnvelope(GeminiBytes(sig).value)
  {
    GptFirst(sig, DecodeStd(sig).Some?);
    if KnownEnvelope(GeminiBytes(sig).value) {
      GeminiFirst(GeminiBytes(sig).value);
    }
  }

  lemma GptFirst(sig: string, padded: bool)
    requires |sig| >= 2 && sig[0] == 'g' && sig[1] == 'A' && Decode(sig, Std, padded).Some?
    ensures Decode(sig, Std, padded).value != [] && Decode(sig, Std, padded).value[0] == 0x80
  {
    FirstByte(sig, Std, padded);
    assert Value('g', Std) == 32 && Value('A', Std) == 0;
  }

  /** How many of the four recognisers accept a text. */
  function Accepting(raw: string): nat {
    (if IsBypass(raw) then 1 else 0) + (if IsGpt(raw) then 1 else 0)
    + (if IsClaude(raw) then 1 else 0) + (if IsGemini(raw) then 1 else 0)
  }

  /** Main result: a text without a provider prefix is accepted by at most one recogniser. */
  lemma AtMostOne(raw: string)
    requires AfterHash(TrimSpace(raw)).None?
    ensures Accepting(raw) <= 1
  {
    FirstLetters(raw);
    if IsGemini(raw) { NeverGemini(raw); }
    hide IsBypass, IsGpt, IsClaude, IsGemini, TrimSpace;
  }

  lemma FirstLetters(raw: string)
    requires AfterHash(TrimSpace(raw)).None?
    ensures IsBypass(raw) ==> TrimSpace(raw) != "" && (TrimSpace(raw)[0] == 's' || TrimSpace(raw)[0] == 'c')
    ensures IsGpt(raw) ==> |TrimSpace(raw)| >= 2 && TrimSpace(raw)[0] == 'g' && TrimSpace(raw)[1] == 'A'
    ensures IsClaude(raw) ==> TrimSpace(raw) != "" && (TrimSpace(raw)[0] == 'E' || TrimSpace(raw)[0] == 'R')
  {
    var sig := TrimSpace(raw);
    hide TrimSpace, Decode, GptBytes;
    if IsClaude(raw) { ClaudeLetters(raw); }
    if IsGpt(raw) {
      assert sig[0] == "gAAAA"[0] && sig[1] == "gAAAA"[1];
    }
  }

  lemma ClaudeLetters(raw: string)
    requires AfterHash(TrimSpace(raw)).None? && IsClaude(raw)
    ensures TrimSpace(raw) != "" && ClaudeOk(TrimSpace(raw), true) && (TrimSpace(raw)[0] == 'E' || TrimSpace(raw)[0] == 'R')
  {
    TrimTwice(raw);
    ClaudeFirst(TrimSpace(raw));
  }

  lemma GeminiIs(raw: string)
    requires IsGemini(raw)
    ensures GeminiBytes(TrimSpace(raw)).Some? && KnownEnvelope(GeminiBytes(TrimSpace(raw)).value) && !IsBypass(raw)
  {
    TrimTwice(raw);
    hide GeminiBytes, KnownEnvelope, TrimSpace;
  }

  lemma NeverGemini(raw: string)
    requires AfterHash(TrimSpace(raw)).None? && IsGemini(raw)
    ensures !IsGpt(raw) && !IsClaude(raw) && !IsBypass(raw)
  {
    hide *;
    var sig := TrimSpace(raw);
    GeminiIs(raw);
    FirstLetters(raw);
    if IsGpt(raw) { GptNotGemini(sig); }
    if IsClaude(raw) {
      ClaudeLetters(raw);
      ClaudeNotGemini(sig);
    }
  }
}
