/** More ways to write a signature: without padding, in the URL alphabet, and behind a provider prefix. */
module SignatureTexts {
  import opened Common
  import opened Strings
  import opened Base64
  import opened Recognisers
  import opened NormalForms
  import opened Compatibility
  import opened SignatureForms

  // -------------------------------------------------------------- raw base64

  function CharIn(v: int, a: Alphabet): (c: char)
    requires 0 <= v < 64
    ensures Value(c, a) == v
  {
    if v < 62 || a == Std then CharOf(v) else if v == 62 then '-' else '_'
  }

  /** The four characters of the first three bytes. */
  function Four(b: seq<byte>, a: Alphabet): string
    requires |b| >= 3
  {
    [CharIn(b[0] / 4, a), CharIn(b[0] % 4 * 16 + b[1] / 16, a), CharIn(b[1] % 16 * 4 + b[2] / 64, a), CharIn(b[2] % 64, a)]
  }

  /** Base64 without padding, in either alphabet. */
  function RawText(b: seq<byte>, a: Alphabet): string {
    if b == [] then ""
    else if |b| == 1 then [CharIn(b[0] / 4, a), CharIn(b[0] % 4 * 16, a)]
    else if |b| == 2 then [CharIn(b[0] / 4, a), CharIn(b[0] % 4 * 16 + b[1] / 16, a), CharIn(b[1] % 16 * 4, a)]
    else Four(b, a) + RawText(b[3..], a)
  }

  function Padding(b: seq<byte>): string {
    if |b| % 3 == 1 then "==" else if |b| % 3 == 2 then "=" else ""
  }

  /** Four characters in front of the rest. */
  lemma FourInFront(v0: int, v1: int, v2: int, v3: int, a: Alphabet, rest: string, padded: bool)
    requires IsSextet(v0) && IsSextet(v1) && IsSextet(v2) && IsSextet(v3)
    ensures var s, d := [CharIn(v0, a), CharIn(v1, a), CharIn(v2, a), CharIn(v3, a)] + rest, DecodeCompact(rest, a, padded);
            DecodeCompact(s, a, padded) == if d.None? then None else Some(Three(v0, v1, v2, v3) + d.value)
  {
    var s := [CharIn(v0, a), CharIn(v1, a), CharIn(v2, a), CharIn(v3, a)] + rest;
    assert s[..4] == [CharIn(v0, a), CharIn(v1, a), CharIn(v2, a), CharIn(v3, a)] && s[4..] == rest;
  }

  lemma LastOne(b: byte, a: Alphabet)
    ensures var s := RawText([b], a);
            && DecodeCompact(s, a, false) == DecodeCompact(s + "==", a, true) == Some([b])
            && DecodeCompact(s, a, true) == DecodeCompact(s + "==", a, false) == None
  {
    var v0, v1 := b / 4, b % 4 * 16;
    OneByte(b, v0, v1);
    var s := RawText([b], a);
    assert s == [CharIn(v0, a), CharIn(v1, a)] && !InAlphabet('=', a);
    assert s[..2] == s && (s + "==")[..2] == s && (s + "==")[..4][3] == '=';
  }

  lemma LastTwo(b: byte, c: byte, a: Alphabet)
    ensures var s := RawText([b, c], a);
            && DecodeCompact(s, a, false) == DecodeCompact(s + "=", a, true) == Some([b, c])
            && DecodeCompact(s, a, true) == DecodeCompact(s + "=", a, false) == None
  {
    var v0, v1, v2 := b / 4, b % 4 * 16 + c / 16, c % 16 * 4;
    TwoBytes(b, c, v0, v1, v2);
    assert RawText([b, c], a) == [CharIn(v0, a), CharIn(v1, a), CharIn(v2, a)];
    hide RawText;
    ThreeDigits(v0, v1, v2, a);
  }

  lemma ThreeDigits(v0: int, v1: int, v2: int, a: Alphabet)
    requires IsSextet(v0) && IsSextet(v1) && IsSextet(v2)
    ensures var s := [CharIn(v0, a), CharIn(v1, a), CharIn(v2, a)];
            && DecodeCompact(s, a, false) == DecodeCompact(s + "=", a, true) == Some(Three(v0, v1, v2, 0)[..2])
            && DecodeCompact(s, a, true) == DecodeCompact(s + "=", a, false) == None
  {
    var s := [CharIn(v0, a), CharIn(v1, a), CharIn(v2, a)];
    hide CharIn, Three;
    assert !InAlphabet('=', a) && s[2] != '=' by { assert Value(s[2], a) == v2; }
    assert s[..3] == s && (s + "=")[..3] == s && (s + "=")[..4][3] == '=' && (s + "=")[2] != '=';
  }

  /** Text without padding decodes without, and text with padding with it; not the other way round. */
  predicate Decodes(b: seq<byte>, a: Alphabet) {
    var s, pad := RawText(b, a), Padding(b);
    && DecodeCompact(s, a, false) == DecodeCompact(s + pad, a, true) == Some(b)
    && (DecodeCompact(s, a, true) == if pad == "" then Some(b) else None)
    && (DecodeCompact(s + pad, a, false) == if pad == "" then Some(b) else None)
  }

  lemma {:induction false} RawDecodes(b: seq<byte>, a: Alphabet)
    ensures Decodes(b, a)
  {
    if |b| < 3 {
      ShortDecodes(b, a);
    } else {
      RawDecodes(b[3..], a);
      hide Decodes;
      GroupDecodes(b, a);
    }
  }

  lemma ShortDecodes(b: seq<byte>, a: Alphabet)
    requires |b| < 3
    ensures Decodes(b, a)
  {
    var s := RawText(b, a);
    if |b| == 0 {
      assert s + Padding(b) == s == "";
      DecodesIs(b, a, s, s);
    } else if |b| == 1 {
      assert b == [b[0]] && Padding(b) == "==";
      LastOne(b[0], a);
      hide *;
      DecodesIs(b, a, s, s + "==");
    } else {
      assert b == [b[0], b[1]] && Padding(b) == "=";
      LastTwo(b[0], b[1], a);
      hide *;
      DecodesIs(b, a, s, s + "=");
    }
  }

  lemma GroupInFront(b: seq<byte>, a: Alphabet, rest: string, padded: bool)
    requires |b| >= 3
    ensures var d := DecodeCompact(rest, a, padded);
            DecodeCompact(Four(b, a) + rest, a, padded) == if d.None? then None else Some(b[..3] + d.value)
  {
    CharsOfThree(b[0], b[1], b[2]);
    assert b[..3] == [b[0], b[1], b[2]];
    FourInFront(b[0] / 4, b[0] % 4 * 16 + b[1] / 16, b[1] % 16 * 4 + b[2] / 64, b[2] % 64, a, rest, padded);
    hide DecodeCompact, CharIn, Three;
  }

  lemma DecodesIs(b: seq<byte>, a: Alphabet, s: string, t: string)
    requires s == RawText(b, a) && t == s + Padding(b)
    requires DecodeCompact(s, a, false) == DecodeCompact(t, a, true) == Some(b)
    requires DecodeCompact(s, a, true) == if Padding(b) == "" then Some(b) else None
    requires DecodeCompact(t, a, false) == if Padding(b) == "" then Some(b) else None
    ensures Decodes(b, a)
  {
    hide RawText, Padding, DecodeCompact;
  }

  lemma DecodesSays(b: seq<byte>, a: Alphabet)
    requires Decodes(b, a)
    ensures var s, t := RawText(b, a), RawText(b, a) + Padding(b);
            && DecodeCompact(s, a, false) == DecodeCompact(t, a, true) == Some(b)
            && DecodeCompact(s, a, true) == DecodeCompact(t, a, false) == if Padding(b) == "" then Some(b) else None
  {
    hide RawText, Padding, DecodeCompact;
  }

  lemma GroupText(b: seq<byte>, a: Alphabet)
    requires |b| >= 3
    ensures RawText(b, a) == Four(b, a) + RawText(b[3..], a)
  {
    var rest := RawText(b[3..], a);
    assert RawText(b, a) == Four(b, a) + rest;
    hide *;
  }

  lemma GroupPadding(b: seq<byte>)
    requires |b| >= 3
    ensures Padding(b[3..]) == Padding(b)
  {
    assert |b[3..]| == |b| - 3;
    assert |b[3..]| % 3 == |b| % 3;
  }

  lemma GroupDecodes(b: seq<byte>, a: Alphabet)
    requires |b| >= 3 && Decodes(b[3..], a)
    ensures Decodes(b, a)
  {
    hide *;
    var four, rest, pad := Four(b, a), RawText(b[3..], a), Padding(b);
    var t := rest + pad;
    GroupText(b, a);
    GroupPadding(b);
    DecodesSays(b[3..], a);
    GroupInFront(b, a, rest, false);
    GroupInFront(b, a, rest, true);
    GroupInFront(b, a, t, false);
    GroupInFront(b, a, t, true);
    assert b[..3] + b[3..] == b;
    assert four + t == (four + rest) + pad;
    DecodesIs(b, a, four + rest, four + t);
  }

  /** Only characters of the alphabet, four for three bytes. */
  lemma {:induction false} RawShape(b: seq<byte>, a: Alphabet)
    ensures forall i :: 0 <= i < |RawText(b, a)| ==> InAlphabet(RawText(b, a)[i], a)
    ensures |RawText(b, a)| == (|b| * 4 + 2) / 3
  {
    if |b| >= 3 { RawShape(b[3..], a); }
  }

  // --------------------------------------------------------------------- texts

  /** A text of alphabet characters, with '=' behind them or not, has nothing to trim and no separator. */
  lemma PlainText(s: string, a: Alphabet)
    requires s != "" && forall i :: 0 <= i < |s| ==> InAlphabet(s[i], a) || s[i] == '='
    ensures TrimSpace(s) == s && AfterHash(s).None? && NoBreaks(s)
  {
    forall i | 0 <= i < |s| ensures !IsSpace(s[i]) && s[i] != '#' && !IsBreak(s[i]) {
    }
    TrimmedStays(s);
    assert '#' !in s;
    NoHashInside(s);
    hide InAlphabet;
  }

  /** What a text of some bytes decodes to, in either way. */
  lemma TextDecodes(b: seq<byte>, a: Alphabet)
    requires b != []
    ensures var s, t := RawText(b, a), RawText(b, a) + Padding(b);
            && s != "" && TrimSpace(s) == s && AfterHash(s).None? && TrimSpace(t) == t && AfterHash(t).None?
            && Decode(s, a, false) == Decode(t, a, true) == Some(b)
            && (Decode(s, a, true) == None || Decode(s, a, true) == Some(b))
            && (Decode(t, a, false) == None || Decode(t, a, false) == Some(b))
  {
    var s, t := RawText(b, a), RawText(b, a) + Padding(b);
    RawShape(b, a);
    assert forall i :: 0 <= i < |Padding(b)| ==> Padding(b)[i] == '=';
    PlainText(s, a);
    PlainText(t, a);
    CompactId(s);
    CompactId(t);
    RawDecodes(b, a);
    hide DecodeCompact, Compact, RawText, Padding, TrimSpace, AfterHash, InAlphabet;
  }

  // ---------------------------------------------------------------------- GPT

  /** A token: version 0x80, a time stamp that starts with 24 zero bits but two, sixteen bytes more, some
      blocks of sixteen bytes, and thirty-two bytes behind them. */
  predicate IsToken(b: seq<byte>) {
    |b| >= 73 && (|b| - 57) % 16 == 0 && b[0] == 0x80 && b[1] == 0 && b[2] == 0 && b[3] < 4
  }

  lemma TokenStarts(b: seq<byte>)
    requires |b| >= 6
    ensures "gAAAA" <= RawText(b, Url) <==> b[0] == 0x80 && b[1] == 0 && b[2] == 0 && b[3] < 4
  {
    var v0, v1, v2, v3, v4 := b[0] / 4, b[0] % 4 * 16 + b[1] / 16, b[1] % 16 * 4 + b[2] / 64, b[2] % 64, b[3] / 4;
    var text := RawText(b, Url);
    assert RawText(b[3..], Url)[0] == CharIn(v4, Url);
    assert text == Four(b, Url) + RawText(b[3..], Url);
    assert text[..5] == [CharIn(v0, Url), CharIn(v1, Url), CharIn(v2, Url), CharIn(v3, Url), CharIn(v4, Url)];
    hide RawText;
    assert Value('g', Url) == 32 && Value('A', Url) == 0;
    assert "gAAAA" <= text <==> text[..5] == "gAAAA" by {
      if "gAAAA" <= text { assert text[..5] == "gAAAA"; }
    }
    StartsZero(b[0], b[1], b[2], b[3]);
    assert text[..5] == "gAAAA" <==> v0 == 32 && v1 == 0 && v2 == 0 && v3 == 0 && v4 == 0 by {
      if v0 == 32 && v1 == 0 && v2 == 0 && v3 == 0 && v4 == 0 {
        assert CharIn(32, Url) == 'g' && CharIn(0, Url) == 'A';
      }
    }
  }

  lemma StartsZero(b0: byte, b1: byte, b2: byte, b3: byte)
    ensures b0 / 4 == 32 && b0 % 4 * 16 + b1 / 16 == 0 && b1 % 16 * 4 + b2 / 64 == 0 && b2 % 64 == 0 && b3 / 4 == 0
            <==> b0 == 0x80 && b1 == 0 && b2 == 0 && b3 < 4
  {
  }

  lemma GptIs(text: string, b: seq<byte>)
    requires text != "" && TrimSpace(text) == text && (forall i :: 0 <= i < |text| ==> GptChar(text[i])) && GptBytes(text) == Some(b)
    requires |b| >= 6 ==> ("gAAAA" <= text <==> b[0] == 0x80 && b[1] == 0 && b[2] == 0 && b[3] < 4)
    ensures IsGpt(text) <==> |text| <= 33554432 && IsToken(b)
  {
    hide GptBytes, TrimSpace, GptChar;
  }

  /** Only characters a token may have, and a start that padding does not change. */
  lemma TokenText(b: seq<byte>, padded: bool)
    requires b != []
    ensures var text := RawText(b, Url) + if padded then Padding(b) else "";
            && (forall i :: 0 <= i < |text| ==> GptChar(text[i]))
            && (|b| >= 6 ==> ("gAAAA" <= text <==> b[0] == 0x80 && b[1] == 0 && b[2] == 0 && b[3] < 4))
  {
    var s := RawText(b, Url);
    var text := s + if padded then Padding(b) else "";
    RawShape(b, Url);
    forall i | 0 <= i < |text| ensures GptChar(text[i]) {
      if i >= |s| { assert text[i] == Padding(b)[i - |s|] == '='; }
    }
    if |b| >= 6 {
      TokenStarts(b);
      hide *;
      assert |s| >= 5 && s <= text;
      assert "gAAAA" <= text <==> "gAAAA" <= s by { assert text[..5] == s[..5]; }
    }
  }

  lemma TokenBytes(b: seq<byte>, padded: bool)
    requires b != []
    ensures var text := RawText(b, Url) + if padded then Padding(b) else "";
            text != "" && TrimSpace(text) == text && AfterHash(text).None? && GptBytes(text) == Some(b)
  {
    TextDecodes(b, Url);
    hide RawText, Padding, TrimSpace, AfterHash, Decode;
    assert !padded ==> RawText(b, Url) + "" == RawText(b, Url);
  }

  /** Main result on GPT: the URL text of some bytes, padded or not, is detected as GPT exactly if they are a
      token and the text fits the limit. */
  lemma TokenDetected(b: seq<byte>, padded: bool)
    requires b != []
    ensures var text := RawText(b, Url) + if padded then Padding(b) else "";
            Detect(text) == Gpt <==> |text| <= 33554432 && IsToken(b)
  {
    var text := RawText(b, Url) + if padded then Padding(b) else "";
    TokenText(b, padded);
    TokenBytes(b, padded);
    hide *;
    GptIs(text, b);
    DetectIff(Gpt, text);
  }

  // ------------------------------------------------------------ Gemini, unpadded

  /** Records and wrapped records are detected without padding, too. */
  lemma UnpaddedDetected(b: seq<byte>)
    requires b != [] && (b[0] == 0x0A || b[0] == 0x12) && |RawText(b, Std)| <= 33554432 && |Encode(b)| <= 33554432
    ensures Detect(RawText(b, Std)) == Gemini <==> Detect(Encode(b)) == Gemini
  {
    var text := RawText(b, Std);
    TextDecodes(b, Std);
    RawShape(b, Std);
    NotUuid(b);
    GeminiText(b);
    RawEnvelope(text, b);
    DetectIff(Gemini, text);
    hide *;
    AcceptsGemini(text);
  }

  lemma RawEnvelope(text: string, b: seq<byte>)
    requires text != "" && TrimSpace(text) == text && |text| <= 33554432 && (forall i :: 0 <= i < |text| ==> InAlphabet(text[i], Std))
    requires Decode(text, Std, false) == Some(b) && (Decode(text, Std, true) == None || Decode(text, Std, true) == Some(b))
    requires b != [] && !IsAsciiUuid(b)
    ensures IsGemini(text) <==> Field1Records(b) || Field2Envelope(b)
  {
    assert Plain(text);
    NotSentinel(text);
    NoBypass(text);
    assert GeminiBytes(text) == Some(b);
    hide Decode, TrimSpace, Field1Records, Field2Envelope, IsAsciiUuid, IsBypass, InAlphabet, Plain;
  }

  // ------------------------------------------------------------------ prefixes

  lemma {:induction false} SplitAtHash(prefix: string, text: string)
    requires '#' !in prefix
    ensures AfterHash(prefix + "#" + text) == Some(text) && BeforeHash(prefix + "#" + text) == prefix
  {
    var s := prefix + "#" + text;
    if prefix == "" {
      assert s[1..] == text;
    } else {
      SplitAtHash(prefix[1..], text);
      assert s[1..] == prefix[1..] + "#" + text;
    }
  }

  lemma HashTrimmed(prefix: string, text: string)
    requires (prefix != "" ==> !IsSpace(prefix[0])) && text != "" && TrimSpace(text) == text
    ensures TrimSpace(prefix + "#" + text) == prefix + "#" + text
  {
    var raw := prefix + "#" + text;
    TrimEnds(text);
    assert raw[|raw| - 1] == text[|text| - 1] && raw[0] == if prefix == "" then '#' else prefix[0];
    TrimmedStays(raw);
    hide TrimSpace;
  }

  lemma ProviderNamed(prefix: string)
    requires TrimSpace(prefix) == prefix
    ensures var name, p := ToLower(prefix), PrefixProvider(prefix);
            && (p == Claude <==> name == "claude" || name == "anthropic") && (p == Gemini <==> name == "gemini" || name == "google")
            && (p == Gpt <==> name == "openai" || name == "gpt" || name == "codex") && p in [Claude, Gemini, Gpt, Unknown]
  {
    hide TrimSpace, ToLower;
    assert |"claude"| == 6 && |"anthropic"| == 9 && |"gemini"| == 6 && |"google"| == 6;
    assert "claude"[0] == 'c' && "gemini"[1] == 'e' && "google"[1] == 'o';
  }

  /** A signature behind the name of a provider, in any case of letters: detected as of that provider if its
      recogniser accepts it, and otherwise not at all. */
  lemma PrefixDetected(prefix: string, text: string)
    requires '#' !in prefix && prefix != "" && TrimSpace(prefix) == prefix && text != "" && TrimSpace(text) == text
    ensures var name, d := ToLower(prefix), Detect(prefix + "#" + text);
            && (name == "claude" || name == "anthropic" ==> d == if IsClaude(text) then Claude else Unknown)
            && (name == "gemini" || name == "google" ==>
                  d == if IsBypass(text) then GeminiBypass else if IsGemini(text) then Gemini else Unknown)
            && (name == "openai" || name == "gpt" || name == "codex" ==> d == if IsGpt(text) then Gpt else Unknown)
            && (name !in ["claude", "anthropic", "gemini", "google", "openai", "gpt", "codex"] ==> d == Unknown)
    ensures ToLower(prefix) in ["claude", "anthropic", "gemini", "google", "openai", "gpt", "codex"] ==>
              WithoutPrefix(prefix + "#" + text) == text
  {
    var raw := prefix + "#" + text;
    SplitAtHash(prefix, text);
    TrimEnds(prefix);
    HashTrimmed(prefix, text);
    ProviderNamed(prefix);
    hide TrimSpace, ToLower, IsClaude, IsGemini, IsGpt, IsBypass, AfterHash, BeforeHash, PrefixProvider;
  }

  // ---------------------------------------------------------- sentinels, layers

  /** A text without a separator is taken for a sentinel exactly if it is one of these two, give or take
      surrounding space. */
  lemma SentinelDetected(text: string)
    requires AfterHash(TrimSpace(text)).None?
    ensures Detect(text) == GeminiBypass <==>
              TrimSpace(text) == "skip_thought_signature_validator" || TrimSpace(text) == "context_engineering_is_the_way_to_go"
  {
    DetectIff(GeminiBypass, text);
    BypassIs(text);
    hide *;
  }

  lemma BypassIs(text: string)
    ensures Accepts(GeminiBypass, text) <==>
              TrimSpace(text) == "skip_thought_signature_validator" || TrimSpace(text) == "context_engineering_is_the_way_to_go"
  {
    hide TrimSpace;
  }

  /** Whatever stands in front of a separator, a Claude signature is what stands behind it. */
  lemma ClaudeBehindHash(prefix: string, text: string)
    requires '#' !in prefix && (prefix != "" ==> !IsSpace(prefix[0])) && text != "" && TrimSpace(text) == text
    ensures StripClaudePrefix(prefix + "#" + text) == text
    ensures AfterHash(text).None? ==> (IsClaude(prefix + "#" + text) <==> IsClaude(text))
  {
    SplitAtHash(prefix, text);
    HashTrimmed(prefix, text);
    hide TrimSpace, AfterHash, ClaudeOk;
  }

  /** The bytes below one base64 layer, marked "E", or two, marked "R" and "E". */
  ghost predicate Below(sig: string, b: seq<byte>) {
    sig != "" &&
    if sig[0] == 'E' then DecodeStd(sig) == Some(b)
    else sig[0] == 'R' && exists inner: string ::
           inner != "" && inner[0] == 'E' && AllBytes(inner) && DecodeStd(sig) == Some(BytesOf(inner)) && DecodeStd(inner) == Some(b)
  }

  predicate AllBytes(s: string) {
    forall i :: 0 <= i < |s| ==> s[i] as int < 256
  }

  /** A Claude signature, taken loosely or strictly, is a text with such bytes below it that start with field 2. */
  lemma ClaudeLayers(sig: string, strict: bool)
    ensures ClaudeOk(sig, strict) <==>
              |sig| <= 33554432 && exists b :: Below(sig, b) && b != [] && b[0] == 0x12 && (strict ==> ClaudePayloadOk(b))
  {
    if ClaudeOk(sig, strict) {
      OkHasLayers(sig, strict);
    }
    if b :| |sig| <= 33554432 && Below(sig, b) && b != [] && b[0] == 0x12 && (strict ==> ClaudePayloadOk(b)) {
      LayersAreOk(sig, b, strict);
    }
    hide ClaudeOk, Below, ClaudePayloadOk;
  }

  lemma OkHasLayers(sig: string, strict: bool)
    requires ClaudeOk(sig, strict)
    ensures |sig| <= 33554432 && exists b :: Below(sig, b) && b != [] && b[0] == 0x12 && (strict ==> ClaudePayloadOk(b))
  {
    hide DecodeStd, ClaudePayloadOk;
    if sig[0] == 'E' {
      assert Below(sig, DecodeStd(sig).value);
    } else {
      var inner := TextOf(DecodeStd(sig).value);
      assert BytesOf(inner) == DecodeStd(sig).value && AllBytes(inner);
      assert Below(sig, DecodeStd(inner).value);
    }
  }

  lemma LayersAreOk(sig: string, b: seq<byte>, strict: bool)
    requires |sig| <= 33554432 && Below(sig, b) && b != [] && b[0] == 0x12 && (strict ==> ClaudePayloadOk(b))
    ensures ClaudeOk(sig, strict)
  {
    hide DecodeStd, ClaudePayloadOk;
    if sig[0] == 'R' {
      var inner: string :| inner != "" && inner[0] == 'E' && AllBytes(inner)
                           && DecodeStd(sig) == Some(BytesOf(inner)) && DecodeStd(inner) == Some(b);
      assert TextOf(BytesOf(inner)) == inner;
    }
  }
}
