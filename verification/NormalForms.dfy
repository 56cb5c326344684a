/** The two forms of a Claude signature: E-form, one base64 layer, and R-form, two layers. */
module NormalForms {
  import opened Common
  import opened Strings
  import opened Base64
  import opened Recognisers

  /** `NormalizeClaudeThinkingSignature`: the R-form. */
  function ToRForm(raw: string, strict: bool): Option<string> {
    var sig := StripClaudePrefix(raw);
    if !ClaudeOk(sig, strict) then None
    else if sig[0] == 'R' then Some(sig)
    else (SingleLayerBytes(sig); Some(Encode(BytesOf(sig))))
  }

  /** `NormalizeClaudeProviderNativeThinkingSignature`: the E-form. */
  function ToEForm(raw: string, strict: bool): Option<string> {
    var sig := StripClaudePrefix(raw);
    if !ClaudeOk(sig, strict) then None
    else if sig[0] == 'E' then Some(sig)
    else Some(TextOf(DecodeStd(sig).value))
  }

  // ------------------------------------------------------- decodable texts

  predicate PlainChar(c: char) {
    InAlphabet(c, Std) || c == '=' || IsBreak(c)
  }

  predicate Plain(s: string) {
    forall i :: 0 <= i < |s| ==> PlainChar(s[i])
  }

  lemma {:induction false} DecodedCompactIsPlain(s: string, padded: bool)
    requires DecodeCompact(s, Std, padded).Some?
    ensures forall i :: 0 <= i < |s| ==> InAlphabet(s[i], Std) || s[i] == '='
  {
    if |s| >= 4 && AllIn(s[..4], Std) {
      DecodedCompactIsPlain(s[4..], padded);
      FourInAlphabet(s, Std);
      forall i | 0 <= i < |s| ensures InAlphabet(s[i], Std) || s[i] == '=' {
        if i >= 4 { assert s[i] == s[4..][i - 4]; }
      }
    } else if s != "" {
      assert s[..2][0] == s[0] && s[..2][1] == s[1];
      assert |s| >= 3 ==> s[..3][0] == s[0] && s[..3][1] == s[1] && s[..3][2] == s[2];
    }
  }

  lemma {:induction false} CompactCovers(s: string)
    requires forall i :: 0 <= i < |Compact(s)| ==> InAlphabet(Compact(s)[i], Std) || Compact(s)[i] == '='
    ensures Plain(s)
  {
    if s != "" {
      var rest := Compact(s[1..]);
      if !IsBreak(s[0]) {
        assert Compact(s) == [s[0]] + rest && Compact(s)[0] == s[0];
        forall i | 0 <= i < |rest| ensures InAlphabet(rest[i], Std) || rest[i] == '=' {
          assert rest[i] == Compact(s)[i + 1];
        }
      }
      CompactCovers(s[1..]);
      forall i | 0 <= i < |s| ensures PlainChar(s[i]) {
        if i > 0 { assert s[i] == s[1..][i - 1]; }
      }
    }
  }

  /** A text that decodes consists of alphabet characters, padding and line breaks; so it has no
      '#', fits in bytes, and only line breaks can be trimmed off it. */
  lemma DecodedIsPlain(s: string, padded: bool := true)
    requires Decode(s, Std, padded).Some?
    ensures Plain(s)
  {
    DecodedCompactIsPlain(Compact(s), padded);
    CompactCovers(s);
  }

  lemma SingleLayerBytes(sig: string)
    requires DecodeStd(sig).Some?
    ensures forall i :: 0 <= i < |sig| ==> sig[i] as int < 256
  {
    DecodedIsPlain(sig);
  }

  lemma {:induction false} PlainHasNoHash(s: string)
    requires Plain(s)
    ensures AfterHash(s).None?
  {
    if s != "" {
      assert PlainChar(s[0]);
      forall i | 0 <= i < |s[1..]| ensures PlainChar(s[1..][i]) {
        assert s[1..][i] == s[i + 1];
      }
      PlainHasNoHash(s[1..]);
    }
  }

  lemma {:induction false} TrimLeftCompact(s: string)
    requires Plain(s)
    ensures Compact(TrimLeft(s)) == Compact(s) && Plain(TrimLeft(s))
  {
    if s != "" && IsSpace(s[0]) {
      assert PlainChar(s[0]);
      forall i | 0 <= i < |s[1..]| ensures PlainChar(s[1..][i]) {
        assert s[1..][i] == s[i + 1];
      }
      TrimLeftCompact(s[1..]);
    }
  }

  lemma {:induction false} TrimRightCompact(s: string)
    requires Plain(s)
    ensures Compact(TrimRight(s)) == Compact(s) && Plain(TrimRight(s))
  {
    if s != "" && IsSpace(s[|s| - 1]) {
      var n := |s| - 1;
      assert PlainChar(s[n]);
      TrimRightCompact(s[..n]);
      CompactConcat(s[..n], [s[n]]);
      assert s == s[..n] + [s[n]] && Compact([s[n]]) == Compact([]);
    }
  }

  /** Trimming a decodable text changes nothing about what it decodes to. */
  lemma TrimmedDecodes(s: string)
    requires DecodeStd(s).Some?
    ensures Plain(TrimSpace(s)) && DecodeStd(TrimSpace(s)) == DecodeStd(s)
    ensures StripClaudePrefix(s) == TrimSpace(s)
  {
    DecodedIsPlain(s);
    TrimLeftCompact(s);
    TrimRightCompact(TrimLeft(s));
    PlainHasNoHash(TrimSpace(s));
  }

  /** The first character of a text whose first byte is known. */
  lemma FirstChar(s: string)
    requires DecodeStd(s).Some? && s != "" && !IsBreak(s[0])
    ensures DecodeStd(s).value != [] && CharOf(DecodeStd(s).value[0] / 4) == s[0]
  {
    FirstByte(s, Std, true);
    ValueInjective(s[0]);
  }

  // ---------------------------------------------------------------- the forms

  lemma StripTwice(raw: string)
    requires ClaudeOk(StripClaudePrefix(raw), false)
    ensures StripClaudePrefix(StripClaudePrefix(raw)) == StripClaudePrefix(raw)
  {
    var sig := StripClaudePrefix(raw);
    TrimTwice(raw);
    var rest := AfterHash(TrimSpace(raw));
    if rest.Some? { TrimTwice(rest.value); }
    TrimmedDecodes(sig);
  }

  lemma DecodesNonEmpty(s: string)
    requires DecodeStd(s).Some? && DecodeStd(s).value != []
    ensures s != ""
  {
    assert DecodeStd("") == Some([]);
  }

  /** The E-form of a signature is a single-layer text; stripped, it is a signature of its own. */
  lemma EFormIsSignature(raw: string, strict: bool)
    requires ToEForm(raw, strict).Some?
    ensures var e := ToEForm(raw, strict).value;
            && SingleLayerOk(e, strict) && StripClaudePrefix(e) == TrimSpace(e)
            && ClaudeOk(TrimSpace(e), strict) && TrimSpace(e)[0] == 'E'
  {
    var sig, e := StripClaudePrefix(raw), ToEForm(raw, strict).value;
    if sig[0] == 'E' {
      StripTwice(raw);
      TrimmedDecodes(sig);
    } else {
      EncodeDecode(sig);
      EncodeShape(DecodeStd(sig).value);
      assert e[0] == 'E';
    }
    TrimmedDecodes(e);
    TrimEnds(e);
    DecodesNonEmpty(TrimSpace(e));
    FirstChar(TrimSpace(e));
    assert CharOf(0x12 / 4) == 'E';
  }

  /** An R-form text whose inner text ends in a line break. */
  predicate WrapsBreak(sig: string) {
    && sig != "" && sig[0] == 'R'
    && var b := DecodeStd(sig);
    && b.Some? && b.value != [] && (b.value[|b.value| - 1] == 10 || b.value[|b.value| - 1] == 13)
  }

  /** The E-form ends in a line break exactly when the signature is such an R-form. */
  lemma EFormEnd(raw: string, strict: bool)
    requires ToEForm(raw, strict).Some?
    ensures var e := ToEForm(raw, strict).value;
            e != "" && (IsBreak(e[|e| - 1]) <==> WrapsBreak(StripClaudePrefix(raw)))
  {
    EFormFirst(raw, strict);
    if StripClaudePrefix(raw)[0] == 'E' {
      EFormIsSignature(raw, strict);
      StripTwice(raw);
      EndsInBreak(ToEForm(raw, strict).value);
    }
  }

  /** Going to E-form twice trims what going once may leave: line breaks at the end of the inner
      text. It is therefore idempotent exactly when the signature does not wrap such a text. */
  lemma EFormIdempotent(raw: string, strict: bool)
    requires ToEForm(raw, strict).Some?
    ensures var e := ToEForm(raw, strict).value;
            && ToEForm(e, strict) == Some(TrimSpace(e))
            && ToEForm(TrimSpace(e), strict) == Some(TrimSpace(e))
            && (ToEForm(e, strict) == Some(e) <==> !WrapsBreak(StripClaudePrefix(raw)))
  {
    var e := ToEForm(raw, strict).value;
    EFormIsSignature(raw, strict);
    StripTwice(e);
    TrimmedDecodes(e);
    EndsInBreak(e);
    EFormEnd(raw, strict);
  }

  lemma EndsInBreak(e: string)
    requires DecodeStd(e).Some? && e != "" && !IsSpace(e[0])
    ensures TrimSpace(e) == e <==> !IsBreak(e[|e| - 1])
  {
    DecodedIsPlain(e);
    TrimEnds(e);
    assert PlainChar(e[|e| - 1]);
    if !IsBreak(e[|e| - 1]) { TrimmedStays(e); }
  }

  /** Encoding bytes that start with 'E' gives a stripped text that starts with 'R'. */
  lemma EncodedIsStripped(b: seq<byte>)
    requires b != [] && b[0] == 0x45
    ensures Encode(b) != "" && StripClaudePrefix(Encode(b)) == Encode(b) && Encode(b)[0] == 'R'
    ensures |Encode(b)| == (|b| + 2) / 3 * 4 && DecodeStd(Encode(b)) == Some(b)
  {
    var r := Encode(b);
    DecodeEncode(b);
    EncodeShape(b);
    FirstChar(r);
    assert CharOf(0x45 / 4) == 'R';
    TrimmedDecodes(r);
    assert !IsSpace(r[0]);
    EndsInBreak(r);
  }

  /** An R-form signature of one more layer. */
  lemma EncodedIsRForm(sig: string, strict: bool)
    requires ClaudeOk(sig, strict) && sig[0] == 'E'
    ensures forall i :: 0 <= i < |sig| ==> sig[i] as int < 256
    ensures var r := Encode(BytesOf(sig));
            && r != "" && StripClaudePrefix(r) == r && r[0] == 'R'
            && DecodeStd(r) == Some(BytesOf(sig)) && TextOf(BytesOf(sig)) == sig
            && (ClaudeOk(r, strict) <==> |r| <= MAX_SIGNATURE_LEN)
  {
    SingleLayerBytes(sig);
    var b := BytesOf(sig);
    EncodedIsStripped(b);
    assert TextOf(b) == sig;
  }

  /** What R-form conversion yields, by the form it starts from. */
  lemma RFormCases(raw: string, strict: bool)
    requires ToRForm(raw, strict).Some?
    ensures var sig, r := StripClaudePrefix(raw), ToRForm(raw, strict).value;
            && StripClaudePrefix(r) == r && r != "" && r[0] == 'R'
            && (ClaudeOk(r, strict) <==> |r| <= MAX_SIGNATURE_LEN)
            && (ClaudeOk(r, strict) ==> ToEForm(r, strict) == ToEForm(raw, strict))
  {
    var sig := StripClaudePrefix(raw);
    StripTwice(raw);
    if sig[0] == 'E' {
      EncodedIsRForm(sig, strict);
    }
  }

  /** The encoded signature fits the length limit: what is in R-form already does, and an E-form
      grows by a third. */
  predicate RFormFits(sig: string) {
    sig != "" && sig[0] == 'E' ==> (|sig| + 2) / 3 * 4 <= MAX_SIGNATURE_LEN
  }

  /** Main result: converting to R-form again, or back to the native E-form, works exactly while the
      encoded signature fits the length limit; then the first changes nothing and the second gives the
      E-form. */
  lemma RFormRoundTrip(raw: string, strict: bool)
    requires ToRForm(raw, strict).Some?
    ensures var r, fits := ToRForm(raw, strict).value, RFormFits(StripClaudePrefix(raw));
            && (ToRForm(r, strict) == Some(r) <==> fits)
            && (ToEForm(r, strict) == ToEForm(raw, strict) <==> fits)
  {
    RFormCases(raw, strict);
    RFormLength(raw, strict);
    assert ToEForm(raw, strict).Some? && ClaudeOk(StripClaudePrefix(raw), strict);
    hide Encode, DecodeStd, StripClaudePrefix, ClaudeOk, RFormFits;
  }

  lemma RFormLength(raw: string, strict: bool)
    requires ToRForm(raw, strict).Some?
    ensures |ToRForm(raw, strict).value| <= MAX_SIGNATURE_LEN <==> RFormFits(StripClaudePrefix(raw))
  {
    RFormValue(raw, strict);
    hide ToRForm, StripClaudePrefix;
  }

  lemma RFormValue(raw: string, strict: bool)
    requires ToRForm(raw, strict).Some?
    ensures var sig, r := StripClaudePrefix(raw), ToRForm(raw, strict).value;
            && sig != "" && |sig| <= MAX_SIGNATURE_LEN
            && (if sig[0] == 'E' then |r| == (|sig| + 2) / 3 * 4 else r == sig)
  {
    var sig := StripClaudePrefix(raw);
    hide StripClaudePrefix, DecodeStd;
    assert ClaudeOk(sig, strict);
    if sig[0] == 'E' {
      SingleLayerBytes(sig);
      EncodeShape(BytesOf(sig));
    }
    hide Encode, DoubleLayerOk, BytesOf;
  }

  /** Main result: an R-form signature survives the trip through its E-form exactly when it is
      canonical base64 and its inner text does not end in a line break. */
  lemma EFormRoundTrip(raw: string, strict: bool)
    requires ToEForm(raw, strict).Some? && StripClaudePrefix(raw)[0] == 'R'
    ensures var sig, e := StripClaudePrefix(raw), ToEForm(raw, strict).value;
            ToRForm(e, strict) == Some(sig) <==> Canonical(sig) && !WrapsBreak(sig)
  {
    var sig, e := StripClaudePrefix(raw), ToEForm(raw, strict).value;
    EFormIsSignature(raw, strict);
    EFormEnd(raw, strict);
    EndsInBreak(e);
    SingleLayerBytes(TrimSpace(e));
    InnerRoundTrip(DecodeStd(sig).value, TrimSpace(e), sig);
  }

  lemma EFormFirst(raw: string, strict: bool)
    requires ToEForm(raw, strict).Some?
    ensures var e := ToEForm(raw, strict).value; e != "" && e[0] == 'E'
  {
  }

  /** Encoding a text gives back `sig`, which decodes to `b`, exactly when the text is that of `b`
      and `sig` is canonical. */
  lemma InnerRoundTrip(b: seq<byte>, text: string, sig: string)
    requires DecodeStd(sig) == Some(b)
    requires forall i :: 0 <= i < |text| ==> text[i] as int < 256
    ensures Encode(BytesOf(text)) == sig <==> Canonical(sig) && text == TextOf(b)
  {
    EncodeDecode(sig);
    DecodeEncode(BytesOf(text));
    assert TextOf(BytesOf(text)) == text;
    assert BytesOf(TextOf(b)) == b;
  }
}
