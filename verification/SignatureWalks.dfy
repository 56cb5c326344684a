/** The loops that walk a signature's bytes with a moving offset. */
module SignatureWalks {
  import opened Common
  import opened Strings
  import opened Base64
  import opened ProtoWire
  import opened Recognisers
  import opened NormalForms

  /** The walk is at `offset` and has visited the fields `seen`. */
  ghost predicate At(msg: seq<byte>, offset: nat, seen: seq<Field>) {
    && offset <= |msg|
    && (Fields(msg).Some? <==> Fields(msg[offset..]).Some?)
    && (Fields(msg).Some? ==> Fields(msg).value == seen + Fields(msg[offset..]).value)
  }

  lemma AtStart(msg: seq<byte>)
    ensures At(msg, 0, [])
  {
    assert msg[0..] == msg;
    if Fields(msg).Some? { assert [] + Fields(msg).value == Fields(msg).value; }
  }

  lemma AtEnd(msg: seq<byte>, seen: seq<Field>)
    requires At(msg, |msg|, seen)
    ensures Fields(msg) == Some(seen)
  {
    assert msg[|msg|..] == [] && Fields([]) == Some([]);
    assert seen + [] == seen;
  }

  /** One step of `walkClaudeProtobufFields`: the next field and the offset behind it, or nothing
      where the message is malformed. */
  method NextField(msg: seq<byte>, offset: nat, ghost seen: seq<Field>) returns (field: Option<Field>, next: nat)
    requires offset < |msg| && At(msg, offset, seen)
    ensures field.None? ==> Fields(msg).None?
    ensures field.Some? ==> offset < next && At(msg, next, seen + [field.value])
  {
    var tag := ConsumeTag(msg[offset..]);
    if tag.None? {
      return None, offset;
    }
    var start := offset + tag.value.size;
    assert msg[offset..][tag.value.size..] == msg[start..];
    var size := FieldValueSize(tag.value.num, tag.value.typ, msg[start..], RECURSION_LIMIT);
    if size.None? {
      return None, offset;
    }
    next := start + size.value;
    assert msg[start..][size.value..] == msg[next..] && msg[start..][..size.value] == msg[start..next];
    field := Some(Field(tag.value.num, tag.value.typ, msg[start..next]));
    if Fields(msg[next..]).Some? {
      assert seen + ([field.value] + Fields(msg[next..]).value) == seen + [field.value] + Fields(msg[next..]).value;
    }
  }

  lemma {:induction false} LastBytesFails(a: seq<Field>, b: seq<Field>, num: nat)
    requires LastBytes(a, num).None?
    ensures LastBytes(a + b, num).None?
    decreases |b|
  {
    if b == [] {
      assert a + b == a;
    } else {
      LastBytesFails(a, b[..|b| - 1], num);
      assert (a + b)[..|a + b| - 1] == a + b[..|b| - 1];
    }
  }

  method ExtractClaudeBytesField(msg: seq<byte>, num: nat) returns (value: Option<seq<byte>>)
    ensures value == ExtractBytes(msg, num)
  {
    hide Fields;
    var offset := 0;
    ghost var seen: seq<Field> := [];
    value := None;
    AtStart(msg);
    while offset < |msg|
      invariant At(msg, offset, seen) && LastBytes(seen, num) == Some(value)
      decreases |msg| - offset
    {
      var field, next := NextField(msg, offset, seen);
      if field.None? {
        return None;
      }
      assert (seen + [field.value])[..|seen|] == seen;
      seen, offset := seen + [field.value], next;
      if field.value.num == num {
        if field.value.typ != BYTES || Payload(field.value.raw).None? {
          if Fields(msg).Some? { LastBytesFails(seen, Fields(msg[offset..]).value, num); }
          return None;
        }
        value := Payload(field.value.raw);
      }
    }
    AtEnd(msg, seen);
  }

  method InspectClaudeChannelBlock(block: seq<byte>) returns (ok: bool)
    ensures ok == ChannelBlockOk(block)
  {
    hide Fields;
    var offset, haveChannelID := 0, false;
    ghost var seen: seq<Field> := [];
    AtStart(block);
    while offset < |block|
      invariant At(block, offset, seen)
      invariant forall i :: 0 <= i < |seen| ==> ChannelFieldOk(seen[i])
      invariant haveChannelID <==> exists i :: 0 <= i < |seen| && seen[i].num == 1
      decreases |block| - offset
    {
      var field, next := NextField(block, offset, seen);
      if field.None? {
        return false;
      }
      ghost var before := seen;
      seen, offset := seen + [field.value], next;
      if !ChannelFieldOk(field.value) {
        assert Fields(block).Some? ==> Fields(block).value[|before|] == field.value;
        return false;
      }
      assert seen[|before|] == field.value;
      assert forall i :: 0 <= i < |before| ==> seen[i] == before[i];
      if field.value.num == 1 {
        haveChannelID := true;
      }
    }
    AtEnd(block, seen);
    return haveChannelID;
  }

  method InspectGeminiField1Envelope(decoded: seq<byte>) returns (known: bool)
    ensures known <==> decoded != [] && Field1Records(decoded)
  {
    var offset, records := 0, 0;
    assert decoded[0..] == decoded;
    while offset < |decoded|
      invariant offset <= |decoded| && (records > 0 <==> offset > 0)
      invariant Field1Records(decoded) <==> Field1Records(decoded[offset..])
      decreases |decoded| - offset
    {
      var tag := ConsumeTag(decoded[offset..]);
      if tag.None? || tag.value.num != 1 || tag.value.typ != BYTES {
        return false;
      }
      var start := offset + tag.value.size;
      assert decoded[offset..][tag.value.size..] == decoded[start..];
      var value := ConsumeBytes(decoded[start..]);
      if value.None? || !OpaquePayload(decoded[start..][value.value.0..value.value.1]) {
        return false;
      }
      records := records + 1;
      offset := start + value.value.1;
      assert decoded[start..][value.value.1..] == decoded[offset..];
    }
    return records > 0;
  }

  // ------------------------------------------------- a form that is not settled

  /** The smallest strict Claude payload: a container with a channel block that names channel 11. */
  const SMALLEST: seq<byte> := [0x12, 4, 0x0A, 2, 0x08, 11]

  lemma OneByteVarint(b: seq<byte>)
    requires b != [] && b[0] < 128
    ensures ConsumeVarint(b) == Some(Read(b[0], 1))
  {
  }

  lemma SmallestIsClaude()
    ensures ClaudePayloadOk(SMALLEST)
  {
    var container: seq<byte>, block: seq<byte> := [0x0A, 2, 0x08, 11], [0x08, 11];
    OneByteVarint(SMALLEST);
    assert SMALLEST[1..] == [4, 0x0A, 2, 0x08, 11];
    OneByteVarint(SMALLEST[1..]);
    SingleBytesField(SMALLEST);
    ExtractSingle(SMALLEST, container, 2);
    OneByteVarint(container);
    assert container[1..] == [2, 0x08, 11];
    OneByteVarint(container[1..]);
    SingleBytesField(container);
    ExtractSingle(container, block, 1);
    OneByteVarint(block);
    assert block[1..] == [11];
    OneByteVarint(block[1..]);
    OneByteVarint([11]);
    BlockFields(block);
    assert Fields(block).value[0].num == 1;
  }

  lemma BlockFields(block: seq<byte>)
    requires block == [0x08, 11] && ConsumeVarint(block) == Some(Read(8, 1)) && ConsumeVarint([11]) == Some(Read(11, 1))
    ensures Fields(block) == Some([Field(1, VARINT, [11])])
  {
    assert ConsumeTag(block) == Some(Tag(1, VARINT, 1));
    var rest := block[1..];
    assert rest == [11] && FieldValueSize(1, VARINT, rest, RECURSION_LIMIT) == Some(1);
    assert rest[1..] == [] && rest[..1] == [11];
    assert Fields(rest[1..]) == Some([]);
    assert [Field(1, VARINT, [11])] + [] == [Field(1, VARINT, [11])];
  }

  lemma ExtractSingle(msg: seq<byte>, payload: seq<byte>, num: nat)
    requires exists raw :: Fields(msg) == Some([Field(num, BYTES, raw)]) && Payload(raw) == Some(payload)
    ensures ExtractBytes(msg, num) == Some(payload)
  {
    var raw :| Fields(msg) == Some([Field(num, BYTES, raw)]) && Payload(raw) == Some(payload);
    var fields := [Field(num, BYTES, raw)];
    assert fields[..0] == [];
    assert LastBytes([], num) == Some(None);
  }

  /** Settledness is not automatic: this R-form signature, valid in strict mode, wraps a line break;
      its E-form ends in one, and taking the E-form again changes it. */
  lemma UnsettledExample()
    ensures var inner := Encode(SMALLEST) + "\n";
            (forall i :: 0 <= i < |inner| ==> inner[i] as int < 256)
            && var raw := Encode(BytesOf(inner));
            WrapsBreak(StripClaudePrefix(raw)) && ToEForm(raw, true) == Some(inner) && ToEForm(inner, true) == Some(Encode(SMALLEST))
  {
    hide Encode, DecodeStd, ToEForm;
    var e := Encode(SMALLEST);
    var inner := e + "\n";
    EncodeShape(SMALLEST);
    DecodeEncode(SMALLEST);
    InnerDecodes(e);
    SingleLayerBytes(inner);
    ExampleForm(e, inner);
    InnerTrims(e);
    assert inner != e by { assert |inner| == |e| + 1; }
    EFormIdempotent(Encode(BytesOf(inner)), true);
  }

  /** That signature, as it stands in a history: stripped, with no separator in it. */
  lemma WrappedBreak() returns (raw: string)
    ensures StripClaudePrefix(raw) == TrimSpace(raw) == raw != "" && AfterHash(raw).None?
    ensures ClaudeOk(raw, true) && WrapsBreak(raw)
  {
    hide Encode, DecodeStd, ToEForm, ClaudeOk, WrapsBreak, StripClaudePrefix;
    UnsettledExample();
    raw := Encode(BytesOf(Encode(SMALLEST) + "\n"));
    var inner := Encode(SMALLEST) + "\n";
    EncodeShape(SMALLEST);
    DecodeEncode(SMALLEST);
    InnerDecodes(Encode(SMALLEST));
    assert BytesOf(inner) != [] && BytesOf(inner)[0] == 0x45;
    WrapsIsStripped(raw);
  }

  lemma WrapsIsStripped(raw: string)
    requires WrapsBreak(StripClaudePrefix(raw)) && ToEForm(raw, true).Some?
    requires exists b :: raw == Encode(b) && b != [] && b[0] == 0x45
    ensures StripClaudePrefix(raw) == TrimSpace(raw) == raw != "" && AfterHash(raw).None?
    ensures ClaudeOk(raw, true) && WrapsBreak(raw)
  {
    var b :| raw == Encode(b) && b != [] && b[0] == 0x45;
    EncodedIsStripped(b);
    TrimmedDecodes(raw);
    PlainHasNoHash(raw);
  }

  lemma InnerTrims(e: string)
    requires DecodeStd(e).Some? && NoBreaks(e) && e != "" && e[0] == 'E'
    ensures TrimSpace(e + "\n") == e
  {
    EndsInBreak(e);
    TrimEnds(e);
    TrimsTo(e);
  }

  lemma InnerDecodes(e: string)
    requires DecodeStd(e) == Some(SMALLEST) && NoBreaks(e)
    ensures DecodeStd(e + "\n") == Some(SMALLEST) && e != "" && e[0] == 'E'
  {
    CompactConcat(e, "\n");
    assert Compact("\n") == Compact("") == "";
    assert Compact(e) + "" == Compact(e);
    DecodesNonEmpty(e);
    FirstChar(e);
    assert CharOf(0x12 / 4) == 'E';
  }

  lemma ExampleForm(e: string, inner: string)
    requires DecodeStd(inner) == Some(SMALLEST) && |inner| < 100 && inner != "" && inner[0] == 'E'
    requires forall i :: 0 <= i < |inner| ==> inner[i] as int < 256
    ensures ToEForm(Encode(BytesOf(inner)), true) == Some(inner) && ToEForm(inner, true) == Some(TrimSpace(inner))
  {
    SmallestIsClaude();
    var b := BytesOf(inner);
    var raw := Encode(b);
    EncodedIsStripped(b);
    assert TextOf(b) == inner;
    assert SingleLayerOk(inner, true) && DoubleLayerOk(raw, true);
    assert ToEForm(raw, true) == Some(inner);
    EFormIdempotent(raw, true);
  }

  lemma TrimsTo(e: string)
    requires TrimSpace(e) == e && e != "" && !IsSpace(e[0]) && !IsSpace(e[|e| - 1])
    ensures TrimSpace(e + "\n") == e
  {
    var s := e + "\n";
    assert s[..|s| - 1] == e;
    assert TrimLeft(s) == s;
    assert TrimRight(s) == TrimRight(e);
  }

  // ------------------------------------------------- a form that does not fit

  function Breaks(n: nat): (s: string)
    ensures |s| == n && forall i :: 0 <= i < n ==> s[i] == '\n'
  {
    seq(n, i => '\n')
  }

  lemma {:induction false} BreaksVanish(n: nat)
    ensures Compact(Breaks(n)) == ""
  {
    if n > 0 {
      assert Breaks(n)[1..] == Breaks(n - 1);
      BreaksVanish(n - 1);
    }
  }

  /** A signature with line breaks after its first letter is as valid as without them, up to the
      limit. */
  lemma Stretched(e: string, n: nat)
    requires ClaudeOk(e, true) && e[0] == 'E' && StripClaudePrefix(e) == e && NoBreaks(e) && |e| >= 2
    requires |e| + n <= MAX_SIGNATURE_LEN
    ensures var s := e[..1] + Breaks(n) + e[1..];
            ClaudeOk(s, true) && s[0] == 'E' && StripClaudePrefix(s) == s
  {
    var s := e[..1] + Breaks(n) + e[1..];
    BreaksVanish(n);
    CompactConcat(e[..1] + Breaks(n), e[1..]);
    CompactConcat(e[..1], Breaks(n));
    CompactConcat(e[..1], e[1..]);
    assert e == e[..1] + e[1..];
    assert Compact(e[..1]) + "" == Compact(e[..1]);
    assert DecodeStd(s) == DecodeStd(e);
    TrimmedDecodes(s);
    EndsInBreak(s);
  }

  /** The length limit does get in the way: a strictly valid signature of 24 MiB, most of it line breaks,
      has an R-form that neither conversion accepts. */
  lemma OverlongExample()
    ensures exists raw :: |raw| < MAX_SIGNATURE_LEN && ToRForm(raw, true).Some? && !RFormFits(StripClaudePrefix(raw))
                          && ToRForm(ToRForm(raw, true).value, true).None? && ToEForm(ToRForm(raw, true).value, true).None?
  {
    var e := Encode(SMALLEST);
    EncodeShape(SMALLEST);
    DecodeEncode(SMALLEST);
    hide Encode, DecodeStd;
    DecodesNonEmpty(e);
    FirstChar(e);
    assert CharOf(0x12 / 4) == 'E';
    TrimmedDecodes(e);
    EndsInBreak(e);
    SmallestIsClaude();
    var raw := e[..1] + Breaks(0x1800000) + e[1..];
    Stretched(e, 0x1800000);
    RFormCases(raw, true);
    RFormLength(raw, true);
    OverlongRForm(raw);
  }

  lemma OverlongRForm(raw: string)
    requires ToRForm(raw, true).Some? && !RFormFits(StripClaudePrefix(raw))
    ensures ToRForm(ToRForm(raw, true).value, true).None? && ToEForm(ToRForm(raw, true).value, true).None?
  {
    RFormCases(raw, true);
    RFormLength(raw, true);
    hide Encode, DecodeStd, StripClaudePrefix, RFormFits;
  }
}
