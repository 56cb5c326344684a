/** What the recognisers accept, from the side of whoever makes a signature: texts are built from bytes and
    fields, and detected exactly where they should be. */
module SignatureForms {
  import opened Common
  import opened Strings
  import opened Base64
  import opened ProtoWire
  import opened ProtoForms
  import opened Recognisers
  import opened NormalForms
  import opened Compatibility

  // ---------------------------------------------------------------- detection

  /** Without a separator a provider is detected exactly where its recogniser accepts. */
  lemma DetectIff(p: Provider, text: string)
    requires AfterHash(TrimSpace(text)).None? && p in [Claude, Gemini, Gpt, GeminiBypass]
    ensures Detect(text) == p <==> Accepts(p, text)
  {
    if Accepts(p, text) { DetectNoHash(p, text); }
    if Detect(text) == p {
      DetectedIsAccepted(text);
      NoPrefix(text);
      AcceptsTrimmed(p, text);
    }
    hide Detect, Accepts, TrimSpace;
  }

  lemma EncodedPlain(b: seq<byte>)
    requires b != []
    ensures var text := Encode(b);
            text != "" && Plain(text) && NoBreaks(text) && DecodeStd(text) == Some(b) && !IsSpace(text[0])
  {
    DecodeEncode(b);
    EncodeShape(b);
    hide Encode, DecodeCompact;
    DecodedIsPlain(Encode(b));
    assert PlainChar(Encode(b)[0]);
  }

  lemma NotSentinel(text: string)
    requires Plain(text)
    ensures text != SKIP_VALIDATOR && text != CONTEXT_ENGINEERING
  {
    assert |SKIP_VALIDATOR| > 4 && |CONTEXT_ENGINEERING| > 7;
    assert !PlainChar(SKIP_VALIDATOR[4]) && !PlainChar(CONTEXT_ENGINEERING[7]);
  }

  /** The text of some bytes: nothing to trim, no separator, no sentinel. */
  lemma EncodedText(b: seq<byte>)
    requires b != []
    ensures var text := Encode(b);
            && text != "" && TrimSpace(text) == text && AfterHash(text).None? && StripClaudePrefix(text) == text
            && DecodeStd(text) == Some(b) && !IsBypass(text)
  {
    hide *;
    var text := Encode(b);
    EncodedPlain(b);
    assert !IsBreak(text[|text| - 1]) by { LastNoBreak(text); }
    EndsInBreak(text);
    TrimmedDecodes(text);
    PlainHasNoHash(text);
    NotSentinel(text);
    NoBypass(text);
  }

  lemma LastNoBreak(text: string)
    requires text != "" && NoBreaks(text)
    ensures !IsBreak(text[|text| - 1])
  {
  }

  lemma NoBypass(text: string)
    requires TrimSpace(text) == text && text != SKIP_VALIDATOR && text != CONTEXT_ENGINEERING
    ensures !IsBypass(text)
  {
  }

  // ------------------------------------------------------------------- Gemini

  function Records(payloads: seq<seq<byte>>): seq<byte> {
    if payloads == [] then [] else Written(Text(1, payloads[0])) + Records(payloads[1..])
  }

  /** Fields 1 and 2 as they look in bytes. */
  lemma TagBytes(payload: seq<byte>)
    ensures Written(Text(1, payload)) == [0x0A] + (Varint(|payload|) + payload)
    ensures Written(Text(2, payload)) == [0x12] + (Varint(|payload|) + payload)
  {
    assert Varint(10) == [10] && Varint(18) == [18];
    hide Varint;
  }

  predicate LedByOne(payload: seq<byte>) {
    payload != [] && payload[0] == 1
  }

  lemma {:induction false} PartOfRecords(payloads: seq<seq<byte>>, i: nat)
    requires i < |payloads|
    ensures |payloads[i]| <= |Records(payloads)|
  {
    if i > 0 {
      PartOfRecords(payloads[1..], i - 1);
    } else {
      TagBytes(payloads[0]);
    }
  }

  lemma RecordFirst(first: seq<byte>, rest: seq<byte>)
    requires |first| < LIMIT
    ensures var b := Written(Text(1, first)) + rest;
            && b != [] && b[0] == 0x0A && !Field2Envelope(b)
            && (Field1Records(b) <==> LedByOne(first) && Field1Records(rest))
  {
    PieceReads(Text(1, first), rest);
    TextReads(first, rest);
    TagBytes(first);
    OpaqueIs(first);
    hide ConsumeTag, ConsumeBytes, Varint, Written, LedByOne, FieldValueSize, OpaquePayload;
    assert Content(Text(1, first)) == Varint(|first|) + first;
  }

  lemma LedFirst(payloads: seq<seq<byte>>)
    requires payloads != []
    ensures (forall i :: 0 <= i < |payloads| ==> LedByOne(payloads[i]))
            <==> LedByOne(payloads[0]) && forall i :: 0 <= i < |payloads[1..]| ==> LedByOne(payloads[1..][i])
  {
    hide LedByOne;
    assert forall i :: 0 <= i < |payloads[1..]| ==> payloads[1..][i] == payloads[i + 1];
    assert forall i :: 0 < i < |payloads| ==> payloads[i] == payloads[1..][i - 1];
  }

  lemma {:induction false} RecordsRead(payloads: seq<seq<byte>>)
    requires forall i :: 0 <= i < |payloads| ==> |payloads[i]| < LIMIT
    ensures Field1Records(Records(payloads)) <==> forall i :: 0 <= i < |payloads| ==> LedByOne(payloads[i])
    ensures payloads != [] ==> Records(payloads) != [] && Records(payloads)[0] == 0x0A && !Field2Envelope(Records(payloads))
  {
    if payloads != [] {
      RecordsRead(payloads[1..]);
      RecordFirst(payloads[0], Records(payloads[1..]));
      LedFirst(payloads);
      hide Field1Records, Field2Envelope, LedByOne, Written;
    }
  }

  lemma OpaqueIs(payload: seq<byte>)
    ensures OpaquePayload(payload) <==> LedByOne(payload)
  {
  }

  lemma NotUuid(b: seq<byte>)
    requires b != [] && (b[0] == 0x0A || b[0] == 0x12)
    ensures !IsAsciiUuid(b)
  {
  }

  /** The text of bytes that start like an envelope is detected as Gemini exactly if they are one. */
  lemma GeminiText(b: seq<byte>)
    requires b != [] && (b[0] == 0x0A || b[0] == 0x12)
    ensures Detect(Encode(b)) == Gemini <==> |Encode(b)| <= 33554432 && (Field1Records(b) || Field2Envelope(b))
  {
    EncodedText(b);
    NotUuid(b);
    DetectIff(Gemini, Encode(b));
    EnvelopeText(Encode(b), b);
    hide *;
    assert Accepts(Gemini, Encode(b)) <==> IsGemini(Encode(b)) by { AcceptsGemini(Encode(b)); }
  }

  lemma AcceptsGemini(text: string)
    ensures Accepts(Gemini, text) <==> IsGemini(text)
  {
  }

  lemma EnvelopeText(text: string, b: seq<byte>)
    requires text != "" && TrimSpace(text) == text && !IsBypass(text) && DecodeStd(text) == Some(b) && b != [] && !IsAsciiUuid(b)
    ensures IsGemini(text) <==> |text| <= 33554432 && (Field1Records(b) || Field2Envelope(b))
  {
    hide DecodeStd, TrimSpace, Field1Records, Field2Envelope, IsAsciiUuid, IsBypass;
  }

  /** Main result on Gemini: a text made of records, each the byte 0x0A, a length and that many bytes, is
      detected as Gemini exactly if there is one, each starts with the byte 1, and it fits the limit. */
  lemma RecordsDetected(payloads: seq<seq<byte>>)
    requires payloads != []
    ensures var text := Encode(Records(payloads));
            Detect(text) == Gemini <==> |text| <= 33554432 && forall i :: 0 <= i < |payloads| ==> LedByOne(payloads[i])
  {
    var b := Records(payloads);
    EncodeShape(b);
    TagBytes(payloads[0]);
    assert b[0] == 0x0A;
    GeminiText(b);
    if |Encode(b)| <= 33554432 {
      forall i | 0 <= i < |payloads| ensures |payloads[i]| < LIMIT { PartOfRecords(payloads, i); }
      RecordsRead(payloads);
    }
    hide Detect, Encode, Field1Records, Field2Envelope, LedByOne, Records;
  }

  lemma OnlyField(num: nat, payload: seq<byte>, other: nat)
    requires 1 <= num <= 0x1FFF_FFFF && |payload| < LIMIT
    ensures OnlyBytesField(Written(Text(num, payload)), other) == if other == num then Some(payload) else None
  {
    PieceReads(Text(num, payload), []);
    TextReads(payload, []);
    var b := Written(Text(num, payload));
    assert b + [] == b && Content(Text(num, payload)) + [] == Content(Text(num, payload));
    assert Varint(|payload|) + payload + [] == Varint(|payload|) + payload;
    hide ConsumeTag, ConsumeBytes, Varint, Written, FieldValueSize;
  }

  /** The same for one record wrapped in field 2. */
  lemma WrappedDetected(payload: seq<byte>)
    ensures var text := Encode(Written(Text(2, Written(Text(1, payload)))));
            Detect(text) == Gemini <==> |text| <= 33554432 && LedByOne(payload)
  {
    var record := Written(Text(1, payload));
    var b := Written(Text(2, record));
    TagBytes(payload);
    TagBytes(record);
    assert b[0] == 0x12;
    EncodeShape(b);
    GeminiText(b);
    if |Encode(b)| <= 33554432 {
      assert |payload| <= |record| <= |b| < LIMIT;
      OnlyField(2, record, 2);
      OnlyField(1, payload, 1);
      if Field1Records(b) { Field1First(b); }
    }
    hide Detect, Encode, Field1Records, Written, ConsumeTag;
  }

  // ------------------------------------------------------------------- Claude

  /** What a channel block has to look like: a channel id; numbers in fields 1, 2 and 7; a text in field 6. */
  predicate GoodBlock(block: seq<Piece>) {
    (exists i :: 0 <= i < |block| && block[i].num == 1) && forall i :: 0 <= i < |block| ==> GoodPiece(block[i])
  }

  lemma ContentReads(p: Piece)
    requires Shaped(p)
    ensures p.Number? ==> ConsumeVarint(Content(p)).Some?
    ensures p.Text? ==> Payload(Content(p)) == Some(p.payload)
  {
    if p.Number? {
      VarintReads(p.value, []);
      assert Varint(p.value) + [] == Varint(p.value);
    } else if p.Text? {
      TextReads(p.payload, []);
      assert Varint(|p.payload|) + p.payload + [] == Content(p);
    }
    hide ConsumeVarint, ConsumeBytes, Varint;
  }

  predicate GoodPiece(p: Piece) {
    && (p.num == 1 || p.num == 2 || p.num == 7 ==> p.Number?)
    && (p.num == 6 ==> p.Text? && ValidUtf8(p.payload))
  }

  lemma PieceOk(p: Piece)
    requires Shaped(p)
    ensures ChannelFieldOk(Field(p.num, TypeOf(p), Content(p))) <==> GoodPiece(p)
  {
    ContentReads(p);
    hide ConsumeVarint, Payload, ValidUtf8, Content;
  }

  lemma BlockOk(block: seq<Piece>)
    requires AllWritable(block)
    ensures ChannelBlockOk(WrittenAll(block)) <==> GoodBlock(block)
  {
    FieldsWritten(block);
    FieldsAt(block);
    var fs := FieldsOf(block);
    forall i | 0 <= i < |block| ensures fs[i].num == block[i].num && (ChannelFieldOk(fs[i]) <==> GoodPiece(block[i])) {
      assert Shaped(block[i]);
      PieceOk(block[i]);
    }
    hide ChannelFieldOk, GoodPiece, FieldsOf, WrittenAll, Fields, Shaped, Content, AllWritable, Deepest, GoodBlock;
    GoodFields(fs, block);
  }

  lemma GoodFields(fs: seq<Field>, block: seq<Piece>)
    requires |fs| == |block| && forall i :: 0 <= i < |block| ==> fs[i].num == block[i].num && (ChannelFieldOk(fs[i]) <==> GoodPiece(block[i]))
    ensures (forall i :: 0 <= i < |fs| ==> ChannelFieldOk(fs[i])) && (exists i :: 0 <= i < |fs| && fs[i].num == 1) <==> GoodBlock(block)
  {
    hide ChannelFieldOk, GoodPiece;
    if i :| 0 <= i < |fs| && fs[i].num == 1 { assert block[i].num == 1; }
    if i :| 0 <= i < |block| && block[i].num == 1 { assert fs[i].num == 1; }
  }

  lemma {:induction false} LastOfOne(fs: seq<Field>, num: nat, payload: seq<byte>)
    requires fs != [] && fs[0].num == num && fs[0].typ == BYTES && Payload(fs[0].raw) == Some(payload)
    requires forall i :: 0 < i < |fs| ==> fs[i].num != num
    ensures LastBytes(fs, num) == Some(Some(payload))
  {
    if |fs| == 1 {
      assert fs[..0] == [] && LastBytes([], num) == Some(None);
    } else {
      LastOfOne(fs[..|fs| - 1], num, payload);
    }
  }

  /** A message whose only field `num` is its first is read as the payload of that field. */
  lemma FirstExtracted(num: nat, payload: seq<byte>, others: seq<Piece>)
    requires Shaped(Text(num, payload)) && AllWritable(others) && forall i :: 0 <= i < |others| ==> others[i].num != num
    ensures ExtractBytes(WrittenAll([Text(num, payload)] + others), num) == Some(payload)
  {
    var ps := [Text(num, payload)] + others;
    assert forall i :: 0 < i < |ps| ==> ps[i] == others[i - 1];
    FieldsWritten(ps);
    FieldsAt(ps);
    ContentReads(ps[0]);
    hide WrittenAll, Fields, Content, Payload, Shaped;
    LastOfOne(FieldsOf(ps), num, payload);
  }

  /** The bytes of a signature: a container around a channel block, with other fields beside and behind. */
  function ClaudeBytes(block: seq<Piece>, inner: seq<Piece>, outer: seq<Piece>): seq<byte> {
    WrittenAll([Text(2, WrittenAll([Text(1, WrittenAll(block))] + inner))] + outer)
  }

  lemma ClaudeStarts(block: seq<Piece>, inner: seq<Piece>, outer: seq<Piece>)
    ensures var b := ClaudeBytes(block, inner, outer);
            && b != [] && b[0] == 0x12
            && |WrittenAll(block)| <= |WrittenAll([Text(1, WrittenAll(block))] + inner)| <= |b|
  {
    var container := WrittenAll([Text(1, WrittenAll(block))] + inner);
    TagBytes(WrittenAll(block));
    TagBytes(container);
    hide Varint;
    assert WrittenAll([Text(2, container)] + outer) == Written(Text(2, container)) + WrittenAll(([Text(2, container)] + outer)[1..]);
  }

  lemma ClaudePayload(block: seq<Piece>, inner: seq<Piece>, outer: seq<Piece>)
    requires AllWritable(block) && AllWritable(inner) && AllWritable(outer) && |ClaudeBytes(block, inner, outer)| < LIMIT
    requires (forall i :: 0 <= i < |inner| ==> inner[i].num != 1) && (forall i :: 0 <= i < |outer| ==> outer[i].num != 2)
    ensures ClaudePayloadOk(ClaudeBytes(block, inner, outer)) <==> GoodBlock(block)
  {
    ClaudeStarts(block, inner, outer);
    FirstExtracted(1, WrittenAll(block), inner);
    FirstExtracted(2, WrittenAll([Text(1, WrittenAll(block))] + inner), outer);
    BlockOk(block);
    hide ExtractBytes, WrittenAll, ChannelBlockOk, GoodBlock, AllWritable;
  }

  lemma FirstIsE(b: seq<byte>)
    requires b != [] && b[0] == 0x12
    ensures Encode(b) != "" && Encode(b)[0] == 'E'
  {
    EncodedText(b);
    EncodeShape(b);
    FirstChar(Encode(b));
    assert CharOf(0x12 / 4) == 'E';
    hide Encode, DecodeStd;
  }

  /** Main result on Claude: a container around a channel block is detected as Claude exactly if the block has
      a channel id and well-typed fields, and the text fits the limit. */
  lemma ContainerDetected(block: seq<Piece>, inner: seq<Piece>, outer: seq<Piece>)
    requires AllWritable(block) && AllWritable(inner) && AllWritable(outer)
    requires (forall i :: 0 <= i < |inner| ==> inner[i].num != 1) && (forall i :: 0 <= i < |outer| ==> outer[i].num != 2)
    ensures var text := Encode(ClaudeBytes(block, inner, outer));
            Detect(text) == Claude <==> |text| <= 33554432 && GoodBlock(block)
  {
    var b := ClaudeBytes(block, inner, outer);
    ClaudeStarts(block, inner, outer);
    EncodedText(b);
    EncodeShape(b);
    FirstIsE(b);
    DetectIff(Claude, Encode(b));
    if |b| < LIMIT { ClaudePayload(block, inner, outer); }
    hide Detect, Encode, DecodeStd, TrimSpace, StripClaudePrefix, ClaudePayloadOk, GoodBlock, AfterHash, ClaudeBytes, AllWritable;
  }
}
