/** The protobuf wire format as `google.golang.org/protobuf/encoding/protowire` reads it: varints of
    at most ten bytes, tags, and the extent of a field's value. */
module ProtoWire {
  import opened Common

  /** A value and the number of bytes it took. */
  datatype Read = Read(value: nat, size: nat)

  const MAX_FIELD_NUMBER := 0x7FFF_FFFF
  const RECURSION_LIMIT := 10000

  /** `ConsumeVarint`; `k` bytes of the varint came before. */
  function VarintFrom(b: seq<byte>, k: nat): (r: Option<Read>)
    requires k < 10
    ensures r.Some? ==> 0 < r.value.size <= |b| && r.value.value % 128 == b[0] % 128
    decreases 10 - k
  {
    if b == [] then None
    else if k == 9 then if b[0] < 2 then Some(Read(b[0], 1)) else None
    else if b[0] < 128 then Some(Read(b[0], 1))
    else
      var rest := VarintFrom(b[1..], k + 1);
      if rest.None? then None else Some(Read(b[0] - 128 + 128 * rest.value.value, 1 + rest.value.size))
  }

  function ConsumeVarint(b: seq<byte>): (r: Option<Read>)
    ensures r.Some? ==> 0 < r.value.size <= |b| && r.value.value % 128 == b[0] % 128
  {
    VarintFrom(b, 0)
  }

  const VARINT := 0
  const FIXED64 := 1
  const BYTES := 2
  const START_GROUP := 3
  const END_GROUP := 4
  const FIXED32 := 5

  /** A field number and wire type, and the bytes they took. */
  datatype Tag = Tag(num: nat, typ: nat, size: nat)

  /** `ConsumeTag`. */
  function ConsumeTag(b: seq<byte>): (t: Option<Tag>)
    ensures t.Some? ==> 0 < t.value.size <= |b| && 1 <= t.value.num && t.value.typ < 8
    ensures t.Some? ==> t.value.num % 16 * 8 + t.value.typ == b[0] % 128
  {
    var v := ConsumeVarint(b);
    if v.None? || v.value.value / 8 > MAX_FIELD_NUMBER || v.value.value / 8 < 1 then None
    else
      TagBits(v.value.value);
      Some(Tag(v.value.value / 8, v.value.value % 8, v.value.size))
  }

  lemma TagBits(v: nat)
    ensures v / 8 % 16 * 8 + v % 8 == v % 128
  {
  }

  /** `ConsumeBytes`: where the payload starts and ends. */
  function ConsumeBytes(b: seq<byte>): (r: Option<(nat, nat)>)
    ensures r.Some? ==> 0 < r.value.0 <= r.value.1 <= |b|
  {
    var v := ConsumeVarint(b);
    if v.None? || v.value.value > |b| - v.value.size then None
    else Some((v.value.size, v.value.size + v.value.value))
  }

  /** `ConsumeFieldValue`: the number of bytes a value of the given wire type takes. */
  function FieldValueSize(num: nat, typ: nat, b: seq<byte>, depth: int): (n: Option<nat>)
    ensures n.Some? ==> n.value <= |b|
    decreases |b|, 1
  {
    if typ == VARINT then (var v := ConsumeVarint(b); if v.None? then None else Some(v.value.size))
    else if typ == FIXED32 then if |b| < 4 then None else Some(4)
    else if typ == FIXED64 then if |b| < 8 then None else Some(8)
    else if typ == BYTES then (var v := ConsumeBytes(b); if v.None? then None else Some(v.value.1))
    else if typ == START_GROUP && depth >= 0 then GroupSize(num, b, depth)
    else None
  }

  /** The fields of a group up to its matching end tag. */
  function GroupSize(num: nat, b: seq<byte>, depth: int): (n: Option<nat>)
    ensures n.Some? ==> n.value <= |b|
    decreases |b|, 0
  {
    var t := ConsumeTag(b);
    if t.None? then None
    else
      var rest := b[t.value.size..];
      if t.value.typ == END_GROUP then if t.value.num == num then Some(t.value.size) else None
      else
        var v := FieldValueSize(t.value.num, t.value.typ, rest, depth - 1);
        if v.None? then None
        else
          var more := GroupSize(num, rest[v.value..], depth);
          if more.None? then None else Some(t.value.size + v.value + more.value)
  }

  /** One field with the raw bytes of its value. */
  datatype Field = Field(num: nat, typ: nat, raw: seq<byte>)

  /** The fields of a message, or nothing where it is malformed. */
  function Fields(b: seq<byte>): Option<seq<Field>>
    decreases |b|
  {
    if b == [] then Some([])
    else
      var t := ConsumeTag(b);
      if t.None? then None
      else
        var rest := b[t.value.size..];
        var v := FieldValueSize(t.value.num, t.value.typ, rest, RECURSION_LIMIT);
        if v.None? then None
        else
          var more := Fields(rest[v.value..]);
          if more.None? then None else Some([Field(t.value.num, t.value.typ, rest[..v.value])] + more.value)
  }

  /** The payload of a raw length-delimited value. */
  function Payload(raw: seq<byte>): Option<seq<byte>> {
    var v := ConsumeBytes(raw);
    if v.None? then None else Some(raw[v.value.0..v.value.1])
  }

  /** A message that is one length-delimited field has exactly that field. */
  lemma SingleBytesField(b: seq<byte>)
    requires b != [] && ConsumeTag(b).Some? && ConsumeTag(b).value.typ == BYTES
    requires var rest := b[ConsumeTag(b).value.size..];
             ConsumeBytes(rest).Some? && ConsumeBytes(rest).value.1 == |rest|
    ensures var t, rest := ConsumeTag(b).value, b[ConsumeTag(b).value.size..];
            Fields(b) == Some([Field(t.num, BYTES, rest)])
            && Payload(rest) == Some(rest[ConsumeBytes(rest).value.0..])
  {
    var t := ConsumeTag(b).value;
    var rest := b[t.size..];
    assert FieldValueSize(t.num, t.typ, rest, RECURSION_LIMIT) == Some(|rest|);
    assert rest[|rest|..] == [] && rest[..|rest|] == rest;
    var more := Fields(rest[|rest|..]);
    assert more == Some([]);
    assert Fields(b) == Some([Field(t.num, t.typ, rest[..|rest|])] + more.value);
    assert [Field(t.num, BYTES, rest)] + [] == [Field(t.num, BYTES, rest)];
  }

  /** A message whose first byte is 1 would have field number 0. */
  lemma NoFieldZero(b: seq<byte>)
    requires b != [] && b[0] == 1
    ensures Fields(b) == None
  {
    assert ConsumeVarint(b) == Some(Read(1, 1));
  }

  // ------------------------------------------------------------------- UTF-8

  predicate Continues(b: seq<byte>, i: nat, lo: int, hi: int) {
    i < |b| && lo <= b[i] <= hi
  }

  /** `utf8.Valid`. */
  predicate ValidUtf8(b: seq<byte>)
    decreases |b|
  {
    if b == [] then true
    else if b[0] < 0x80 then ValidUtf8(b[1..])
    else if 0xC2 <= b[0] <= 0xDF then Continues(b, 1, 0x80, 0xBF) && ValidUtf8(b[2..])
    else if 0xE0 <= b[0] <= 0xEF then
      && Continues(b, 1, if b[0] == 0xE0 then 0xA0 else 0x80, if b[0] == 0xED then 0x9F else 0xBF)
      && Continues(b, 2, 0x80, 0xBF) && ValidUtf8(b[3..])
    else if 0xF0 <= b[0] <= 0xF4 then
      && Continues(b, 1, if b[0] == 0xF0 then 0x90 else 0x80, if b[0] == 0xF4 then 0x8F else 0xBF)
      && Continues(b, 2, 0x80, 0xBF) && Continues(b, 3, 0x80, 0xBF) && ValidUtf8(b[4..])
    else false
  }
}
