/** Protocol buffers from the writing side: what is written is walked field by field. */
module ProtoForms {
  import opened Common
  import opened ProtoWire

  // ------------------------------------------------------------------ writing

  /** A number, seven bits to a byte, lowest first. */
  function Varint(n: nat): (b: seq<byte>)
    ensures b != [] && b[0] % 128 == n % 128
  {
    if n < 128 then [n] else [n % 128 + 128] + Varint(n / 128)
  }

  /** A field with a number, with a length and as many bytes, with four or eight bytes, or with fields. */
  datatype Piece =
    | Number(num: nat, value: nat)
    | Text(num: nat, payload: seq<byte>)
    | Fixed(num: nat, bytes: seq<byte>)
    | Group(num: nat, parts: seq<Piece>)

  const LIMIT: nat := 0x1_0000_0000_0000_0000

  predicate Shaped(p: Piece)
    decreases p
  {
    && 1 <= p.num <= 0x7FFF_FFFF
    && match p
       case Number(_, value) => value < LIMIT
       case Text(_, payload) => |payload| < LIMIT
       case Fixed(_, bytes) => |bytes| == 4 || |bytes| == 8
       case Group(_, parts) => forall i :: 0 <= i < |parts| ==> Shaped(parts[i])
  }

  function TypeOf(p: Piece): nat {
    match p
    case Number(_, _) => 0
    case Text(_, _) => 2
    case Fixed(_, bytes) => if |bytes| == 4 then 5 else 1
    case Group(_, _) => 3
  }

  function Content(p: Piece): seq<byte>
    decreases p, 0
  {
    match p
    case Number(_, value) => Varint(value)
    case Text(_, payload) => Varint(|payload|) + payload
    case Fixed(_, bytes) => bytes
    case Group(num, parts) => WrittenAll(parts) + Varint(num * 8 + 4)
  }

  function Written(p: Piece): seq<byte>
    decreases p, 1
  {
    Varint(p.num * 8 + TypeOf(p)) + Content(p)
  }

  function WrittenAll(ps: seq<Piece>): seq<byte>
    decreases ps
  {
    if ps == [] then [] else Written(ps[0]) + WrittenAll(ps[1..])
  }

  /** How deeply groups are nested. */
  function Depth(p: Piece): nat
    decreases p
  {
    if p.Group? then 1 + Deepest(p.parts) else 0
  }

  function Deepest(ps: seq<Piece>): (d: nat)
    ensures forall i :: 0 <= i < |ps| ==> Depth(ps[i]) <= d
    decreases ps
  {
    if ps == [] then 0
    else if Depth(ps[0]) > Deepest(ps[1..]) then Depth(ps[0]) else Deepest(ps[1..])
  }

  // ------------------------------------------------------------------ reading

  function Pow128(k: nat): (p: nat)
    ensures p >= 1
  {
    if k == 0 then 1 else 128 * Pow128(k - 1)
  }

  lemma NineBytes()
    ensures 2 * Pow128(9) == LIMIT
  {
    assert Pow128(3) == 128 * 128 * 128;
    assert Pow128(6) == 128 * 128 * 128 * Pow128(3);
    assert Pow128(9) == 128 * 128 * 128 * Pow128(6);
  }

  lemma {:induction false} VarintFromReads(n: nat, rest: seq<byte>, k: nat)
    requires k <= 9
    ensures VarintFrom(Varint(n) + rest, k) == if n < 2 * Pow128(9 - k) then Some(Read(n, |Varint(n)|)) else None
    decreases n
  {
    var b := Varint(n) + rest;
    assert b[0] == Varint(n)[0];
    if n >= 128 && k < 9 {
      VarintFromReads(n / 128, rest, k + 1);
      assert b[1..] == Varint(n / 128) + rest;
      assert Pow128(9 - k) == 128 * Pow128(8 - k);
    } else if k < 9 {
      assert Pow128(9 - k) == 128 * Pow128(8 - k);
    }
  }

  /** A written number reads back exactly if it fits in 64 bits. */
  lemma VarintReads(n: nat, rest: seq<byte>)
    ensures ConsumeVarint(Varint(n) + rest) == if n < LIMIT then Some(Read(n, |Varint(n)|)) else None
  {
    NineBytes();
    VarintFromReads(n, rest, 0);
  }

  lemma TextReads(payload: seq<byte>, rest: seq<byte>)
    requires |payload| < LIMIT
    ensures var b, n := Varint(|payload|) + payload + rest, |Varint(|payload|)|;
            && ConsumeBytes(b) == Some((n, n + |payload|))
            && b[n..n + |payload|] == payload && b[n + |payload|..] == rest
  {
    VarintReads(|payload|, payload + rest);
    assert Varint(|payload|) + payload + rest == Varint(|payload|) + (payload + rest);
  }

  lemma TagReads(num: nat, typ: nat, rest: seq<byte>)
    requires 1 <= num <= 0x7FFF_FFFF && typ < 8
    ensures ConsumeTag(Varint(num * 8 + typ) + rest) == Some(Tag(num, typ, |Varint(num * 8 + typ)|))
  {
    var n := num * 8 + typ;
    VarintReads(n, rest);
    assert n / 8 == num && n % 8 == typ;
    hide Varint, ConsumeVarint;
  }

  /** The size of a field's content; none where groups are nested too deeply. */
  lemma {:induction false} ContentSize(p: Piece, rest: seq<byte>, depth: int)
    requires Shaped(p) && depth >= -1
    ensures FieldValueSize(p.num, TypeOf(p), Content(p) + rest, depth)
            == if Depth(p) <= depth + 1 then Some(|Content(p)|) else None
    decreases p, 1
  {
    match p
    case Number(_, value) => VarintReads(value, rest);
    case Text(_, payload) => TextReads(payload, rest);
    case Fixed(_, bytes) =>
    case Group(num, parts) =>
      assert Content(p) + rest == WrittenAll(parts) + Varint(num * 8 + 4) + rest;
      if depth >= 0 { PartsSize(num, num, parts, rest, depth); }
      hide WrittenAll, Varint, GroupSize, Deepest;
  }

  /** The size of the fields of a group and its end; none where it ends as a group of another number. */
  lemma {:induction false} PartsSize(num: nat, close: nat, parts: seq<Piece>, rest: seq<byte>, depth: nat)
    requires 1 <= close <= 0x7FFF_FFFF && forall i :: 0 <= i < |parts| ==> Shaped(parts[i])
    ensures GroupSize(num, WrittenAll(parts) + Varint(close * 8 + 4) + rest, depth)
            == if close == num && Deepest(parts) <= depth then Some(|WrittenAll(parts) + Varint(close * 8 + 4)|) else None
    decreases parts, 0
  {
    hide *;
    var end := Varint(close * 8 + 4);
    if parts == [] {
      NoParts();
      TagReads(close, 4, rest);
      assert [] + end + rest == end + rest && [] + end == end;
      GroupEnds(num, close, end + rest, |end|, depth);
    } else {
      var p, behind := parts[0], WrittenAll(parts[1..]) + end + rest;
      PartsSize(num, close, parts[1..], rest, depth);
      PartInFront(num, p, behind, depth);
      FirstPart(parts);
      assert WrittenAll(parts) + end + rest == Written(p) + behind;
    }
  }

  lemma NoParts()
    ensures WrittenAll([]) == [] && Deepest([]) == 0
  {
  }

  /** Where the parts of a written field are. */
  lemma Layout(p: Piece, behind: seq<byte>)
    requires Shaped(p)
    ensures var tag, b, c := Varint(p.num * 8 + TypeOf(p)), Written(p) + behind, Content(p) + behind;
            && b == tag + c && b[|tag|..] == c && c[..|Content(p)|] == Content(p) && c[|Content(p)|..] == behind
            && |Written(p)| == |tag| + |Content(p)| && b != [] && TypeOf(p) != 4 && TypeOf(p) < 8 && 1 <= p.num <= 0x7FFF_FFFF
  {
    hide Varint, Content;
    assert Written(p) == Varint(p.num * 8 + TypeOf(p)) + Content(p);
  }

  lemma GroupStep(num: nat, b: seq<byte>, t: Tag, size: Option<nat>, depth: int)
    requires ConsumeTag(b) == Some(t) && t.typ != 4 && FieldValueSize(t.num, t.typ, b[t.size..], depth - 1) == size
    ensures GroupSize(num, b, depth) ==
              if size.None? then None
              else var more := GroupSize(num, b[t.size..][size.value..], depth);
                   if more.None? then None else Some(t.size + size.value + more.value)
  {
    hide ConsumeTag, FieldValueSize;
  }

  lemma GroupEnds(num: nat, close: nat, b: seq<byte>, size: nat, depth: int)
    requires ConsumeTag(b) == Some(Tag(close, 4, size))
    ensures GroupSize(num, b, depth) == if close == num then Some(size) else None
  {
    hide ConsumeTag, FieldValueSize;
  }

  lemma FieldsStep(b: seq<byte>, t: Tag, size: Option<nat>)
    requires b != [] && ConsumeTag(b) == Some(t) && FieldValueSize(t.num, t.typ, b[t.size..], RECURSION_LIMIT) == size
    ensures Fields(b) ==
              if size.None? then None
              else var more := Fields(b[t.size..][size.value..]);
                   if more.None? then None else Some([Field(t.num, t.typ, b[t.size..][..size.value])] + more.value)
  {
    hide ConsumeTag, FieldValueSize;
  }

  lemma FirstPart(parts: seq<Piece>)
    requires parts != []
    ensures Deepest(parts) == if Depth(parts[0]) > Deepest(parts[1..]) then Depth(parts[0]) else Deepest(parts[1..])
    ensures WrittenAll(parts) == Written(parts[0]) + WrittenAll(parts[1..])
  {
  }

  /** One field in front of the rest of a group. */
  lemma {:induction false} PartInFront(num: nat, p: Piece, behind: seq<byte>, depth: nat)
    requires Shaped(p)
    ensures var more := GroupSize(num, behind, depth);
            GroupSize(num, Written(p) + behind, depth)
            == if Depth(p) <= depth && more.Some? then Some(|Written(p)| + more.value) else None
    decreases p, 2
  {
    hide *;
    var tag, b := Varint(p.num * 8 + TypeOf(p)), Written(p) + behind;
    var t := Tag(p.num, TypeOf(p), |tag|);
    Layout(p, behind);
    TagReads(p.num, TypeOf(p), Content(p) + behind);
    ContentSize(p, behind, depth - 1);
    GroupStep(num, b, t, if Depth(p) <= depth then Some(|Content(p)|) else None, depth);
  }

  function FieldsOf(ps: seq<Piece>): seq<Field> {
    if ps == [] then [] else [Field(ps[0].num, TypeOf(ps[0]), Content(ps[0]))] + FieldsOf(ps[1..])
  }

  predicate AllShaped(ps: seq<Piece>) {
    forall i :: 0 <= i < |ps| ==> Shaped(ps[i])
  }

  /** All fields can be written, and groups are not nested too deeply to be walked. */
  predicate AllWritable(ps: seq<Piece>) {
    AllShaped(ps) && Deepest(ps) <= 10001
  }

  lemma PieceReads(p: Piece, rest: seq<byte>)
    requires Shaped(p)
    ensures var b := Written(p) + rest;
            var t := ConsumeTag(b);
            && t.Some? && t.value.num == p.num && t.value.typ == TypeOf(p) && t.value.size < |b|
            && b[t.value.size..] == Content(p) + rest
  {
    TagReads(p.num, TypeOf(p), Content(p) + rest);
    Layout(p, rest);
    SomeContent(p);
    hide *;
  }

  lemma SomeContent(p: Piece)
    requires Shaped(p)
    ensures Content(p) != []
  {
    hide WrittenAll;
  }

  /** One written field in front of others. */
  lemma FieldInFront(p: Piece, rest: seq<byte>)
    requires Shaped(p)
    ensures Fields(Written(p) + rest) ==
              if Depth(p) <= 10001 && Fields(rest).Some? then Some([Field(p.num, TypeOf(p), Content(p))] + Fields(rest).value) else None
  {
    var tag, b := Varint(p.num * 8 + TypeOf(p)), Written(p) + rest;
    var t := Tag(p.num, TypeOf(p), |tag|);
    TagReads(p.num, TypeOf(p), Content(p) + rest);
    ContentSize(p, rest, 10000);
    Layout(p, rest);
    hide *;
    FieldsStep(b, t, if Depth(p) <= 10001 then Some(|Content(p)|) else None);
  }

  /** Main result: what is written is walked field by field, unless groups are nested more than 10001 deep. */
  lemma {:induction false} FieldsWritten(ps: seq<Piece>)
    requires AllShaped(ps)
    ensures Fields(WrittenAll(ps)) == if Deepest(ps) <= 10001 then Some(FieldsOf(ps)) else None
  {
    if ps != [] {
      assert Shaped(ps[0]);
      FieldsWritten(ps[1..]);
      FieldInFront(ps[0], WrittenAll(ps[1..]));
      FirstPart(ps);
      hide Fields, Written, WrittenAll, Content, Shaped, Deepest, TypeOf, Depth;
    }
  }

  lemma {:induction false} FieldsAt(ps: seq<Piece>)
    ensures |FieldsOf(ps)| == |ps|
    ensures forall i :: 0 <= i < |ps| ==> FieldsOf(ps)[i] == Field(ps[i].num, TypeOf(ps[i]), Content(ps[i]))
  {
    hide Content, TypeOf;
    if ps != [] { FieldsAt(ps[1..]); }
  }
}
