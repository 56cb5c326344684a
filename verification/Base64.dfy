/** Base64 as Go's `encoding/base64` reads and writes it (RFC 4648 sections 4 and 5): carriage
    returns and line feeds are skipped when decoding, and unused trailing bits are ignored. */
module Base64 {
  import opened Common

  datatype Alphabet = Std | Url

  /** The value of a character, or -1 outside the alphabet. */
  function Value(c: char, a: Alphabet): (v: int)
    ensures -1 <= v < 64
  {
    if 'A' <= c <= 'Z' then c as int - 'A' as int
    else if 'a' <= c <= 'z' then c as int - 'a' as int + 26
    else if '0' <= c <= '9' then c as int - '0' as int + 52
    else if c == (if a == Std then '+' else '-') then 62
    else if c == (if a == Std then '/' else '_') then 63
    else -1
  }

  predicate InAlphabet(c: char, a: Alphabet) {
    Value(c, a) >= 0
  }

  function CharOf(v: int): (c: char)
    requires 0 <= v < 64
    ensures Value(c, Std) == v
  {
    if v < 26 then 'A' + v as char
    else if v < 52 then 'a' + (v - 26) as char
    else if v < 62 then '0' + (v - 52) as char
    else if v == 62 then '+' else '/'
  }

  predicate IsBreak(c: char) {
    c == '\n' || c == '\r'
  }

  /** The text without line breaks. */
  function Compact(s: string): string {
    if s == "" then ""
    else if IsBreak(s[0]) then Compact(s[1..])
    else [s[0]] + Compact(s[1..])
  }

  /** The three bytes of four sextets. */
  function Three(v0: int, v1: int, v2: int, v3: int): seq<byte>
    requires 0 <= v0 < 64 && 0 <= v1 < 64 && 0 <= v2 < 64 && 0 <= v3 < 64
  {
    [v0 * 4 + v1 / 16, v1 % 16 * 16 + v2 / 4, v2 % 4 * 64 + v3]
  }

  predicate AllIn(s: string, a: Alphabet) {
    forall i :: 0 <= i < |s| ==> InAlphabet(s[i], a)
  }

  /** Decodes text without line breaks. */
  function DecodeCompact(s: string, a: Alphabet, padded: bool): Option<seq<byte>> {
    if s == "" then Some([])
    else if |s| >= 4 && AllIn(s[..4], a) then
      var rest := DecodeCompact(s[4..], a, padded);
      if rest.None? then None
      else Some(Three(Value(s[0], a), Value(s[1], a), Value(s[2], a), Value(s[3], a)) + rest.value)
    else DecodeLast(s, a, padded)
  }

  /** Decodes a final group that is not four full characters. */
  function DecodeLast(s: string, a: Alphabet, padded: bool): Option<seq<byte>> {
    var digits := if padded then (if |s| == 4 && s[3] == '=' then (if s[2] == '=' then 2 else 3) else 0) else |s|;
    if digits == 2 && AllIn(s[..2], a) then
      Some(Three(Value(s[0], a), Value(s[1], a), 0, 0)[..1])
    else if digits == 3 && AllIn(s[..3], a) then
      Some(Three(Value(s[0], a), Value(s[1], a), Value(s[2], a), 0)[..2])
    else None
  }

  function Decode(s: string, a: Alphabet, padded: bool): Option<seq<byte>> {
    DecodeCompact(Compact(s), a, padded)
  }

  /** `StdEncoding.DecodeString`. */
  function DecodeStd(s: string): Option<seq<byte>> {
    Decode(s, Std, true)
  }

  /** `StdEncoding.EncodeToString`. */
  function Encode(b: seq<byte>): string {
    if b == [] then ""
    else if |b| == 1 then [CharOf(b[0] / 4), CharOf(b[0] % 4 * 16), '=', '=']
    else if |b| == 2 then
      [CharOf(b[0] / 4), CharOf(b[0] % 4 * 16 + b[1] / 16), CharOf(b[1] % 16 * 4), '=']
    else
      [CharOf(b[0] / 4), CharOf(b[0] % 4 * 16 + b[1] / 16), CharOf(b[1] % 16 * 4 + b[2] / 64), CharOf(b[2] % 64)]
      + Encode(b[3..])
  }

  // --------------------------------------------------------------- round trips

  predicate NoBreaks(s: string) {
    forall i :: 0 <= i < |s| ==> !IsBreak(s[i])
  }

  lemma {:induction false} CompactId(s: string)
    requires NoBreaks(s)
    ensures Compact(s) == s
  {
    if s != "" { CompactId(s[1..]); }
  }

  lemma {:induction false} CompactShort(s: string)
    ensures |Compact(s)| <= |s|
    ensures |Compact(s)| == |s| ==> NoBreaks(s)
  {
    if s != "" { CompactShort(s[1..]); }
  }

  lemma {:induction false} CompactConcat(s: string, t: string)
    ensures Compact(s + t) == Compact(s) + Compact(t)
  {
    hide IsBreak;
    if s == "" {
      assert s + t == t;
    } else {
      CompactConcat(s[1..], t);
      assert (s + t)[0] == s[0] && (s + t)[1..] == s[1..] + t;
    }
  }

  lemma CharsOfThree(b0: byte, b1: byte, b2: byte)
    ensures Three(b0 / 4, b0 % 4 * 16 + b1 / 16, b1 % 16 * 4 + b2 / 64, b2 % 64) == [b0, b1, b2]
  {
  }

  lemma {:induction false} EncodeShape(b: seq<byte>)
    ensures NoBreaks(Encode(b))
    ensures |Encode(b)| == (|b| + 2) / 3 * 4
  {
    if |b| >= 3 { EncodeShape(b[3..]); }
  }

  /** Decoding an encoding gives the bytes back. */
  lemma {:induction false} DecodeEncode(b: seq<byte>)
    ensures DecodeStd(Encode(b)) == Some(b)
  {
    EncodeShape(b);
    CompactId(Encode(b));
    DecodeCompactEncode(b);
  }

  predicate IsSextet(v: int) {
    0 <= v < 64
  }

  lemma DecodeFour(v0: int, v1: int, v2: int, v3: int, rest: string)
    requires IsSextet(v0) && IsSextet(v1) && IsSextet(v2) && IsSextet(v3)
    requires DecodeCompact(rest, Std, true).Some?
    ensures DecodeCompact([CharOf(v0), CharOf(v1), CharOf(v2), CharOf(v3)] + rest, Std, true) ==
            Some(Three(v0, v1, v2, v3) + DecodeCompact(rest, Std, true).value)
  {
    var s := [CharOf(v0), CharOf(v1), CharOf(v2), CharOf(v3)] + rest;
    assert s[..4] == [CharOf(v0), CharOf(v1), CharOf(v2), CharOf(v3)] && s[4..] == rest;
  }

  lemma DecodeThree(v0: int, v1: int, v2: int)
    requires IsSextet(v0) && IsSextet(v1) && IsSextet(v2)
    ensures DecodeCompact([CharOf(v0), CharOf(v1), CharOf(v2), '='], Std, true) == Some(Three(v0, v1, v2, 0)[..2])
  {
    var s := [CharOf(v0), CharOf(v1), CharOf(v2), '='];
    assert s[..4][3] == '=' && !InAlphabet('=', Std) && s[2] != '=';
    assert s[..3] == [CharOf(v0), CharOf(v1), CharOf(v2)];
  }

  lemma DecodeTwo(v0: int, v1: int)
    requires IsSextet(v0) && IsSextet(v1)
    ensures DecodeCompact([CharOf(v0), CharOf(v1), '=', '='], Std, true) == Some(Three(v0, v1, 0, 0)[..1])
  {
    var s := [CharOf(v0), CharOf(v1), '=', '='];
    assert s[..4][3] == '=' && !InAlphabet('=', Std);
    assert s[..2] == [CharOf(v0), CharOf(v1)];
  }

  lemma DecodeOneByte(b: byte)
    ensures DecodeCompact(Encode([b]), Std, true) == Some([b])
  {
    var v0, v1 := b / 4, b % 4 * 16;
    OneByte(b, v0, v1);
    DecodeTwo(v0, v1);
    hide DecodeCompact, CharOf, Three;
    assert Encode([b]) == [CharOf(v0), CharOf(v1), '=', '='];
  }

  lemma OneByte(b: byte, v0: int, v1: int)
    requires v0 == b / 4 && v1 == b % 4 * 16
    ensures IsSextet(v0) && IsSextet(v1) && Three(v0, v1, 0, 0)[..1] == [b]
  {
    assert v1 / 16 == b % 4;
  }

  lemma DecodeTwoBytes(b: byte, c: byte)
    ensures DecodeCompact(Encode([b, c]), Std, true) == Some([b, c])
  {
    var v0, v1, v2 := b / 4, b % 4 * 16 + c / 16, c % 16 * 4;
    TwoBytes(b, c, v0, v1, v2);
    DecodeThree(v0, v1, v2);
    hide DecodeCompact, CharOf, Three;
    assert Encode([b, c]) == [CharOf(v0), CharOf(v1), CharOf(v2), '='];
  }

  lemma TwoBytes(b: byte, c: byte, v0: int, v1: int, v2: int)
    requires v0 == b / 4 && v1 == b % 4 * 16 + c / 16 && v2 == c % 16 * 4
    ensures IsSextet(v0) && IsSextet(v1) && IsSextet(v2) && Three(v0, v1, v2, 0)[..2] == [b, c]
  {
    CharsOfThree(b, c, 0);
    assert Three(v0, v1, v2, 0) == [b, c, 0];
  }

  lemma DecodeShort(b: seq<byte>)
    requires 1 <= |b| <= 2
    ensures DecodeCompact(Encode(b), Std, true) == Some(b)
  {
    hide DecodeCompact, Encode;
    if |b| == 1 {
      assert b == [b[0]];
      DecodeOneByte(b[0]);
    } else {
      assert b == [b[0], b[1]];
      DecodeTwoBytes(b[0], b[1]);
    }
  }

  lemma {:induction false} DecodeCompactEncode(b: seq<byte>)
    ensures DecodeCompact(Encode(b), Std, true) == Some(b)
  {
    if 1 <= |b| <= 2 {
      DecodeShort(b);
    } else if |b| >= 3 {
      DecodeCompactEncode(b[3..]);
      DecodeFour(b[0] / 4, b[0] % 4 * 16 + b[1] / 16, b[1] % 16 * 4 + b[2] / 64, b[2] % 64, Encode(b[3..]));
      CharsOfThree(b[0], b[1], b[2]);
      assert b == [b[0], b[1], b[2]] + b[3..];
    }
  }

  /** The unused bits of the last group are zero and there are no line breaks: the only text that
      encodes its bytes. */
  predicate Canonical(s: string) {
    NoBreaks(s) && CleanTail(s)
  }

  predicate CleanTail(s: string) {
    if |s| > 4 then CleanTail(s[4..])
    else |s| == 4 ==> && (s[3] == '=' && s[2] == '=' ==> Value(s[1], Std) % 16 == 0)
                      && (s[3] == '=' && s[2] != '=' ==> Value(s[2], Std) % 4 == 0)
  }

  lemma ValueInjective(c: char)
    requires InAlphabet(c, Std)
    ensures CharOf(Value(c, Std)) == c
  {
  }

  lemma {:induction false} EncodeDecodeCompact(s: string)
    requires DecodeCompact(s, Std, true).Some?
    ensures Encode(DecodeCompact(s, Std, true).value) == s <==> CleanTail(s)
    ensures |Encode(DecodeCompact(s, Std, true).value)| == |s|
  {
    if |s| >= 4 && AllIn(s[..4], Std) {
      EncodeDecodeCompact(s[4..]);
      FullGroup(s);
      var tail := Encode(DecodeCompact(s[4..], Std, true).value);
      assert s == s[..4] + s[4..];
      assert (s[..4] + tail)[4..] == tail;
      if |s| == 4 {
        assert s[..4][2] == s[2] && s[..4][3] == s[3];
      }
    } else if s != "" {
      LastGroup(s);
    }
  }

  lemma FullGroup(s: string)
    requires DecodeCompact(s, Std, true).Some? && |s| >= 4 && AllIn(s[..4], Std)
    ensures DecodeCompact(s[4..], Std, true).Some?
    ensures Encode(DecodeCompact(s, Std, true).value) == s[..4] + Encode(DecodeCompact(s[4..], Std, true).value)
  {
    var rest := DecodeCompact(s[4..], Std, true);
    FourInAlphabet(s, Std);
    EncodeFour(s[0], s[1], s[2], s[3], rest.value);
  }

  lemma FourInAlphabet(s: string, a: Alphabet)
    requires |s| >= 4 && AllIn(s[..4], a)
    ensures InAlphabet(s[0], a) && InAlphabet(s[1], a) && InAlphabet(s[2], a) && InAlphabet(s[3], a)
    ensures s[..4] == [s[0], s[1], s[2], s[3]]
  {
    assert forall i :: 0 <= i < 4 ==> s[..4][i] == s[i];
  }

  lemma EncodeFour(c0: char, c1: char, c2: char, c3: char, rest: seq<byte>)
    requires InAlphabet(c0, Std) && InAlphabet(c1, Std) && InAlphabet(c2, Std) && InAlphabet(c3, Std)
    ensures Encode(Three(Value(c0, Std), Value(c1, Std), Value(c2, Std), Value(c3, Std)) + rest) == [c0, c1, c2, c3] + Encode(rest)
  {
    var three := Three(Value(c0, Std), Value(c1, Std), Value(c2, Std), Value(c3, Std));
    ValueInjective(c0); ValueInjective(c1); ValueInjective(c2); ValueInjective(c3);
    SextetsOfThree(Value(c0, Std), Value(c1, Std), Value(c2, Std), Value(c3, Std));
    EncodeThree(three, rest);
  }

  lemma SextetsOfThree(v0: int, v1: int, v2: int, v3: int)
    requires IsSextet(v0) && IsSextet(v1) && IsSextet(v2) && IsSextet(v3)
    ensures var b := Three(v0, v1, v2, v3);
            b[0] / 4 == v0 && b[0] % 4 * 16 + b[1] / 16 == v1 && b[1] % 16 * 4 + b[2] / 64 == v2 && b[2] % 64 == v3
  {
  }

  lemma EncodeThree(three: seq<byte>, rest: seq<byte>)
    requires |three| == 3
    ensures Encode(three + rest) ==
            [CharOf(three[0] / 4), CharOf(three[0] % 4 * 16 + three[1] / 16),
             CharOf(three[1] % 16 * 4 + three[2] / 64), CharOf(three[2] % 64)] + Encode(rest)
  {
    assert (three + rest)[3..] == rest;
  }

  lemma LastGroup(s: string)
    requires DecodeLast(s, Std, true).Some?
    ensures |Encode(DecodeLast(s, Std, true).value)| == |s| == 4
    ensures Encode(DecodeLast(s, Std, true).value) == s <==> CleanTail(s)
  {
    var b := DecodeLast(s, Std, true).value;
    ValueInjective(s[0]);
    if s[2] == '=' {
      assert s[..2][0] == s[0] && s[..2][1] == s[1];
      ValueInjective(s[1]);
      assert Encode(b)[0] == s[0] && Encode(b)[2..] == s[2..];
      assert Encode(b) == s <==> Encode(b)[1] == s[1] by {
        if Encode(b)[1] == s[1] { assert Encode(b) == s; }
      }
      var v := Value(s[1], Std);
      assert Encode(b)[1] == CharOf(v / 16 * 16);
    } else {
      assert s[..3][0] == s[0] && s[..3][1] == s[1] && s[..3][2] == s[2];
      ValueInjective(s[1]);
      ValueInjective(s[2]);
      assert Encode(b)[0] == s[0] && Encode(b)[1] == s[1] && Encode(b)[3] == s[3];
      assert Encode(b) == s <==> Encode(b)[2] == s[2] by {
        if Encode(b)[2] == s[2] { assert Encode(b) == s; }
      }
      var v := Value(s[2], Std);
      assert Encode(b)[2] == CharOf(v / 4 * 4);
    }
  }

  /** Encoding what was decoded gives the text back exactly when the text was canonical. */
  lemma EncodeDecode(s: string)
    requires DecodeStd(s).Some?
    ensures Encode(DecodeStd(s).value) == s <==> Canonical(s)
    ensures |Encode(DecodeStd(s).value)| <= |s|
  {
    var t := Compact(s);
    EncodeDecodeCompact(t);
    CompactShort(s);
    EncodeShape(DecodeStd(s).value);
    if NoBreaks(s) {
      CompactId(s);
    }
  }

  // ------------------------------------------------------------ leading bytes

  /** The first byte comes from the first two characters. */
  lemma FirstByte(s: string, a: Alphabet, padded: bool)
    requires s != "" && !IsBreak(s[0])
    requires Decode(s, a, padded).Some?
    ensures InAlphabet(s[0], a) && Decode(s, a, padded).value != []
    ensures Value(s[0], a) * 4 <= Decode(s, a, padded).value[0] < Value(s[0], a) * 4 + 4
    ensures |s| > 1 && !IsBreak(s[1]) ==>
              InAlphabet(s[1], a) && Decode(s, a, padded).value[0] == Value(s[0], a) * 4 + Value(s[1], a) / 16
  {
    var t := Compact(s);
    assert t[0] == s[0];
    if |s| > 1 && !IsBreak(s[1]) {
      assert s[1..] != "" && t == [s[0]] + Compact(s[1..]);
      assert t[1] == s[1];
    }
    if |t| >= 4 && AllIn(t[..4], a) {
      assert t[..4][0] == t[0] && t[..4][1] == t[1];
    } else {
      assert t[..2][0] == t[0] && t[..2][1] == t[1];
      assert |t| >= 3 ==> t[..3][0] == t[0] && t[..3][1] == t[1];
    }
  }
}
