/** The text encodings behind a signature, held against their standards: base64 (RFC 4648) and UTF-8
    (RFC 3629). */
module Encodings {
  import opened Common
  import opened Base64
  import opened ProtoWire

  // --------------------------------------------------------------------- base64

  lemma Group(x: byte, y: byte, z: byte, rest: seq<byte>)
    ensures Encode([x, y, z] + rest) ==
              [CharOf(x / 4), CharOf(x % 4 * 16 + y / 16), CharOf(y % 16 * 4 + z / 64), CharOf(z % 64)] + Encode(rest)
  {
    assert ([x, y, z] + rest)[3..] == rest;
  }

  lemma ShortExamples()
    ensures Encode([]) == "" && Encode([102]) == "Zg==" && Encode([102, 111]) == "Zm8=" && Encode([251, 255]) == "+/8="
  {
  }

  lemma Letters()
    ensures CharOf(25) == 'Z' && CharOf(38) == 'm' && CharOf(61) == '9' && CharOf(47) == 'v'
  {
  }

  lemma Foo()
    ensures Encode([102, 111, 111]) == "Zm9v"
  {
    Letters();
    Group(102, 111, 111, []);
    assert Encode([]) == "";
    assert [102, 111, 111] + [] == [102, 111, 111];
    hide Encode, CharOf;
  }

  /** Examples of section 10 of RFC 4648, and the two characters in which its alphabets differ. */
  lemma Base64Examples()
    ensures Encode([]) == "" && Encode([102]) == "Zg==" && Encode([102, 111]) == "Zm8=" && Encode([102, 111, 111]) == "Zm9v"
    ensures Encode([251, 255]) == "+/8="
    ensures Value('+', Std) == Value('-', Url) == 62 && Value('/', Std) == Value('_', Url) == 63
  {
    ShortExamples();
    Foo();
    hide Encode, CharOf;
  }

  // ---------------------------------------------------------------------- UTF-8

  /** What a Unicode scalar value is. */
  predicate IsScalar(c: int) {
    0 <= c < 0x110000 && !(0xD800 <= c < 0xE000)
  }

  /** Section 3 of RFC 3629. */
  function Utf8(c: int): (b: seq<byte>)
    requires IsScalar(c)
    ensures b != []
  {
    if c < 0x80 then [c]
    else if c < 0x800 then [0xC0 + c / 64, 0x80 + c % 64]
    else if c < 0x10000 then [0xE0 + c / 4096, 0x80 + c / 64 % 64, 0x80 + c % 64]
    else [0xF0 + c / 262144, 0x80 + c / 4096 % 64, 0x80 + c / 64 % 64, 0x80 + c % 64]
  }

  function Utf8All(cs: seq<int>): seq<byte>
    requires forall i :: 0 <= i < |cs| ==> IsScalar(cs[i])
  {
    if cs == [] then [] else Utf8(cs[0]) + Utf8All(cs[1..])
  }

  lemma OneWritten(c: int, rest: seq<byte>)
    requires IsScalar(c)
    ensures ValidUtf8(Utf8(c) + rest) == ValidUtf8(rest)
  {
    var b := Utf8(c) + rest;
    assert b[|Utf8(c)|..] == rest;
    if 0x800 <= c < 0x10000 {
      ThreeWritten(c, rest);
    } else if c >= 0x10000 {
      FourWritten(c, rest);
    }
  }

  lemma ThreeWritten(c: int, rest: seq<byte>)
    requires IsScalar(c) && 0x800 <= c < 0x10000
    ensures ValidUtf8(Utf8(c) + rest) == ValidUtf8(rest)
  {
    var b := Utf8(c) + rest;
    assert b[3..] == rest && b[0] == 0xE0 + c / 4096 && b[1] == 0x80 + c / 64 % 64 && b[2] == 0x80 + c % 64;
    assert c / 4096 == 0 ==> c / 64 % 64 == c / 64;
    assert c / 4096 == 13 ==> c / 64 % 64 == c / 64 - 832;
    hide Utf8;
  }

  lemma FourWritten(c: int, rest: seq<byte>)
    requires 0x10000 <= c < 0x110000
    ensures ValidUtf8(Utf8(c) + rest) == ValidUtf8(rest)
  {
    var b := Utf8(c) + rest;
    assert b[4..] == rest && b[0] == 0xF0 + c / 262144 && b[1] == 0x80 + c / 4096 % 64;
    assert b[2] == 0x80 + c / 64 % 64 && b[3] == 0x80 + c % 64;
    assert c / 262144 == 0 ==> c / 4096 % 64 == c / 4096;
    assert c / 262144 == 4 ==> c / 4096 % 64 == c / 4096 - 256;
    hide Utf8;
  }

  lemma ThreeRead(x: int, y: int, z: int)
    requires 0 <= x < 16 && 0 <= y < 64 && 0 <= z < 64 && (x == 0 ==> y >= 32) && (x == 13 ==> y < 32)
    ensures var c := x * 4096 + y * 64 + z;
            IsScalar(c) && Utf8(c) == [0xE0 + x, 0x80 + y, 0x80 + z]
  {
    ThreeBytes(x, y, z);
  }

  lemma FourRead(w: int, x: int, y: int, z: int)
    requires 0 <= w < 5 && 0 <= x < 64 && 0 <= y < 64 && 0 <= z < 64 && (w == 0 ==> x >= 16) && (w == 4 ==> x < 16)
    ensures var c := w * 262144 + x * 4096 + y * 64 + z;
            IsScalar(c) && Utf8(c) == [0xF0 + w, 0x80 + x, 0x80 + y, 0x80 + z]
  {
    FourBytes(w, x, y, z);
  }

  /** The scalar value that a valid text starts with. */
  lemma OneRead(b: seq<byte>) returns (c: int)
    requires b != [] && ValidUtf8(b)
    ensures IsScalar(c) && Utf8(c) <= b && ValidUtf8(b[|Utf8(c)|..])
  {
    if b[0] < 0x80 {
      c := b[0];
      assert b[..1] == Utf8(c);
    } else if b[0] <= 0xDF {
      var x: int, y: int := b[0] - 0xC0, b[1] - 0x80;
      c := x * 64 + y;
      assert b[..2] == Utf8(c);
    } else if b[0] <= 0xEF {
      var x: int, y: int, z: int := b[0] - 0xE0, b[1] - 0x80, b[2] - 0x80;
      c := x * 4096 + y * 64 + z;
      ThreeRead(x, y, z);
      assert b[..3] == [0xE0 + x, 0x80 + y, 0x80 + z];
    } else {
      var w: int, x: int, y: int, z: int := b[0] - 0xF0, b[1] - 0x80, b[2] - 0x80, b[3] - 0x80;
      c := w * 262144 + x * 4096 + y * 64 + z;
      FourRead(w, x, y, z);
      assert b[..4] == [0xF0 + w, 0x80 + x, 0x80 + y, 0x80 + z];
    }
  }

  lemma ThreeBytes(x: int, y: int, z: int)
    requires 0 <= x < 16 && 0 <= y < 64 && 0 <= z < 64
    ensures var c := x * 4096 + y * 64 + z;
            c / 4096 == x && c / 64 % 64 == y && c % 64 == z
  {
    var c := x * 4096 + y * 64 + z;
    assert c / 64 == x * 64 + y;
  }

  lemma FourBytes(w: int, x: int, y: int, z: int)
    requires 0 <= w < 8 && 0 <= x < 64 && 0 <= y < 64 && 0 <= z < 64
    ensures var c := w * 262144 + x * 4096 + y * 64 + z;
            c / 262144 == w && c / 4096 % 64 == x && c / 64 % 64 == y && c % 64 == z
  {
    var c := w * 262144 + x * 4096 + y * 64 + z;
    assert c / 64 == w * 4096 + x * 64 + y;
    assert c / 4096 == w * 64 + x;
  }

  lemma {:induction false} WrittenIsValid(cs: seq<int>)
    requires forall i :: 0 <= i < |cs| ==> IsScalar(cs[i])
    ensures ValidUtf8(Utf8All(cs))
  {
    if cs != [] {
      WrittenIsValid(cs[1..]);
      OneWritten(cs[0], Utf8All(cs[1..]));
      hide Utf8, ValidUtf8;
    }
  }

  lemma {:induction false} ValidIsWritten(b: seq<byte>) returns (cs: seq<int>)
    requires ValidUtf8(b)
    ensures (forall i :: 0 <= i < |cs| ==> IsScalar(cs[i])) && Utf8All(cs) == b
    decreases |b|
  {
    cs := [];
    if b != [] {
      var c := OneRead(b);
      var behind := ValidIsWritten(b[|Utf8(c)|..]);
      hide Utf8, ValidUtf8, IsScalar;
      cs := [c] + behind;
      assert cs[1..] == behind && b == Utf8(c) + b[|Utf8(c)|..];
    }
  }

  /** Main result: a text is valid UTF-8 exactly when it is a sequence of scalar values written one after
      another. */
  lemma Utf8Exactly(b: seq<byte>)
    ensures ValidUtf8(b) <==> exists cs: seq<int> :: (forall i :: 0 <= i < |cs| ==> IsScalar(cs[i])) && Utf8All(cs) == b
  {
    if ValidUtf8(b) { var cs := ValidIsWritten(b); }
    if cs: seq<int> :| (forall i :: 0 <= i < |cs| ==> IsScalar(cs[i])) && Utf8All(cs) == b { WrittenIsValid(cs); }
    hide ValidUtf8, Utf8All;
  }
}
