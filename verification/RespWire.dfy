/** The protocol byte by byte: what is written, and how the readers take what no writer here sends. */
module RespWire {
  import opened Common
  import opened RespCodec

  // -------------------------------------------------------------------- written

  /** A bulk string is "$", its length, a line break, itself and a line break; nil is "$-1" and a line break. */
  lemma BulkBytes(x: Bytes)
    ensures Bulk(Some(x)) == [36] + Itoa(|x|) + [13, 10] + x + [13, 10]
    ensures Bulk(None) == [36, 45, 49, 13, 10]
  {
    assert Body(Some(x)) == x + [13, 10] && Length(Some(x)) == |x|;
    assert Itoa(-1) == [45, 49] && Body(None) == [];
    hide Itoa;
    assert [36] + Itoa(|x|) + [13, 10] + (x + [13, 10]) == [36] + Itoa(|x|) + [13, 10] + x + [13, 10];
  }

  /** Lengths are written in decimal. */
  lemma NumberBytes(n: nat)
    ensures Itoa(n) == if n < 10 then [48 + n] else Itoa(n / 10) + [48 + n % 10]
    ensures n > 0 ==> Itoa(0 - n) == [45] + Itoa(n)
  {
  }

  /** An array is "*", its length, a line break and its bulk strings in order. */
  lemma {:induction false} ArrayBytes(items: seq<Option<Bytes>>, last: Option<Bytes>)
    ensures Array(items) == [42] + Itoa(|items|) + [13, 10] + Bulks(items)
    ensures Bulks([]) == [] && Bulks(items + [last]) == Bulks(items) + Bulk(last)
  {
    hide Bulk, Itoa;
    BulksJoin(items, last);
  }

  lemma {:induction false} BulksJoin(items: seq<Option<Bytes>>, last: Option<Bytes>)
    ensures Bulks(items + [last]) == Bulks(items) + Bulk(last)
  {
    hide Bulk;
    var all := items + [last];
    if items == [] {
      assert all == [last] && all[1..] == [];
      assert Bulks(all) == Bulk(last) + Bulks([]);
    } else {
      BulksJoin(items[1..], last);
      assert all[0] == items[0] && all[1..] == items[1..] + [last];
    }
  }

  // ----------------------------------------------------------------------- read

  /** A line behind its first byte. */
  lemma LineBehind(kind: byte, line: Bytes, rest: Bytes)
    requires 10 !in line
    ensures var b := [kind] + line + [13, 10] + rest;
            && b[0] == kind && ReadString(b[1..]) == Ok(line + [13, 10], rest) && ReadLine(b[1..]) == Ok(line, rest)
  {
    var b := [kind] + line + [13, 10] + rest;
    assert b[1..] == line + CRLF + rest;
    LineReads(line, rest);
  }

  /** What starts with no known byte is refused. */
  lemma OtherKinds(b: Bytes)
    ensures b == [] ==> ReadItem(b) == Err(Eof) && ReadArray(b) == Err(Eof) && ReadBulk(b) == Err(Eof)
    ensures b != [] && b[0] != 36 && b[0] != 43 && b[0] != 58 ==> ReadItem(b) == Err(Protocol)
    ensures b != [] && b[0] != 42 ==> ReadArray(b) == Err(Protocol)
    ensures b != [] && b[0] != 36 && b[0] != 45 ==> ReadBulk(b) == Err(Protocol)
  {
    hide ReadBulkString, ReadLine, ReadString, ReadItems;
  }

  /** An element sent as a simple string or an integer is its text; an error sent reaches the requesting side
      without the blanks around it. */
  lemma LineKinds(kind: byte, line: Bytes, rest: Bytes)
    requires 10 !in line
    ensures kind == 43 || kind == 58 ==> ReadItem([kind] + line + [13, 10] + rest) == Ok(line, rest)
    ensures kind == 45 ==> ReadBulk([kind] + line + [13, 10] + rest) == Err(Remote(TrimBlanks(line + [13, 10])))
  {
    LineBehind(kind, line, rest);
    hide ReadLine, ReadString, TrimBlanks, ReadBulkString;
  }

  /** A length that is no number is refused, and so is the length of an array that is negative. */
  lemma BadLength(line: Bytes, rest: Bytes)
    requires 10 !in line
    ensures Atoi(line).None? ==>
              ReadItem([36] + line + [13, 10] + rest) == Err(Protocol) && ReadArray([42] + line + [13, 10] + rest) == Err(Protocol)
    ensures Atoi(line).Some? && Atoi(line).value < 0 ==>
              ReadItem([36] + line + [13, 10] + rest) == Ok([], rest) && ReadArray([42] + line + [13, 10] + rest) == Err(Protocol)
  {
    LineBehind(36, line, rest);
    LineBehind(42, line, rest);
    hide ReadLine, Atoi, ReadItems;
  }

  /** The server wants a line break behind a bulk string; the requesting side takes any two bytes. */
  lemma BadEnd(x: Bytes, c: byte, d: byte, rest: Bytes)
    requires |x| + 2 <= 9_223_372_036_854_775_807
    ensures var b := [36] + Itoa(|x|) + [13, 10] + (x + [c, d] + rest);
            && ReadItem(b) == (if c == 13 && d == 10 then Ok(x, rest) else Err(Protocol))
            && ReadBulk(b) == Ok(x, rest)
  {
    var line, body := Itoa(|x|), x + [c, d] + rest;
    AtoiItoa(|x|);
    TrimNumber(|x|);
    LineBehind(36, line, body);
    assert body[..|x| + 2] == x + [c, d] && body[|x| + 2..] == rest;
    assert (x + [c, d])[|x|..] == [c, d] && (x + [c, d])[..|x|] == x;
    hide Itoa, Atoi, ReadLine, ReadString, TrimBlanks;
  }

  /** A connection that ends behind the length line ends cleanly, and one that ends later does not. */
  lemma BodyCut(n: nat, p: Bytes)
    requires |p| < n + 2 <= 9_223_372_036_854_775_807
    ensures var b, error := [36] + Itoa(n) + [13, 10] + p, if p == [] then Eof else UnexpectedEof;
            ReadItem(b) == Err(error) && ReadBulk(b) == Err(error)
  {
    AtoiItoa(n);
    TrimNumber(n);
    LineBehind(36, Itoa(n), p);
    hide Itoa, Atoi, ReadLine, ReadString, TrimBlanks;
  }

  /** A length just below the largest integer makes room for nothing: the program stops. */
  lemma HugeLength(n: nat, p: Bytes)
    requires 9_223_372_036_854_775_805 < n <= 9_223_372_036_854_775_807
    ensures var b := [36] + Itoa(n) + [13, 10] + p;
            ReadItem(b) == Err(Panic) && ReadBulk(b) == Err(Panic)
  {
    AtoiItoa(n);
    TrimNumber(n);
    LineBehind(36, Itoa(n), p);
    hide Itoa, Atoi, ReadLine, ReadString, TrimBlanks;
  }

  /** The numbers that are read: digits with or without a sign, within 64 bits. */
  lemma NumbersRead(ds: Bytes)
    requires ds != [] && forall i :: 0 <= i < |ds| ==> 48 <= ds[i] <= 57
    ensures var n: int := NumberOf(ds);
            && (Atoi(ds) == if n <= 9_223_372_036_854_775_807 then Some(n) else None)
            && (Atoi([43] + ds) == if n <= 9_223_372_036_854_775_807 then Some(n) else None)
            && (Atoi([45] + ds) == if n <= 9_223_372_036_854_775_808 then Some(-n) else None)
  {
    assert AllDigits(ds);
    UnsignedRead(ds);
    SignedRead(43, ds);
    SignedRead(45, ds);
    hide *;
  }

  lemma UnsignedRead(ds: Bytes)
    requires AllDigits(ds)
    ensures Atoi(ds) == if NumberOf(ds) <= MAX_INT then Some(NumberOf(ds)) else None
  {
    assert IsDigit(ds[0]);
    hide NumberOf, AllDigits;
  }

  lemma SignedRead(sign: byte, ds: Bytes)
    requires AllDigits(ds) && (sign == MINUS || sign == PLUS)
    ensures var n: int := if sign == MINUS then 0 - NumberOf(ds) else NumberOf(ds);
            Atoi([sign] + ds) == if -MAX_INT - 1 <= n <= MAX_INT then Some(n) else None
  {
    assert ([sign] + ds)[1..] == ds;
    hide NumberOf, AllDigits;
  }

  lemma NumberDigits(ds: Bytes, d: byte)
    requires (forall i :: 0 <= i < |ds| ==> 48 <= ds[i] <= 57) && d <= 9
    ensures NumberOf(ds + [48 + d]) == (if ds == [] then 0 else 10 * NumberOf(ds)) + d
  {
    assert (ds + [48 + d])[..|ds|] == ds;
  }

  /** And nothing else is a number. */
  lemma OthersNotRead(s: Bytes)
    requires Atoi(s).Some?
    ensures var ds := if s != [] && (s[0] == 43 || s[0] == 45) then s[1..] else s;
            ds != [] && forall i :: 0 <= i < |ds| ==> 48 <= ds[i] <= 57
  {
    var ds := if s != [] && (s[0] == 43 || s[0] == 45) then s[1..] else s;
    assert AllDigits(ds);
    forall i | 0 <= i < |ds| ensures 48 <= ds[i] <= 57 { assert IsDigit(ds[i]); }
  }

  /** The requesting side takes a length with a blank on either side: a space, a tab or another of that kind. */
  lemma PaddedLength(x: Bytes, c: byte, rest: Bytes)
    requires |x| + 2 <= 9_223_372_036_854_775_807 && c in [9, 11, 12, 13, 32]
    ensures ReadBulk([36] + ([c] + Itoa(|x|) + [c]) + [13, 10] + (x + [13, 10] + rest)) == Ok(x, rest)
  {
    var line, body := [c] + Itoa(|x|) + [c], x + [13, 10] + rest;
    AtoiItoa(|x|);
    NumbersUnblank(Itoa(|x|));
    LineBehind(36, line, body);
    BlanksAround(Itoa(|x|), c);
    assert body[..|x| + 2] == x + [13, 10] && body[|x| + 2..] == rest && (x + [13, 10])[..|x|] == x;
    hide Itoa, Atoi, ReadLine, ReadString, TrimBlanks;
  }

  lemma BlanksAround(s: Bytes, c: byte)
    requires s != [] && !IsBlank(s[0]) && !IsBlank(s[|s| - 1]) && c in [9, 11, 12, 13, 32]
    ensures TrimBlanks([c] + s + [c] + [13, 10]) == s
  {
    var t := s + [c];
    assert ([c] + s + [c] + [13, 10])[1..] == t + [13, 10];
    assert (t + [13, 10])[..|t| + 1] == t + [13] && (t + [13])[..|t|] == t && t[..|s|] == s;
    assert TrimBlanks(t + [13, 10]) == TrimBlanks(t + [13]) == TrimBlanks(t) == TrimBlanks(s) == s;
  }
}
