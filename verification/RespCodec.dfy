/** The Redis serialization protocol as this program writes and reads it: the encoders as functions
    to bytes, the readers as functions from the bytes still to come. */
module RespCodec {
  import opened Common

  type Bytes = seq<byte>

  const LF: byte := 10
  const CR: byte := 13
  const CRLF: Bytes := [CR, LF]
  const STAR: byte := 42
  const PLUS: byte := 43
  const MINUS: byte := 45
  const DOLLAR: byte := 36
  const COLON: byte := 58
  const ZERO: byte := 48

  const MAX_INT := 0x7FFF_FFFF_FFFF_FFFF

  // ------------------------------------------------------------------- numbers

  predicate IsDigit(b: byte) {
    ZERO <= b <= ZERO + 9
  }

  predicate AllDigits(s: Bytes) {
    s != [] && forall i :: 0 <= i < |s| ==> IsDigit(s[i])
  }

  function Digits(n: nat): (s: Bytes)
    ensures AllDigits(s)
  {
    if n < 10 then [ZERO + n] else Digits(n / 10) + [ZERO + n % 10]
  }

  /** `strconv.Itoa`. */
  function Itoa(n: int): Bytes {
    if n < 0 then [MINUS] + Digits(-n) else Digits(n)
  }

  function NumberOf(s: Bytes): nat
    requires AllDigits(s)
  {
    (if |s| == 1 then 0 else 10 * NumberOf(s[..|s| - 1])) + (s[|s| - 1] - ZERO)
  }

  /** `strconv.Atoi` with 64-bit integers: an optional sign and decimal digits, in range. */
  function Atoi(s: Bytes): Option<int> {
    var signed := s != [] && (s[0] == MINUS || s[0] == PLUS);
    var digits := if signed then s[1..] else s;
    if !AllDigits(digits) then None
    else
      var n: int := NumberOf(digits);
      var n := if signed && s[0] == MINUS then -n else n;
      if -MAX_INT - 1 <= n <= MAX_INT then Some(n) else None
  }

  lemma {:induction false} NumberOfDigits(n: nat)
    ensures NumberOf(Digits(n)) == n
  {
    if n >= 10 {
      NumberOfDigits(n / 10);
      assert Digits(n)[..|Digits(n)| - 1] == Digits(n / 10);
    }
  }

  lemma AtoiItoa(n: int)
    requires -MAX_INT - 1 <= n <= MAX_INT
    ensures Atoi(Itoa(n)) == Some(n)
    ensures LF !in Itoa(n) && CR !in Itoa(n) && Itoa(n) != []
  {
    var digits := Digits(if n < 0 then -n else n);
    NumberOfDigits(if n < 0 then -n else n);
    assert Itoa(n) == if n < 0 then [MINUS] + digits else digits;
    hide Itoa, Digits;
    if n < 0 { assert Itoa(n)[1..] == digits; }
    DigitsPlain(digits);
    hide NumberOf, AllDigits;
  }

  lemma DigitsPlain(s: Bytes)
    requires AllDigits(s)
    ensures LF !in s && CR !in s && s[0] != MINUS && s[0] != PLUS
  {
    assert IsDigit(s[0]);
  }

  // ------------------------------------------------------------------ encoders

  /** One bulk string; `None` is Go's nil payload. */
  function Bulk(item: Option<Bytes>): Bytes {
    [DOLLAR] + Itoa(Length(item)) + CRLF + Body(item)
  }

  function Length(item: Option<Bytes>): int {
    if item.None? then -1 else |item.value|
  }

  function Body(item: Option<Bytes>): Bytes {
    if item.None? then [] else item.value + CRLF
  }

  function Bulks(items: seq<Option<Bytes>>): Bytes {
    if items == [] then [] else Bulk(items[0]) + Bulks(items[1..])
  }

  /** An array of bulk strings. */
  function Array(items: seq<Option<Bytes>>): Bytes {
    [STAR] + Itoa(|items|) + CRLF + Bulks(items)
  }

  function Present(args: seq<Bytes>): (r: seq<Option<Bytes>>)
    ensures |r| == |args|
  {
    seq(|args|, i requires 0 <= i < |args| => Some(args[i]))
  }

  /** A command, as `encodeRESPArray` writes it. */
  function Command(args: seq<Bytes>): Bytes {
    Array(Present(args))
  }

  /** Commands sent one after the other without waiting. */
  function Pipeline(commands: seq<seq<Bytes>>): Bytes {
    if commands == [] then [] else Command(commands[0]) + Pipeline(commands[1..])
  }

  /** What a reader makes of an item: nil reads as the empty string. */
  function Text(item: Option<Bytes>): Bytes {
    if item.None? then [] else item.value
  }

  function Texts(items: seq<Option<Bytes>>): (r: seq<Bytes>)
    ensures |r| == |items|
  {
    seq(|items|, i requires 0 <= i < |items| => Text(items[i]))
  }

  /** Lengths a Go program can have: they are of type int, and a bulk string with its line break too. */
  predicate Sized(items: seq<Option<Bytes>>) {
    |items| <= MAX_INT && forall i :: 0 <= i < |items| ==> |Text(items[i])| + 2 <= MAX_INT
  }

  // ------------------------------------------------------------------- readers

  /** `Eof` and `UnexpectedEof` are `io.EOF` and `io.ErrUnexpectedEOF`; a buffer whose length
      overflows makes the process panic. */
  datatype Error = Eof | UnexpectedEof | Protocol | Panic | Nil | Remote(message: Bytes)

  datatype Parse<T> = Ok(value: T, rest: Bytes) | Err(error: Error)

  /** What a reader does when the connection ends too early. */
  predicate RunsShort<T>(p: Parse<T>) {
    p.Err? && (p.error == Eof || p.error == UnexpectedEof)
  }

  /** The position behind the first line feed, or none. */
  function LineEnd(b: Bytes): (n: nat)
    ensures n == 0 <==> LF !in b
    ensures n > 0 ==> n <= |b| && b[n - 1] == LF && forall i :: 0 <= i < n - 1 ==> b[i] != LF
  {
    if b == [] then 0
    else if b[0] == LF then 1
    else
      var n := LineEnd(b[1..]);
      if n == 0 then 0 else n + 1
  }

  /** `ReadString('\n')`. */
  function ReadString(b: Bytes): Parse<Bytes> {
    var n := LineEnd(b);
    if n == 0 then Err(Eof) else Ok(b[..n], b[n..])
  }

  function TrimSuffix(s: Bytes, c: byte): Bytes {
    if s != [] && s[|s| - 1] == c then s[..|s| - 1] else s
  }

  /** `readRESPLine`. */
  function ReadLine(b: Bytes): Parse<Bytes> {
    var line := ReadString(b);
    if line.Err? then line else Ok(TrimSuffix(TrimSuffix(line.value, LF), CR), line.rest)
  }

  /** `io.ReadFull` into a new buffer of `n` bytes. */
  function ReadFull(b: Bytes, n: int): Parse<Bytes> {
    if n > MAX_INT then Err(Panic)
    else if n <= |b| then if n < 0 then Err(Panic) else Ok(b[..n], b[n..])
    else Err(if b == [] then Eof else UnexpectedEof)
  }

  /** `readRESPBulkString`. */
  function ReadBulkString(b: Bytes): Parse<Bytes> {
    var line := ReadLine(b);
    if line.Err? then line
    else
      var length := Atoi(line.value);
      if length.None? then Err(Protocol) else ReadBody(line.rest, length.value)
  }

  /** ... behind the length. */
  function ReadBody(b: Bytes, length: int): Parse<Bytes> {
    if length < 0 then Ok([], b)
    else
      var body := ReadFull(b, length + 2);
      if body.Err? then body
      else if body.value[length..] != CRLF then Err(Protocol)
      else Ok(body.value[..length], body.rest)
  }

  /** `readRESPString`. */
  function ReadItem(b: Bytes): Parse<Bytes> {
    if b == [] then Err(Eof)
    else if b[0] == DOLLAR then ReadBulkString(b[1..])
    else if b[0] == PLUS || b[0] == COLON then ReadLine(b[1..])
    else Err(Protocol)
  }

  function ReadItems(b: Bytes, n: nat): Parse<seq<Bytes>> {
    if n == 0 then Ok([], b)
    else
      var first := ReadItem(b);
      if first.Err? then Err(first.error)
      else
        var others := ReadItems(first.rest, n - 1);
        if others.Err? then others else Ok([first.value] + others.value, others.rest)
  }

  /** `readRESPArray`. */
  function ReadArray(b: Bytes): Parse<seq<Bytes>> {
    if b == [] then Err(Eof)
    else if b[0] != STAR then Err(Protocol)
    else
      var line := ReadLine(b[1..]);
      if line.Err? then Err(line.error)
      else
        var count := Atoi(line.value);
        if count.None? || count.value < 0 then Err(Protocol) else ReadItems(line.rest, count.value)
  }

  /** The server's loop over pipelined commands. */
  function ReadPipeline(b: Bytes, n: nat): Parse<seq<seq<Bytes>>>
    decreases n
  {
    if n == 0 then Ok([], b)
    else
      var first := ReadArray(b);
      if first.Err? then Err(first.error)
      else
        var others := ReadPipeline(first.rest, n - 1);
        if others.Err? then others else Ok([first.value] + others.value, others.rest)
  }

  predicate IsBlank(b: byte) {
    b == 32 || 9 <= b <= 13
  }

  function TrimBlanks(s: Bytes): Bytes {
    if s != [] && IsBlank(s[0]) then TrimBlanks(s[1..])
    else if s != [] && IsBlank(s[|s| - 1]) then TrimBlanks(s[..|s| - 1])
    else s
  }

  /** `readRESPBulk`, the reader on the requesting side. */
  function ReadBulk(b: Bytes): Parse<Bytes> {
    if b == [] then Err(Eof)
    else if b[0] == DOLLAR then
      var line := ReadString(b[1..]);
      if line.Err? then line
      else
        var size := Atoi(TrimBlanks(line.value));
        if size.None? then Err(Protocol)
        else if size.value < 0 then Err(Nil)
        else
          var body := ReadFull(line.rest, size.value + 2);
          if body.Err? then body else Ok(body.value[..size.value], body.rest)
    else if b[0] == MINUS then
      var line := ReadString(b[1..]);
      if line.Err? then line else Err(Remote(TrimBlanks(line.value)))
    else Err(Protocol)
  }

  // --------------------------------------------------------------------- lines

  lemma {:induction false} FirstLineFeed(s: Bytes, rest: Bytes)
    requires LF !in s
    ensures LineEnd(s + [LF] + rest) == |s| + 1
  {
    var b := s + [LF] + rest;
    if s != [] {
      assert b[1..] == s[1..] + [LF] + rest;
      FirstLineFeed(s[1..], rest);
    }
  }

  /** A written line reads back, and no more is consumed. */
  lemma LineReads(s: Bytes, rest: Bytes)
    requires LF !in s
    ensures ReadString(s + CRLF + rest) == Ok(s + CRLF, rest)
    ensures ReadLine(s + CRLF + rest) == Ok(s, rest)
  {
    var b := s + CRLF + rest;
    assert b == (s + [CR]) + [LF] + rest;
    FirstLineFeed(s + [CR], rest);
    assert b[..|s| + 2] == s + CRLF && b[|s| + 2..] == rest;
    assert TrimSuffix(s + CRLF, LF) == s + [CR];
    assert TrimSuffix(s + [CR], CR) == s;
  }

  /** Part of a line does not. */
  lemma LineShort(s: Bytes, rest: Bytes, p: Bytes)
    requires LF !in s && p <= s + CRLF + rest && |p| < |s + CRLF|
    ensures ReadString(p) == Err(Eof) && ReadLine(p) == Err(Eof)
  {
    forall i | 0 <= i < |p| ensures p[i] != LF {
      assert p[i] == (s + CRLF + rest)[i] == (if i < |s| then s[i] else CR);
    }
    assert LineEnd(p) == 0;
  }

  // --------------------------------------------------------------------- items

  lemma BodyReads(item: Option<Bytes>, rest: Bytes)
    requires |Text(item)| + 2 <= MAX_INT
    ensures ReadBody(Body(item) + rest, Length(item)) == Ok(Text(item), rest)
  {
    if item.Some? {
      var b, n := Body(item) + rest, |item.value|;
      assert b[..n + 2] == Body(item) && b[n + 2..] == rest;
      assert Body(item)[n..] == CRLF && Body(item)[..n] == item.value;
    }
  }

  lemma BodyShort(item: Option<Bytes>, p: Bytes)
    requires |Text(item)| + 2 <= MAX_INT && |p| < |Body(item)|
    ensures RunsShort(ReadBody(p, Length(item)))
  {
  }

  /** A length line, seen from behind its first byte. */
  lemma Behind(first: byte, line: Bytes, body: Bytes, rest: Bytes)
    ensures var b := [first] + line + CRLF + body + rest;
            b[0] == first && b[1..] == line + CRLF + (body + rest)
  {
  }

  lemma BulkReads(item: Option<Bytes>, rest: Bytes)
    requires |Text(item)| + 2 <= MAX_INT
    ensures ReadItem(Bulk(item) + rest) == Ok(Text(item), rest)
  {
    var line := Itoa(Length(item));
    AtoiItoa(Length(item));
    Behind(DOLLAR, line, Body(item), rest);
    LineReads(line, Body(item) + rest);
    BodyReads(item, rest);
    hide Itoa, Atoi, ReadLine, ReadBody, Body;
  }

  /** Part of a line and something behind it: the line is cut, or only what is behind. */
  lemma CutLine(line: Bytes, body: Bytes, q: Bytes)
    requires LF !in line && q <= line + CRLF + body
    ensures ReadLine(q) == Err(Eof) || exists tail :: tail <= body && q == line + CRLF + tail && ReadLine(q) == Ok(line, tail)
  {
    if |q| < |line + CRLF| {
      LineShort(line, body, q);
    } else {
      var tail := body[..|q| - |line| - 2];
      LineReads(line, tail);
      hide *;
      assert q == line + CRLF + tail;
    }
  }

  /** The same behind a first byte. */
  lemma CutBehind(first: byte, line: Bytes, body: Bytes, p: Bytes)
    requires LF !in line && p != [] && p <= [first] + line + CRLF + body
    ensures p[0] == first
    ensures ReadLine(p[1..]) == Err(Eof)
            || exists tail :: tail <= body && p == [first] + line + CRLF + tail && ReadLine(p[1..]) == Ok(line, tail)
  {
    hide *;
    assert [first] + line + CRLF + body == [first] + (line + CRLF + body);
    var q := p[1..];
    assert p == [first] + q;
    CutLine(line, body, q);
    if ReadLine(q) != Err(Eof) {
      var tail :| tail <= body && q == line + CRLF + tail && ReadLine(q) == Ok(line, tail);
      assert [first] + (line + CRLF + tail) == [first] + line + CRLF + tail;
    }
  }

  lemma BulkShort(item: Option<Bytes>, p: Bytes)
    requires |Text(item)| + 2 <= MAX_INT && p <= Bulk(item) && p != Bulk(item)
    ensures RunsShort(ReadItem(p))
  {
    if p != [] {
      var line := Itoa(Length(item));
      AtoiItoa(Length(item));
      CutBehind(DOLLAR, line, Body(item), p);
      hide Itoa, Atoi, ReadLine, ReadBody, Body;
      if ReadLine(p[1..]) != Err(Eof) {
        var tail :| tail <= Body(item) && p == [DOLLAR] + line + CRLF + tail && ReadLine(p[1..]) == Ok(line, tail);
        BodyShort(item, tail);
      }
    }
  }

  lemma {:induction false} BulksRead(items: seq<Option<Bytes>>, rest: Bytes)
    requires Sized(items)
    ensures ReadItems(Bulks(items) + rest, |items|) == Ok(Texts(items), rest)
  {
    hide ReadItem, Bulk;
    if items == [] {
      assert Bulks(items) + rest == rest;
    } else {
      var others := Bulks(items[1..]) + rest;
      assert Bulks(items) + rest == Bulk(items[0]) + others;
      BulkReads(items[0], others);
      BulksRead(items[1..], rest);
      assert Texts(items) == [Text(items[0])] + Texts(items[1..]);
    }
  }

  lemma {:induction false} BulksShort(items: seq<Option<Bytes>>, p: Bytes)
    requires Sized(items) && p <= Bulks(items) && p != Bulks(items)
    ensures RunsShort(ReadItems(p, |items|))
  {
    hide ReadItem, Bulk;
    var first, others := Bulk(items[0]), Bulks(items[1..]);
    assert Bulks(items) == first + others;
    if |p| < |first| {
      assert p == (first + others)[..|p|] == first[..|p|];
      BulkShort(items[0], p);
    } else {
      assert p == first + p[|first|..] by { assert p[..|first|] == first; }
      BulkReads(items[0], p[|first|..]);
      assert p[|first|..] == others[..|p| - |first|];
      BulksShort(items[1..], p[|first|..]);
    }
  }

  // ------------------------------------------------------------------ theorems

  /** A written array reads back as its texts; nil items become empty. */
  lemma ArrayReads(items: seq<Option<Bytes>>, rest: Bytes)
    requires Sized(items)
    ensures ReadArray(Array(items) + rest) == Ok(Texts(items), rest)
  {
    var line := Itoa(|items|);
    AtoiItoa(|items|);
    Behind(STAR, line, Bulks(items), rest);
    LineReads(line, Bulks(items) + rest);
    BulksRead(items, rest);
    hide Itoa, Atoi, ReadLine, Bulks, ReadItems;
  }

  /** No part of a written array reads as an array, or as a protocol error: the reader waits for more. */
  lemma ArrayShort(items: seq<Option<Bytes>>, p: Bytes)
    requires Sized(items) && p <= Array(items) && p != Array(items)
    ensures RunsShort(ReadArray(p))
  {
    if p != [] {
      var line := Itoa(|items|);
      AtoiItoa(|items|);
      CutBehind(STAR, line, Bulks(items), p);
      hide Itoa, Atoi, ReadLine, Bulks, ReadItems;
      if ReadLine(p[1..]) != Err(Eof) {
        var tail :| tail <= Bulks(items) && p == [STAR] + line + CRLF + tail && ReadLine(p[1..]) == Ok(line, tail);
        BulksShort(items, tail);
      }
    }
  }

  predicate SizedCommand(args: seq<Bytes>) {
    Sized(Present(args))
  }

  /** Main result: reading what was written for any commands, with any bytes in their arguments,
      gives those commands, and leaves exactly what came after them. */
  lemma {:induction false} PipelineReads(commands: seq<seq<Bytes>>, rest: Bytes)
    requires forall i :: 0 <= i < |commands| ==> SizedCommand(commands[i])
    ensures ReadPipeline(Pipeline(commands) + rest, |commands|) == Ok(commands, rest)
  {
    hide ReadArray, Array, SizedCommand;
    if commands == [] {
      assert Pipeline(commands) + rest == rest;
    } else {
      var others := Pipeline(commands[1..]) + rest;
      assert Pipeline(commands) + rest == Command(commands[0]) + others;
      CommandReads(commands[0], others);
      assert forall i :: 0 <= i < |commands[1..]| ==> commands[1..][i] == commands[i + 1];
      PipelineReads(commands[1..], rest);
      assert commands == [commands[0]] + commands[1..];
    }
  }

  lemma CommandReads(args: seq<Bytes>, rest: Bytes)
    requires SizedCommand(args)
    ensures ReadArray(Command(args) + rest) == Ok(args, rest)
  {
    ArrayReads(Present(args), rest);
    assert Texts(Present(args)) == args;
  }

  lemma CommandShort(args: seq<Bytes>, p: Bytes)
    requires SizedCommand(args) && p <= Command(args) && p != Command(args)
    ensures RunsShort(ReadArray(p))
  {
    ArrayShort(Present(args), p);
  }

  /** A connection cut anywhere gives the commands that came through whole, and then an end of
      input: no command is cut short, made up or reported as malformed. */
  lemma {:induction false} PipelineCut(commands: seq<seq<Bytes>>, p: Bytes)
    requires forall i :: 0 <= i < |commands| ==> SizedCommand(commands[i])
    requires p <= Pipeline(commands) && p != Pipeline(commands)
    ensures exists k :: 0 <= k < |commands| && CutAt(commands, p, k)
  {
    hide ReadArray, Array, SizedCommand;
    var first, others := Command(commands[0]), Pipeline(commands[1..]);
    assert Pipeline(commands) == first + others;
    if |p| < |first| {
      assert p == (first + others)[..|p|] == first[..|p|];
      CommandShort(commands[0], p);
      assert commands[..0] == [];
      assert CutAt(commands, p, 0);
    } else {
      var tail := p[|first|..];
      assert p == first + tail by { assert p[..|first|] == first; }
      CommandReads(commands[0], tail);
      assert tail == others[..|tail|];
      assert forall i :: 0 <= i < |commands[1..]| ==> commands[1..][i] == commands[i + 1];
      PipelineCut(commands[1..], tail);
      var k :| 0 <= k < |commands[1..]| && CutAt(commands[1..], tail, k);
      assert commands[..k + 1] == [commands[0]] + commands[1..][..k];
      assert CutAt(commands, p, k + 1);
    }
  }

  /** The first `k` commands are read from `p`; behind them the next command runs short. */
  predicate CutAt(commands: seq<seq<Bytes>>, p: Bytes, k: nat)
    requires k <= |commands|
  {
    var r := ReadPipeline(p, k);
    r.Ok? && r.value == commands[..k] && RunsShort(ReadArray(r.rest))
  }

  lemma {:induction false} PipelineConcat(a: seq<seq<Bytes>>, b: seq<seq<Bytes>>)
    ensures Pipeline(a + b) == Pipeline(a) + Pipeline(b)
  {
    hide Command;
    if a == [] {
      assert a + b == b;
    } else {
      PipelineConcat(a[1..], b);
      assert (a + b)[0] == a[0] && (a + b)[1..] == a[1..] + b;
    }
  }

  lemma PipelineNotEmpty(commands: seq<seq<Bytes>>)
    requires commands != []
    ensures Pipeline(commands) != []
  {
    assert |Command(commands[0])| > 0;
  }

  /** Streams of equally many commands that go on somehow. */
  lemma PipelinesAgree(a: seq<seq<Bytes>>, b: seq<seq<Bytes>>, x: Bytes, y: Bytes)
    requires forall i :: 0 <= i < |a| ==> SizedCommand(a[i])
    requires forall i :: 0 <= i < |b| ==> SizedCommand(b[i])
    requires |b| == |a| && Pipeline(a) + x == Pipeline(b) + y
    ensures a == b && x == y
  {
    PipelineReads(a, x);
    PipelineReads(b, y);
    hide ReadPipeline, Pipeline, SizedCommand;
  }

  /** Where a longer stream of commands begins like another one, it begins with its commands. */
  lemma PipelineBegins(first: seq<seq<Bytes>>, others: seq<seq<Bytes>>, b: seq<seq<Bytes>>, x: Bytes, y: Bytes)
    requires forall i :: 0 <= i < |first| ==> SizedCommand(first[i])
    requires forall i :: 0 <= i < |b| ==> SizedCommand(b[i])
    requires |b| == |first| && Pipeline(first + others) + x == Pipeline(b) + y
    ensures first == b && Pipeline(others) + x == y
  {
    PipelineConcat(first, others);
    var p, q := Pipeline(first), Pipeline(others);
    hide *;
    assert (p + q) + x == p + (q + x);
    PipelinesAgree(first, b, q + x, y);
  }

  lemma PipelinePrefix(a: seq<seq<Bytes>>, b: seq<seq<Bytes>>)
    requires forall i :: 0 <= i < |a| ==> SizedCommand(a[i])
    requires forall i :: 0 <= i < |b| ==> SizedCommand(b[i])
    ensures Pipeline(a) <= Pipeline(b) <==> a <= b
  {
    hide Pipeline, SizedCommand;
    if a <= b {
      PipelineConcat(a, b[|a|..]);
      assert b == a + b[|a|..];
    } else if Pipeline(a) <= Pipeline(b) {
      var x := Pipeline(b)[|Pipeline(a)|..];
      assert Pipeline(b) + [] == Pipeline(b) == Pipeline(a) + x;
      var n := |a|;
      if |b| < n { n := |b|; }
      assert a == a[..n] + a[n..] && b == b[..n] + b[n..];
      if |a| <= |b| {
        PipelineBegins(b[..n], b[n..], a, [], x);
      } else {
        PipelineBegins(a[..n], a[n..], b, x, []);
        PipelineNotEmpty(a[n..]);
      }
    }
  }

  /** One stream of commands begins like another exactly when its commands begin with the other's; so
      two different streams, of however many commands, never look the same. */
  lemma PipelineDecidable(a: seq<seq<Bytes>>, b: seq<seq<Bytes>>)
    requires forall i :: 0 <= i < |a| ==> SizedCommand(a[i])
    requires forall i :: 0 <= i < |b| ==> SizedCommand(b[i])
    ensures Pipeline(a) <= Pipeline(b) <==> a <= b
    ensures Pipeline(a) == Pipeline(b) <==> a == b
  {
    PipelinePrefix(a, b);
    PipelinePrefix(b, a);
    hide *;
  }

  // ------------------------------------------------------- the requesting side

  lemma TrimNumber(n: int)
    requires -MAX_INT - 1 <= n <= MAX_INT
    ensures TrimBlanks(Itoa(n) + CRLF) == Itoa(n)
  {
    var s := Itoa(n);
    assert !IsBlank(s[0]) && !IsBlank(s[|s| - 1]);
    TrimLine(s);
  }

  lemma TrimLine(s: Bytes)
    requires s != [] && !IsBlank(s[0]) && !IsBlank(s[|s| - 1])
    ensures TrimBlanks(s + CRLF) == s
  {
    assert (s + CRLF)[..|s| + 1] == s + [CR] && (s + [CR])[..|s|] == s;
    assert TrimBlanks(s + [CR]) == TrimBlanks(s);
  }

  /** The requesting side reads a bulk string the server wrote; nil is an error there. */
  lemma ReplyReads(item: Option<Bytes>, rest: Bytes)
    requires |Text(item)| + 2 <= MAX_INT
    ensures ReadBulk(Bulk(item) + rest) == if item.None? then Err(Nil) else Ok(item.value, rest)
  {
    var line := Itoa(Length(item));
    AtoiItoa(Length(item));
    TrimNumber(Length(item));
    Behind(DOLLAR, line, Body(item), rest);
    LineReads(line, Body(item) + rest);
    BodyReads(item, rest);
    hide Itoa, Atoi, ReadString, TrimBlanks, Body;
  }

  /** Elements sent as a simple string or an integer read as their text. */
  lemma LineItemReads(kind: byte, s: Bytes, rest: Bytes)
    requires (kind == PLUS || kind == COLON) && LF !in s
    ensures ReadItem([kind] + s + CRLF + rest) == Ok(s, rest)
  {
    Behind(kind, s, [], rest);
    assert [kind] + s + CRLF + [] + rest == [kind] + s + CRLF + rest;
    assert [] + rest == rest;
    LineReads(s, rest);
    hide ReadLine;
  }

  /** An error the server reports reaches the requesting side with its message. */
  lemma ErrorReads(s: Bytes, rest: Bytes)
    requires s != [] && !IsBlank(s[0]) && !IsBlank(s[|s| - 1]) && LF !in s
    ensures ReadBulk([MINUS] + s + CRLF + rest) == Err(Remote(s))
  {
    Behind(MINUS, s, [], rest);
    assert [MINUS] + s + CRLF + [] + rest == [MINUS] + s + CRLF + rest;
    assert [] + rest == rest;
    LineReads(s, rest);
    TrimLine(s);
    hide ReadString, TrimBlanks;
  }

  /** What was read as a bulk string stood there: the line with its length, the value, a line break, and
      then the rest; a negative length, whatever it is, stands for an empty value. */
  lemma BulkReadIs(b: Bytes)
    requires b != [] && b[0] == DOLLAR && ReadItem(b).Ok?
    ensures var line, item := ReadString(b[1..]), ReadItem(b);
            && line.Ok? && Atoi(ReadLine(b[1..]).value).Some?
            && var length := Atoi(ReadLine(b[1..]).value).value;
            && (length < 0 ==> item.value == [] && b[1..] == line.value + item.rest)
            && (length >= 0 ==> |item.value| == length && b[1..] == line.value + (item.value + CRLF + item.rest))
  {
    LineIs(b[1..]);
    var length := Atoi(ReadLine(b[1..]).value).value;
    hide Atoi, ReadString, ReadLine, ReadBody;
    if length >= 0 { BodyIs(ReadLine(b[1..]).rest, length); } else { NoBody(ReadLine(b[1..]).rest, length); }
  }

  lemma NoBody(b: Bytes, length: int)
    requires length < 0
    ensures ReadBody(b, length) == Ok([], b)
  {
  }

  lemma LineIs(b: Bytes)
    requires ReadLine(b).Ok?
    ensures ReadString(b).Ok? && b == ReadString(b).value + ReadString(b).rest && ReadLine(b).rest == ReadString(b).rest
  {
  }

  lemma BodyIs(b: Bytes, length: nat)
    requires ReadBody(b, length).Ok?
    ensures |ReadBody(b, length).value| == length
    ensures b == ReadBody(b, length).value + CRLF + ReadBody(b, length).rest
  {
    var body := b[..length + 2];
    assert body == body[..length] + body[length..] == body[..length] + CRLF;
    assert b == body + b[length + 2..];
  }

  lemma {:induction false} TrimBlanksKeeps(s: Bytes)
    requires s != [] && !IsBlank(s[0]) && !IsBlank(s[|s| - 1])
    ensures TrimBlanks(s) == s
  {
  }

  /** Digits, with or without a sign, have no blank at either end. */
  lemma NumbersUnblank(s: Bytes)
    requires Atoi(s).Some?
    ensures s != [] && !IsBlank(s[0]) && !IsBlank(s[|s| - 1])
  {
    var signed := s != [] && (s[0] == MINUS || s[0] == PLUS);
    var digits := if signed then s[1..] else s;
    assert AllDigits(digits);
    assert IsDigit(digits[0]) && IsDigit(digits[|digits| - 1]);
    assert s[|s| - 1] == digits[|digits| - 1];
  }

  lemma TrimLineEnd(line: Bytes)
    requires line != [] && line[|line| - 1] == LF && Atoi(TrimSuffix(TrimSuffix(line, LF), CR)).Some?
    ensures TrimBlanks(line) == TrimSuffix(TrimSuffix(line, LF), CR)
  {
    var s := TrimSuffix(TrimSuffix(line, LF), CR);
    NumbersUnblank(s);
    TrimBlanksKeeps(s);
    assert line[0] == s[0];
    var t := line[..|line| - 1];
    assert TrimBlanks(line) == TrimBlanks(t);
    if t[|t| - 1] == CR {
      assert TrimBlanks(t) == TrimBlanks(t[..|t| - 1]);
    }
  }

  /** The two bulk readers agree wherever the server's accepts a bulk string with a length of its own;
      the other one merely accepts more. */
  lemma ReadersAgree(b: Bytes)
    requires b != [] && b[0] == DOLLAR && ReadItem(b).Ok?
    requires Atoi(ReadLine(b[1..]).value).value >= 0
    ensures ReadBulk(b) == ReadItem(b)
  {
    TrimLineEnd(ReadString(b[1..]).value);
    hide Atoi, TrimBlanks, ReadString, TrimSuffix;
  }
}
