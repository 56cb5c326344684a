/** The readers and writers of the protocol as they run: over a connection with a position, and into
    a growing buffer. */
module RespReader {
  import opened Common
  import opened RespCodec

  datatype Outcome<T> = Got(value: T) | Failed(error: Error)

  /** What a reading of the bytes ahead comes to, without the bytes left over. */
  function OutcomeOf<T>(p: Parse<T>): Outcome<T> {
    if p.Ok? then Got(p.value) else Failed(p.error)
  }

  lemma {:induction false} LineEndIs(b: Bytes, n: nat)
    requires n <= |b| && LF !in b[..n] && (n < |b| ==> b[n] == LF)
    ensures LineEnd(b) == if n < |b| then n + 1 else 0
  {
    if n == |b| {
      assert b[..n] == b;
    } else if n > 0 {
      assert b[0] == b[..n][0];
      assert b[1..][..n - 1] == b[..n][1..];
      LineEndIs(b[1..], n - 1);
    }
  }

  /** A line feed found by looking from `pos` on. */
  lemma ReadStringAt(input: Bytes, pos: nat, i: nat)
    requires pos <= i <= |input| && LF !in input[pos..i] && (i < |input| ==> input[i] == LF)
    ensures ReadString(input[pos..]) == if i < |input| then Ok(input[pos..i + 1], input[i + 1..]) else Err(Eof)
  {
    var b, n := input[pos..], i - pos;
    assert b[..n] == input[pos..i];
    LineEndIs(b, n);
    if n < |b| {
      assert b[..n + 1] == input[pos..i + 1] && b[n + 1..] == input[i + 1..];
    }
  }

  /** A buffered reader over the bytes a connection delivers. */
  class Connection {
    const input: Bytes
    var pos: nat

    ghost predicate Valid()
      reads this
    {
      pos <= |input|
    }

    constructor (input: Bytes)
      ensures Valid() && this.input == input && Ahead() == input
    {
      this.input := input;
      pos := 0;
    }

    /** The bytes still to come. */
    ghost function Ahead(): Bytes
      requires Valid()
      reads this
    {
      input[pos..]
    }

    /** The outcome is that of the reading `p`, and what `p` left is ahead now. */
    ghost predicate Has<T>(outcome: Outcome<T>, p: Parse<T>)
      reads this
    {
      Valid() && outcome == OutcomeOf(p) && (p.Ok? ==> Ahead() == p.rest)
    }

    method ReadByte() returns (b: Outcome<byte>)
      requires Valid()
      modifies this
      ensures Valid() && b == (if old(Ahead()) == [] then Failed(Eof) else Got(old(Ahead())[0]))
      ensures b.Got? ==> Ahead() == old(Ahead())[1..]
    {
      if pos >= |input| {
        return Failed(Eof);
      }
      b := Got(input[pos]);
      pos := pos + 1;
    }

    /** `bufio.Reader.ReadString('\n')`. */
    method ReadThroughLineFeed() returns (line: Outcome<Bytes>)
      requires Valid()
      modifies this
      ensures Has(line, ReadString(old(Ahead())))
    {
      hide ReadString;
      var i := pos;
      while i < |input| && input[i] != LF
        invariant pos <= i <= |input| && LF !in input[pos..i]
      {
        assert input[pos..i + 1] == input[pos..i] + [input[i]];
        i := i + 1;
      }
      ReadStringAt(input, pos, i);
      if i >= |input| {
        return Failed(Eof);
      }
      line := Got(input[pos..i + 1]);
      pos := i + 1;
    }

    /** `io.ReadFull` into a new buffer. */
    method ReadBytes(n: int) returns (buf: Outcome<Bytes>)
      requires Valid()
      modifies this
      ensures Has(buf, ReadFull(old(Ahead()), n))
    {
      if n > MAX_INT || n < 0 {
        return Failed(Panic);
      }
      ghost var b := Ahead();
      if pos + n > |input| {
        return Failed(if pos == |input| then Eof else UnexpectedEof);
      }
      buf := Got(input[pos..pos + n]);
      assert buf.value == b[..n] && input[pos + n..] == b[n..];
      pos := pos + n;
    }

    method ReadRESPLine() returns (line: Outcome<Bytes>)
      requires Valid()
      modifies this
      ensures Has(line, ReadLine(old(Ahead())))
    {
      line := ReadThroughLineFeed();
      if line.Got? {
        line := Got(TrimSuffix(TrimSuffix(line.value, LF), CR));
      }
    }

    method ReadRESPBulkString() returns (value: Outcome<Bytes>)
      requires Valid()
      modifies this
      ensures Has(value, ReadBulkString(old(Ahead())))
    {
      hide ReadLine, Atoi;
      var line := ReadRESPLine();
      if line.Failed? {
        return line;
      }
      var length := Atoi(line.value);
      if length.None? {
        return Failed(Protocol);
      }
      if length.value < 0 {
        return Got([]);
      }
      var buf := ReadBytes(length.value + 2);
      if buf.Failed? {
        return buf;
      }
      assert buf.value[length.value..] == [buf.value[length.value], buf.value[length.value + 1]];
      if buf.value[length.value] != CR || buf.value[length.value + 1] != LF {
        return Failed(Protocol);
      }
      value := Got(buf.value[..length.value]);
    }

    method ReadRESPString() returns (value: Outcome<Bytes>)
      requires Valid()
      modifies this
      ensures Has(value, ReadItem(old(Ahead())))
    {
      hide ReadLine, ReadBulkString;
      var prefix := ReadByte();
      if prefix.Failed? {
        return Failed(prefix.error);
      }
      if prefix.value == DOLLAR {
        value := ReadRESPBulkString();
      } else if prefix.value == PLUS || prefix.value == COLON {
        value := ReadRESPLine();
      } else {
        value := Failed(Protocol);
      }
    }

    method ReadRESPArray() returns (args: Outcome<seq<Bytes>>)
      requires Valid()
      modifies this
      ensures Has(args, ReadArray(old(Ahead())))
    {
      hide ReadLine, ReadItem, Atoi, ReadItems;
      var prefix := ReadByte();
      if prefix.Failed? {
        return Failed(prefix.error);
      }
      if prefix.value != STAR {
        return Failed(Protocol);
      }
      var line := ReadRESPLine();
      if line.Failed? {
        return Failed(line.error);
      }
      var count := Atoi(line.value);
      if count.None? || count.value < 0 {
        return Failed(Protocol);
      }
      ghost var whole := ReadItems(Ahead(), count.value);
      var items: seq<Bytes> := [];
      NothingBefore(whole);
      var i := 0;
      while i < count.value
        invariant Valid() && 0 <= i <= count.value
        invariant whole == After(items, ReadItems(Ahead(), count.value - i))
      {
        ghost var b := Ahead();
        ReadItemsNext(items, b, count.value - i);
        var item := ReadRESPString();
        if item.Failed? {
          return Failed(item.error);
        }
        items := items + [item.value];
        i := i + 1;
      }
      NothingMore(items, Ahead());
      args := Got(items);
    }

    /** `readRESPBulk`. */
    method ReadReply() returns (payload: Outcome<Bytes>)
      requires Valid()
      modifies this
      ensures Has(payload, ReadBulk(old(Ahead())))
    {
      hide ReadString, Atoi, TrimBlanks;
      var prefix := ReadByte();
      if prefix.Failed? {
        return Failed(prefix.error);
      }
      if prefix.value != DOLLAR && prefix.value != MINUS {
        return Failed(Protocol);
      }
      var line := ReadThroughLineFeed();
      if line.Failed? {
        return line;
      }
      if prefix.value == MINUS {
        return Failed(Remote(TrimBlanks(line.value)));
      }
      var size := Atoi(TrimBlanks(line.value));
      if size.None? {
        return Failed(Protocol);
      }
      if size.value < 0 {
        return Failed(Nil);
      }
      payload := ReadBytes(size.value + 2);
      if payload.Got? {
        payload := Got(payload.value[..size.value]);
      }
    }
  }

  /** Items read before a reading. */
  function After(items: seq<Bytes>, p: Parse<seq<Bytes>>): Parse<seq<Bytes>> {
    if p.Ok? then Ok(items + p.value, p.rest) else p
  }

  lemma NothingBefore(p: Parse<seq<Bytes>>)
    ensures After([], p) == p
  {
    if p.Ok? {
      assert [] + p.value == p.value;
    }
  }

  lemma NothingMore(items: seq<Bytes>, b: Bytes)
    ensures After(items, ReadItems(b, 0)) == Ok(items, b)
  {
    assert items + [] == items;
  }

  lemma ReadItemsNext(items: seq<Bytes>, b: Bytes, n: nat)
    requires n > 0
    ensures var first := ReadItem(b);
            After(items, ReadItems(b, n)) ==
            if first.Err? then Err(first.error) else After(items + [first.value], ReadItems(first.rest, n - 1))
  {
    hide ReadItem;
    var first := ReadItem(b);
    if first.Ok? {
      var others := ReadItems(first.rest, n - 1);
      if others.Ok? {
        assert items + ([first.value] + others.value) == items + [first.value] + others.value;
      }
    }
  }

  // ------------------------------------------------------------------- writers

  lemma {:induction false} BulksSnoc(items: seq<Option<Bytes>>, item: Option<Bytes>)
    ensures Bulks(items + [item]) == Bulks(items) + Bulk(item)
  {
    hide Bulk;
    if items == [] {
      assert items + [item] == [item];
    } else {
      BulksSnoc(items[1..], item);
      assert (items + [item])[1..] == items[1..] + [item];
    }
  }

  /** `encodeRESPArray`. */
  method EncodeRESPArray(args: seq<Bytes>) returns (buf: Bytes)
    ensures buf == Command(args)
  {
    hide Itoa, Bulk;
    buf := [STAR] + Itoa(|args|) + CRLF;
    ghost var head, items := buf, Present(args);
    for i := 0 to |args|
      invariant buf == head + Bulks(items[..i])
    {
      BulksSnoc(items[..i], items[i]);
      assert items[..i + 1] == items[..i] + [items[i]];
      buf := WriteArg(buf, args[i]);
    }
    assert items[..|args|] == items;
  }

  method WriteArg(before: Bytes, arg: Bytes) returns (buf: Bytes)
    ensures buf == before + Bulk(Some(arg))
  {
    hide Itoa;
    buf := before + [DOLLAR];
    buf := buf + Itoa(|arg|);
    buf := buf + CRLF;
    buf := buf + arg;
    buf := buf + CRLF;
    assert buf == before + ([DOLLAR] + Itoa(|arg|) + CRLF + (arg + CRLF));
  }

  /** A buffered writer: what was written to it. */
  class Writer {
    var written: Bytes

    constructor ()
      ensures written == []
    {
      written := [];
    }

    method WriteString(s: Bytes)
      modifies this
      ensures written == old(written) + s
    {
      written := written + s;
    }

    method WriteRedisBulkString(payload: Option<Bytes>)
      modifies this
      ensures written == old(written) + Bulk(payload)
    {
      hide Itoa;
      if payload.None? {
        WriteString([DOLLAR] + Itoa(-1) + CRLF);
        assert Bulk(payload) == [DOLLAR] + Itoa(-1) + CRLF;
        return;
      }
      WriteString([DOLLAR] + Itoa(|payload.value|) + CRLF);
      WriteString(payload.value);
      WriteString(CRLF);
      assert Bulk(payload) == [DOLLAR] + Itoa(|payload.value|) + CRLF + (payload.value + CRLF);
    }

    method WriteRedisArrayOfBulkStrings(items: seq<Option<Bytes>>)
      modifies this
      ensures written == old(written) + Array(items)
    {
      hide Itoa, Bulk;
      WriteString([STAR] + Itoa(|items|) + CRLF);
      ghost var head := written;
      for i := 0 to |items|
        invariant written == head + Bulks(items[..i])
      {
        BulksSnoc(items[..i], items[i]);
        assert items[..i + 1] == items[..i] + [items[i]];
        WriteRedisBulkString(items[i]);
      }
      assert items[..|items|] == items;
    }
  }
}
