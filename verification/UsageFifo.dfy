/** The backlog of usage records as an expiring first-in first-out queue, and the head-indexed buffer
    that implements it. */
module UsageFifo {
  import opened Common

  /** Clock readings in nanoseconds. */
  type Time = int
  type Payload = seq<int>

  datatype Item = Item(at: Time, payload: Payload)

  const SECOND: Time := 1_000_000_000
  const DEFAULT_RETENTION := 60
  const MAX_RETENTION := 3600
  const COMPACT_AT := 1024

  /** `SetRetentionSeconds`: the window that is stored. */
  function Retention(value: int): (r: int)
    ensures 0 < r <= 3600
    ensures value > 0 ==> r == Min(value, 3600)
    ensures value <= 0 ==> r == 60
  {
    if value <= 0 then DEFAULT_RETENTION else if value > MAX_RETENTION then MAX_RETENTION else value
  }

  /** Items stamped before this are expired. */
  function Cutoff(now: Time, retention: int): Time {
    now - (if retention <= 0 then DEFAULT_RETENTION else retention) * SECOND
  }

  /** A record has expired when more time has passed, in nanoseconds, than the window has seconds: the one
      asked for, at most an hour, or a minute if none was. */
  lemma ExpiredAfterWindow(at: Time, now: Time, value: int)
    ensures at < Cutoff(now, Retention(value)) <==>
              now - at > (if value <= 0 then 60 else if value > 3600 then 3600 else value) * 1_000_000_000
    ensures value <= 0 ==> Cutoff(now, value) == Cutoff(now, 60)
  {
  }

  // ---------------------------------------------------------- the simple queue

  /** Everything enqueued since the last clearing, and how much of it is gone. */
  datatype Fifo = Fifo(history: seq<Item>, gone: nat)

  predicate Ordered(items: seq<Item>) {
    forall i, j :: 0 <= i < j < |items| ==> items[i].at <= items[j].at
  }

  /** An expired item lies behind one that is not. */
  predicate ExpiredBehind(items: seq<Item>, cutoff: Time) {
    exists i, j :: 0 <= i < j < |items| && items[i].at >= cutoff && items[j].at < cutoff
  }

  lemma OrderedIsEnough(items: seq<Item>, cutoff: Time)
    requires Ordered(items)
    ensures !ExpiredBehind(items, cutoff)
  {
  }

  /** The items still in the queue. */
  function Live(q: Fifo): seq<Item>
    requires q.gone <= |q.history|
  {
    q.history[q.gone..]
  }

  /** The items not older than the cutoff. */
  function Unexpired(items: seq<Item>, cutoff: Time): seq<Item> {
    if items == [] then []
    else Unexpired(items[..|items| - 1], cutoff) + if items[|items| - 1].at < cutoff then [] else [items[|items| - 1]]
  }

  function Payloads(items: seq<Item>): (r: seq<Payload>)
    ensures |r| == |items|
  {
    seq(|items|, i requires 0 <= i < |items| => items[i].payload)
  }

  lemma NoPayloads(items: seq<Item>)
    requires items == []
    ensures Payloads(items) == []
  {
  }

  /** Dropping expired items from the front. */
  function FirstFresh(items: seq<Item>, from: nat, cutoff: Time): (i: nat)
    requires from <= |items|
    ensures from <= i <= |items|
    ensures forall j :: from <= j < i ==> items[j].at < cutoff
    ensures i < |items| ==> items[i].at >= cutoff
    decreases |items| - from
  {
    if from < |items| && items[from].at < cutoff then FirstFresh(items, from + 1, cutoff) else from
  }

  function Pruned(q: Fifo, cutoff: Time): Fifo
    requires q.gone <= |q.history|
  {
    q.(gone := FirstFresh(q.history, q.gone, cutoff))
  }

  lemma {:induction false} UnexpiredAll(items: seq<Item>, cutoff: Time)
    requires forall i :: 0 <= i < |items| ==> items[i].at >= cutoff
    ensures Unexpired(items, cutoff) == items
  {
    if items != [] { UnexpiredAll(items[..|items| - 1], cutoff); }
  }

  lemma {:induction false} UnexpiredNone(items: seq<Item>, cutoff: Time)
    requires forall i :: 0 <= i < |items| ==> items[i].at < cutoff
    ensures Unexpired(items, cutoff) == []
  {
    if items != [] { UnexpiredNone(items[..|items| - 1], cutoff); }
  }

  lemma {:induction false} UnexpiredConcat(a: seq<Item>, b: seq<Item>, cutoff: Time)
    ensures Unexpired(a + b, cutoff) == Unexpired(a, cutoff) + Unexpired(b, cutoff)
    decreases |b|
  {
    if b == [] {
      assert a + b == a;
    } else {
      UnexpiredConcat(a, b[..|b| - 1], cutoff);
      assert (a + b)[..|a + b| - 1] == a + b[..|b| - 1];
    }
  }

  lemma {:induction false} UnexpiredMember(items: seq<Item>, x: Item, cutoff: Time)
    requires x in Unexpired(items, cutoff)
    ensures x.at >= cutoff
  {
    if items != [] && x in Unexpired(items[..|items| - 1], cutoff) {
      UnexpiredMember(items[..|items| - 1], x, cutoff);
    }
  }

  /** Dropping from the front drops exactly the expired items, exactly when no expired item lies behind
      one that is not. */
  lemma PrunedIsFilter(q: Fifo, cutoff: Time)
    requires q.gone <= |q.history|
    ensures Live(Pruned(q, cutoff)) == Unexpired(Live(q), cutoff) <==> !ExpiredBehind(Live(q), cutoff)
  {
    var i := Pruned(q, cutoff).gone;
    var expired, recent := q.history[q.gone..i], q.history[i..];
    assert Live(q) == expired + recent;
    UnexpiredConcat(expired, recent, cutoff);
    UnexpiredNone(expired, cutoff);
    if ExpiredBehind(Live(q), cutoff) {
      var x := LateExpired(q, cutoff);
      if x in Unexpired(recent, cutoff) { UnexpiredMember(recent, x, cutoff); }
    } else {
      forall j | 0 <= j < |recent| ensures recent[j].at >= cutoff {
        var d := |expired|;
        assert recent[j] == Live(q)[d + j] && recent[0] == Live(q)[d];
      }
      UnexpiredAll(recent, cutoff);
    }
  }

  /** An expired item behind one that is not stays in the queue. */
  lemma LateExpired(q: Fifo, cutoff: Time) returns (x: Item)
    requires q.gone <= |q.history| && ExpiredBehind(Live(q), cutoff)
    ensures x.at < cutoff && x in Live(Pruned(q, cutoff))
  {
    var i, j :| 0 <= i < j < |Live(q)| && Live(q)[i].at >= cutoff && Live(q)[j].at < cutoff;
    var front := Pruned(q, cutoff).gone;
    assert front <= q.gone + i by { assert Live(q)[i] == q.history[q.gone + i]; }
    x := Live(q)[j];
    assert x == q.history[front..][q.gone + j - front];
  }

  lemma JoinLive(q: Fifo, x: Item)
    requires q.gone <= |q.history|
    ensures Live(q.(history := q.history + [x])) == Live(q) + [x]
  {
  }

  lemma PopLive(q: Fifo, n: nat)
    requires q.gone + n <= |q.history|
    ensures Live(q.(gone := q.gone + n)) == Live(q)[n..]
    ensures q.history[q.gone..q.gone + n] == Live(q)[..n]
  {
  }

  /** The queue after the oldest `count` items left, and what they carried. */
  function Popped(q: Fifo, count: nat, cutoff: Time): (Fifo, seq<Payload>)
    requires q.gone <= |q.history|
  {
    var p := Pruned(q, cutoff);
    var n := Min(count, |Live(p)|);
    (p.(gone := p.gone + n), Payloads(Live(p)[..n]))
  }

  /** Popping hands out the next items in the order they came, each at most once; it skips the expired
      ones at the front and no others, and falls short of `count` only when nothing is left. */
  lemma PoppedIs(q: Fifo, count: nat, cutoff: Time)
    requires q.gone <= |q.history|
    ensures var (p, out) := Popped(q, count, cutoff);
            var n := |out|;
            && p.history == q.history && q.gone + n <= p.gone <= |p.history| && n <= count
            && out == Payloads(p.history[p.gone - n..p.gone])
            && (forall i :: q.gone <= i < p.gone - n ==> p.history[i].at < cutoff)
            && (p.gone - n < |p.history| ==> p.history[p.gone - n].at >= cutoff)
            && (n < count ==> p.gone == |p.history|)
  {
    var p := Pruned(q, cutoff);
    var n := Min(count, |Live(p)|);
    PopLive(p, n);
    assert |Live(p)| == |p.history| - p.gone;
    hide Pruned, Live;
  }

  /** Where no expired item lies behind one that is not, popping hands out the oldest unexpired ones. */
  lemma PoppedFilters(q: Fifo, count: nat, cutoff: Time)
    requires q.gone <= |q.history| && !ExpiredBehind(Live(q), cutoff)
    ensures var (p, out), alive := Popped(q, count, cutoff), Unexpired(Live(q), cutoff);
            var n := Min(count, |alive|);
            p.gone <= |p.history| && out == Payloads(alive[..n]) && Live(p) == alive[n..]
  {
    PrunedIsFilter(q, cutoff);
    var p := Pruned(q, cutoff);
    PopLive(p, Min(count, |Live(p)|));
    hide Unexpired, ExpiredBehind, Pruned, Live;
  }

  // --------------------------------------------------------------------- runs

  datatype Op =
    | Enq(payload: Payload, now: Time, retention: int)
    | Pop(count: nat, now: Time, retention: int)

  function Enqueued(q: Fifo, payload: Payload, now: Time, cutoff: Time): Fifo
    requires q.gone <= |q.history|
  {
    var p := Pruned(q, cutoff);
    p.(history := p.history + [Item(now, payload)])
  }

  function Step(q: Fifo, op: Op): Fifo
    requires q.gone <= |q.history|
  {
    if op.Enq? then Enqueued(q, op.payload, op.now, Cutoff(op.now, op.retention))
    else Popped(q, op.count, Cutoff(op.now, op.retention)).0
  }

  /** The positions in the history that an operation hands out. */
  function HandedOut(q: Fifo, op: Op): (r: seq<nat>)
    requires q.gone <= |q.history|
  {
    if op.Enq? then []
    else
      var to := Step(q, op).gone;
      var n := |Popped(q, op.count, Cutoff(op.now, op.retention)).1|;
      seq(n, i requires 0 <= i < n => if to - n + i >= 0 then to - n + i else 0)
  }

  predicate ClockForward(clock: Time, ops: seq<Op>)
    decreases |ops|
  {
    ops == [] || (clock <= ops[0].now && ClockForward(ops[0].now, ops[1..]))
  }

  function After(q: Fifo, ops: seq<Op>): (r: Fifo)
    requires q.gone <= |q.history|
    ensures r.gone <= |r.history|
    decreases |ops|
  {
    if ops == [] then q else After(Step(q, ops[0]), ops[1..])
  }

  /** All positions handed out in a run, in the order of handing out. */
  function AllHandedOut(q: Fifo, ops: seq<Op>): seq<nat>
    requires q.gone <= |q.history|
    decreases |ops|
  {
    if ops == [] then [] else HandedOut(q, ops[0]) + AllHandedOut(Step(q, ops[0]), ops[1..])
  }

  predicate Increasing(xs: seq<nat>) {
    forall i, j :: 0 <= i < j < |xs| ==> xs[i] < xs[j]
  }

  /** One operation: it hands out a run of positions at or behind the front, and every position it
      passes without handing it out had expired by then. */
  lemma StepHandsOut(q: Fifo, op: Op)
    requires q.gone <= |q.history|
    ensures var q', out := Step(q, op), HandedOut(q, op);
            && q.gone <= q'.gone <= |q'.history| && q.history <= q'.history && Increasing(out)
            && (forall i :: 0 <= i < |out| ==> q.gone <= out[i] < q'.gone)
            && (forall i :: q.gone <= i < q'.gone && i !in out ==> q'.history[i].at < Cutoff(op.now, op.retention))
  {
    var cutoff := Cutoff(op.now, op.retention);
    if op.Pop? {
      PoppedIs(q, op.count, cutoff);
      var q', out := Step(q, op), HandedOut(q, op);
      hide Pruned, Unexpired, ExpiredBehind;
      var n := |out|;
      forall i | q.gone <= i < q'.gone ensures i in out || q'.history[i].at < cutoff {
        if i >= q'.gone - n { assert out[i - (q'.gone - n)] == i; }
      }
    }
  }

  lemma {:induction false} HistoryGrows(q: Fifo, ops: seq<Op>)
    requires q.gone <= |q.history|
    ensures q.history <= After(q, ops).history && q.gone <= After(q, ops).gone
    decreases |ops|
  {
    hide Step;
    if ops != [] {
      StepHandsOut(q, ops[0]);
      HistoryGrows(Step(q, ops[0]), ops[1..]);
    }
  }

  /** Main result: over any run, whatever the clock does, records are handed out in the order they
      came, none twice; and one that was passed over had expired, by some operation's cutoff, before
      anything newer was handed out. */
  lemma {:induction false} FirstInFirstOut(q: Fifo, ops: seq<Op>)
    requires q.gone <= |q.history|
    ensures var q', out := After(q, ops), AllHandedOut(q, ops);
            && Increasing(out)
            && (forall i :: 0 <= i < |out| ==> q.gone <= out[i] < q'.gone)
            && (forall i :: q.gone <= i < q'.gone && i !in out ==> ExpiredIn(q'.history[i], ops))
    decreases |ops|
  {
    hide Step, HandedOut;
    if ops != [] {
      StepHandsOut(q, ops[0]);
      var q1, first := Step(q, ops[0]), HandedOut(q, ops[0]);
      FirstInFirstOut(q1, ops[1..]);
      HistoryGrows(q1, ops[1..]);
      var q', rest := After(q1, ops[1..]), AllHandedOut(q1, ops[1..]);
      forall i | q.gone <= i < q'.gone && i !in first + rest ensures ExpiredIn(q'.history[i], ops) {
        assert i !in first && i !in rest;
        if i < q1.gone {
          assert q'.history[i] == q1.history[i];
          assert ExpiredBy(q'.history[i], ops[0]);
        } else {
          var k :| 0 <= k < |ops[1..]| && ExpiredBy(q'.history[i], ops[1..][k]);
          assert ops[k + 1] == ops[1..][k];
        }
      }
    }
  }

  /** Two enqueueings of which the second read the clock first. */
  function LateStamps(): seq<Op> {
    [Enq([], 10 * SECOND, 60), Enq([], 5 * SECOND, 60)]
  }

  /** After this run the second record outlives its window: at 67 seconds only the first should be left,
      and pruning drops neither. */
  lemma LateStampExample()
    ensures var q, cutoff := After(Fifo([], 0), LateStamps()), Cutoff(67 * SECOND, 60);
            && Live(q) == Live(Pruned(q, cutoff)) == [Item(10 * SECOND, []), Item(5 * SECOND, [])]
            && Unexpired(Live(q), cutoff) == [Item(10 * SECOND, [])]
  {
    var ops, first, second := LateStamps(), Item(10 * SECOND, []), Item(5 * SECOND, []);
    var q1 := Step(Fifo([], 0), ops[0]);
    assert q1 == Fifo([first], 0);
    var q2 := Step(q1, ops[1]);
    assert q2 == Fifo([first, second], 0);
    assert ops[1..] == [ops[1]] && ops[1..][1..] == [];
    assert After(q1, ops[1..]) == After(q2, []) == q2;
    LateFilter(first, second, Cutoff(67 * SECOND, 60));
  }

  lemma LateFilter(first: Item, second: Item, cutoff: Time)
    requires second.at < cutoff <= first.at
    ensures Unexpired([first, second], cutoff) == [first]
  {
    var items := [first, second];
    assert items[..1] == [first] && items[..1][..0] == [];
    assert Unexpired(items[..1], cutoff) == Unexpired([], cutoff) + [first];
  }

  /** Stamps in order, none later than the clock. */
  predicate Stamped(items: seq<Item>, clock: Time) {
    Ordered(items) && forall i :: 0 <= i < |items| ==> items[i].at <= clock
  }

  lemma StampedLater(items: seq<Item>, clock: Time, now: Time, payload: Payload)
    requires Stamped(items, clock) && clock <= now
    ensures Stamped(items, now) && Stamped(items + [Item(now, payload)], now)
  {
  }

  lemma OrderedLive(q: Fifo)
    requires q.gone <= |q.history| && Ordered(q.history)
    ensures Ordered(Live(q))
  {
    forall i, j | 0 <= i < j < |Live(q)| ensures Live(q)[i].at <= Live(q)[j].at {
      assert Live(q)[i] == q.history[q.gone + i] && Live(q)[j] == q.history[q.gone + j];
    }
  }

  /** While the clock does not go back the stamps stay in order, so that pruning is filtering at every
      cutoff. */
  lemma {:induction false} ForwardRunFilters(q: Fifo, clock: Time, ops: seq<Op>, cutoff: Time)
    requires q.gone <= |q.history| && Stamped(q.history, clock) && ClockForward(clock, ops)
    ensures Ordered(After(q, ops).history)
    ensures Live(Pruned(After(q, ops), cutoff)) == Unexpired(Live(After(q, ops)), cutoff)
    decreases |ops|
  {
    hide Ordered;
    if ops != [] {
      StampedLater(q.history, clock, ops[0].now, if ops[0].Enq? then ops[0].payload else []);
      hide Stamped, Unexpired;
      ForwardRunFilters(Step(q, ops[0]), ops[0].now, ops[1..], cutoff);
    } else {
      OrderedLive(q);
      OrderedIsEnough(Live(q), cutoff);
      PrunedIsFilter(q, cutoff);
    }
  }

  predicate ExpiredBy(x: Item, op: Op) {
    x.at < Cutoff(op.now, op.retention)
  }

  predicate ExpiredIn(x: Item, ops: seq<Op>) {
    exists k :: 0 <= k < |ops| && ExpiredBy(x, ops[k])
  }

  // --------------------------------------------------------------- the buffer

  class UsageQueue {
    var items: seq<Item>
    var head: nat

    /** What was enqueued since the last clearing, and the part of it that is gone. */
    ghost var fifo: Fifo

    /** The buffer behind `head` is what the queue holds, and little of it is wasted. */
    ghost predicate Valid()
      reads this
    {
      && fifo.gone <= |fifo.history| && head <= |items| && items[head..] == Live(fifo)
      && (head == 0 || (head < COMPACT_AT && head * 2 < |items|))
    }

    constructor ()
      ensures Valid() && fifo == Fifo([], 0)
    {
      items, head, fifo := [], 0, Fifo([], 0);
    }

    /** `pruneLocked`. */
    method PruneLocked(now: Time, retention: int)
      requires fifo.gone <= |fifo.history| && head <= |items| && items[head..] == Live(fifo)
      modifies this`items, this`head, this`fifo
      ensures fifo.gone <= |fifo.history| && head <= |items| && items[head..] == Live(fifo)
      ensures fifo == Pruned(old(fifo), Cutoff(now, retention))
    {
      if head >= |items| {
        items, head := [], 0;
        return;
      }
      var cutoff := Cutoff(now, retention);
      while head < |items| && items[head].at < cutoff
        invariant fifo.gone <= |fifo.history| && head <= |items| && items[head..] == Live(fifo)
        invariant fifo.history == old(fifo).history && Pruned(fifo, cutoff) == Pruned(old(fifo), cutoff)
        decreases |items| - head
      {
        assert items[head] == items[head..][0] == Live(fifo)[0];
        assert items[head + 1..] == items[head..][1..] && Live(fifo)[1..] == fifo.history[fifo.gone + 1..];
        head := head + 1;
        fifo := fifo.(gone := fifo.gone + 1);
      }
      if head < |items| {
        assert items[head] == items[head..][0] == Live(fifo)[0];
      }
    }

    /** `maybeCompactLocked`. */
    method MaybeCompactLocked()
      requires head <= |items|
      modifies this`items, this`head
      ensures head <= |items| && items[head..] == old(items[head..])
      ensures head == 0 || (head < 1024 && head * 2 < |items|)
    {
      if head == 0 {
        return;
      }
      if head >= |items| {
        items, head := [], 0;
        return;
      }
      if head < COMPACT_AT && head * 2 < |items| {
        return;
      }
      items := items[head..];
      head := 0;
    }

    /** `enqueue`: the expired leave from the front, the new item joins at the end. */
    method Enqueue(payload: Payload, now: Time, retention: int)
      requires Valid()
      modifies this
      ensures Valid()
      ensures fifo == Step(old(fifo), Enq(payload, now, retention))
      ensures !ExpiredBehind(Live(old(fifo)), Cutoff(now, retention)) ==>
                Live(fifo) == Unexpired(Live(old(fifo)), Cutoff(now, retention)) + [Item(now, payload)]
    {
      PrunedIsFilter(fifo, Cutoff(now, retention));
      PruneLocked(now, retention);
      JoinLive(fifo, Item(now, payload));
      hide ExpiredBehind, Unexpired, Pruned, Live;
      items := items + [Item(now, payload)];
      assert items[head..] == items[..|items| - 1][head..] + [Item(now, payload)];
      fifo := fifo.(history := fifo.history + [Item(now, payload)]);
      MaybeCompactLocked();
    }

    /** `popOldest`: the expired leave from the front, then the oldest leave and are handed out. */
    method PopOldest(count: nat, now: Time, retention: int) returns (out: seq<Payload>)
      requires Valid() && count > 0
      modifies this
      ensures Valid()
      ensures (fifo, out) == Popped(old(fifo), count, Cutoff(now, retention))
      ensures !ExpiredBehind(Live(old(fifo)), Cutoff(now, retention)) ==>
                var alive := Unexpired(Live(old(fifo)), Cutoff(now, retention));
                var n := Min(count, |alive|);
                out == Payloads(alive[..n]) && Live(fifo) == alive[n..]
    {
      if !ExpiredBehind(Live(fifo), Cutoff(now, retention)) {
        PoppedFilters(fifo, count, Cutoff(now, retention));
      }
      PruneLocked(now, retention);
      hide Unexpired, ExpiredBehind, Pruned;
      out := TakeOldest(count);
    }

    /** The oldest leave the buffer and are handed out. */
    method TakeOldest(count: nat) returns (out: seq<Payload>)
      requires fifo.gone <= |fifo.history| && head <= |items| && items[head..] == Live(fifo)
      modifies this`items, this`head, this`fifo
      ensures Valid()
      ensures var n := Min(count, |Live(old(fifo))|);
              out == Payloads(Live(old(fifo))[..n]) && fifo == old(fifo).(gone := old(fifo).gone + n)
    {
      hide Payloads;
      var available := |items| - head;
      if available <= 0 {
        items, head, out := [], 0, [];
        NoPayloads(Live(fifo)[..0]);
        return;
      }
      var n := if count > available then available else count;
      out := TakePayloads(n);
      PopLive(fifo, n);
      assert items[head + n..] == items[head..][n..];
      head := head + n;
      fifo := fifo.(gone := fifo.gone + n);
      MaybeCompactLocked();
    }

    /** Copies the payloads of the first `n` items behind `head`. */
    method TakePayloads(n: nat) returns (out: seq<Payload>)
      requires head + n <= |items|
      ensures out == Payloads(items[head..][..n])
    {
      out := [];
      for i := 0 to n
        invariant out == Payloads(items[head..][..i])
      {
        out := out + [items[head + i].payload];
      }
    }

    /** The backlog part of `clear`. */
    method Clear()
      requires Valid()
      modifies this
      ensures Valid() && fifo == Fifo([], 0)
    {
      items, head, fifo := [], 0, Fifo([], 0);
    }
  }
}
