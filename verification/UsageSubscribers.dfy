/** Subscribers of usage records: bounded channels, a table of subscriptions, and steps of several
    threads that interleave between taking a subscriber out of the table and closing its channel. */
module UsageSubscribers {
  type Payload = seq<int>
  type Id = nat
  /** Channels are numbered in the order they are made. */
  type Ref = nat

  const BUFFER := 256

  /** What a subscriber can receive: the support notice, or a published payload with the number of
      the publishing call. */
  datatype Message = SupportRefresh | Published(call: nat, payload: Payload)

  /** A channel: what waits in its buffer, what was received from it, whether it is closed, and how
      many publications there had been when its subscriber joined. */
  datatype Chan = Chan(buffer: seq<Message>, received: seq<Message>, closed: bool, joined: nat)

  datatype System = System(
    chans: seq<Chan>,
    unjoined: set<Ref>,            // made, but not yet in the table
    subscribers: map<Id, Ref>,     // the table
    nextId: Id,
    closing: set<Ref>,             // taken out of the table, to be closed by the thread that did so
    log: seq<Message>,             // publications that found a subscriber
    calls: nat,                    // publishing calls so far
    refused: set<nat>,             // calls that found none and still have to enqueue
    backlog: seq<nat>,             // calls whose payload was enqueued and waits
    left: seq<nat>,                // ... and left at the front, popped or expired
    cleared: set<nat>,             // ... and was dropped by a clearing
    missed: set<nat>,              // refreshes that found no subscriber
    panicked: bool)                // a closed channel was sent to or closed

  const START := System([], {}, map[], 0, {}, [], 0, {}, [], [], {}, {}, false)

  // -------------------------------------------------------------------- steps

  /** `subscribeUsage` up to the lock: a channel that already holds the support notice. */
  function NewChannel(s: System): System {
    s.(chans := s.chans + [Chan([SupportRefresh], [], false, 0)], unjoined := s.unjoined + {|s.chans|})
  }

  /** The locked part of `subscribeUsage`. */
  function Join(s: System, ref: Ref): System
    requires ref in s.unjoined && ref < |s.chans|
  {
    s.(unjoined := s.unjoined - {ref}, nextId := s.nextId + 1, subscribers := s.subscribers[s.nextId + 1 := ref],
       chans := s.chans[ref := s.chans[ref].(joined := |s.log|)])
  }

  predicate Subscribed(s: System, ref: Ref) {
    exists id :: id in s.subscribers && s.subscribers[id] == ref
  }

  predicate Full(c: Chan) {
    |c.buffer| >= BUFFER
  }

  /** What a publication does to a subscribed channel: the message is sent, or, where the buffer is
      full, the channel is closed. */
  function Delivered(c: Chan, m: Message): Chan {
    if Full(c) then c.(closed := true) else c.(buffer := c.buffer + [m])
  }

  /** `publishToSubscribers` with a subscriber present. */
  function Publish(s: System, payload: Payload): System
    requires forall id :: id in s.subscribers ==> s.subscribers[id] < |s.chans|
  {
    var m := Published(s.calls, payload);
    s.(calls := s.calls + 1,
       log := s.log + [m],
       chans := seq(|s.chans|, ref requires 0 <= ref < |s.chans| =>
                      if Subscribed(s, ref) then Delivered(s.chans[ref], m) else s.chans[ref]),
       subscribers := map id | id in s.subscribers && !Full(s.chans[s.subscribers[id]]) :: s.subscribers[id],
       panicked := s.panicked || exists id :: id in s.subscribers && s.chans[s.subscribers[id]].closed)
  }

  /** `publishToSubscribers` without one; `Enqueue` then goes on to the backlog, a refresh does not. */
  function PublishNone(s: System, enqueue: bool): System {
    if enqueue then s.(calls := s.calls + 1, refused := s.refused + {s.calls})
    else s.(calls := s.calls + 1, missed := s.missed + {s.calls})
  }

  function EnqueueRefused(s: System, call: nat): System {
    s.(refused := s.refused - {call}, backlog := s.backlog + [call])
  }

  /** Pruning or popping takes records from the front of the backlog. */
  function Shorten(s: System, n: nat): System
    requires n <= |s.backlog|
  {
    s.(left := s.left + s.backlog[..n], backlog := s.backlog[n..])
  }

  /** The locked part of `unsubscribeUsage`. */
  function Leave(s: System, id: Id): System {
    if id !in s.subscribers then s
    else s.(subscribers := s.subscribers - {id}, closing := s.closing + {s.subscribers[id]})
  }

  /** The locked part of `clear`: everybody is taken out; the backlog is dropped. */
  function ClearAll(s: System): System {
    s.(subscribers := map[], closing := s.closing + s.subscribers.Values,
       cleared := s.cleared + (set call | call in s.backlog), backlog := [])
  }

  /** A close after the lock was released. */
  function CloseOne(s: System, ref: Ref): System
    requires ref < |s.chans|
  {
    s.(closing := s.closing - {ref}, panicked := s.panicked || s.chans[ref].closed,
       chans := s.chans[ref := s.chans[ref].(closed := true)])
  }

  /** The subscriber takes a message. */
  function Receive(s: System, ref: Ref): System
    requires ref < |s.chans| && s.chans[ref].buffer != []
  {
    var c := s.chans[ref];
    s.(chans := s.chans[ref := c.(buffer := c.buffer[1..], received := c.received + [c.buffer[0]])])
  }

  datatype Step =
    | MakeChannel
    | JoinTable(ref: Ref)
    | PublishPayload(payload: Payload, enqueue: bool)
    | EnqueuePayload(call: nat)
    | ShortenBacklog(n: nat)
    | LeaveTable(id: Id)
    | ClearTable
    | CloseChannel(ref: Ref)
    | ReceiveMessage(ref: Ref)

  /** Whether a step can be taken; any thread may take any enabled step next. */
  predicate Enabled(s: System, step: Step) {
    match step
    case MakeChannel => true
    case JoinTable(ref) => ref in s.unjoined && ref < |s.chans|
    case PublishPayload(_, _) => forall id :: id in s.subscribers ==> s.subscribers[id] < |s.chans|
    case EnqueuePayload(call) => call in s.refused
    case ShortenBacklog(n) => n <= |s.backlog|
    case LeaveTable(_) => true
    case ClearTable => true
    case CloseChannel(ref) => ref in s.closing && ref < |s.chans|
    case ReceiveMessage(ref) => ref < |s.chans| && s.chans[ref].buffer != []
  }

  function Take(s: System, step: Step): System
    requires Enabled(s, step)
  {
    match step
    case MakeChannel => NewChannel(s)
    case JoinTable(ref) => Join(s, ref)
    case PublishPayload(p, enqueue) => if s.subscribers == map[] then PublishNone(s, enqueue) else Publish(s, p)
    case EnqueuePayload(call) => EnqueueRefused(s, call)
    case ShortenBacklog(n) => Shorten(s, n)
    case LeaveTable(id) => Leave(s, id)
    case ClearTable => ClearAll(s)
    case CloseChannel(ref) => CloseOne(s, ref)
    case ReceiveMessage(ref) => Receive(s, ref)
  }

  // --------------------------------------------------------------- invariants

  /** Everything ever sent into a channel. */
  function Stream(c: Chan): seq<Message> {
    c.received + c.buffer
  }

  /** The stream is the support notice and then an unbroken run of the publications since joining. */
  predicate GapFree(c: Chan, log: seq<Message>) {
    var n := |Stream(c)| - 1;
    n >= 0 && c.joined + n <= |log| && Stream(c) == [SupportRefresh] + log[c.joined..c.joined + n]
  }

  /** ... and nothing is missing yet. */
  predicate UpToDate(c: Chan, log: seq<Message>) {
    GapFree(c, log) && c.joined + |Stream(c)| - 1 == |log|
  }

  /** Each channel is with one owner: not joined, in the table under one number, waiting to be closed,
      or closed. */
  ghost predicate Owned(s: System) {
    && (forall id :: id in s.subscribers ==> 1 <= id <= s.nextId && s.subscribers[id] < |s.chans|)
    && (forall id, id' :: id in s.subscribers && id' in s.subscribers && s.subscribers[id] == s.subscribers[id'] ==> id == id')
    && (forall ref :: ref in s.unjoined || ref in s.closing ==> ref < |s.chans|)
    && s.unjoined !! s.closing
    && (forall id :: id in s.subscribers ==> s.subscribers[id] !in s.unjoined && s.subscribers[id] !in s.closing)
  }

  ghost predicate OpenWhereOwned(s: System) {
    && (forall ref :: (ref in s.unjoined || ref in s.closing) && ref < |s.chans| ==> !s.chans[ref].closed)
    && (forall id :: id in s.subscribers && s.subscribers[id] < |s.chans| ==> !s.chans[s.subscribers[id]].closed)
  }

  ghost predicate Streams(s: System) {
    && (forall ref :: 0 <= ref < |s.chans| ==>
          if ref in s.unjoined then Stream(s.chans[ref]) == [SupportRefresh] else GapFree(s.chans[ref], s.log))
    && (forall id :: id in s.subscribers && s.subscribers[id] < |s.chans| ==> UpToDate(s.chans[s.subscribers[id]], s.log))
    && (forall ref :: 0 <= ref < |s.chans| ==> |s.chans[ref].buffer| <= BUFFER)
  }

  predicate InLog(s: System, call: nat) {
    exists i :: 0 <= i < |s.log| && s.log[i].Published? && s.log[i].call == call
  }

  /** In how many places a call is. */
  function Places(s: System, call: nat): nat {
    (if InLog(s, call) then 1 else 0) + (if call in s.refused then 1 else 0) + (if call in s.backlog then 1 else 0)
    + (if call in s.left then 1 else 0) + (if call in s.cleared then 1 else 0) + (if call in s.missed then 1 else 0)
  }

  predicate NoRepeats(calls: seq<nat>) {
    forall i, j :: 0 <= i < j < |calls| ==> calls[i] != calls[j]
  }

  /** Each call so far is in exactly one place, once. */
  ghost predicate Conserved(s: System) {
    && (forall call: nat :: Places(s, call) == if call < s.calls then 1 else 0)
    && (forall i :: 0 <= i < |s.log| ==> s.log[i].Published?)
    && (forall i, j :: 0 <= i < j < |s.log| ==> s.log[i].call != s.log[j].call)
    && NoRepeats(s.left + s.backlog)
  }

  /** No channel is forgotten: each is still owned by someone, or closed. */
  ghost predicate Accounted(s: System) {
    forall ref :: 0 <= ref < |s.chans| ==> ref in s.unjoined || Subscribed(s, ref) || ref in s.closing || s.chans[ref].closed
  }

  ghost predicate Inv(s: System) {
    Owned(s) && OpenWhereOwned(s) && Streams(s) && Conserved(s) && Accounted(s) && !s.panicked
  }

  // --------------------------------------------------------------------- steps

  lemma StepOwned(s: System, step: Step)
    requires Enabled(s, step) && Owned(s)
    ensures Owned(Take(s, step))
  {
    hide GapFree, UpToDate, Delivered, Full;
    match step
    case MakeChannel =>
    case JoinTable(ref) =>
    case PublishPayload(p, enqueue) => if s.subscribers != map[] { PublishOwned(s, p); }
    case EnqueuePayload(call) =>
    case ShortenBacklog(n) =>
    case LeaveTable(id) =>
    case ClearTable =>
    case CloseChannel(ref) =>
    case ReceiveMessage(ref) =>
  }

  lemma PublishOwned(s: System, p: Payload)
    requires Owned(s)
    ensures Owned(Publish(s, p))
  {
    hide Delivered, Full;
  }

  /** No step sends to a closed channel or closes one: owned channels are open. */
  lemma StepOpen(s: System, step: Step)
    requires Enabled(s, step) && Owned(s) && OpenWhereOwned(s) && !s.panicked
    ensures OpenWhereOwned(Take(s, step)) && !Take(s, step).panicked
  {
    match step
    case MakeChannel =>
    case JoinTable(ref) =>
    case PublishPayload(p, enqueue) => if s.subscribers != map[] { PublishOpen(s, p); }
    case EnqueuePayload(call) =>
    case ShortenBacklog(n) =>
    case LeaveTable(id) =>
    case ClearTable =>
    case CloseChannel(ref) =>
    case ReceiveMessage(ref) =>
  }

  lemma PublishOpen(s: System, p: Payload)
    requires Owned(s) && OpenWhereOwned(s) && !s.panicked
    ensures OpenWhereOwned(Publish(s, p)) && !Publish(s, p).panicked
  {
    var s' := Publish(s, p);
    forall ref | (ref in s'.unjoined || ref in s'.closing) && ref < |s'.chans| ensures !s'.chans[ref].closed {
      assert !Subscribed(s, ref);
    }
    forall id | id in s'.subscribers && s'.subscribers[id] < |s'.chans| ensures !s'.chans[s'.subscribers[id]].closed {
      assert !Full(s.chans[s.subscribers[id]]);
    }
  }

  lemma GapFreeLater(c: Chan, log: seq<Message>, m: Message)
    requires GapFree(c, log)
    ensures GapFree(c, log + [m])
  {
    var n := |Stream(c)| - 1;
    assert (log + [m])[c.joined..c.joined + n] == log[c.joined..c.joined + n];
  }

  lemma DeliveredUpToDate(c: Chan, log: seq<Message>, m: Message)
    requires UpToDate(c, log)
    ensures GapFree(Delivered(c, m), log + [m])
    ensures !Full(c) ==> UpToDate(Delivered(c, m), log + [m])
    ensures |c.buffer| <= BUFFER ==> |Delivered(c, m).buffer| <= BUFFER
  {
    if Full(c) {
      assert Stream(Delivered(c, m)) == Stream(c);
      GapFreeLater(c, log, m);
    } else {
      var n := |Stream(c)| - 1;
      assert Stream(Delivered(c, m)) == Stream(c) + [m];
      assert (log + [m])[c.joined..c.joined + n + 1] == log[c.joined..c.joined + n] + [m];
    }
  }

  lemma PublishStreams(s: System, p: Payload)
    requires Owned(s) && Streams(s)
    ensures Streams(Publish(s, p))
  {
    var s', m := Publish(s, p), Published(s.calls, p);
    hide GapFree, UpToDate, Delivered;
    forall ref | 0 <= ref < |s'.chans|
      ensures if ref in s'.unjoined then Stream(s'.chans[ref]) == [SupportRefresh] else GapFree(s'.chans[ref], s'.log)
      ensures |s'.chans[ref].buffer| <= BUFFER
    {
      if Subscribed(s, ref) {
        DeliveredUpToDate(s.chans[ref], s.log, m);
      } else if ref !in s.unjoined {
        GapFreeLater(s.chans[ref], s.log, m);
      }
    }
    forall id | id in s'.subscribers && s'.subscribers[id] < |s'.chans|
      ensures UpToDate(s'.chans[s'.subscribers[id]], s'.log)
    {
      assert Subscribed(s, s.subscribers[id]);
      DeliveredUpToDate(s.chans[s.subscribers[id]], s.log, m);
    }
  }

  lemma JoinStreams(s: System, ref: Ref)
    requires Enabled(s, JoinTable(ref)) && Owned(s) && Streams(s)
    ensures Streams(Join(s, ref))
  {
    var s' := Join(s, ref);
    assert UpToDate(s'.chans[ref], s.log) by {
      assert Stream(s'.chans[ref]) == Stream(s.chans[ref]) == [SupportRefresh];
      assert s.log[|s.log|..|s.log|] == [];
    }
    hide GapFree, UpToDate, Stream;
    forall id | id in s'.subscribers && s'.subscribers[id] < |s'.chans|
      ensures UpToDate(s'.chans[s'.subscribers[id]], s'.log)
    {
      assert id != s'.nextId ==> s.subscribers[id] != ref;
    }
    assert GapFree(s'.chans[ref], s.log) by { UpToDateIsGapFree(s'.chans[ref], s.log); }
  }

  lemma UpToDateIsGapFree(c: Chan, log: seq<Message>)
    requires UpToDate(c, log)
    ensures GapFree(c, log)
  {
    hide GapFree;
  }

  /** A change to one channel that leaves its stream alone. */
  lemma SameStream(c: Chan, c': Chan, log: seq<Message>)
    requires Stream(c') == Stream(c) && c'.joined == c.joined
    ensures GapFree(c', log) == GapFree(c, log) && UpToDate(c', log) == UpToDate(c, log)
  {
  }

  lemma OneChannel(s: System, ref: Ref, c: Chan)
    requires Streams(s) && ref < |s.chans|
    requires Stream(c) == Stream(s.chans[ref]) && c.joined == s.chans[ref].joined && |c.buffer| <= BUFFER
    ensures Streams(s.(chans := s.chans[ref := c]))
  {
    SameStream(s.chans[ref], c, s.log);
    hide GapFree, UpToDate, Stream;
  }

  lemma StepStreams(s: System, step: Step)
    requires Enabled(s, step) && Owned(s) && Streams(s)
    ensures Streams(Take(s, step))
  {
    hide GapFree, UpToDate;
    match step
    case MakeChannel =>
    case JoinTable(ref) => JoinStreams(s, ref);
    case PublishPayload(p, enqueue) => if s.subscribers != map[] { PublishStreams(s, p); }
    case EnqueuePayload(call) =>
    case ShortenBacklog(n) =>
    case LeaveTable(id) =>
    case ClearTable =>
    case CloseChannel(ref) => OneChannel(s, ref, s.chans[ref].(closed := true));
    case ReceiveMessage(ref) =>
      var c := s.chans[ref];
      OneChannel(s, ref, c.(buffer := c.buffer[1..], received := c.received + [c.buffer[0]]));
  }

  lemma LogGrows(s: System, s': System, m: Message, call: nat)
    requires s'.log == s.log + [m] && m.Published?
    ensures InLog(s', call) <==> InLog(s, call) || call == m.call
  {
    assert s'.log[|s.log|] == m && forall i :: 0 <= i < |s.log| ==> s'.log[i] == s.log[i];
  }

  lemma PublishConserved(s: System, p: Payload)
    requires Enabled(s, PublishPayload(p, true)) && Conserved(s)
    ensures Conserved(Publish(s, p))
  {
    var s', m := Publish(s, p), Published(s.calls, p);
    assert Places(s, s.calls) == 0;
    forall i | 0 <= i < |s.log| ensures s.log[i].call != s.calls {
      assert Places(s, s.log[i].call) > 0;
    }
    forall call: nat ensures Places(s', call) == if call < s'.calls then 1 else 0 {
      LogGrows(s, s', m, call);
      assert Places(s, call) == if call < s.calls then 1 else 0;
    }
  }

  lemma RefusalConserved(s: System, enqueue: bool)
    requires Conserved(s)
    ensures Conserved(PublishNone(s, enqueue))
  {
    var s' := PublishNone(s, enqueue);
    forall call: nat ensures Places(s', call) == if call < s'.calls then 1 else 0 {
      assert InLog(s', call) == InLog(s, call);
      assert Places(s, call) == if call < s.calls then 1 else 0;
    }
  }

  lemma EnqueueConserved(s: System, call: nat)
    requires call in s.refused && Conserved(s)
    ensures Conserved(EnqueueRefused(s, call))
  {
    var s' := EnqueueRefused(s, call);
    assert Places(s, call) <= 1;
    assert call !in s.left + s.backlog;
    assert s'.left + s'.backlog == s.left + s.backlog + [call];
    forall c: nat ensures Places(s', c) == Places(s, c) {
      assert InLog(s', c) == InLog(s, c);
    }
  }

  lemma ShortenConserved(s: System, n: nat)
    requires n <= |s.backlog| && Conserved(s)
    ensures Conserved(Shorten(s, n))
  {
    var s' := Shorten(s, n);
    assert s.backlog == s.backlog[..n] + s.backlog[n..];
    assert s'.left + s'.backlog == s.left + s.backlog;
    forall c: nat ensures Places(s', c) == Places(s, c) {
      assert InLog(s', c) == InLog(s, c);
      OneSide(s'.left, s'.backlog, c);
      OneSide(s.left, s.backlog, c);
      assert c in s'.left + s'.backlog <==> c in s.left + s.backlog;
    }
  }

  lemma OneSide(a: seq<nat>, b: seq<nat>, c: nat)
    requires NoRepeats(a + b)
    ensures !(c in a && c in b)
  {
    if c in a {
      var i :| 0 <= i < |a| && a[i] == c;
      assert (a + b)[i] == c;
      forall j | 0 <= j < |b| ensures b[j] != c {
        assert (a + b)[|a| + j] == b[j];
      }
    }
  }

  lemma ClearConserved(s: System)
    requires Conserved(s)
    ensures Conserved(ClearAll(s))
  {
    var s' := ClearAll(s);
    assert forall i :: 0 <= i < |s.left| ==> (s.left + s.backlog)[i] == s.left[i];
    assert s'.left + s'.backlog == s.left;
    forall c: nat ensures Places(s', c) == Places(s, c) {
      assert InLog(s', c) == InLog(s, c);
      assert Places(s, c) <= 1;
    }
    assert s'.log == s.log && s'.calls == s.calls;
  }

  /** No step loses a call or puts it in two places. */
  lemma StepConserved(s: System, step: Step)
    requires Enabled(s, step) && Conserved(s)
    ensures Conserved(Take(s, step))
  {
    var s' := Take(s, step);
    match step
    case PublishPayload(p, enqueue) =>
      if s.subscribers != map[] { PublishConserved(s, p); } else { RefusalConserved(s, enqueue); }
    case EnqueuePayload(call) => EnqueueConserved(s, call);
    case ShortenBacklog(n) => ShortenConserved(s, n);
    case ClearTable => ClearConserved(s);
    case _ => SamePlaces(s, s');
  }

  lemma SamePlaces(s: System, s': System)
    requires s'.log == s.log && s'.refused == s.refused && s'.backlog == s.backlog && s'.left == s.left
    requires s'.cleared == s.cleared && s'.missed == s.missed && s'.calls == s.calls
    ensures Conserved(s') == Conserved(s)
  {
    forall call: nat ensures Places(s', call) == Places(s, call) {
      assert InLog(s', call) == InLog(s, call);
    }
  }

  /** Who was subscribed and neither dropped nor taken out still is. */
  lemma StillSubscribed(s: System, s': System, ref: Ref)
    requires Subscribed(s, ref) && forall id :: id in s.subscribers && s.subscribers[id] == ref ==> id in s'.subscribers && s'.subscribers[id] == ref
    ensures Subscribed(s', ref)
  {
    var id :| id in s.subscribers && s.subscribers[id] == ref;
    assert id in s'.subscribers && s'.subscribers[id] == ref;
  }

  lemma StepAccounted(s: System, step: Step)
    requires Enabled(s, step) && Owned(s) && Accounted(s)
    ensures Accounted(Take(s, step))
  {
    hide GapFree, UpToDate;
    var s' := Take(s, step);
    match step
    case MakeChannel => forall ref | Subscribed(s, ref) ensures Subscribed(s', ref) { StillSubscribed(s, s', ref); }
    case JoinTable(ref) =>
      assert s'.subscribers[s'.nextId] == ref;
      forall r | Subscribed(s, r) ensures Subscribed(s', r) { StillSubscribed(s, s', r); }
    case PublishPayload(p, enqueue) => if s.subscribers != map[] { PublishAccounted(s, p); }
    case EnqueuePayload(call) =>
    case ShortenBacklog(n) =>
    case LeaveTable(id) =>
      forall ref | Subscribed(s, ref) && ref !in s'.closing ensures Subscribed(s', ref) { StillSubscribed(s, s', ref); }
    case ClearTable =>
    case CloseChannel(ref) =>
    case ReceiveMessage(ref) =>
  }

  lemma PublishAccounted(s: System, p: Payload)
    requires Owned(s) && Accounted(s)
    ensures Accounted(Publish(s, p))
  {
    var s' := Publish(s, p);
    forall ref | 0 <= ref < |s'.chans|
      ensures ref in s'.unjoined || Subscribed(s', ref) || ref in s'.closing || s'.chans[ref].closed
    {
      if Subscribed(s, ref) && !Full(s.chans[ref]) { StillSubscribed(s, s', ref); }
    }
  }

  // ---------------------------------------------------------------------- runs

  lemma StepKeeps(s: System, step: Step)
    requires Enabled(s, step) && Inv(s)
    ensures Inv(Take(s, step))
  {
    hide Owned, OpenWhereOwned, Streams, Conserved, Accounted, Take, Enabled;
    StepOwned(s, step);
    StepOpen(s, step);
    StepStreams(s, step);
    StepConserved(s, step);
    StepAccounted(s, step);
  }

  /** A run of enabled steps, in any interleaving. */
  predicate Runs(s: System, steps: seq<Step>)
    decreases |steps|
  {
    steps == [] || (Enabled(s, steps[0]) && Runs(Take(s, steps[0]), steps[1..]))
  }

  function After(s: System, steps: seq<Step>): System
    requires Runs(s, steps)
    decreases |steps|
  {
    if steps == [] then s else After(Take(s, steps[0]), steps[1..])
  }

  lemma {:induction false} RunKeeps(s: System, steps: seq<Step>)
    requires Runs(s, steps) && Inv(s)
    ensures Inv(After(s, steps))
    decreases |steps|
  {
    hide Inv, Enabled, Take;
    if steps != [] {
      StepKeeps(s, steps[0]);
      RunKeeps(Take(s, steps[0]), steps[1..]);
    }
  }

  /** Main result: in every interleaving, no channel is closed twice or sent to after closing, every
      joined channel's stream is the support notice and an unbroken run of the publications since it
      joined, complete so far while it is in the table, each publishing call is in exactly one place
      (published, on its way to the backlog, in it, out of it at the front, cleared, or a refresh that
      nobody was there for), and no channel is left behind open by everybody. */
  lemma SafeInEveryRun(steps: seq<Step>)
    requires Runs(START, steps)
    ensures var s := After(START, steps);
            && !s.panicked
            && (forall ref :: 0 <= ref < |s.chans| && ref !in s.unjoined ==> GapFree(s.chans[ref], s.log))
            && (forall id :: id in s.subscribers ==> s.subscribers[id] < |s.chans| && UpToDate(s.chans[s.subscribers[id]], s.log))
            && (forall call: nat :: Places(s, call) == if call < s.calls then 1 else 0)
            && (forall ref :: 0 <= ref < |s.chans| ==>
                  ref in s.unjoined || Subscribed(s, ref) || ref in s.closing || s.chans[ref].closed)
  {
    hide GapFree, UpToDate;
    assert Conserved(START) by {
      forall call: nat ensures Places(START, call) == 0 {}
    }
    RunKeeps(START, steps);
  }

  /** In reachable states every step is possible that has something to work on: whoever made a channel can join,
      whoever was refused can enqueue, whoever took a channel out of the table can close it, and what is in a
      buffer can be received; publishing, leaving and clearing always are. */
  lemma StepsPossible(s: System, step: Step)
    requires Inv(s)
    ensures Enabled(s, step) <==>
              match step
              case MakeChannel => true
              case JoinTable(ref) => ref in s.unjoined
              case PublishPayload(_, _) => true
              case EnqueuePayload(call) => call in s.refused
              case ShortenBacklog(n) => n <= |s.backlog|
              case LeaveTable(_) => true
              case ClearTable => true
              case CloseChannel(ref) => ref in s.closing
              case ReceiveMessage(ref) => ref < |s.chans| && s.chans[ref].buffer != []
  {
    assert Owned(s);
    hide OpenWhereOwned, Streams, Conserved, Accounted;
  }

  lemma NumbersNotReused(s: System, id: Id, step: Step)
    requires Enabled(s, step) && id !in s.subscribers && id <= s.nextId
    ensures id !in Take(s, step).subscribers && id <= Take(s, step).nextId
  {
  }

  /** A number once given away never comes back: leaving with an old number does nothing, now or
      after any further steps. */
  lemma {:induction false} StaleLeaveDoesNothing(s: System, id: Id, steps: seq<Step>)
    requires Inv(s) && Runs(s, steps) && id !in s.subscribers && id <= s.nextId
    ensures id !in After(s, steps).subscribers && Leave(After(s, steps), id) == After(s, steps)
    decreases |steps|
  {
    if steps != [] {
      StepKeeps(s, steps[0]);
      NumbersNotReused(s, id, steps[0]);
      hide Inv, Enabled, Take;
      StaleLeaveDoesNothing(Take(s, steps[0]), id, steps[1..]);
    }
  }

  /** A published payload becomes the last message of every subscriber with room; every full one is out
      of the table, its channel closed with what it had. Nobody else's channel changes. */
  lemma PublishReaches(s: System, payload: Payload, enqueue: bool)
    requires Inv(s)
    ensures Enabled(s, PublishPayload(payload, enqueue))
    ensures var s', m := Take(s, PublishPayload(payload, enqueue)), Published(s.calls, payload);
            && |s'.chans| == |s.chans|
            && forall ref :: 0 <= ref < |s.chans| ==>
                 var before, after := s.chans[ref], s'.chans[ref];
                 if !Subscribed(s, ref) then after == before && !Subscribed(s', ref)
                 else if |before.buffer| >= 256 then after.closed && Stream(after) == Stream(before) && !Subscribed(s', ref)
                 else !after.closed && Stream(after) == Stream(before) + [m] && Subscribed(s', ref)
  {
    assert Owned(s) && OpenWhereOwned(s);
    var s', m := Take(s, PublishPayload(payload, enqueue)), Published(s.calls, payload);
    hide Inv, Owned, OpenWhereOwned, Take, Publish, PublishNone;
    if s.subscribers != map[] {
      forall ref | 0 <= ref < |s.chans|
        ensures if !Subscribed(s, ref) then s'.chans[ref] == s.chans[ref] && !Subscribed(s', ref)
                else if Full(s.chans[ref]) then s'.chans[ref].closed && Stream(s'.chans[ref]) == Stream(s.chans[ref]) && !Subscribed(s', ref)
                else !s'.chans[ref].closed && Stream(s'.chans[ref]) == Stream(s.chans[ref]) + [m] && Subscribed(s', ref)
      {
        ReachesOne(s, payload, ref);
      }
    }
  }

  lemma ReachesOne(s: System, payload: Payload, ref: Ref)
    requires Owned(s) && OpenWhereOwned(s) && ref < |s.chans|
    ensures var s', m := Publish(s, payload), Published(s.calls, payload);
            if !Subscribed(s, ref) then s'.chans[ref] == s.chans[ref] && !Subscribed(s', ref)
            else if Full(s.chans[ref]) then s'.chans[ref].closed && Stream(s'.chans[ref]) == Stream(s.chans[ref]) && !Subscribed(s', ref)
            else !s'.chans[ref].closed && Stream(s'.chans[ref]) == Stream(s.chans[ref]) + [m] && Subscribed(s', ref)
  {
    var s', m := Publish(s, payload), Published(s.calls, payload);
    if Subscribed(s, ref) {
      if !Full(s.chans[ref]) {
        StillSubscribed(s, s', ref);
        assert Stream(s'.chans[ref]) == Stream(s.chans[ref]) + [m];
      }
    }
  }

  /** In the backlog, or out of it at the front. */
  predicate Arrived(s: System, call: nat) {
    call in s.backlog || call in s.left
  }

  predicate Kept(s: System, call: nat) {
    InLog(s, call) || call in s.refused || Arrived(s, call)
  }

  lemma StepKept(s: System, call: nat, step: Step)
    requires Enabled(s, step) && step != ClearTable
    ensures Kept(s, call) ==> Kept(Take(s, step), call)
    ensures Arrived(s, call) || step == EnqueuePayload(call) ==> Arrived(Take(s, step), call)
  {
    var s' := Take(s, step);
    if InLog(s, call) {
      var i :| 0 <= i < |s.log| && s.log[i].Published? && s.log[i].call == call;
      assert s'.log[i] == s.log[i];
    }
    if step.ShortenBacklog? { assert s.backlog == s.backlog[..step.n] + s.backlog[step.n..]; }
  }

  lemma {:induction false} RunKept(s: System, call: nat, steps: seq<Step>)
    requires Runs(s, steps) && ClearTable !in steps
    ensures Kept(s, call) ==> Kept(After(s, steps), call)
    ensures Arrived(s, call) || EnqueuePayload(call) in steps ==> Arrived(After(s, steps), call)
    decreases |steps|
  {
    if steps != [] {
      assert steps[0] in steps;
      StepKept(s, call, steps[0]);
      hide Kept, Arrived, Enabled, Take;
      assert steps == [steps[0]] + steps[1..];
      RunKept(Take(s, steps[0]), call, steps[1..]);
    }
  }

  /** Main result on delivery: whatever steps follow an enqueueing call, in every interleaving without a
      clearing, its payload is in exactly one of four places: published, on its way to the backlog, in
      it, or out of it at the front; and it has arrived there once its thread has taken its step. */
  lemma NothingLost(s: System, payload: Payload, steps: seq<Step>)
    requires Inv(s) && Enabled(s, PublishPayload(payload, true))
    requires Runs(Take(s, PublishPayload(payload, true)), steps) && ClearTable !in steps
    ensures var call, s' := s.calls, After(Take(s, PublishPayload(payload, true)), steps);
            && Kept(s', call) && Places(s', call) == 1
            && (EnqueuePayload(call) in steps ==> Arrived(s', call))
  {
    var step := PublishPayload(payload, true);
    var s1 := Take(s, step);
    PublishedOrRefused(s, payload);
    StepKeeps(s, step);
    hide Take, Enabled, Kept, Arrived;
    RunKeeps(s1, steps);
    RunKept(s1, s.calls, steps);
    CallsGrow(s1, steps);
  }

  lemma PublishedOrRefused(s: System, payload: Payload)
    requires Enabled(s, PublishPayload(payload, true))
    ensures var s' := Take(s, PublishPayload(payload, true));
            s'.calls == s.calls + 1 && Kept(s', s.calls)
  {
    if s.subscribers != map[] {
      var s' := Publish(s, payload);
      assert s'.log[|s.log|] == Published(s.calls, payload);
    }
  }

  lemma {:induction false} CallsGrow(s: System, steps: seq<Step>)
    requires Runs(s, steps)
    ensures s.calls <= After(s, steps).calls
    decreases |steps|
  {
    if steps != [] { CallsGrow(Take(s, steps[0]), steps[1..]); }
  }
}
