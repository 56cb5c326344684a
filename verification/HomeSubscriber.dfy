/** The loop of the configuration subscriber, step by step, with other threads using the client in
    between. */
module HomeSubscriber {
  import opened HomeFailover

  /** Where the subscriber is in its loop. */
  datatype Place =
    | Top
    | Closing
    | Connecting
    | Pinging
    | Fetching
    | Applying
    | Subscribing
    | Confirmed                     // the subscription stands, failures are forgotten
    | Listening
    | TimedOut                      // the subscription timed out
    | Failed                        // something else failed, still to be counted
    | Gone

  /** The steps of the subscriber: what it does to the client, and where it is then. */
  predicate Goes(from: Place, op: Op, to: Place) {
    match from
    case Top => op == Beat(false) && (to == Closing || to == Gone)
    case Closing => op.Close? && to == Connecting
    case Connecting => op.Ensure? && (to == Pinging || to == Failed)
    case Pinging => (op.Ensure? && to == Pinging) || (op.Other? && (to == Fetching || to == Failed))
    case Fetching => ((op.Ensure? || op.Refresh?) && to == Fetching) || (op.Other? && (to == Applying || to == Failed))
    case Applying => op.Other? && (to == Subscribing || to == Top)
    case Subscribing => (op.Ensure? && to == Subscribing) || (op.Other? && to == Failed) || (op.ResetFailures? && to == Confirmed)
    case Confirmed => op == Beat(true) && to == Listening
    case Listening =>
      ((op.Other? || op.Update? || op.ResetFailures?) && to == Listening) || (op == Beat(false) && (to == TimedOut || to == Failed))
    case TimedOut => op.Timeout? && to == Top
    case Failed => op.Failure? && to == Top
    case Gone => false
  }

  /** What other threads do: they use the command connection, read the configuration, or close. */
  predicate Outside(op: Op) {
    op.Ensure? || op.Refresh? || op.Close? || op.Other?
  }

  datatype Move = Subscriber(op: Op, to: Place) | Thread(op: Op)

  datatype World = World(client: Client, at: Place)

  predicate CanMove(w: World, m: Move) {
    if m.Thread? then Outside(m.op) else Goes(w.at, m.op, m.to)
  }

  function Moved(w: World, m: Move): World {
    World(Apply(w.client, m.op), if m.Thread? then w.at else m.to)
  }

  predicate CanRun(w: World, moves: seq<Move>)
    decreases |moves|
  {
    moves == [] || (CanMove(w, moves[0]) && CanRun(Moved(w, moves[0]), moves[1..]))
  }

  function After(w: World, moves: seq<Move>): World
    decreases |moves|
  {
    if moves == [] then w else After(Moved(w, moves[0]), moves[1..])
  }

  /** The heartbeat is on only while the subscriber listens, and then no failure is counted. */
  predicate HeartbeatHonest(w: World) {
    && (w.client.heartbeat ==> w.at == Listening)
    && (w.at == Confirmed || w.at == Listening ==> w.client.failures == 0)
  }

  /** How the operations treat the heartbeat and the counter. */
  lemma OpEffects(c: Client, op: Op)
    ensures var d := Apply(c, op);
            && (d.heartbeat == if op.Beat? then op.ok else if op.Close? then false else c.heartbeat)
            && (!op.Failure? && c.failures == 0 ==> d.failures == 0)
            && (op.ResetFailures? ==> d.failures == 0)
  {
    hide Addressable, Candidates, FirstElsewhere;
  }

  lemma MoveKeepsHonest(w: World, m: Move)
    requires HeartbeatHonest(w) && CanMove(w, m)
    ensures HeartbeatHonest(Moved(w, m))
  {
    OpEffects(w.client, m.op);
    hide Apply;
  }

  /** Main result: however the subscriber and other threads interleave, the heartbeat is on only while
      the subscriber listens to a subscription it has confirmed, no failure is pending then, and the
      connections are current. */
  lemma {:induction false} HeartbeatInEveryRun(w: World, moves: seq<Move>)
    requires HeartbeatHonest(w) && Inv(w.client) && CanRun(w, moves)
    ensures HeartbeatHonest(After(w, moves)) && Inv(After(w, moves).client)
    decreases |moves|
  {
    if moves != [] {
      MoveKeepsHonest(w, moves[0]);
      RunKeeps(w.client, [moves[0].op]);
      assert Run(w.client, [moves[0].op]) == Apply(w.client, moves[0].op) by { assert [moves[0].op][1..] == []; }
      hide HeartbeatHonest, Inv, CanMove, Apply;
      HeartbeatInEveryRun(Moved(w, moves[0]), moves[1..]);
    }
  }

  /** Wherever the subscriber is, it can go on, unless it has ended. */
  lemma NeverStuck(at: Place)
    ensures at != Gone <==> exists op, to :: Goes(at, op, to)
  {
    match at
    case Top => assert Goes(at, Beat(false), Closing);
    case Closing => assert Goes(at, Close, Connecting);
    case Connecting => assert Goes(at, Ensure(true, true), Pinging);
    case Pinging => assert Goes(at, Op.Other, Fetching);
    case Fetching => assert Goes(at, Op.Other, Applying);
    case Applying => assert Goes(at, Op.Other, Subscribing);
    case Subscribing => assert Goes(at, ResetFailures, Confirmed);
    case Confirmed => assert Goes(at, Beat(true), Listening);
    case Listening => assert Goes(at, Op.Other, Listening);
    case TimedOut => assert Goes(at, Timeout, Top);
    case Failed => assert Goes(at, Failure, Top);
    case Gone =>
  }

  lemma First(w: World, m: Move, rest: seq<Move>)
    ensures CanRun(w, [m] + rest) <==> CanMove(w, m) && CanRun(Moved(w, m), rest)
    ensures After(w, [m] + rest) == After(Moved(w, m), rest)
  {
    assert ([m] + rest)[0] == m && ([m] + rest)[1..] == rest;
  }

  /** From a confirmed subscription it comes to listen, with the heartbeat on. */
  lemma ConfirmedListens(c: Client)
    ensures var moves := [Subscriber(Beat(true), Listening)];
            CanRun(World(c, Confirmed), moves) && After(World(c, Confirmed), moves) == World(c.(heartbeat := true), Listening)
  {
    First(World(c, Confirmed), Subscriber(Beat(true), Listening), []);
    assert [Subscriber(Beat(true), Listening)] + [] == [Subscriber(Beat(true), Listening)];
  }

  /** A subscription that times out puts the heartbeat off before the client moves. */
  lemma TimeoutEndsListening(c: Client)
    ensures var moves := [Subscriber(Beat(false), TimedOut), Subscriber(Timeout, Top)];
            && CanRun(World(c, Listening), moves)
            && After(World(c, Listening), moves) == World(AfterTimeout(c.(heartbeat := false)).0, Top)
            && !After(World(c, Listening), moves).client.heartbeat
  {
    var last, d := [Subscriber(Timeout, Top)], c.(heartbeat := false);
    OpEffects(d, Timeout);
    hide AfterTimeout;
    First(World(c, Listening), Subscriber(Beat(false), TimedOut), last);
    assert [Subscriber(Beat(false), TimedOut)] + last == [Subscriber(Beat(false), TimedOut), Subscriber(Timeout, Top)];
    First(World(d, TimedOut), Subscriber(Timeout, Top), []);
    assert last + [] == last;
  }
}
