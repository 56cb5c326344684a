/** The Home client as a state machine: which control node it talks to, the connections it keeps, and
    the failures that make it change its target. A step is one locked section of some thread. */
module HomeFailover {
  import opened Common
  import opened Strings
  import opened ClusterNodes

  datatype Target = Target(host: string, port: int)

  /** A connection object: what it was made for, and whether it is still open. */
  datatype Conn = Conn(target: Target, open: bool)

  /** `target` is the configured host and port; `conns` are all connections ever made, of which the
      client keeps at most two. */
  datatype Client = Client(
    enabled: bool,
    discovery: bool,
    seed: Target,
    target: Target,
    conns: seq<Conn>,
    cmd: Option<nat>,
    sub: Option<nat>,
    heartbeat: bool,
    nodes: seq<Node>,
    failures: nat)

  const THRESHOLD := 3

  function Addr(t: Target): Target {
    Target(TrimSpace(t.host), t.port)
  }

  /** `addrLocked`. */
  predicate Addressable(t: Target) {
    TrimSpace(t.host) != "" && t.port > 0
  }

  /** `New`. */
  function New(cfg: Target, enabled: bool, discovery: bool): Client {
    Client(enabled, discovery, Addr(cfg), cfg, [], None, None, false, [], 0)
  }

  // --------------------------------------------------------------- connections

  function Shut(conns: seq<Conn>, kept: Option<nat>): (r: seq<Conn>)
    ensures |r| == |conns|
  {
    if kept.Some? && kept.value < |conns| then conns[kept.value := conns[kept.value].(open := false)] else conns
  }

  /** `closeClientsLocked`. */
  function ClientsClosed(c: Client): Client {
    c.(conns := Shut(Shut(c.conns, c.cmd), c.sub), cmd := None, sub := None)
  }

  /** `ensureClients`; the flags say whether the options of a new connection could be made. */
  function Ensured(c: Client, cmdOk: bool, subOk: bool): (Client, bool) {
    if !c.enabled || !Addressable(c.target) then (c, false)
    else if c.cmd.None? && !cmdOk then (c, false)
    else
      var made := Conn(Addr(c.target), true);
      var c := if c.cmd.None? then c.(conns := c.conns + [made], cmd := Some(|c.conns|)) else c;
      if c.sub.None? && !subOk then (c, false)
      else (if c.sub.None? then c.(conns := c.conns + [made], sub := Some(|c.conns|)) else c, true)
  }

  // -------------------------------------------------------------------- target

  /** `switchToNodeLocked`. */
  function SwitchedTo(c: Client, to: Target): (Client, bool) {
    if !Addressable(to) || Addr(c.target) == Addr(to) then (c, false)
    else (ClientsClosed(c.(target := Addr(to))), true)
  }

  function TargetOf(n: Node): Target {
    Target(n.ip, n.port)
  }

  /** Where failover may go, in order: the known nodes, then the address configured at the start. */
  function Candidates(c: Client): seq<Target> {
    seq(|c.nodes|, i requires 0 <= i < |c.nodes| => TargetOf(c.nodes[i])) + if Addressable(c.seed) then [c.seed] else []
  }

  predicate Elsewhere(t: Target, from: Target) {
    Addressable(t) && Addr(t) != Addr(from)
  }

  /** The first candidate that is another address. */
  function FirstElsewhere(candidates: seq<Target>, from: Target): Option<Target> {
    if candidates == [] then None
    else if Elsewhere(candidates[0], from) then Some(candidates[0])
    else FirstElsewhere(candidates[1..], from)
  }

  /** `switchToNextNodeLocked`. */
  function SwitchedToNext(c: Client): (Client, bool) {
    var to := FirstElsewhere(Candidates(c), c.target);
    if to.None? then (c, false) else SwitchedTo(c, to.value)
  }

  /** `failoverAfterReconnectFailure`. */
  function AfterFailure(c: Client): (Client, bool) {
    if !c.discovery then (c.(failures := 0), false)
    else if c.failures + 1 < THRESHOLD then (c.(failures := c.failures + 1), false)
    else SwitchedToNext(c.(failures := 0))
  }

  /** `failoverAfterSubscriptionTimeout`. */
  function AfterTimeout(c: Client): (Client, bool) {
    if !c.discovery then (c.(failures := 0), false) else SwitchedToNext(c.(failures := 0))
  }

  /** The locked part of `refreshClusterNodes`, for the nodes of a reply. */
  function Refreshed(c: Client, reply: seq<Node>): (Client, bool) {
    var nodes := Normalized(reply);
    if !c.discovery || nodes == [] then (c, false)
    else SwitchedTo(c.(nodes := nodes, failures := 0), TargetOf(nodes[0]))
  }

  /** `updateClusterNodesFromPayload`. */
  function Updated(c: Client, payload: seq<Node>): Client {
    if !c.discovery then c else c.(nodes := Normalized(payload))
  }

  // --------------------------------------------------------------------- steps

  datatype Op =
    | Ensure(cmdOk: bool, subOk: bool)
    | Close
    | Refresh(reply: seq<Node>)
    | Update(payload: seq<Node>)
    | Failure
    | Timeout
    | ResetFailures
    | Beat(ok: bool)
    | Other                         // talking to the node, sleeping, applying a configuration

  function Apply(c: Client, op: Op): Client {
    match op
    case Ensure(cmdOk, subOk) => Ensured(c, cmdOk, subOk).0
    case Close => ClientsClosed(c.(heartbeat := false))
    case Refresh(reply) => Refreshed(c, reply).0
    case Update(payload) => Updated(c, payload)
    case Failure => AfterFailure(c).0
    case Timeout => AfterTimeout(c).0
    case ResetFailures => c.(failures := 0)
    case Beat(ok) => c.(heartbeat := ok)
    case Other => c
  }

  function Run(c: Client, ops: seq<Op>): Client
    decreases |ops|
  {
    if ops == [] then c else Run(Apply(c, ops[0]), ops[1..])
  }

  // ---------------------------------------------------------------- invariants

  predicate Keeps(c: Client, ref: nat) {
    c.cmd == Some(ref) || c.sub == Some(ref)
  }

  /** The connections kept are two different open ones to the current target; every other is closed. */
  ghost predicate ConnsCurrent(c: Client) {
    && (c.cmd.Some? ==> c.cmd.value < |c.conns|) && (c.sub.Some? ==> c.sub.value < |c.conns|)
    && (c.cmd.Some? && c.sub.Some? ==> c.cmd != c.sub)
    && (forall i :: 0 <= i < |c.conns| ==> c.conns[i].open == Keeps(c, i))
    && (forall i :: 0 <= i < |c.conns| && Keeps(c, i) ==> c.conns[i].target == Addr(c.target) && Addressable(c.target))
  }

  /** Known nodes are usable, in order of load, and none is known without discovery. */
  ghost predicate NodesNormal(c: Client) {
    && (forall n :: n in c.nodes ==> Clean(n)) && Ascending(c.nodes)
    && (!c.discovery ==> c.nodes == [] && c.failures == 0)
    && c.failures < THRESHOLD && Addr(c.seed) == c.seed
  }

  ghost predicate Inv(c: Client) {
    ConnsCurrent(c) && NodesNormal(c)
  }

  lemma NewInv(cfg: Target, enabled: bool, discovery: bool)
    ensures Inv(New(cfg, enabled, discovery))
  {
    TrimTwice(cfg.host);
  }

  lemma ClosedCurrent(c: Client)
    requires ConnsCurrent(c)
    ensures ConnsCurrent(ClientsClosed(c)) && forall i :: 0 <= i < |c.conns| ==> !ClientsClosed(c).conns[i].open
  {
  }

  /** With everything closed, any target will do. */
  lemma SwitchedCurrent(c: Client, to: Target)
    requires ConnsCurrent(c)
    ensures ConnsCurrent(SwitchedTo(c, to).0)
  {
    ClosedCurrent(c);
    hide TrimSpace;
  }

  lemma EnsuredCurrent(c: Client, cmdOk: bool, subOk: bool)
    requires ConnsCurrent(c)
    ensures ConnsCurrent(Ensured(c, cmdOk, subOk).0)
    ensures var (d, ok) := Ensured(c, cmdOk, subOk);
            && (ok ==> d.cmd.Some? && d.sub.Some?)
            && (ok <==> c.enabled && Addressable(c.target) && (c.cmd.Some? || cmdOk) && (c.sub.Some? || subOk))
            && (!c.enabled || !Addressable(c.target) ==> d == c)
  {
    hide TrimSpace;
  }

  lemma {:induction false} FirstElsewhereIs(candidates: seq<Target>, from: Target)
    ensures var to := FirstElsewhere(candidates, from);
            && (to.Some? <==> exists t :: t in candidates && Elsewhere(t, from))
            && (to.Some? ==> exists i :: 0 <= i < |candidates| && candidates[i] == to.value && Elsewhere(candidates[i], from)
                                         && forall j :: 0 <= j < i ==> !Elsewhere(candidates[j], from))
    decreases |candidates|
  {
    hide Elsewhere;
    if candidates != [] {
      var rest := candidates[1..];
      FirstElsewhereIs(rest, from);
      assert candidates == [candidates[0]] + rest;
      var to := FirstElsewhere(rest, from);
      if !Elsewhere(candidates[0], from) && to.Some? {
        var i :| 0 <= i < |rest| && rest[i] == to.value && Elsewhere(rest[i], from) && forall j :: 0 <= j < i ==> !Elsewhere(rest[j], from);
        assert candidates[i + 1] == to.value;
        forall j | 0 <= j < i + 1 ensures !Elsewhere(candidates[j], from) {
          if j > 0 { assert candidates[j] == rest[j - 1]; }
        }
      } else if Elsewhere(candidates[0], from) {
        assert candidates[0] in candidates;
      }
    }
  }

  /** Failover goes to the first candidate elsewhere, and nowhere if there is none. */
  lemma NextIs(c: Client)
    ensures var to, (d, switched) := FirstElsewhere(Candidates(c), c.target), SwitchedToNext(c);
            && switched == to.Some? == (exists t :: t in Candidates(c) && Elsewhere(t, c.target))
            && (if switched then d.target == Addr(to.value) && Addr(d.target) == d.target && d.target != Addr(c.target) else d == c)
            && d.nodes == c.nodes && d.seed == c.seed && d.discovery == c.discovery && d.failures == c.failures
  {
    FirstElsewhereIs(Candidates(c), c.target);
    var to := FirstElsewhere(Candidates(c), c.target);
    if to.Some? { TrimTwice(to.value.host); }
    hide Candidates, FirstElsewhere, TrimSpace;
  }

  /** The client moves to an address exactly if that has a host and a port and is another than its own, spaces
      around hosts aside; its connections are closed then. */
  lemma SwitchIs(c: Client, to: Target)
    ensures var host := TrimSpace(to.host);
            var moves := host != "" && to.port > 0 && (host != TrimSpace(c.target.host) || to.port != c.target.port);
            && SwitchedTo(c, to).1 == moves
            && SwitchedTo(c, to).0.target == (if moves then Target(host, to.port) else c.target)
            && (moves ==> SwitchedTo(c, to).0.cmd.None? && SwitchedTo(c, to).0.sub.None?)
            && (!moves ==> SwitchedTo(c, to).0 == c)
  {
    hide TrimSpace, Shut;
  }

  /** A cluster message replaces the known nodes, also by none, and changes nothing else. */
  lemma UpdateLearns(c: Client, payload: seq<Node>)
    ensures c.discovery ==> Updated(c, payload).nodes == Normalized(payload)
    ensures Updated(c, payload) == c.(nodes := Updated(c, payload).nodes) && (!c.discovery ==> Updated(c, payload) == c)
    ensures c.discovery && (forall n :: n in payload ==> TrimSpace(n.ip) == "" || n.port <= 0) ==> Updated(c, payload).nodes == []
  {
    FirstIsLeastLoaded(payload);
    hide Normalized, TrimSpace;
  }

  lemma StepCurrent(c: Client, op: Op)
    requires ConnsCurrent(c)
    ensures ConnsCurrent(Apply(c, op))
  {
    hide TrimSpace, Normalized, Candidates, FirstElsewhere;
    match op
    case Ensure(cmdOk, subOk) => EnsuredCurrent(c, cmdOk, subOk);
    case Close => ClosedCurrent(c.(heartbeat := false));
    case Refresh(reply) =>
      if Normalized(reply) != [] { SwitchedCurrent(c.(nodes := Normalized(reply), failures := 0), TargetOf(Normalized(reply)[0])); }
    case Update(_) =>
    case Failure => FailoverCurrent(c.(failures := 0));
    case Timeout => FailoverCurrent(c.(failures := 0));
    case ResetFailures =>
    case Beat(_) =>
    case Other =>
  }

  lemma FailoverCurrent(c: Client)
    requires ConnsCurrent(c)
    ensures ConnsCurrent(SwitchedToNext(c).0)
  {
    var to := FirstElsewhere(Candidates(c), c.target);
    if to.Some? { SwitchedCurrent(c, to.value); }
  }

  lemma NormalizedNormal(nodes: seq<Node>)
    ensures Ascending(Normalized(nodes)) && forall n :: n in Normalized(nodes) ==> Clean(n)
  {
    FirstIsLeastLoaded(nodes);
    ByLoadIs(UsableNodes(nodes), 0);
  }

  lemma StepNormal(c: Client, op: Op)
    requires NodesNormal(c)
    ensures NodesNormal(Apply(c, op))
  {
    hide TrimSpace, Normalized, Candidates, FirstElsewhere, Ascending, Clean, Shut;
    match op
    case Ensure(_, _) =>
    case Close =>
    case Refresh(reply) => NormalizedNormal(reply);
    case Update(payload) => NormalizedNormal(payload);
    case Failure =>
    case Timeout =>
    case ResetFailures =>
    case Beat(_) =>
    case Other =>
  }

  /** Main result: in every run the kept connections are open ones to the current target, all others
      are closed, the failure counter stays below the threshold, and known nodes are usable. */
  lemma {:induction false} RunKeeps(c: Client, ops: seq<Op>)
    requires Inv(c)
    ensures Inv(Run(c, ops))
    decreases |ops|
  {
    hide ConnsCurrent, NodesNormal, Apply;
    if ops != [] {
      StepCurrent(c, ops[0]);
      StepNormal(c, ops[0]);
      RunKeeps(Apply(c, ops[0]), ops[1..]);
    }
  }

  // ------------------------------------------------------------------ failover

  /** Operations that neither move the client nor forget failures; a reply of the cluster without a
      usable node is one. */
  predicate Uninterrupting(op: Op) {
    || op.Ensure? || op.Close? || op.Update? || op.Failure? || op.Beat? || op.Other?
    || (op.Refresh? && Normalized(op.reply) == [])
  }

  function FailuresIn(ops: seq<Op>): nat {
    if ops == [] then 0 else (if ops[0].Failure? then 1 else 0) + FailuresIn(ops[1..])
  }

  /** Fewer than three failures in a row, whatever else happens between them, leave the target alone. */
  lemma {:induction false} TwoFailuresStay(c: Client, ops: seq<Op>)
    requires c.discovery && forall i :: 0 <= i < |ops| ==> Uninterrupting(ops[i])
    requires c.failures + FailuresIn(ops) < 3
    ensures var d := Run(c, ops);
            d.target == c.target && d.failures == c.failures + FailuresIn(ops) && d.discovery && d.seed == c.seed
    decreases |ops|
  {
    hide Normalized, Addressable, Shut;
    if ops != [] {
      assert forall i :: 0 <= i < |ops[1..]| ==> ops[1..][i] == ops[i + 1];
      assert Uninterrupting(ops[0]);
      TwoFailuresStay(Apply(c, ops[0]), ops[1..]);
    }
  }

  lemma {:induction false} RunConcat(c: Client, a: seq<Op>, b: seq<Op>)
    ensures Run(c, a + b) == Run(Run(c, a), b)
    decreases |a|
  {
    hide Apply;
    if a == [] {
      assert a + b == b;
    } else {
      assert (a + b)[1..] == a[1..] + b;
      RunConcat(Apply(c, a[0]), a[1..], b);
    }
  }

  /** Main result: the third failure since the counter was last zero moves the client exactly when a
      known node or the seed is another valid address, and then to the first such; the counter starts
      over. */
  lemma ThirdFailureMoves(c: Client, ops: seq<Op>)
    requires c.discovery && c.failures == 0 && forall i :: 0 <= i < |ops| ==> Uninterrupting(ops[i])
    requires FailuresIn(ops) == 2
    ensures var before, after := Run(c, ops), Run(c, ops + [Failure]);
            && before.target == c.target && after.failures == 0
            && (Addr(after.target) != Addr(c.target) <==> exists t :: t in Candidates(before) && Elsewhere(t, c.target))
            && (Addr(after.target) == Addr(c.target) ==> after.target == c.target)
            && (Addr(after.target) != Addr(c.target) ==>
                  exists i :: 0 <= i < |Candidates(before)| && Addr(Candidates(before)[i]) == after.target
                              && forall j :: 0 <= j < i ==> !Elsewhere(Candidates(before)[j], c.target))
  {
    TwoFailuresStay(c, ops);
    var before := Run(c, ops);
    RunConcat(c, ops, [Failure]);
    assert Run(before, [Failure]) == AfterFailure(before).0 by { assert [Failure][1..] == []; }
    var cleared := before.(failures := 0);
    NextIs(cleared);
    assert Candidates(cleared) == Candidates(before);
    FirstElsewhereIs(Candidates(before), c.target);
    hide Run, Candidates, FirstElsewhere, TrimSpace, Elsewhere, Addressable;
  }

  /** A lost subscription moves the client at once, under the same condition. */
  lemma TimeoutMoves(c: Client)
    requires c.discovery
    ensures var (d, moved) := AfterTimeout(c);
            && d.failures == 0 && moved == (exists t :: t in Candidates(c) && Elsewhere(t, c.target))
            && (if moved then Addr(d.target) != Addr(c.target) else d.target == c.target)
  {
    var cleared := c.(failures := 0);
    NextIs(cleared);
    assert Candidates(cleared) == Candidates(c);
    hide Candidates, FirstElsewhere, TrimSpace, Elsewhere, Addressable;
  }

  /** When no known node is another valid address, failover goes back to the address of the start, if
      that is one. */
  lemma BackToSeed(c: Client)
    requires forall n :: n in c.nodes ==> !Elsewhere(TargetOf(n), c.target)
    ensures var (d, moved) := SwitchedToNext(c);
            moved == Elsewhere(c.seed, c.target) && (moved ==> d.target == Addr(c.seed))
  {
    NextIs(c);
    FirstElsewhereIs(Candidates(c), c.target);
    var nodes := seq(|c.nodes|, i requires 0 <= i < |c.nodes| => TargetOf(c.nodes[i]));
    forall i | 0 <= i < |nodes| ensures !Elsewhere(nodes[i], c.target) {
      assert c.nodes[i] in c.nodes;
    }
    if Addressable(c.seed) {
      assert Candidates(c) == nodes + [c.seed];
      assert Candidates(c)[|nodes|] == c.seed;
    } else {
      assert Candidates(c) == nodes;
    }
    hide Candidates, FirstElsewhere, TrimSpace, SwitchedToNext;
  }

  /** The node a usable reply puts first: one of those with the fewest clients. */
  lemma FirstNode(reply: seq<Node>) returns (n: Node)
    requires exists n :: n in reply && Usable(n)
    ensures n in reply && Usable(n) && Normalized(reply) != [] && Normalized(reply)[0] == Cleaned(n)
    ensures forall m :: m in reply && Usable(m) ==> Cleaned(n).clientCount <= Cleaned(m).clientCount
  {
    FirstIsLeastLoaded(reply);
    ByLoadIs(UsableNodes(reply), 0);
    UsableNodesIs(reply);
    hide Usable, Cleaned, UsableNodes, ByLoad;
    var first := Normalized(reply)[0];
    assert first in UsableNodes(reply) by { assert first in Normalized(reply); }
    n :| n in reply && Usable(n) && first == Cleaned(n);
  }

  /** A reply with a usable node brings the client to one with the fewest clients. */
  lemma RefreshFindsLeastLoaded(c: Client, reply: seq<Node>)
    requires c.discovery && exists n :: n in reply && Usable(n)
    ensures var d := Refreshed(c, reply).0;
            && d.failures == 0 && d.nodes == Normalized(reply)
            && exists n :: n in reply && Usable(n) && Addr(d.target) == Target(TrimSpace(n.ip), n.port)
                           && forall m :: m in reply && Usable(m) ==> Cleaned(n).clientCount <= Cleaned(m).clientCount
  {
    var n := FirstNode(reply);
    TrimTwice(n.ip);
    hide Normalized, TrimSpace, Shut;
    assert Addr(Refreshed(c, reply).0.target) == Target(TrimSpace(n.ip), n.port);
  }

  /** Without discovery no run changes the target. */
  lemma {:induction false} FixedWithoutDiscovery(c: Client, ops: seq<Op>)
    requires !c.discovery
    ensures Run(c, ops).target == c.target && Run(c, ops).nodes == c.nodes
    decreases |ops|
  {
    hide Normalized, Addressable, Shut;
    if ops != [] { FixedWithoutDiscovery(Apply(c, ops[0]), ops[1..]); }
  }

  /** The client after `n` failovers in a row. */
  function Failovers(c: Client, n: nat): Client {
    if n == 0 then c else SwitchedToNext(Failovers(c, n - 1)).0
  }

  /** The two places failover alternates between: the first valid candidate, and the first valid
      candidate elsewhere than that. */
  function FirstPlace(candidates: seq<Target>): Option<Target> {
    FirstElsewhere(candidates, Target("", 0))
  }

  function SecondPlace(candidates: seq<Target>): Option<Target> {
    var a := FirstPlace(candidates);
    if a.None? then None else FirstElsewhere(candidates, a.value)
  }

  /** One failover: to the first place, and from there to the second. */
  lemma FailoverStep(c: Client)
    ensures var d, candidates := SwitchedToNext(c).0, Candidates(c);
            var a, b := FirstPlace(candidates), SecondPlace(candidates);
            && Candidates(d) == candidates
            && (if a.None? then d == c
                else if Addr(c.target) != Addr(a.value) then d.target == Addr(a.value) && Addr(d.target) == d.target
                else if b.None? then d == c
                else d.target == Addr(b.value) && Addr(d.target) == d.target && Addr(b.value) != Addr(a.value))
  {
    NextIs(c);
    FirstElsewhereFrom(Candidates(c), c.target);
    var a := FirstPlace(Candidates(c));
    if a.Some? { FirstElsewhereIs(Candidates(c), a.value); }
    assert Candidates(SwitchedToNext(c).0) == Candidates(c);
    hide Candidates, FirstElsewhere, TrimSpace, SwitchedToNext;
  }

  /** Main result: failover does not go round the cluster. With two valid addresses among the
      candidates, from the first failover on the targets are the first place and the second place in
      turn, whatever the starting point and however many candidates there are. */
  lemma {:induction false} FailoverAlternates(c: Client, n: nat)
    requires n > 0 && SecondPlace(Candidates(c)).Some?
    ensures var a, b := Addr(FirstPlace(Candidates(c)).value), Addr(SecondPlace(Candidates(c)).value);
            var now, next := Failovers(c, n).target, Failovers(c, n + 1).target;
            a != b && ((now == a && next == b) || (now == b && next == a))
    ensures Candidates(Failovers(c, n)) == Candidates(c) && Addr(Failovers(c, n).target) == Failovers(c, n).target
  {
    FailoverStep(Failovers(c, n - 1));
    if n == 1 {
      FailoverStep(c);
    } else {
      FailoverAlternates(c, n - 1);
    }
    FailoverStep(Failovers(c, n));
    PlacesDiffer(Candidates(c));
    hide Candidates, FirstPlace, SecondPlace, SwitchedToNext, TrimSpace;
  }

  lemma PlacesDiffer(candidates: seq<Target>)
    requires SecondPlace(candidates).Some?
    ensures FirstPlace(candidates).Some? && Addr(FirstPlace(candidates).value) != Addr(SecondPlace(candidates).value)
  {
    FirstElsewhereIs(candidates, FirstPlace(candidates).value);
  }

  /** So failover visits a valid address exactly when it is one of the two places; no other node is
      tried until new nodes are reported. */
  lemma FailoverVisits(c: Client, t: Target)
    requires SecondPlace(Candidates(c)).Some?
    ensures var a, b := FirstPlace(Candidates(c)).value, SecondPlace(Candidates(c)).value;
            (exists n :: n > 0 && Visits(c, n, t)) <==> Addr(t) == Addr(a) || Addr(t) == Addr(b)
  {
    var a, b := FirstPlace(Candidates(c)).value, SecondPlace(Candidates(c)).value;
    FailoverAlternates(c, 1);
    FailoverAlternates(c, 2);
    hide FirstPlace, SecondPlace, Candidates, Failovers, TrimSpace;
    if n :| n > 0 && Visits(c, n, t) {
      FailoverAlternates(c, n);
    }
    if Addr(t) == Addr(a) || Addr(t) == Addr(b) {
      assert Visits(c, 1, t) || Visits(c, 2, t);
    }
  }

  predicate Visits(c: Client, n: nat, t: Target) {
    Failovers(c, n).target == Addr(t)
  }

  /** With only one valid address there is nothing to alternate with: it is reached and kept. */
  lemma {:induction false} SinglePlaceKept(c: Client, n: nat)
    requires n > 0 && FirstPlace(Candidates(c)).Some? && SecondPlace(Candidates(c)).None?
    ensures Addr(Failovers(c, n).target) == Addr(FirstPlace(Candidates(c)).value)
    ensures Candidates(Failovers(c, n)) == Candidates(c)
  {
    if n > 1 { SinglePlaceKept(c, n - 1); }
    FailoverStep(Failovers(c, n - 1));
    TrimTwice(FirstPlace(Candidates(c)).value.host);
    hide Candidates, FirstPlace, SecondPlace, SwitchedToNext, TrimSpace;
  }

  /** A cluster of three nodes of which the third is never tried, however often failover happens. */
  lemma ThirdNodeExample()
    ensures var nodes := [Node("a", 1, 0), Node("b", 1, 0), Node("c", 1, 0)];
            var c := New(Target("a", 1), true, true).(nodes := nodes);
            Inv(c) && forall n: nat :: Failovers(c, n).target != Target("c", 1)
  {
    var nodes := [Node("a", 1, 0), Node("b", 1, 0), Node("c", 1, 0)];
    var c := New(Target("a", 1), true, true).(nodes := nodes);
    var a, b, t := Target("a", 1), Target("b", 1), Target("c", 1);
    TrimmedStays("a");
    TrimmedStays("b");
    TrimmedStays("c");
    hide TrimSpace;
    assert Candidates(c) == [a, b, t, a];
    ExamplePlaces(a, b, t);
    forall n: nat | n > 0 ensures Failovers(c, n).target != t {
      FailoverAlternates(c, n);
    }
  }

  lemma ExamplePlaces(a: Target, b: Target, t: Target)
    requires Addressable(a) && Addressable(b) && Addr(a) != Addr(b)
    ensures FirstPlace([a, b, t, a]) == Some(a) && SecondPlace([a, b, t, a]) == Some(b)
  {
    var candidates := [a, b, t, a];
    assert Elsewhere(a, Target("", 0));
    assert candidates[1..][0] == b && Elsewhere(b, a) && !Elsewhere(a, a);
    hide TrimSpace;
    assert FirstElsewhere(candidates[1..], a) == Some(b);
  }

  lemma {:induction false} SameFrom(candidates: seq<Target>, a: Target, b: Target)
    requires Addr(a) == Addr(b)
    ensures FirstElsewhere(candidates, a) == FirstElsewhere(candidates, b)
    decreases |candidates|
  {
    if candidates != [] { SameFrom(candidates[1..], a, b); }
  }

  /** Where one goes from `from`: to the first valid candidate, or, being there already, to the first
      candidate elsewhere than that. */
  lemma {:induction false} FirstElsewhereFrom(candidates: seq<Target>, from: Target)
    ensures var a := FirstElsewhere(candidates, Target("", 0));
            FirstElsewhere(candidates, from) ==
            if a.None? then None else if Addr(a.value) != Addr(from) then a else FirstElsewhere(candidates, a.value)
    decreases |candidates|
  {
    if candidates != [] {
      if Addressable(candidates[0]) {
        assert Elsewhere(candidates[0], Target("", 0));
        if Addr(candidates[0]) == Addr(from) { SameFrom(candidates, from, candidates[0]); }
      } else {
        FirstElsewhereFrom(candidates[1..], from);
      }
    }
  }
}
