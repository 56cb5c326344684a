/** The Home client as it runs. Its fields are those of the state in `HomeFailover`; connections are
    numbered in the order they are made. */
module HomeClient {
  import opened Common
  import opened Strings
  import opened ClusterNodes
  import opened HomeFailover

  class HomeConnection {
    const enabled: bool
    const discovery: bool
    const seed: Target
    var target: Target
    var conns: seq<Conn>
    var cmd: Option<nat>
    var sub: Option<nat>
    var heartbeatOK: bool
    var clusterNodes: seq<Node>
    var reconnectFailures: nat

    /** The state of the machine. */
    ghost function State(): Client
      reads this
    {
      Client(enabled, discovery, seed, target, conns, cmd, sub, heartbeatOK, clusterNodes, reconnectFailures)
    }

    ghost predicate Valid()
      reads this
    {
      && (cmd.Some? ==> cmd.value < |conns|) && (sub.Some? ==> sub.value < |conns|)
    }

    constructor (cfg: Target, enabled: bool, discovery: bool)
      ensures Valid() && State() == New(cfg, enabled, discovery)
    {
      this.enabled, this.discovery, seed, target := enabled, discovery, Target(TrimSpace(cfg.host), cfg.port), cfg;
      conns, cmd, sub, heartbeatOK, clusterNodes, reconnectFailures := [], None, None, false, [], 0;
    }

    method CloseClientsLocked()
      requires Valid()
      modifies this`conns, this`cmd, this`sub
      ensures Valid() && State() == ClientsClosed(old(State()))
    {
      if cmd.Some? {
        conns := conns[cmd.value := conns[cmd.value].(open := false)];
      }
      if sub.Some? {
        conns := conns[sub.value := conns[sub.value].(open := false)];
      }
      cmd, sub := None, None;
    }

    method Close()
      requires Valid()
      modifies this
      ensures Valid() && State() == Apply(old(State()), HomeFailover.Close)
    {
      heartbeatOK := false;
      CloseClientsLocked();
    }

    /** `redis.NewClient`. */
    method NewConnection() returns (ref: nat)
      modifies this`conns
      ensures ref == |old(conns)| && conns == old(conns) + [Conn(Addr(target), true)]
    {
      ref := |conns|;
      conns := conns + [Conn(Target(TrimSpace(target.host), target.port), true)];
    }

    method EnsureClients(cmdOk: bool, subOk: bool) returns (ok: bool)
      requires Valid()
      modifies this
      ensures Valid() && (State(), ok) == Ensured(old(State()), cmdOk, subOk)
    {
      hide TrimSpace;
      if !enabled || !Addressable(target) {
        return false;
      }
      if cmd.None? {
        if !cmdOk {
          return false;
        }
        var ref := NewConnection();
        cmd := Some(ref);
      }
      if sub.None? {
        if !subOk {
          return false;
        }
        var ref := NewConnection();
        sub := Some(ref);
      }
      return true;
    }

    method SwitchToNodeLocked(node: Target) returns (switched: bool)
      requires Valid()
      modifies this
      ensures Valid() && (State(), switched) == SwitchedTo(old(State()), node)
    {
      hide ClientsClosed;
      var host := TrimSpace(node.host);
      if host == "" || node.port <= 0 {
        return false;
      }
      if TrimSpace(target.host) == host && target.port == node.port {
        return false;
      }
      target := Target(host, node.port);
      CloseClientsLocked();
      return true;
    }

    method SwitchToNextNodeLocked() returns (switched: bool)
      requires Valid()
      modifies this
      ensures Valid() && (State(), switched) == SwitchedToNext(old(State()))
    {
      hide SwitchedTo;
      var from := target;
      var candidates := seq(|clusterNodes|, i requires 0 <= i < |clusterNodes| reads this => TargetOf(clusterNodes[i]));
      if TrimSpace(seed.host) != "" && seed.port > 0 {
        candidates := candidates + [seed];
      }
      assert candidates == Candidates(State());
      hide Candidates;
      for i := 0 to |candidates|
        invariant Valid() && State() == old(State())
        invariant FirstElsewhere(candidates, from) == FirstElsewhere(candidates[i..], from)
      {
        var host := TrimSpace(candidates[i].host);
        assert candidates[i..][1..] == candidates[i + 1..];
        if host == "" || candidates[i].port <= 0 {
          continue;
        }
        if host == TrimSpace(from.host) && candidates[i].port == from.port {
          continue;
        }
        TrimmedSwitch(State(), candidates[i]);
        switched := SwitchToNodeLocked(Target(host, candidates[i].port));
        return;
      }
      return false;
    }

    method FailoverAfterReconnectFailure() returns (switched: bool)
      requires Valid()
      modifies this
      ensures Valid() && (State(), switched) == AfterFailure(old(State())) && State() == Apply(old(State()), Failure)
    {
      hide SwitchedToNext;
      if !discovery {
        reconnectFailures := 0;
        return false;
      }
      reconnectFailures := reconnectFailures + 1;
      if reconnectFailures < THRESHOLD {
        return false;
      }
      reconnectFailures := 0;
      switched := SwitchToNextNodeLocked();
    }

    method FailoverAfterSubscriptionTimeout() returns (switched: bool)
      requires Valid()
      modifies this
      ensures Valid() && (State(), switched) == AfterTimeout(old(State())) && State() == Apply(old(State()), Timeout)
    {
      hide SwitchedToNext;
      reconnectFailures := 0;
      if !discovery {
        return false;
      }
      switched := SwitchToNextNodeLocked();
    }

    /** `refreshClusterNodes`, with the nodes of the reply. */
    method RefreshClusterNodes(reply: seq<Node>) returns (switched: bool)
      requires Valid()
      modifies this
      ensures Valid() && (State(), switched) == Refreshed(old(State()), reply)
    {
      hide SwitchedTo, Normalized;
      if !discovery {
        return false;
      }
      var nodes := NormalizeClusterNodes(reply);
      if |nodes| == 0 {
        return false;
      }
      clusterNodes, reconnectFailures := nodes, 0;
      switched := SwitchToNodeLocked(TargetOf(nodes[0]));
    }

    method UpdateClusterNodes(payload: seq<Node>)
      requires Valid()
      modifies this
      ensures Valid() && State() == Updated(old(State()), payload)
    {
      if discovery {
        clusterNodes := NormalizeClusterNodes(payload);
      }
    }

    method ResetReconnectFailures()
      requires Valid()
      modifies this
      ensures Valid() && State() == Apply(old(State()), ResetFailures)
    {
      reconnectFailures := 0;
    }
  }

  /** Switching to a trimmed address is switching to the address. */
  lemma TrimmedSwitch(c: Client, to: Target)
    ensures SwitchedTo(c, Addr(to)) == SwitchedTo(c, to)
  {
    TrimTwice(to.host);
    hide TrimSpace, ClientsClosed;
  }
}
