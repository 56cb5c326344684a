/** The nodes of the Home cluster: cleaning up a list and ordering it by load. */
module ClusterNodes {
  import opened Strings

  datatype Node = Node(ip: string, port: int, clientCount: int)

  predicate Usable(n: Node) {
    TrimSpace(n.ip) != "" && n.port > 0
  }

  function Cleaned(n: Node): Node {
    n.(ip := TrimSpace(n.ip), clientCount := if n.clientCount < 0 then 0 else n.clientCount)
  }

  /** The usable nodes, cleaned, in their order. */
  function UsableNodes(nodes: seq<Node>): seq<Node> {
    if nodes == [] then []
    else UsableNodes(nodes[..|nodes| - 1]) + if Usable(nodes[|nodes| - 1]) then [Cleaned(nodes[|nodes| - 1])] else []
  }

  /** `n` goes behind the nodes that are no busier. */
  function Inserted(nodes: seq<Node>, n: Node): seq<Node> {
    if nodes == [] || nodes[|nodes| - 1].clientCount <= n.clientCount then nodes + [n]
    else Inserted(nodes[..|nodes| - 1], n) + [nodes[|nodes| - 1]]
  }

  /** `sort.SliceStable` by client count. */
  function ByLoad(nodes: seq<Node>): seq<Node> {
    if nodes == [] then [] else Inserted(ByLoad(nodes[..|nodes| - 1]), nodes[|nodes| - 1])
  }

  /** `normalizeClusterNodes`. */
  function Normalized(nodes: seq<Node>): seq<Node> {
    ByLoad(UsableNodes(nodes))
  }

  // ------------------------------------------------------------- what it means

  predicate Ascending(nodes: seq<Node>) {
    forall i, j :: 0 <= i < j < |nodes| ==> nodes[i].clientCount <= nodes[j].clientCount
  }

  /** The nodes with one client count, in their order. */
  function WithCount(nodes: seq<Node>, count: int): seq<Node> {
    if nodes == [] then []
    else WithCount(nodes[..|nodes| - 1], count) + if nodes[|nodes| - 1].clientCount == count then [nodes[|nodes| - 1]] else []
  }

  lemma {:induction false} WithCountConcat(a: seq<Node>, b: seq<Node>, count: int)
    ensures WithCount(a + b, count) == WithCount(a, count) + WithCount(b, count)
    decreases |b|
  {
    if b == [] {
      assert a + b == a;
    } else {
      assert (a + b)[..|a + b| - 1] == a + b[..|b| - 1];
      WithCountConcat(a, b[..|b| - 1], count);
    }
  }

  lemma WithCountSwap(nodes: seq<Node>, a: Node, b: Node, count: int)
    requires a.clientCount != b.clientCount
    ensures WithCount(nodes + [a] + [b], count) == WithCount(nodes + [b] + [a], count)
  {
    assert (nodes + [a] + [b])[..|nodes| + 1][..|nodes|] == nodes && (nodes + [a] + [b])[..|nodes| + 1] == nodes + [a];
    assert (nodes + [b] + [a])[..|nodes| + 1][..|nodes|] == nodes && (nodes + [b] + [a])[..|nodes| + 1] == nodes + [b];
  }

  lemma {:induction false} InsertedSorted(nodes: seq<Node>, n: Node)
    requires Ascending(nodes)
    ensures Ascending(Inserted(nodes, n)) && |Inserted(nodes, n)| == |nodes| + 1
    ensures forall x :: x in Inserted(nodes, n) <==> x in nodes || x == n
  {
    if nodes != [] && nodes[|nodes| - 1].clientCount > n.clientCount {
      var init, last := nodes[..|nodes| - 1], nodes[|nodes| - 1];
      InsertedSorted(init, n);
      var short := Inserted(init, n);
      assert nodes == init + [last] && Inserted(nodes, n) == short + [last];
      hide Inserted;
      forall i | 0 <= i < |short| ensures short[i].clientCount <= last.clientCount {
        assert short[i] in short;
        if short[i] in init { var j :| 0 <= j < |init| && init[j] == short[i]; assert nodes[j] == init[j]; }
      }
    }
  }

  lemma {:induction false} InsertedCounts(nodes: seq<Node>, n: Node, count: int)
    ensures WithCount(Inserted(nodes, n), count) == WithCount(nodes + [n], count)
  {
    if nodes != [] && nodes[|nodes| - 1].clientCount > n.clientCount {
      var init, last := nodes[..|nodes| - 1], nodes[|nodes| - 1];
      InsertedCounts(init, n, count);
      assert nodes == init + [last] && Inserted(nodes, n) == Inserted(init, n) + [last];
      hide Inserted, WithCount;
      WithCountConcat(Inserted(init, n), [last], count);
      WithCountConcat(init + [n], [last], count);
      WithCountSwap(init, n, last, count);
    }
  }

  /** Ordering by load sorts, loses and makes up nothing, and keeps the order among equals. */
  lemma {:induction false} ByLoadIs(nodes: seq<Node>, count: int)
    ensures Ascending(ByLoad(nodes)) && |ByLoad(nodes)| == |nodes|
    ensures forall x :: x in ByLoad(nodes) <==> x in nodes
    ensures WithCount(ByLoad(nodes), count) == WithCount(nodes, count)
  {
    if nodes != [] {
      var init, last := nodes[..|nodes| - 1], nodes[|nodes| - 1];
      ByLoadIs(init, count);
      InsertedSorted(ByLoad(init), last);
      InsertedCounts(ByLoad(init), last, count);
      WithCountConcat(ByLoad(init), [last], count);
      WithCountConcat(init, [last], count);
      assert nodes == init + [last];
      hide WithCount, Inserted;
    }
  }

  predicate Clean(n: Node) {
    TrimSpace(n.ip) == n.ip != "" && n.port > 0 && n.clientCount >= 0
  }

  lemma {:induction false} UsableNodesIs(nodes: seq<Node>)
    ensures forall n :: n in UsableNodes(nodes) ==> Clean(n)
    ensures forall n :: n in nodes && Usable(n) ==> Cleaned(n) in UsableNodes(nodes)
    ensures forall n :: n in UsableNodes(nodes) ==> exists m :: m in nodes && Usable(m) && n == Cleaned(m)
  {
    hide TrimSpace;
    if nodes != [] {
      var init, last := nodes[..|nodes| - 1], nodes[|nodes| - 1];
      UsableNodesIs(init);
      TrimTwice(last.ip);
      assert nodes == init + [last];
    }
  }

  /** The first node of a normalized list is a usable one with the fewest clients. */
  lemma FirstIsLeastLoaded(nodes: seq<Node>)
    ensures Normalized(nodes) == [] <==> forall n :: n in nodes ==> !Usable(n)
    ensures Normalized(nodes) != [] ==> forall n :: n in nodes && Usable(n) ==> Normalized(nodes)[0].clientCount <= Cleaned(n).clientCount
    ensures forall n :: n in Normalized(nodes) ==> Clean(n)
  {
    hide Cleaned, Usable, Clean;
    UsableNodesIs(nodes);
    ByLoadIs(UsableNodes(nodes), 0);
    var sorted := Normalized(nodes);
    forall n | n in nodes && Usable(n) ensures sorted != [] && sorted[0].clientCount <= Cleaned(n).clientCount {
      assert Cleaned(n) in sorted;
    }
    if sorted != [] {
      assert sorted[0] in UsableNodes(nodes);
    }
  }

  /** One more node reported: if it has an address and a port it comes, without surrounding space and with no
      less than no clients, behind the known ones with as many clients, and otherwise it is left out. */
  lemma OneMore(nodes: seq<Node>, n: Node, count: int)
    ensures var tidy := Node(TrimSpace(n.ip), n.port, if n.clientCount < 0 then 0 else n.clientCount);
            WithCount(Normalized(nodes + [n]), count) ==
              WithCount(Normalized(nodes), count)
              + if TrimSpace(n.ip) != "" && n.port > 0 && tidy.clientCount == count then [tidy] else []
    ensures Normalized([]) == []
  {
    var tidy := Node(TrimSpace(n.ip), n.port, if n.clientCount < 0 then 0 else n.clientCount);
    var extra := if TrimSpace(n.ip) != "" && n.port > 0 then [tidy] else [];
    UsableSnoc(nodes, n);
    MoreSorted(UsableNodes(nodes), extra, count);
    OneCounts(tidy, count);
    assert ByLoad(UsableNodes([])) == [] && WithCount([], count) == [];
    hide ByLoad, UsableNodes, TrimSpace, WithCount;
  }

  lemma MoreSorted(usable: seq<Node>, extra: seq<Node>, count: int)
    ensures WithCount(ByLoad(usable + extra), count) == WithCount(ByLoad(usable), count) + WithCount(extra, count)
  {
    hide ByLoad, WithCount;
    ByLoadIs(usable, count);
    ByLoadIs(usable + extra, count);
    WithCountConcat(usable, extra, count);
  }

  lemma OneCounts(n: Node, count: int)
    ensures WithCount([n], count) == if n.clientCount == count then [n] else []
  {
    assert [n][..0] == [] && WithCount([], count) == [];
  }

  lemma UsableSnoc(nodes: seq<Node>, n: Node)
    ensures UsableNodes(nodes + [n]) ==
              UsableNodes(nodes)
              + if TrimSpace(n.ip) != "" && n.port > 0
                then [Node(TrimSpace(n.ip), n.port, if n.clientCount < 0 then 0 else n.clientCount)] else []
  {
    assert (nodes + [n])[..|nodes|] == nodes;
    hide TrimSpace;
  }

  // ------------------------------------------------------------------- methods

  method StableInsert(nodes: seq<Node>, n: Node) returns (r: seq<Node>)
    ensures r == Inserted(nodes, n)
  {
    var i := |nodes|;
    assert nodes[..i] == nodes && Inserted(nodes, n) + [] == Inserted(nodes, n);
    while i > 0 && nodes[i - 1].clientCount > n.clientCount
      invariant 0 <= i <= |nodes|
      invariant Inserted(nodes, n) == Inserted(nodes[..i], n) + nodes[i..]
    {
      assert nodes[..i][..i - 1] == nodes[..i - 1];
      assert [nodes[i - 1]] + nodes[i..] == nodes[i - 1..];
      i := i - 1;
    }
    r := nodes[..i] + [n] + nodes[i..];
  }

  method NormalizeClusterNodes(nodes: seq<Node>) returns (out: seq<Node>)
    ensures out == Normalized(nodes)
  {
    var usable := CollectUsable(nodes);
    hide Inserted, UsableNodes;
    out := [];
    for i := 0 to |usable|
      invariant out == ByLoad(usable[..i])
    {
      assert usable[..i + 1][..i] == usable[..i];
      out := StableInsert(out, usable[i]);
    }
    assert usable[..|usable|] == usable;
  }

  method CollectUsable(nodes: seq<Node>) returns (usable: seq<Node>)
    ensures usable == UsableNodes(nodes)
  {
    hide Usable, Cleaned;
    usable := [];
    for i := 0 to |nodes|
      invariant usable == UsableNodes(nodes[..i])
    {
      assert nodes[..i + 1][..i] == nodes[..i];
      if Usable(nodes[i]) {
        usable := usable + [Cleaned(nodes[i])];
      }
    }
    assert nodes[..|nodes|] == nodes;
  }
}
