/** The structural check a call flow must pass before it can be published. */
module FlowValidation {
  import opened FlowIssues

  // ------------------------------------------------------------------ reachability

  lemma ReachableSelf(flow: Flow, a: string)
    ensures Reachable(flow, a, a)
  {
    assert WalkBetween(flow, [a], a, a);
  }

  lemma ReachableStep(flow: Flow, a: string, b: string, c: string)
    requires Reachable(flow, a, b) && Link(flow, b, c)
    ensures Reachable(flow, a, c)
  {
    var path :| WalkBetween(flow, path, a, b);
    assert WalkBetween(flow, path + [c], a, c);
  }

  /** A set that contains the start and is closed under links contains every reachable node. */
  lemma {:induction false} ClosedUnderWalks(flow: Flow, visited: set<string>, path: seq<string>)
    requires Walk(flow, path) && path[0] in visited
    requires forall a, b :: a in visited && Link(flow, a, b) ==> b in visited
    ensures path[|path| - 1] in visited
    decreases |path|
  {
    if |path| > 1 {
      var shorter := path[..|path| - 1];
      assert Link(flow, path[|path| - 2], path[|path| - 1]);
      ClosedUnderWalks(flow, visited, shorter);
    }
  }

  /** The edges that leave each node, dangling ones left out. */
  ghost predicate IsOutgoing(flow: Flow, outgoing: map<string, seq<Edge>>, n: nat)
    requires n <= |flow.edges|
  {
    && (forall id, k :: id in outgoing && 0 <= k < |outgoing[id]| ==>
          outgoing[id][k] in flow.edges && outgoing[id][k].source == id && !Dangling(flow, outgoing[id][k]))
    && (forall i :: 0 <= i < n && !Dangling(flow, flow.edges[i]) ==>
          flow.edges[i].source in outgoing && flow.edges[i] in outgoing[flow.edges[i].source])
  }

  function EdgesOf(outgoing: map<string, seq<Edge>>, id: string): seq<Edge> {
    if id in outgoing then outgoing[id] else []
  }

  lemma OutgoingIsLink(flow: Flow, outgoing: map<string, seq<Edge>>, id: string)
    requires IsOutgoing(flow, outgoing, |flow.edges|)
    ensures forall b :: b in Targets(EdgesOf(outgoing, id)) <==> Link(flow, id, b)
    ensures HasExit(flow, id) <==> EdgesOf(outgoing, id) != []
  {
    var edges := EdgesOf(outgoing, id);
    forall b | b in Targets(edges)
      ensures Link(flow, id, b)
    {
      var k :| 0 <= k < |edges| && edges[k].target == b;
      assert edges[k] in flow.edges;
    }
    forall b | Link(flow, id, b)
      ensures b in Targets(edges)
    {
      var i :| 0 <= i < |flow.edges|
        && flow.edges[i].source == id && flow.edges[i].target == b && !Dangling(flow, flow.edges[i]);
      var k :| 0 <= k < |edges| && edges[k] == flow.edges[i];
      assert Targets(edges)[k] == b;
    }
    if edges != [] {
      assert Targets(edges)[0] in Targets(edges);
    }
  }

  function Targets(edges: seq<Edge>): (r: seq<string>)
    ensures |r| == |edges| && forall i :: 0 <= i < |edges| ==> r[i] == edges[i].target
  {
    seq(|edges|, i requires 0 <= i < |edges| => edges[i].target)
  }

  method PushTargets(queue: seq<string>, edges: seq<Edge>) returns (queue': seq<string>)
    ensures queue' == queue + Targets(edges)
  {
    queue' := queue;
    for k := 0 to |edges|
      invariant queue' == queue + Targets(edges)[..k]
    {
      queue' := queue' + [edges[k].target];
    }
  }

  /** What the worklist keeps: everything seen can be reached, and the links of every visited node
    * lead to nodes that are visited or queued. */
  ghost predicate Exploring(flow: Flow, start: string, visited: set<string>, queue: seq<string>) {
    && (start in visited || start in queue)
    && (forall id :: id in visited ==> Reachable(flow, start, id))
    && (forall id :: id in queue ==> HasNode(flow, id) && Reachable(flow, start, id))
    && (forall a, b :: a in visited && Link(flow, a, b) ==> b in visited || b in queue)
  }

  lemma SkipVisited(flow: Flow, start: string, visited: set<string>, queue: seq<string>)
    requires queue != [] && queue[0] in visited && Exploring(flow, start, visited, queue)
    ensures Exploring(flow, start, visited, queue[1..])
  {
    assert queue == [queue[0]] + queue[1..];
  }

  lemma VisitNode(flow: Flow, start: string, visited: set<string>, queue: seq<string>, targets: seq<string>)
    requires queue != [] && Exploring(flow, start, visited, queue)
    requires forall b :: b in targets <==> Link(flow, queue[0], b)
    ensures Exploring(flow, start, visited + {queue[0]}, queue[1..] + targets)
  {
    var id := queue[0];
    assert queue == [id] + queue[1..];
    forall b | b in targets
      ensures HasNode(flow, b) && Reachable(flow, start, b)
    {
      ReachableStep(flow, start, id, b);
    }
  }

  lemma ExploredExactly(flow: Flow, start: string, visited: set<string>)
    requires Exploring(flow, start, visited, [])
    ensures forall id :: id in visited <==> Reachable(flow, start, id)
  {
    forall id | Reachable(flow, start, id)
      ensures id in visited
    {
      var path :| WalkBetween(flow, path, start, id);
      ClosedUnderWalks(flow, visited, path);
    }
  }

  /** The worklist: it ends because every round visits a new node or shortens the queue, and it has
    * then visited exactly the nodes that can be reached. */
  method Visit(flow: Flow, nodeIds: set<string>, outgoing: map<string, seq<Edge>>, start: string)
    returns (visited: set<string>)
    requires forall id :: id in nodeIds <==> HasNode(flow, id)
    requires IsOutgoing(flow, outgoing, |flow.edges|)
    requires start in nodeIds
    ensures forall id :: id in visited <==> Reachable(flow, start, id)
  {
    visited := {};
    var queue := [start];
    ReachableSelf(flow, start);
    while |queue| > 0
      invariant visited <= nodeIds
      invariant Exploring(flow, start, visited, queue)
      decreases |nodeIds - visited|, |queue|
    {
      var id := queue[0];
      if id in visited {
        SkipVisited(flow, start, visited, queue);
        queue := queue[1..];
        continue;
      }
      var edges := EdgesOf(outgoing, id);
      OutgoingIsLink(flow, outgoing, id);
      VisitNode(flow, start, visited, queue, Targets(edges));
      SmallerSet(nodeIds - (visited + {id}), nodeIds - visited);
      visited := visited + {id};
      queue := PushTargets(queue[1..], edges);
    }
    ExploredExactly(flow, start, visited);
  }

  lemma SmallerSet(a: set<string>, b: set<string>)
    requires a < b
    ensures |a| < |b|
  {
    assert b == a + (b - a) && b - a != {};
  }

  method CollectOutgoing(flow: Flow, nodeIds: set<string>)
    returns (outgoing: map<string, seq<Edge>>, issues: seq<Issue>)
    requires forall id :: id in nodeIds <==> HasNode(flow, id)
    ensures IsOutgoing(flow, outgoing, |flow.edges|)
    ensures issues == DanglingEdges(flow, |flow.edges|)
  {
    outgoing, issues := map[], [];
    for n := 0 to |flow.edges|
      invariant IsOutgoing(flow, outgoing, n)
      invariant issues == DanglingEdges(flow, n)
    {
      var edge := flow.edges[n];
      if edge.source !in nodeIds || edge.target !in nodeIds {
        issues := issues + [DanglingEdge(edge.id)];
        continue;
      }
      AddEdge(flow, outgoing, n);
      outgoing := outgoing[edge.source := EdgesOf(outgoing, edge.source) + [edge]];
    }
  }

  lemma AddEdge(flow: Flow, outgoing: map<string, seq<Edge>>, n: nat)
    requires n < |flow.edges| && IsOutgoing(flow, outgoing, n) && !Dangling(flow, flow.edges[n])
    ensures var edge := flow.edges[n];
      IsOutgoing(flow, outgoing[edge.source := EdgesOf(outgoing, edge.source) + [edge]], n + 1)
  {
    var edge := flow.edges[n];
    var list := EdgesOf(outgoing, edge.source) + [edge];
    assert list[|list| - 1] == edge;
    assert forall e :: e in EdgesOf(outgoing, edge.source) ==> e in list;
  }

  method CollectNodeIds(flow: Flow) returns (nodeIds: set<string>, issues: seq<Issue>)
    ensures forall id :: id in nodeIds <==> HasNode(flow, id)
    ensures issues == Duplicates(flow.nodes, |flow.nodes|)
  {
    nodeIds, issues := {}, [];
    for n := 0 to |flow.nodes|
      invariant issues == Duplicates(flow.nodes, n)
      invariant forall id :: id in nodeIds <==> exists i :: 0 <= i < n && flow.nodes[i].id == id
    {
      if flow.nodes[n].id in nodeIds {
        issues := issues + [DuplicateNode(flow.nodes[n].id)];
      }
      nodeIds := nodeIds + {flow.nodes[n].id};
    }
  }

  method CheckExits(flow: Flow, outgoing: map<string, seq<Edge>>) returns (issues: seq<Issue>)
    requires IsOutgoing(flow, outgoing, |flow.edges|)
    ensures issues == DeadEnds(flow, |flow.nodes|)
  {
    issues := [];
    for n := 0 to |flow.nodes|
      invariant issues == DeadEnds(flow, n)
    {
      var node := flow.nodes[n];
      OutgoingIsLink(flow, outgoing, node.id);
      if !IsEnd(node) && EdgesOf(outgoing, node.id) == [] {
        issues := issues + [DeadEnd(node.id)];
      }
    }
  }

  method CheckVisited(flow: Flow, start: string, visited: set<string>) returns (issues: seq<Issue>)
    requires forall id :: id in visited <==> Reachable(flow, start, id)
    ensures issues == Unreachables(flow, start, |flow.nodes|)
  {
    issues := [];
    for n := 0 to |flow.nodes|
      invariant issues == Unreachables(flow, start, n)
    {
      if flow.nodes[n].id !in visited {
        issues := issues + [UnreachableNode(flow.nodes[n].id)];
      }
    }
  }

  /** The check: the issues are exactly those of the flow, in order, and there are none exactly when
    * the flow may be published. */
  method Validate(flow: Flow) returns (issues: seq<Issue>)
    ensures issues == Issues(flow) && IsReport(flow, issues)
    ensures issues == [] <==> Publishable(flow)
  {
    NoIssuesIffPublishable(flow);
    IssuesAreReport(flow);
    hide IsReport;
    var nodeIds, duplicates := CollectNodeIds(flow);
    issues := duplicates;

    var starts := Starts(flow.nodes);
    issues := issues + CountIssues(flow, starts);

    var outgoing, dangling := CollectOutgoing(flow, nodeIds);
    var deadEnds := CheckExits(flow, outgoing);
    issues := issues + dangling + deadEnds;

    if |starts| == 1 {
      assert starts[0] in flow.nodes;
      var visited := Visit(flow, nodeIds, outgoing, starts[0].id);
      var unreachable := CheckVisited(flow, starts[0].id, visited);
      issues := issues + unreachable;
    }
  }

  // -------------------------------------------------------------- the accept condition

  lemma {:induction false} NoDuplicates(nodes: seq<Node>, n: nat)
    requires n <= |nodes|
    ensures Duplicates(nodes, n) == [] <==> forall i, j :: 0 <= i < j < n ==> nodes[i].id != nodes[j].id
  {
    if n > 0 {
      NoDuplicates(nodes, n - 1);
    }
  }

  lemma {:induction false} NoDangling(flow: Flow, n: nat)
    requires n <= |flow.edges|
    ensures DanglingEdges(flow, n) == [] <==> forall i :: 0 <= i < n ==> !Dangling(flow, flow.edges[i])
  {
    if n > 0 {
      NoDangling(flow, n - 1);
    }
  }

  lemma {:induction false} NoDeadEnds(flow: Flow, n: nat)
    requires n <= |flow.nodes|
    ensures DeadEnds(flow, n) == [] <==>
      forall i :: 0 <= i < n && !IsEnd(flow.nodes[i]) ==> HasExit(flow, flow.nodes[i].id)
  {
    if n > 0 {
      NoDeadEnds(flow, n - 1);
    }
  }

  lemma {:induction false} NoUnreachables(flow: Flow, start: string, n: nat)
    requires n <= |flow.nodes|
    ensures Unreachables(flow, start, n) == [] <==>
      forall i :: 0 <= i < n ==> Reachable(flow, start, flow.nodes[i].id)
  {
    if n > 0 {
      NoUnreachables(flow, start, n - 1);
    }
  }

  lemma NoIssuesIffPublishable(flow: Flow)
    ensures Issues(flow) == [] <==> Publishable(flow)
  {
    NoDuplicates(flow.nodes, |flow.nodes|);
    NoDangling(flow, |flow.edges|);
    NoDeadEnds(flow, |flow.nodes|);
    if |Starts(flow.nodes)| == 1 {
      NoUnreachables(flow, Starts(flow.nodes)[0].id, |flow.nodes|);
    }
  }

  /** In a published flow a call can only get stuck at an end node. */
  lemma StuckOnlyAtEnd(flow: Flow, path: seq<string>)
    requires Issues(flow) == []
    requires Walk(flow, path) && path[0] == Starts(flow.nodes)[0].id
    ensures HasExit(flow, path[|path| - 1])
      || exists i :: 0 <= i < |flow.nodes| && IsEnd(flow.nodes[i]) && flow.nodes[i].id == path[|path| - 1]
  {
    NoIssuesIffPublishable(flow);
    var last := path[|path| - 1];
    var start := Starts(flow.nodes)[0];
    assert start in flow.nodes;
    assert HasNode(flow, last) by {
      if |path| > 1 {
        assert Link(flow, path[|path| - 2], last);
      }
    }
    var i :| 0 <= i < |flow.nodes| && flow.nodes[i].id == last;
  }

  /** Nothing promises that an end node can be reached from everywhere: this flow is accepted, and a
    * call that enters node `a` never leaves it. */
  lemma AcceptedFlowCanTrap()
    ensures Issues(TrapFlow()) == []
    ensures HasNode(TrapFlow(), "a")
    ensures forall b :: Reachable(TrapFlow(), "a", b) ==> b == "a"
    ensures forall n :: n in TrapFlow().nodes && IsEnd(n) ==> n.id != "a"
  {
    var flow := TrapFlow();
    TrapFlowLinks();
    hide Publishable, Issues, Link;
    TrapFlowPublishable();
    NoIssuesIffPublishable(flow);
    forall b | Reachable(flow, "a", b)
      ensures b == "a"
    {
      var path :| WalkBetween(flow, path, "a", b);
      ClosedUnderWalks(flow, {"a"}, path);
    }
  }

  lemma TrapFlowPublishable()
    ensures Publishable(TrapFlow())
  {
    TrapFlowLinks();
    TrapFlowStarts();
    TrapFlowReachable();
    TrapFlowNodes();
    hide TrapFlow, Reachable, Link, Dangling, HasNode, Starts;
  }

  lemma TrapFlowNodes()
    ensures var flow := TrapFlow();
      && |flow.nodes| == 3 && flow.nodes[0].id == "s" && flow.nodes[1].id == "a" && flow.nodes[2].id == "e"
      && IsEnd(flow.nodes[2]) && "s" != "a" && "a" != "e" && "s" != "e"
      && (forall i, j :: 0 <= i < j < |flow.nodes| ==> flow.nodes[i].id != flow.nodes[j].id)
  {
    assert "s"[0] == 's' && "a"[0] == 'a' && "e"[0] == 'e';
  }

  lemma TrapFlowStarts()
    ensures Starts(TrapFlow().nodes) == [Node("s", Start)]
  {
    assert TrapFlow().nodes[1..] == [Node("a", Dialog), Node("e", End)];
    assert [Node("a", Dialog), Node("e", End)][1..] == [Node("e", End)];
  }

  lemma TrapFlowReachable()
    ensures forall id :: id in ["s", "a", "e"] ==> Reachable(TrapFlow(), "s", id)
  {
    TrapFlowLinks();
    hide TrapFlow;
    ReachableSelf(TrapFlow(), "s");
    ReachableStep(TrapFlow(), "s", "s", "a");
    ReachableStep(TrapFlow(), "s", "s", "e");
  }

  function TrapFlow(): Flow {
    Flow([Node("s", Start), Node("a", Dialog), Node("e", End)],
         [Edge("1", "s", "a"), Edge("2", "s", "e"), Edge("3", "a", "a")])
  }

  lemma TrapFlowLinks()
    ensures var flow := TrapFlow();
      && HasNode(flow, "s") && HasNode(flow, "a") && HasNode(flow, "e")
      && Link(flow, "s", "a") && Link(flow, "s", "e") && Link(flow, "a", "a")
      && (forall i :: 0 <= i < |flow.edges| ==> !Dangling(flow, flow.edges[i]))
      && forall b :: Link(flow, "a", b) ==> b == "a"
  {
    var flow := TrapFlow();
    assert flow.nodes[0].id == "s" && flow.nodes[1].id == "a" && flow.nodes[2].id == "e";
    assert flow.edges[0].source == "s" && flow.edges[1].source == "s" && flow.edges[2].source == "a";
  }
}
