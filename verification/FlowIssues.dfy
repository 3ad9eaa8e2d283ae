/** The issues that keep a flow from being published: what they are, and that this is what they say. */
module FlowIssues {

  datatype NodeKind = Start | Dialog | Action | End

  datatype Node = Node(id: string, kind: NodeKind)

  datatype Edge = Edge(id: string, source: string, target: string)

  datatype Flow = Flow(nodes: seq<Node>, edges: seq<Edge>)

  datatype Issue =
    | DuplicateNode(nodeId: string)
    | StartCount(count: nat)
    | MissingEnd
    | DanglingEdge(edgeId: string)
    | DeadEnd(nodeId: string)
    | UnreachableNode(nodeId: string)

  // ------------------------------------------------------- what a flow should be

  predicate HasNode(flow: Flow, id: string) {
    exists i :: 0 <= i < |flow.nodes| && flow.nodes[i].id == id
  }

  predicate Dangling(flow: Flow, e: Edge) {
    !HasNode(flow, e.source) || !HasNode(flow, e.target)
  }

  /** An edge leads from `a` to `b`, and both exist. */
  predicate Link(flow: Flow, a: string, b: string) {
    exists i :: 0 <= i < |flow.edges|
      && flow.edges[i].source == a && flow.edges[i].target == b && !Dangling(flow, flow.edges[i])
  }

  ghost predicate HasExit(flow: Flow, a: string) {
    exists b :: Link(flow, a, b)
  }

  ghost predicate Walk(flow: Flow, path: seq<string>) {
    path != [] && forall i :: 0 <= i < |path| - 1 ==> Link(flow, path[i], path[i + 1])
  }

  ghost predicate WalkBetween(flow: Flow, path: seq<string>, a: string, b: string) {
    Walk(flow, path) && path[0] == a && path[|path| - 1] == b
  }

  ghost predicate Reachable(flow: Flow, a: string, b: string) {
    exists path :: WalkBetween(flow, path, a, b)
  }

  predicate IsStart(n: Node) {
    n.kind.Start?
  }

  predicate IsEnd(n: Node) {
    n.kind.End?
  }

  function Starts(nodes: seq<Node>): (r: seq<Node>)
    ensures forall n :: n in r <==> n in nodes && IsStart(n)
  {
    if nodes == [] then [] else
    assert nodes == [nodes[0]] + nodes[1..];
    (if IsStart(nodes[0]) then [nodes[0]] else []) + Starts(nodes[1..])
  }

  /** A flow that may be published. */
  ghost predicate Publishable(flow: Flow) {
    && (forall i, j :: 0 <= i < j < |flow.nodes| ==> flow.nodes[i].id != flow.nodes[j].id)
    && |Starts(flow.nodes)| == 1
    && (exists i :: 0 <= i < |flow.nodes| && IsEnd(flow.nodes[i]))
    && (forall i :: 0 <= i < |flow.edges| ==> !Dangling(flow, flow.edges[i]))
    && (forall i :: 0 <= i < |flow.nodes| && !IsEnd(flow.nodes[i]) ==> HasExit(flow, flow.nodes[i].id))
    && (forall i :: 0 <= i < |flow.nodes| ==> Reachable(flow, Starts(flow.nodes)[0].id, flow.nodes[i].id))
  }

  // ------------------------------------------------------------ the issues, in order

  predicate Repeated(nodes: seq<Node>, n: nat)
    requires n < |nodes|
  {
    exists j :: 0 <= j < n && nodes[j].id == nodes[n].id
  }

  ghost function Duplicates(nodes: seq<Node>, n: nat): seq<Issue>
    requires n <= |nodes|
  {
    if n == 0 then []
    else Duplicates(nodes, n - 1) + if Repeated(nodes, n - 1) then [DuplicateNode(nodes[n - 1].id)] else []
  }

  ghost function DanglingEdges(flow: Flow, n: nat): seq<Issue>
    requires n <= |flow.edges|
  {
    if n == 0 then []
    else
      DanglingEdges(flow, n - 1) +
      if Dangling(flow, flow.edges[n - 1]) then [DanglingEdge(flow.edges[n - 1].id)] else []
  }

  ghost function DeadEnds(flow: Flow, n: nat): seq<Issue>
    requires n <= |flow.nodes|
  {
    if n == 0 then [] else
    var node := flow.nodes[n - 1];
    DeadEnds(flow, n - 1) + if !IsEnd(node) && !HasExit(flow, node.id) then [DeadEnd(node.id)] else []
  }

  ghost function Unreachables(flow: Flow, start: string, n: nat): seq<Issue>
    requires n <= |flow.nodes|
  {
    if n == 0 then [] else
    var id := flow.nodes[n - 1].id;
    Unreachables(flow, start, n - 1) + if !Reachable(flow, start, id) then [UnreachableNode(id)] else []
  }

  function CountIssues(flow: Flow, starts: seq<Node>): seq<Issue> {
    (if |starts| != 1 then [StartCount(|starts|)] else [])
    + (if exists i :: 0 <= i < |flow.nodes| && IsEnd(flow.nodes[i]) then [] else [MissingEnd])
  }

  ghost function Issues(flow: Flow): seq<Issue> {
    var starts := Starts(flow.nodes);
    Duplicates(flow.nodes, |flow.nodes|)
    + CountIssues(flow, starts)
    + DanglingEdges(flow, |flow.edges|)
    + DeadEnds(flow, |flow.nodes|)
    + (if |starts| == 1 then Unreachables(flow, starts[0].id, |flow.nodes|) else [])
  }

  // ------------------------------------------------------------------ what the issues say

  predicate Exists(flow: Flow, id: string) {
    exists n :: n in flow.nodes && n.id == id
  }

  predicate Loose(flow: Flow, e: Edge) {
    !Exists(flow, e.source) || !Exists(flow, e.target)
  }

  /** The node is no end, and no edge leads from it to a node. */
  predicate IsStuck(flow: Flow, n: Node) {
    n.kind != End && forall e :: e in flow.edges && e.source == n.id ==> !Exists(flow, e.target)
  }

  /** A way along edges of the flow, each between nodes that exist and each from where the one before led. */
  ghost predicate Route(flow: Flow, route: seq<Edge>, a: string, b: string) {
    && (forall i :: 0 <= i < |route| ==> route[i] in flow.edges && !Loose(flow, route[i]))
    && (forall i :: 1 <= i < |route| ==> route[i].source == route[i - 1].target)
    && (if route == [] then a == b else route[0].source == a && route[|route| - 1].target == b)
  }

  /** The positions of the start nodes. */
  function StartPositions(flow: Flow): set<nat> {
    set i: nat | i < |flow.nodes| && flow.nodes[i].kind == Start
  }

  ghost predicate NoRoute(flow: Flow, id: string) {
    forall s, route :: s in StartPositions(flow) ==> !Route(flow, route, flow.nodes[s].id, id)
  }

  /** `part` reports, in their order and once each, the positions below `n` that satisfy `q`. */
  ghost predicate Reports(part: seq<Issue>, n: nat, q: nat -> bool, issue: nat -> Issue) {
    exists ps :: ReportsAt(part, ps, n, q, issue)
  }

  ghost predicate ReportsAt(part: seq<Issue>, ps: seq<nat>, n: nat, q: nat -> bool, issue: nat -> Issue) {
    && |ps| == |part|
    && (forall j, k :: 0 <= j < k < |ps| ==> ps[j] < ps[k])
    && (forall p: nat :: p in ps <==> p < n && q(p))
    && forall k :: 0 <= k < |part| ==> part[k] == issue(ps[k])
  }

  // What is reported at a position, and when. (The values beyond the last position do not matter.)

  ghost function RepeatAt(flow: Flow): nat -> bool {
    (p: nat) => p < |flow.nodes| && exists j :: 0 <= j < p && flow.nodes[j].id == flow.nodes[p].id
  }

  function DuplicateAt(flow: Flow): nat -> Issue {
    (p: nat) => if p < |flow.nodes| then DuplicateNode(flow.nodes[p].id) else MissingEnd
  }

  function LooseAt(flow: Flow): nat -> bool {
    (p: nat) => p < |flow.edges| && Loose(flow, flow.edges[p])
  }

  function DanglingAt(flow: Flow): nat -> Issue {
    (p: nat) => if p < |flow.edges| then DanglingEdge(flow.edges[p].id) else MissingEnd
  }

  function StuckAt(flow: Flow): nat -> bool {
    (p: nat) => p < |flow.nodes| && IsStuck(flow, flow.nodes[p])
  }

  function DeadEndAt(flow: Flow): nat -> Issue {
    (p: nat) => if p < |flow.nodes| then DeadEnd(flow.nodes[p].id) else MissingEnd
  }

  ghost function NoRouteAt(flow: Flow): nat -> bool {
    (p: nat) => p < |flow.nodes| && NoRoute(flow, flow.nodes[p].id)
  }

  function UnreachableAt(flow: Flow): nat -> Issue {
    (p: nat) => if p < |flow.nodes| then UnreachableNode(flow.nodes[p].id) else MissingEnd
  }

  /** The report on a flow, part by part: nodes that repeat an id, a number of start nodes other than one, no end,
    * edges that lead from or to nowhere, nodes that are stuck, and, if there is one start, nodes to which no route
    * leads from it. */
  ghost predicate IsReport(flow: Flow, issues: seq<Issue>) {
    exists d, c, g, e, u :: issues == d + c + g + e + u && HasParts(flow, d, c, g, e, u)
  }

  ghost predicate HasParts(flow: Flow, d: seq<Issue>, c: seq<Issue>, g: seq<Issue>, e: seq<Issue>, u: seq<Issue>) {
    && Reports(d, |flow.nodes|, RepeatAt(flow), DuplicateAt(flow))
    && c == (if |StartPositions(flow)| != 1 then [StartCount(|StartPositions(flow)|)] else [])
            + (if forall n :: n in flow.nodes ==> n.kind != End then [MissingEnd] else [])
    && Reports(g, |flow.edges|, LooseAt(flow), DanglingAt(flow))
    && Reports(e, |flow.nodes|, StuckAt(flow), DeadEndAt(flow))
    && (if |StartPositions(flow)| != 1 then u == []
        else Reports(u, |flow.nodes|, NoRouteAt(flow), UnreachableAt(flow)))
  }

  // ------------------------------------------------------------- one issue at a time

  ghost predicate Picks(p: nat, n: nat, q: nat -> bool, issue: nat -> Issue, x: Issue) {
    p < n && q(p) && issue(p) == x
  }

  lemma ReportedMembers(part: seq<Issue>, n: nat, q: nat -> bool, issue: nat -> Issue, x: Issue)
    requires Reports(part, n, q, issue)
    ensures x in part <==> exists p: nat :: Picks(p, n, q, issue, x)
  {
    var ps :| ReportsAt(part, ps, n, q, issue);
    if x in part {
      var k :| 0 <= k < |part| && part[k] == x;
      assert ps[k] in ps;
      assert Picks(ps[k], n, q, issue, x);
    }
    if p: nat :| Picks(p, n, q, issue, x) {
      assert p in ps;
      var k :| 0 <= k < |ps| && ps[k] == p;
      assert part[k] == x;
    }
  }

  lemma DuplicatesReported(nodes: seq<Node>, part: seq<Issue>, q: nat -> bool, issue: nat -> Issue, x: Issue)
    requires Reports(part, |nodes|, q, issue)
    requires forall p: nat :: p < |nodes| ==> (q(p) <==> exists j :: 0 <= j < p && nodes[j].id == nodes[p].id)
    requires forall p: nat :: p < |nodes| ==> issue(p) == DuplicateNode(nodes[p].id)
    ensures x in part <==>
      x.DuplicateNode? && exists j, p :: 0 <= j < p < |nodes| && nodes[j].id == nodes[p].id == x.nodeId
  {
    ReportedMembers(part, |nodes|, q, issue, x);
    hide Reports;
    if p: nat :| Picks(p, |nodes|, q, issue, x) {
      var j :| 0 <= j < p && nodes[j].id == nodes[p].id;
      assert nodes[j].id == nodes[p].id == x.nodeId;
    }
    if x.DuplicateNode? {
      if j: nat, p: nat :| j < p < |nodes| && nodes[j].id == nodes[p].id == x.nodeId {
        assert nodes[j].id == nodes[p].id;
        assert Picks(p, |nodes|, q, issue, x);
      }
    }
  }

  lemma LooseReported(flow: Flow, part: seq<Issue>, q: nat -> bool, issue: nat -> Issue, x: Issue)
    requires Reports(part, |flow.edges|, q, issue)
    requires forall p: nat :: p < |flow.edges| ==> (q(p) <==> Loose(flow, flow.edges[p]))
    requires forall p: nat :: p < |flow.edges| ==> issue(p) == DanglingEdge(flow.edges[p].id)
    ensures x in part <==> x.DanglingEdge? && exists e :: e in flow.edges && e.id == x.edgeId && Loose(flow, e)
  {
    ReportedMembers(part, |flow.edges|, q, issue, x);
    hide Reports, Loose;
    if p: nat :| Picks(p, |flow.edges|, q, issue, x) {
      assert flow.edges[p] in flow.edges;
    }
    if x.DanglingEdge? {
      if e :| e in flow.edges && e.id == x.edgeId && Loose(flow, e) {
        var p: nat :| p < |flow.edges| && flow.edges[p] == e;
        assert Picks(p, |flow.edges|, q, issue, x);
      }
    }
  }

  lemma StuckReported(flow: Flow, part: seq<Issue>, q: nat -> bool, issue: nat -> Issue, x: Issue)
    requires Reports(part, |flow.nodes|, q, issue)
    requires forall p: nat :: p < |flow.nodes| ==> (q(p) <==> IsStuck(flow, flow.nodes[p]))
    requires forall p: nat :: p < |flow.nodes| ==> issue(p) == DeadEnd(flow.nodes[p].id)
    ensures x in part <==> x.DeadEnd? && exists n :: n in flow.nodes && n.id == x.nodeId && IsStuck(flow, n)
  {
    ReportedMembers(part, |flow.nodes|, q, issue, x);
    hide Reports, IsStuck;
    if p: nat :| Picks(p, |flow.nodes|, q, issue, x) {
      assert flow.nodes[p] in flow.nodes;
    }
    if x.DeadEnd? {
      if n :| n in flow.nodes && n.id == x.nodeId && IsStuck(flow, n) {
        var p: nat :| p < |flow.nodes| && flow.nodes[p] == n;
        assert Picks(p, |flow.nodes|, q, issue, x);
      }
    }
  }

  lemma UnreachedReported(flow: Flow, part: seq<Issue>, q: nat -> bool, issue: nat -> Issue, x: Issue)
    requires Reports(part, |flow.nodes|, q, issue)
    requires forall p: nat :: p < |flow.nodes| ==> (q(p) <==> NoRoute(flow, flow.nodes[p].id))
    requires forall p: nat :: p < |flow.nodes| ==> issue(p) == UnreachableNode(flow.nodes[p].id)
    ensures x in part <==> x.UnreachableNode? && Exists(flow, x.nodeId) && NoRoute(flow, x.nodeId)
  {
    ReportedMembers(part, |flow.nodes|, q, issue, x);
    hide Reports, NoRoute;
    if p: nat :| Picks(p, |flow.nodes|, q, issue, x) {
      assert flow.nodes[p] in flow.nodes;
    }
    if x.UnreachableNode? && Exists(flow, x.nodeId) && NoRoute(flow, x.nodeId) {
      var p: nat :| p < |flow.nodes| && flow.nodes[p].id == x.nodeId;
      assert Picks(p, |flow.nodes|, q, issue, x);
    }
  }

  /** Any report says of each kind of issue exactly where there is one. */
  lemma ReportedIff(flow: Flow, issues: seq<Issue>, x: Issue)
    requires IsReport(flow, issues)
    ensures x in issues <==>
      match x
      case DuplicateNode(id) => exists j, p :: 0 <= j < p < |flow.nodes| && flow.nodes[j].id == flow.nodes[p].id == id
      case StartCount(count) => count == |StartPositions(flow)| && count != 1
      case MissingEnd => forall n :: n in flow.nodes ==> n.kind != End
      case DanglingEdge(id) => exists e :: e in flow.edges && e.id == id && Loose(flow, e)
      case DeadEnd(id) => exists n :: n in flow.nodes && n.id == id && IsStuck(flow, n)
      case UnreachableNode(id) => |StartPositions(flow)| == 1 && Exists(flow, id) && NoRoute(flow, id)
  {
    var d, c, g, e, u :| issues == d + c + g + e + u && HasParts(flow, d, c, g, e, u);
    assert x in issues <==> x in d || x in c || x in g || x in e || x in u;
    DuplicatesReported(flow.nodes, d, RepeatAt(flow), DuplicateAt(flow), x);
    LooseReported(flow, g, LooseAt(flow), DanglingAt(flow), x);
    StuckReported(flow, e, StuckAt(flow), DeadEndAt(flow), x);
    if |StartPositions(flow)| == 1 {
      UnreachedReported(flow, u, NoRouteAt(flow), UnreachableAt(flow), x);
    }
    hide Reports, IsStuck, Loose, NoRoute, Exists, StartPositions;
  }

  // ------------------------------------------------------------ the issues are such a report

  ghost function Picked(n: nat, q: nat -> bool, issue: nat -> Issue): seq<Issue> {
    if n == 0 then [] else Picked(n - 1, q, issue) + if q(n - 1) then [issue(n - 1)] else []
  }

  lemma {:induction false} PickedReports(n: nat, q: nat -> bool, issue: nat -> Issue) returns (ps: seq<nat>)
    ensures ReportsAt(Picked(n, q, issue), ps, n, q, issue)
  {
    ps := [];
    if n > 0 {
      hide ReportsAt;
      ps := PickedReports(n - 1, q, issue);
      OneMorePosition(Picked(n - 1, q, issue), ps, n - 1, q, issue);
      if q(n - 1) {
        ps := ps + [n - 1];
      } else {
        assert Picked(n - 1, q, issue) + [] == Picked(n - 1, q, issue);
      }
    }
  }

  lemma OneMorePosition(part: seq<Issue>, ps: seq<nat>, n: nat, q: nat -> bool, issue: nat -> Issue)
    requires ReportsAt(part, ps, n, q, issue)
    ensures if q(n) then ReportsAt(part + [issue(n)], ps + [n], n + 1, q, issue)
            else ReportsAt(part, ps, n + 1, q, issue)
  {
    assert forall k :: 0 <= k < |ps| ==> ps[k] in ps && ps[k] < n;
    assert forall p: nat :: p in ps + [n] <==> p in ps || p == n;
  }

  lemma {:induction false} DuplicatesPicked(nodes: seq<Node>, n: nat, q: nat -> bool, issue: nat -> Issue)
    requires n <= |nodes|
    requires forall p: nat :: p < n ==> (q(p) <==> exists j :: 0 <= j < p && nodes[j].id == nodes[p].id)
    requires forall p: nat :: p < n ==> issue(p) == DuplicateNode(nodes[p].id)
    ensures Duplicates(nodes, n) == Picked(n, q, issue)
  {
    if n > 0 {
      DuplicatesPicked(nodes, n - 1, q, issue);
    }
  }

  lemma ExistsIff(flow: Flow, id: string)
    ensures HasNode(flow, id) <==> Exists(flow, id)
  {
  }

  lemma LooseIff(flow: Flow, e: Edge)
    ensures Dangling(flow, e) <==> Loose(flow, e)
  {
    ExistsIff(flow, e.source);
    ExistsIff(flow, e.target);
  }

  lemma {:induction false} DanglingPicked(flow: Flow, n: nat, q: nat -> bool, issue: nat -> Issue)
    requires n <= |flow.edges|
    requires forall p: nat :: p < n ==> (q(p) <==> Loose(flow, flow.edges[p]))
    requires forall p: nat :: p < n ==> issue(p) == DanglingEdge(flow.edges[p].id)
    ensures DanglingEdges(flow, n) == Picked(n, q, issue)
  {
    if n > 0 {
      DanglingPicked(flow, n - 1, q, issue);
      LooseIff(flow, flow.edges[n - 1]);
    }
  }

  lemma StuckIff(flow: Flow, n: Node)
    requires n in flow.nodes
    ensures !IsEnd(n) && !HasExit(flow, n.id) <==> IsStuck(flow, n)
  {
    assert Exists(flow, n.id);
    forall e | e in flow.edges {
      LooseIff(flow, e);
    }
    hide Dangling, HasNode, Exists;
    if HasExit(flow, n.id) {
      var b :| Link(flow, n.id, b);
      var i :| 0 <= i < |flow.edges|
        && flow.edges[i].source == n.id && flow.edges[i].target == b && !Dangling(flow, flow.edges[i]);
      assert flow.edges[i] in flow.edges;
    } else if e :| e in flow.edges && e.source == n.id && Exists(flow, e.target) {
      var i :| 0 <= i < |flow.edges| && flow.edges[i] == e;
      assert Link(flow, n.id, e.target);
    }
  }

  lemma {:induction false} DeadEndsPicked(flow: Flow, n: nat, q: nat -> bool, issue: nat -> Issue)
    requires n <= |flow.nodes|
    requires forall p: nat :: p < n ==> (q(p) <==> IsStuck(flow, flow.nodes[p]))
    requires forall p: nat :: p < n ==> issue(p) == DeadEnd(flow.nodes[p].id)
    ensures DeadEnds(flow, n) == Picked(n, q, issue)
  {
    if n > 0 {
      DeadEndsPicked(flow, n - 1, q, issue);
      StuckIff(flow, flow.nodes[n - 1]);
    }
  }

  lemma {:induction false} WalkHasRoute(flow: Flow, path: seq<string>) returns (route: seq<Edge>)
    requires Walk(flow, path)
    ensures Route(flow, route, path[0], path[|path| - 1])
    decreases |path|
  {
    route := [];
    if |path| > 1 {
      var n := |path| - 1;
      assert Link(flow, path[n - 1], path[n]);
      var before := WalkHasRoute(flow, path[..n]);
      var i :| 0 <= i < |flow.edges|
        && flow.edges[i].source == path[n - 1] && flow.edges[i].target == path[n] && !Dangling(flow, flow.edges[i]);
      LooseIff(flow, flow.edges[i]);
      route := before + [flow.edges[i]];
      hide Dangling, Loose, Link;
    }
  }

  lemma {:induction false} RouteIsWalked(flow: Flow, route: seq<Edge>, a: string, b: string) returns (path: seq<string>)
    requires Route(flow, route, a, b)
    ensures WalkBetween(flow, path, a, b)
    decreases |route|
  {
    path := [a];
    if route != [] {
      var n := |route| - 1;
      var last := route[n];
      var before := RouteIsWalked(flow, route[..n], a, last.source);
      LooseIff(flow, last);
      var i :| 0 <= i < |flow.edges| && flow.edges[i] == last;
      assert Link(flow, last.source, b);
      path := before + [b];
      hide Dangling, Loose, Link;
    }
  }

  lemma ReachableIffRoute(flow: Flow, a: string, b: string)
    ensures Reachable(flow, a, b) <==> exists route :: Route(flow, route, a, b)
  {
    if Reachable(flow, a, b) {
      var path :| WalkBetween(flow, path, a, b);
      var route := WalkHasRoute(flow, path);
    }
    if route :| Route(flow, route, a, b) {
      var path := RouteIsWalked(flow, route, a, b);
    }
  }

  lemma {:induction false} UnreachablesPicked(flow: Flow, start: string, n: nat, q: nat -> bool, issue: nat -> Issue)
    requires n <= |flow.nodes|
    requires forall p: nat :: p < n ==> (q(p) <==> !Reachable(flow, start, flow.nodes[p].id))
    requires forall p: nat :: p < n ==> issue(p) == UnreachableNode(flow.nodes[p].id)
    ensures Unreachables(flow, start, n) == Picked(n, q, issue)
  {
    hide Reachable;
    if n > 0 {
      UnreachablesPicked(flow, start, n - 1, q, issue);
    }
  }

  function StartsFrom(flow: Flow, k: nat): set<nat> {
    set i: nat | k <= i < |flow.nodes| && flow.nodes[i].kind == Start
  }

  lemma StartsFromNext(flow: Flow, k: nat)
    requires k < |flow.nodes|
    ensures |StartsFrom(flow, k)| == |StartsFrom(flow, k + 1)| + if flow.nodes[k].kind == Start then 1 else 0
  {
    assert StartsFrom(flow, k) == StartsFrom(flow, k + 1) + if flow.nodes[k].kind == Start then {k} else {};
  }

  /** The start nodes and their positions. */
  lemma {:induction false} StartsCounted(flow: Flow, k: nat)
    requires k <= |flow.nodes|
    ensures |Starts(flow.nodes[k..])| == |StartsFrom(flow, k)|
    decreases |flow.nodes| - k
  {
    if k < |flow.nodes| {
      StartsCounted(flow, k + 1);
      StartsFromNext(flow, k);
      assert flow.nodes[k..][1..] == flow.nodes[k + 1..] && flow.nodes[k..][0] == flow.nodes[k];
      hide StartsFrom;
    }
  }

  lemma StartsAre(flow: Flow)
    ensures |Starts(flow.nodes)| == |StartPositions(flow)|
    ensures |Starts(flow.nodes)| == 1 ==>
      exists s :: StartPositions(flow) == {s} && flow.nodes[s] == Starts(flow.nodes)[0]
  {
    StartsCounted(flow, 0);
    assert flow.nodes[0..] == flow.nodes;
    assert StartPositions(flow) == StartsFrom(flow, 0);
    if |Starts(flow.nodes)| == 1 {
      var first := Starts(flow.nodes)[0];
      assert first in flow.nodes && IsStart(first);
      var s: nat :| s < |flow.nodes| && flow.nodes[s] == first;
      OneMember(StartPositions(flow), s);
    }
  }

  lemma OneMember(positions: set<nat>, s: nat)
    requires |positions| == 1 && s in positions
    ensures positions == {s}
  {
    assert |positions - {s}| == 0;
  }

  lemma PickedIsReport(n: nat, q: nat -> bool, issue: nat -> Issue)
    ensures Reports(Picked(n, q, issue), n, q, issue)
  {
    var ps := PickedReports(n, q, issue);
  }

  lemma NodesReport(flow: Flow)
    ensures Reports(Duplicates(flow.nodes, |flow.nodes|), |flow.nodes|, RepeatAt(flow), DuplicateAt(flow))
    ensures Reports(DeadEnds(flow, |flow.nodes|), |flow.nodes|, StuckAt(flow), DeadEndAt(flow))
  {
    hide Reports, IsStuck;
    DuplicatesPicked(flow.nodes, |flow.nodes|, RepeatAt(flow), DuplicateAt(flow));
    PickedIsReport(|flow.nodes|, RepeatAt(flow), DuplicateAt(flow));
    DeadEndsPicked(flow, |flow.nodes|, StuckAt(flow), DeadEndAt(flow));
    PickedIsReport(|flow.nodes|, StuckAt(flow), DeadEndAt(flow));
  }

  lemma EdgesReport(flow: Flow)
    ensures Reports(DanglingEdges(flow, |flow.edges|), |flow.edges|, LooseAt(flow), DanglingAt(flow))
  {
    hide Reports, Loose;
    DanglingPicked(flow, |flow.edges|, LooseAt(flow), DanglingAt(flow));
    PickedIsReport(|flow.edges|, LooseAt(flow), DanglingAt(flow));
  }

  /** The issues of a flow are the report on it. */
  lemma IssuesAreReport(flow: Flow)
    ensures IsReport(flow, Issues(flow))
  {
    StartsAre(flow);
    NodesReport(flow);
    EdgesReport(flow);
    if |StartPositions(flow)| == 1 {
      OneStart(flow);
      PickedIsReport(|flow.nodes|, NoRouteAt(flow), UnreachableAt(flow));
    }
    EndsCounted(flow);
    hide Reports, Picked, Duplicates, DanglingEdges, DeadEnds, Unreachables, StartPositions, Starts;
    hide RepeatAt, DuplicateAt, LooseAt, DanglingAt, StuckAt, DeadEndAt, NoRouteAt, UnreachableAt;
    var starts := Starts(flow.nodes);
    Assembled(flow, Duplicates(flow.nodes, |flow.nodes|), CountIssues(flow, starts),
              DanglingEdges(flow, |flow.edges|), DeadEnds(flow, |flow.nodes|),
              if |starts| == 1 then Unreachables(flow, starts[0].id, |flow.nodes|) else []);
    hide IsReport;
  }

  lemma Assembled(flow: Flow, d: seq<Issue>, c: seq<Issue>, g: seq<Issue>, e: seq<Issue>, u: seq<Issue>)
    requires HasParts(flow, d, c, g, e, u)
    ensures IsReport(flow, d + c + g + e + u)
  {
    hide HasParts;
  }

  lemma OneStart(flow: Flow)
    requires |StartPositions(flow)| == 1
    ensures |Starts(flow.nodes)| == 1
    ensures Unreachables(flow, Starts(flow.nodes)[0].id, |flow.nodes|) ==
            Picked(|flow.nodes|, NoRouteAt(flow), UnreachableAt(flow))
  {
    StartsAre(flow);
    var s :| StartPositions(flow) == {s} && flow.nodes[s] == Starts(flow.nodes)[0];
    forall p: nat | p < |flow.nodes|
      ensures NoRouteAt(flow)(p) <==> !Reachable(flow, Starts(flow.nodes)[0].id, flow.nodes[p].id)
    {
      NoRouteFromOne(flow, s, flow.nodes[p].id);
    }
    hide Route, StartPositions, Starts, Reachable, NoRoute;
    UnreachablesPicked(flow, Starts(flow.nodes)[0].id, |flow.nodes|, NoRouteAt(flow), UnreachableAt(flow));
  }

  lemma NoRouteFromOne(flow: Flow, s: nat, id: string)
    requires StartPositions(flow) == {s}
    ensures s < |flow.nodes| && (NoRoute(flow, id) <==> !Reachable(flow, flow.nodes[s].id, id))
  {
    assert s in StartPositions(flow);
    ReachableIffRoute(flow, flow.nodes[s].id, id);
    hide Route, Reachable;
  }

  lemma EndsCounted(flow: Flow)
    ensures (exists i :: 0 <= i < |flow.nodes| && IsEnd(flow.nodes[i])) <==>
            !forall n :: n in flow.nodes ==> n.kind != End
  {
    if i :| 0 <= i < |flow.nodes| && IsEnd(flow.nodes[i]) {
      assert flow.nodes[i] in flow.nodes;
    }
  }
}
