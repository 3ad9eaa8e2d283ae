/** When a flow can hold a call forever: what its validation does not promise, exactly. */
module FlowTraps {
  import opened Permutations
  import opened FlowIssues
  import opened FlowValidation

  ghost predicate EndsAt(flow: Flow, id: string) {
    exists i :: 0 <= i < |flow.nodes| && IsEnd(flow.nodes[i]) && flow.nodes[i].id == id
  }

  ghost predicate ReachesEnd(flow: Flow, a: string) {
    exists b :: EndsAt(flow, b) && Reachable(flow, a, b)
  }

  /** A part of the flow that no edge leaves and that has no end in it. */
  ghost predicate IsTrap(flow: Flow, ids: set<string>) {
    && (exists id :: id in ids && HasNode(flow, id))
    && (forall a, b :: a in ids && Link(flow, a, b) ==> b in ids)
    && (forall id :: id in ids ==> !EndsAt(flow, id))
  }

  lemma TrappedNeverEnds(flow: Flow, ids: set<string>, a: string)
    requires IsTrap(flow, ids) && a in ids
    ensures !ReachesEnd(flow, a)
  {
    hide Link, EndsAt;
    if ReachesEnd(flow, a) {
      var b :| EndsAt(flow, b) && Reachable(flow, a, b);
      var path :| WalkBetween(flow, path, a, b);
      ClosedUnderWalks(flow, ids, path);
    }
  }

  /** The nodes that can be reached from a node that does not reach an end are a trap. */
  lemma TrapAround(flow: Flow, a: string) returns (ids: set<string>)
    requires HasNode(flow, a) && !ReachesEnd(flow, a)
    ensures IsTrap(flow, ids) && a in ids
  {
    ids := set i | 0 <= i < |flow.nodes| && Reachable(flow, a, flow.nodes[i].id) :: flow.nodes[i].id;
    hide Reachable;
    assert forall id :: id in ids <==> HasNode(flow, id) && Reachable(flow, a, id);
    ReachableSelf(flow, a);
    forall x, b | x in ids && Link(flow, x, b)
      ensures b in ids
    {
      ReachableStep(flow, a, x, b);
    }
    hide Link, EndsAt;
  }

  /** Every node reaches an end exactly if no part of the flow is a trap. */
  lemma EveryNodeReachesAnEndIffNoTrap(flow: Flow)
    ensures (forall i :: 0 <= i < |flow.nodes| ==> ReachesEnd(flow, flow.nodes[i].id)) <==>
            !exists ids :: IsTrap(flow, ids)
  {
    if ids :| IsTrap(flow, ids) {
      var id :| id in ids && HasNode(flow, id);
      TrappedNeverEnds(flow, ids, id);
    }
    forall i | 0 <= i < |flow.nodes| && !ReachesEnd(flow, flow.nodes[i].id)
      ensures exists ids :: IsTrap(flow, ids)
    {
      var ids := TrapAround(flow, flow.nodes[i].id);
    }
    hide IsTrap, ReachesEnd;
  }

  /** No walk comes back to where it has been. */
  ghost predicate Acyclic(flow: Flow) {
    forall path :: Walk(flow, path) && |path| > 1 ==> path[0] != path[|path| - 1]
  }

  lemma ExitOf(flow: Flow, a: string) returns (b: string)
    requires HasNode(flow, a) && !EndsAt(flow, a) && Publishable(flow)
    ensures Link(flow, a, b)
  {
    var i :| 0 <= i < |flow.nodes| && flow.nodes[i].id == a;
    assert HasExit(flow, a);
    b :| Link(flow, a, b);
  }

  lemma GoesOnInTrap(flow: Flow, ids: set<string>, a: string) returns (b: string)
    requires IsTrap(flow, ids) && a in ids && HasNode(flow, a) && Publishable(flow)
    ensures Link(flow, a, b) && b in ids && HasNode(flow, b)
  {
    b := ExitOf(flow, a);
    hide Publishable, EndsAt;
  }

  lemma {:induction false} WalkInTrap(flow: Flow, ids: set<string>, a: string, n: nat) returns (path: seq<string>)
    requires IsTrap(flow, ids) && a in ids && HasNode(flow, a) && Publishable(flow)
    ensures Walk(flow, path) && |path| == n + 1 && path[0] == a
    ensures forall i :: 0 <= i < |path| ==> path[i] in ids
    decreases n
  {
    hide IsTrap, Publishable, HasNode, Link;
    if n == 0 {
      path := [a];
    } else {
      var b := GoesOnInTrap(flow, ids, a);
      var rest := WalkInTrap(flow, ids, b, n - 1);
      path := [a] + rest;
    }
  }

  lemma CycleInTrap(flow: Flow, ids: set<string>) returns (path: seq<string>)
    requires IsTrap(flow, ids) && Publishable(flow)
    ensures Walk(flow, path) && |path| > 1 && path[0] == path[|path| - 1]
  {
    hide Publishable, HasNode, Link, EndsAt;
    var id := NodeOfTrap(flow, ids);
    hide IsTrap;
    var walk := WalkInTrap(flow, ids, id, |ids|);
    hide Walk;
    var i, j := Pigeonhole(walk, ids);
    path := PartOfWalk(flow, walk, i, j);
  }

  lemma NodeOfTrap(flow: Flow, ids: set<string>) returns (id: string)
    requires IsTrap(flow, ids)
    ensures id in ids && HasNode(flow, id)
  {
    id :| id in ids && HasNode(flow, id);
  }

  lemma PartOfWalk(flow: Flow, walk: seq<string>, i: nat, j: nat) returns (path: seq<string>)
    requires Walk(flow, walk) && i < j < |walk|
    ensures Walk(flow, path) && |path| == j - i + 1 && path[0] == walk[i] && path[|path| - 1] == walk[j]
  {
    hide Link;
    path := walk[i..j + 1];
    forall k | 0 <= k < |path| - 1
      ensures Link(flow, path[k], path[k + 1])
    {
      assert Link(flow, walk[i + k], walk[i + k + 1]);
    }
  }

  /** So every node of an accepted flow without cycles reaches an end. */
  lemma AcceptedAcyclicFlowReachesEnd(flow: Flow)
    requires Issues(flow) == [] && Acyclic(flow)
    ensures forall i :: 0 <= i < |flow.nodes| ==> ReachesEnd(flow, flow.nodes[i].id)
  {
    NoIssuesIffPublishable(flow);
    EveryNodeReachesAnEndIffNoTrap(flow);
    hide Issues, Publishable, ReachesEnd, Walk, IsTrap;
    if ids :| IsTrap(flow, ids) {
      var path := CycleInTrap(flow, ids);
    }
  }
}
