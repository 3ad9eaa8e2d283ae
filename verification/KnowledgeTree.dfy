/** The forest of knowledge bases, built from their parent links. */
module KnowledgeTree {
  import opened Options
  import opened Permutations

  datatype Node = Node(id: string, parentId: Option<string>)

  function Ids(nodes: seq<Node>): set<string> {
    set i | 0 <= i < |nodes| :: nodes[i].id
  }

  /** The parent a node is hung under: a link that is empty, or leads nowhere, does not count. */
  function Parent(nodes: seq<Node>, n: Node): Option<string> {
    if n.parentId.Some? && n.parentId.value != [] && n.parentId.value in Ids(nodes) then n.parentId else None
  }

  /** The ids of the nodes among `some` with this parent, or with none, in their order. */
  function HungUnder(nodes: seq<Node>, some: seq<Node>, parent: Option<string>): seq<string> {
    if some == [] then [] else
    var before, last := HungUnder(nodes, some[..|some| - 1], parent), some[|some| - 1];
    if Parent(nodes, last) == parent then before + [last.id] else before
  }

  function Roots(nodes: seq<Node>): seq<string> {
    HungUnder(nodes, nodes, None)
  }

  function Children(nodes: seq<Node>, id: string): seq<string> {
    HungUnder(nodes, nodes, Some(id))
  }

  /** The nodes are objects in the source; here the list of children of each is kept under its id. */
  method BuildTree(nodes: seq<Node>) returns (roots: seq<string>, children: map<string, seq<string>>)
    ensures roots == Roots(nodes)
    ensures children.Keys == Ids(nodes) && forall id :: id in children ==> children[id] == Children(nodes, id)
  {
    children := map[];
    for i := 0 to |nodes|
      invariant children.Keys == set k | 0 <= k < i :: nodes[k].id
      invariant forall id :: id in children ==> children[id] == []
    {
      children := children[nodes[i].id := []];
    }
    roots := [];
    for i := 0 to |nodes|
      invariant children.Keys == Ids(nodes)
      invariant roots == HungUnder(nodes, nodes[..i], None)
      invariant forall id :: id in children ==> children[id] == HungUnder(nodes, nodes[..i], Some(id))
    {
      assert nodes[..i + 1][..i] == nodes[..i];
      var node := nodes[i];
      if node.parentId.Some? && node.parentId.value != [] && node.parentId.value in children {
        children := children[node.parentId.value := children[node.parentId.value] + [node.id]];
      } else {
        roots := roots + [node.id];
      }
    }
    assert nodes[..|nodes|] == nodes;
  }

  // ------------------------------------------------------------------ where a node appears

  ghost predicate UniqueIds(nodes: seq<Node>) {
    forall i, j :: 0 <= i < j < |nodes| ==> nodes[i].id != nodes[j].id
  }

  function Find(nodes: seq<Node>, id: string): (n: Node)
    requires id in Ids(nodes)
    ensures n in nodes && n.id == id
  {
    if nodes[0].id == id then nodes[0] else
    assert id in Ids(nodes[1..]) by {
      var i :| 0 <= i < |nodes| && nodes[i].id == id;
      assert nodes[1..][i - 1].id == id;
    }
    Find(nodes[1..], id)
  }

  function ParentOf(nodes: seq<Node>, id: string): (p: Option<string>)
    requires id in Ids(nodes)
    ensures p.Some? ==> p.value in Ids(nodes)
  {
    Parent(nodes, Find(nodes, id))
  }

  /** A walk from a root down to its last node, which is how a node comes to be in the result. */
  ghost predicate IsPath(nodes: seq<Node>, path: seq<string>) {
    && path != [] && path[0] in Roots(nodes)
    && forall i :: 0 <= i < |path| - 1 ==> path[i + 1] in Children(nodes, path[i])
  }

  /** The chain of parents of the node ends after `depth` links. */
  ghost predicate Grounded(nodes: seq<Node>, id: string, depth: nat)
    decreases depth
  {
    && id in Ids(nodes)
    && match ParentOf(nodes, id)
       case None => depth == 0
       case Some(parent) => depth > 0 && Grounded(nodes, parent, depth - 1)
  }

  /** A parent link counts exactly if it is not empty and there is a node with that id. */
  lemma ParentIff(nodes: seq<Node>, n: Node, p: string)
    ensures Parent(nodes, n) == Some(p) <==>
      n.parentId == Some(p) && p != [] && exists i :: 0 <= i < |nodes| && nodes[i].id == p
  {
  }

  /** The list under a parent, or of the roots, names in their order, and once each, the nodes whose link leads there,
    * or for the roots the nodes whose link leads nowhere. */
  ghost predicate ListsAt(nodes: seq<Node>, ps: seq<nat>, some: seq<Node>, parent: Option<string>, ids: seq<string>) {
    && |ps| == |ids|
    && (forall j, k :: 0 <= j < k < |ps| ==> ps[j] < ps[k])
    && (forall p: nat :: p in ps <==> p < |some| && LinkOf(nodes, some[p]) == parent)
    && forall k :: 0 <= k < |ps| ==> ps[k] < |some| && ids[k] == some[ps[k]].id
  }

  /** The link of a node, if it names a node. */
  ghost function LinkOf(nodes: seq<Node>, n: Node): Option<string> {
    if n.parentId.Some? && n.parentId.value != [] && (exists i :: 0 <= i < |nodes| && nodes[i].id == n.parentId.value)
    then n.parentId else None
  }

  lemma {:induction false} HungInOrder(nodes: seq<Node>, some: seq<Node>, parent: Option<string>) returns (ps: seq<nat>)
    ensures ListsAt(nodes, ps, some, parent, HungUnder(nodes, some, parent))
  {
    ps := [];
    if some != [] {
      var n := |some| - 1;
      ps := HungInOrder(nodes, some[..n], parent);
      assert forall k :: 0 <= k < |ps| ==> ps[k] in ps;
      assert Parent(nodes, some[n]) == LinkOf(nodes, some[n]);
      if LinkOf(nodes, some[n]) == parent {
        ps := ps + [n];
      }
      hide LinkOf, Parent;
    }
  }

  lemma {:induction false} HungUnderMembers(nodes: seq<Node>, some: seq<Node>, parent: Option<string>, id: string)
    ensures id in HungUnder(nodes, some, parent) <==> exists n :: n in some && n.id == id && Parent(nodes, n) == parent
  {
    if some != [] {
      var before, last := some[..|some| - 1], some[|some| - 1];
      assert some == before + [last];
      HungUnderMembers(nodes, before, parent, id);
    }
  }

  lemma OnlyOne(nodes: seq<Node>, n: Node)
    requires UniqueIds(nodes) && n in nodes
    ensures n.id in Ids(nodes) && Find(nodes, n.id) == n
  {
    var i :| 0 <= i < |nodes| && nodes[i] == n;
    assert n.id in Ids(nodes);
  }

  /** A node is listed under its parent, or among the roots if it has none, and nowhere else. */
  lemma ListedUnderParent(nodes: seq<Node>, parent: Option<string>, id: string)
    requires UniqueIds(nodes)
    ensures id in HungUnder(nodes, nodes, parent) <==> id in Ids(nodes) && ParentOf(nodes, id) == parent
  {
    HungUnderMembers(nodes, nodes, parent, id);
    if id in Ids(nodes) {
      OnlyOne(nodes, Find(nodes, id));
    }
    forall n | n in nodes && n.id == id
      ensures id in Ids(nodes) && Find(nodes, id) == n
    {
      OnlyOne(nodes, n);
    }
  }

  /** And it is listed there once. */
  lemma {:induction false} ListedOnce(nodes: seq<Node>, some: seq<Node>, parent: Option<string>)
    requires UniqueIds(some)
    ensures var ids := HungUnder(nodes, some, parent);
      forall i, j :: 0 <= i < j < |ids| ==> ids[i] != ids[j]
  {
    if some != [] {
      var before, last := some[..|some| - 1], some[|some| - 1];
      ListedOnce(nodes, before, parent);
      HungUnderMembers(nodes, before, parent, last.id);
    }
  }

  lemma {:induction false} PathsAreGrounded(nodes: seq<Node>, path: seq<string>)
    requires UniqueIds(nodes) && IsPath(nodes, path)
    ensures Grounded(nodes, path[|path| - 1], |path| - 1)
  {
    var n := |path| - 1;
    ListedUnderParent(nodes, None, path[0]);
    if n > 0 {
      PathsAreGrounded(nodes, path[..n]);
      assert path[n - 1 + 1] in Children(nodes, path[n - 1]);
      ListedUnderParent(nodes, Some(path[n - 1]), path[n]);
    }
  }

  lemma {:induction false} GroundedHasPath(nodes: seq<Node>, id: string, depth: nat) returns (path: seq<string>)
    requires UniqueIds(nodes) && Grounded(nodes, id, depth)
    ensures IsPath(nodes, path) && path[|path| - 1] == id && |path| == depth + 1
    decreases depth
  {
    ListedUnderParent(nodes, ParentOf(nodes, id), id);
    if depth == 0 {
      path := [id];
    } else {
      var above := GroundedHasPath(nodes, ParentOf(nodes, id).value, depth - 1);
      path := above + [id];
    }
  }

  lemma {:induction false} OneDepth(nodes: seq<Node>, id: string, depth: nat, depth': nat)
    requires Grounded(nodes, id, depth) && Grounded(nodes, id, depth')
    ensures depth == depth'
    decreases depth
  {
    if depth > 0 {
      OneDepth(nodes, ParentOf(nodes, id).value, depth - 1, depth' - 1);
    }
  }

  lemma {:induction false} PathsAreUnique(nodes: seq<Node>, path: seq<string>, path': seq<string>)
    requires UniqueIds(nodes) && IsPath(nodes, path) && IsPath(nodes, path')
    requires path[|path| - 1] == path'[|path'| - 1]
    ensures path == path'
  {
    PathsAreGrounded(nodes, path);
    PathsAreGrounded(nodes, path');
    var n := |path| - 1;
    OneDepth(nodes, path[n], |path| - 1, |path'| - 1);
    if n > 0 {
      assert path[n - 1 + 1] in Children(nodes, path[n - 1]) && path'[n - 1 + 1] in Children(nodes, path'[n - 1]);
      ListedUnderParent(nodes, Some(path[n - 1]), path[n]);
      ListedUnderParent(nodes, Some(path'[n - 1]), path[n]);
      PathsAreUnique(nodes, path[..n], path'[..n]);
      assert path == path[..n] + [path[n]] && path' == path'[..n] + [path'[n]];
    }
  }

  // ---------------------------------------------------------------------------- cycles

  /** The `k`-th parent, if the chain is that long. */
  function Up(nodes: seq<Node>, id: string, k: nat): (r: Option<string>)
    requires id in Ids(nodes)
    ensures r.Some? ==> r.value in Ids(nodes)
    decreases k
  {
    if k == 0 then Some(id)
    else
      match ParentOf(nodes, id)
      case None => None
      case Some(parent) => Up(nodes, parent, k - 1)
  }

  /** Some ancestor of the node, or the node itself, is its own ancestor. */
  ghost predicate OnOrBelowCycle(nodes: seq<Node>, id: string)
    requires id in Ids(nodes)
  {
    exists k: nat, m: nat :: m > 0 && Repeats(nodes, id, k, m)
  }

  ghost predicate Repeats(nodes: seq<Node>, id: string, k: nat, m: nat)
    requires id in Ids(nodes)
  {
    Up(nodes, id, k).Some? && Up(nodes, id, k + m) == Up(nodes, id, k)
  }

  lemma {:induction false} GroundedAbove(nodes: seq<Node>, id: string, depth: nat, k: nat)
    requires Grounded(nodes, id, depth) && Up(nodes, id, k).Some?
    ensures k <= depth && Grounded(nodes, Up(nodes, id, k).value, depth - k)
    decreases k
  {
    if k > 0 {
      GroundedAbove(nodes, ParentOf(nodes, id).value, depth - 1, k - 1);
    }
  }

  lemma {:induction false} EndsOrGoesOn(nodes: seq<Node>, id: string, k: nat) returns (depth: nat)
    requires id in Ids(nodes)
    ensures Up(nodes, id, k).Some? || Grounded(nodes, id, depth)
    decreases k
  {
    depth := 0;
    if k > 0 && ParentOf(nodes, id).Some? {
      var above := EndsOrGoesOn(nodes, ParentOf(nodes, id).value, k - 1);
      depth := above + 1;
    }
  }

  ghost predicate Ends(nodes: seq<Node>, id: string) {
    exists depth: nat :: Grounded(nodes, id, depth)
  }

  lemma EndIsNoCycle(nodes: seq<Node>, id: string, depth: nat, k: nat, m: nat)
    requires id in Ids(nodes) && Grounded(nodes, id, depth) && m > 0
    ensures !Repeats(nodes, id, k, m)
  {
    if Repeats(nodes, id, k, m) {
      GroundedAbove(nodes, id, depth, k);
      GroundedAbove(nodes, id, depth, k + m);
      OneDepth(nodes, Up(nodes, id, k).value, depth - k, depth - (k + m));
    }
  }

  /** The chain of parents of a node either ends, or leads into a cycle. */
  lemma EndsOrCycles(nodes: seq<Node>, id: string)
    requires id in Ids(nodes)
    ensures Ends(nodes, id) <==> !OnOrBelowCycle(nodes, id)
  {
    hide Repeats, Grounded;
    if Ends(nodes, id) {
      var depth: nat :| Grounded(nodes, id, depth);
      forall k: nat, m: nat | m > 0
        ensures !Repeats(nodes, id, k, m)
      {
        EndIsNoCycle(nodes, id, depth, k, m);
      }
    } else {
      CycleExists(nodes, id);
    }
  }

  lemma CycleExists(nodes: seq<Node>, id: string)
    requires id in Ids(nodes) && !Ends(nodes, id)
    ensures OnOrBelowCycle(nodes, id)
  {
    forall k: nat
      ensures Up(nodes, id, k).Some?
    {
      var depth := EndsOrGoesOn(nodes, id, k);
    }
    hide Grounded, Up, Ids;
    var ids := Ids(nodes);
    var chain := seq(|ids| + 1, k requires 0 <= k <= |ids| => Up(nodes, id, k).value);
    var i, j := Pigeonhole(chain, ids);
    assert chain[i] == Up(nodes, id, i).value && chain[j] == Up(nodes, id, j).value;
    assert Repeats(nodes, id, i, j - i);
  }

  ghost predicate LeadsTo(nodes: seq<Node>, path: seq<string>, id: string) {
    IsPath(nodes, path) && path[|path| - 1] == id
  }

  /** A node is in the result, by exactly one walk from a root, unless it is on or below a cycle of parent
    * links; then it is nowhere. */
  lemma AppearsOnceUnlessCyclic(nodes: seq<Node>, id: string)
    requires UniqueIds(nodes) && id in Ids(nodes)
    ensures !OnOrBelowCycle(nodes, id) <==> exists path :: LeadsTo(nodes, path, id)
    ensures forall path, path' :: LeadsTo(nodes, path, id) && LeadsTo(nodes, path', id) ==> path == path'
  {
    EndsOrCycles(nodes, id);
    hide Grounded, OnOrBelowCycle;
    if Ends(nodes, id) {
      var depth: nat :| Grounded(nodes, id, depth);
      var path := GroundedHasPath(nodes, id, depth);
      assert LeadsTo(nodes, path, id);
    }
    forall path | LeadsTo(nodes, path, id)
      ensures Ends(nodes, id)
    {
      PathsAreGrounded(nodes, path);
    }
    forall path, path' | LeadsTo(nodes, path, id) && LeadsTo(nodes, path', id)
      ensures path == path'
    {
      PathsAreUnique(nodes, path, path');
    }
  }
}
