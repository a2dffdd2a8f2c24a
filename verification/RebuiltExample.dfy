/**
 The nodes of the smallest expression, with one postfix operator, as they are
 in memory: alone, and with a value node that contains the expression itself.
 */
module RebuiltExample {
  import opened References
  import opened FreePaths
  import opened FreeMarks
  import opened RebuiltGraph
  import opened ExprGrammar
  import B = ExprBuild

  ghost predicate Distinct(nodes: seq<GrammarNode>) {
    forall i, j :: 0 <= i < j < |nodes| ==> nodes[i] != nodes[j]
  }

  ghost function SetOf(nodes: seq<GrammarNode>): set<GrammarNode> { set n | n in nodes }

  method HeldBy(edges: seq<Edge>, n: GrammarNode) returns (refs: nat)
    ensures refs == Held(edges, n)
  {
    refs := 0;
    assert edges[..|edges|] == edges;
    for i := 0 to |edges|
      invariant refs == Held(edges[..i], n)
    {
      assert edges[..i + 1][..i] == edges[..i];
      if edges[i].to == n {
        refs := refs + edges[i].refs;
      }
    }
  }

  /** The references that the nodes of a graph hold to one of them. */
  method IncomingOf(nodes: seq<GrammarNode>, n: GrammarNode, ghost g: Graph) returns (refs: nat)
    requires Distinct(nodes) && SetOf(nodes) == g.Keys && Holds(g)
    ensures refs == Incoming(g, g.Keys, n)
  {
    hide Incoming;
    refs := 0;
    assert Incoming(g, {}, n) == 0 by { NoneHold(g, {}, n); }
    assert SetOf(nodes[..0]) == {} && nodes[..|nodes|] == nodes;
    for i := 0 to |nodes|
      invariant SetOf(nodes[..i]) <= g.Keys
      invariant refs == Incoming(g, SetOf(nodes[..i]), n)
    {
      assert nodes[i] in g.Keys;
      ghost var more := SetOf(nodes[..i + 1]);
      assert nodes[..i + 1] == nodes[..i] + [nodes[i]];
      assert more - {nodes[i]} == SetOf(nodes[..i]);
      IncomingFrom(g, more, nodes[i], n);
      var here := HeldBy(nodes[i].children, n);
      refs := refs + here;
    }
  }

  /** Every node gets the references that the graph holds to it, and one more when it is also held elsewhere. */
  method Count(nodes: seq<GrammarNode>, elsewhere: seq<GrammarNode>, ghost g: Graph)
    requires Distinct(nodes) && SetOf(nodes) == g.Keys && Holds(g)
    modifies g.Keys`refcnt
    ensures forall n :: n in g ==> n.refcnt == Incoming(g, g.Keys, n) + if n in elsewhere then 1 else 0
  {
    hide Incoming;
    for i := 0 to |nodes|
      invariant forall k :: 0 <= k < i ==>
        nodes[k].refcnt == Incoming(g, g.Keys, nodes[k]) + if nodes[k] in elsewhere then 1 else 0
    {
      var refs := IncomingOf(nodes, nodes[i], g);
      assert nodes[i] in g.Keys;
      nodes[i].refcnt := refs + if nodes[i] in elsewhere then 1 else 0;
    }
    forall n | n in g
      ensures n.refcnt == Incoming(g, g.Keys, n) + if n in elsewhere then 1 else 0
    {
      assert n in SetOf(nodes);
    }
  }

  // ----- the smallest expression ------------------------------------------------------------------------

  /** One postfix operator, and no other: seven built nodes, then the value, the operator and the expression. */
  const SIZES: Sizes := Sizes(0, 0, 1, 0)
  const BUILT := 7
  const OWNER := 9

  /** The children of each, by number; the value node may contain the expression. */
  function Links(i: nat, self: bool): seq<nat> {
    match i
    case 0 => [1, 2]                          // term: operand, postfix operators
    case 1 => [7, 3]                          // operand: value, prefix expression
    case 2 => [4]                             // postfix operators: the choice of one
    case 3 => [5, 6]                          // prefix expression: operator, reference
    case 4 => [8]                             // choice of postfix operators
    case 6 => [0]                             // reference
    case 7 => if self then [OWNER] else []    // value
    case 9 => [0]                             // expression
    case _ => []
  }

  function Index(r: B.NodeRef): (i: nat)
    ensures i < OWNER && (r.Inner? <==> i < BUILT)
  {
    match r
    case Slot(kind, _) => if kind == Val then 7 else 8
    case Inner(role) =>
      match role
      case Term => 0
      case Post => 1
      case PostMany => 2
      case PreSeq => 3
      case PostOr => 4
      case PreOr => 5
      case _ => 6
  }

  lemma LinksAreKids(role: Role)
    requires B.InGraph(0, 0, role)
    ensures
      var kids, links := SIZES.Kids(role), Links(Index(B.Inner(role)), false);
      |kids| == |links| && forall k :: 0 <= k < |kids| ==> Index(kids[k]) == links[k]
  {
    assert B.Slots(PreOp, 0) == [] && B.Slots(PostOp, 1) == [B.Slot(PostOp, 0)] && B.Parens(0) == [];
  }

  /** A list of ten different nodes. */
  ghost predicate Ten(nodes: seq<GrammarNode>) { |nodes| == 10 && Distinct(nodes) }

  /** Two references to each child, and one from the expression. */
  function EdgesOf(nodes: seq<GrammarNode>, i: nat, self: bool): (edges: seq<Edge>)
    requires |nodes| == 10 && i < 10
    ensures |edges| == |Links(i, self)|
    ensures forall k :: 0 <= k < |edges| ==> edges[k].to == nodes[Links(i, self)[k]]
  {
    seq(|Links(i, self)|, k requires 0 <= k < |Links(i, self)| => Edge(nodes[Links(i, self)[k]],
                                                                       if i == OWNER then 1 else 2))
  }

  ghost predicate Wired(nodes: seq<GrammarNode>, g: Graph, self: bool) {
    && Ten(nodes) && g.Keys == SetOf(nodes)
    && forall i :: 0 <= i < 10 ==> nodes[i] in g && g[nodes[i]] == EdgesOf(nodes, i, self)
  }

  ghost function At(nodes: seq<GrammarNode>): B.NodeRef -> GrammarNode
    requires |nodes| == 10
  {
    r => nodes[Index(r)]
  }

  ghost function Users(nodes: seq<GrammarNode>): set<GrammarNode>
    requires |nodes| == 10
  {
    SetOf(nodes[BUILT..])
  }

  lemma IsUser(nodes: seq<GrammarNode>, i: nat)
    requires Ten(nodes) && i < 10
    ensures nodes[i] in Users(nodes) <==> i >= BUILT
  {
    if i >= BUILT {
      assert nodes[BUILT..][i - BUILT] == nodes[i];
    }
  }

  /** The nodes are where the build puts them. */
  lemma WiredIsPlaced(nodes: seq<GrammarNode>, g: Graph, self: bool)
    requires Wired(nodes, g, self)
    ensures Placed(g, SIZES, At(nodes), Users(nodes))
  {
    hide Sizes.Kids, Users, SetOf, Distinct, Links, Index;
    forall role | B.InGraph(0, 0, role)
      ensures
        var n, kids := At(nodes)(B.Inner(role)), SIZES.Kids(role);
        && n in g && n !in Users(nodes) && |g[n]| == |kids|
        && forall i :: 0 <= i < |kids| ==> g[n][i].to == At(nodes)(kids[i])
    {
      var i := Index(B.Inner(role));
      LinksAreKids(role);
      SameLinks(i, self);
      IsUser(nodes, i);
    }
    forall kind, i | SIZES.Has(B.Slot(kind, i))
      ensures At(nodes)(B.Slot(kind, i)) in Users(nodes)
    {
      IsUser(nodes, Index(B.Slot(kind, i)));
    }
    assert Users(nodes) <= g.Keys by { UsersIn(nodes); }
  }

  lemma SameLinks(i: nat, self: bool)
    requires i < BUILT
    ensures Links(i, self) == Links(i, false)
  {
  }

  lemma UsersIn(nodes: seq<GrammarNode>)
    requires |nodes| == 10
    ensures Users(nodes) <= SetOf(nodes)
  {
  }

  lemma WiredAt(nodes: seq<GrammarNode>, g: Graph, self: bool, i: nat)
    requires Wired(nodes, g, self) && i < 10
    ensures
      var n, users := nodes[i], Users(nodes);
      && (n in users || IsBuilt(SIZES, At(nodes), n))
      && (forall k :: 0 <= k < |g[n]| ==> g[n][k].to in g)
      && (BUILT <= i < OWNER ==> forall k :: 0 <= k < |g[n]| ==> g[n][k].to in users)
  {
    hide Users, Links, IsBuilt;
    IsUser(nodes, i);
    IsUser(nodes, OWNER);
    RoleAt(nodes, i);
    LinksRange(i, self);
  }

  lemma WiredNode(nodes: seq<GrammarNode>, g: Graph, self: bool, n: GrammarNode)
    requires Wired(nodes, g, self) && n in g
    ensures n in Users(nodes) || IsBuilt(SIZES, At(nodes), n)
    ensures forall k :: 0 <= k < |g[n]| ==> g[n][k].to in g
    ensures n in Users(nodes) && n != nodes[OWNER] ==> forall k :: 0 <= k < |g[n]| ==> g[n][k].to in Users(nodes)
  {
    hide Users, Distinct, IsBuilt, EdgesOf, Links, At;
    var i :| 0 <= i < 10 && n == nodes[i];
    IsUser(nodes, i);
    WiredAt(nodes, g, self, i);
  }

  lemma WiredOwner(nodes: seq<GrammarNode>, g: Graph, self: bool)
    requires Wired(nodes, g, self)
    ensures nodes[OWNER] in Users(nodes) && g[nodes[OWNER]] == [Edge(nodes[0], 1)]
  {
    IsUser(nodes, OWNER);
    assert g[nodes[OWNER]] == EdgesOf(nodes, OWNER, self);
  }

  /** Every node is the user's or built; of the user's, only the expression leads to a built one. */
  lemma WiredUsers(nodes: seq<GrammarNode>, g: Graph, self: bool)
    requires Wired(nodes, g, self)
    ensures
      var users := Users(nodes);
      && Closed(g) && (forall n :: n in g ==> n in users || IsBuilt(SIZES, At(nodes), n))
      && nodes[OWNER] in users && g[nodes[OWNER]] == [Edge(nodes[0], 1)] && Leads(g, users - {nodes[OWNER]}, users)
  {
    assert |nodes| == 10;
    WiredOwner(nodes, g, self);
    hide Wired, Users, IsBuilt, At;
    forall n | n in g
      ensures n in Users(nodes) || IsBuilt(SIZES, At(nodes), n)
      ensures forall k :: 0 <= k < |g[n]| ==> g[n][k].to in g
      ensures n in Users(nodes) && n != nodes[OWNER] ==> forall k :: 0 <= k < |g[n]| ==> g[n][k].to in Users(nodes)
    {
      WiredNode(nodes, g, self, n);
    }
  }

  lemma LinksRange(i: nat, self: bool)
    requires i < 10
    ensures forall k :: 0 <= k < |Links(i, self)| ==> Links(i, self)[k] < 10
    ensures BUILT <= i < OWNER ==> forall k :: 0 <= k < |Links(i, self)| ==> Links(i, self)[k] == OWNER
  {
  }

  lemma RoleAt(nodes: seq<GrammarNode>, i: nat)
    requires |nodes| == 10 && i < 10
    ensures i < BUILT ==> IsBuilt(SIZES, At(nodes), nodes[i])
  {
    if i < BUILT {
      var role := match i case 0 => Term case 1 => Post case 2 => PostMany case 3 => PreSeq
        case 4 => PostOr case 5 => PreOr case _ => Ref;
      assert Index(B.Inner(role)) == i;
    }
  }

  /** The expression is reached if and only if the value node contains it. */
  lemma OwnerReached(nodes: seq<GrammarNode>, g: Graph, self: bool)
    requires Wired(nodes, g, self) && Closed(g)
    ensures nodes[OWNER] in ReachableSet(g, nodes[0]) <==> self
  {
    hide Closed, Distinct, SetOf, EdgesOf;
    assert nodes[0] in g;
    ReachableCloses(g, nodes[0]);
    if self {
      hide ReachableSet;
      assert g[nodes[0]] == EdgesOf(nodes, 0, self) && g[nodes[0]][0].to == nodes[1];
      assert g[nodes[1]] == EdgesOf(nodes, 1, self) && g[nodes[1]][0].to == nodes[7];
      assert g[nodes[7]] == EdgesOf(nodes, 7, self) && g[nodes[7]][0].to == nodes[OWNER];
    } else if nodes[OWNER] in ReachableSet(g, nodes[0]) {
      OthersClose(nodes, g);
      ReachableHas(g, nodes[0], nodes[OWNER]);
      ReachableStays(g, nodes[0], nodes[OWNER], SetOf(nodes[..OWNER]));
    }
  }

  lemma OthersClose(nodes: seq<GrammarNode>, g: Graph)
    requires Wired(nodes, g, false)
    ensures var s := SetOf(nodes[..OWNER]); Leads(g, s, s) && nodes[0] in s && nodes[OWNER] !in s
  {
    var s := SetOf(nodes[..OWNER]);
    assert nodes[..OWNER][0] == nodes[0];
    forall n, k | n in s && n in g && 0 <= k < |g[n]|
      ensures g[n][k].to in s
    {
      var i :| 0 <= i < OWNER && n == nodes[..OWNER][i];
      LinksLow(i);
      hide Links;
      assert n == nodes[i];
      assert nodes[..OWNER][Links(i, false)[k]] == g[n][k].to;
    }
  }

  lemma LinksLow(i: nat)
    requires i < OWNER
    ensures forall k :: 0 <= k < |Links(i, false)| ==> Links(i, false)[k] < OWNER
  {
  }

  /** With the references of the graph, and one more to each node of the user. */
  lemma CountedIsDropping(g: Graph, s: Sizes, at: B.NodeRef -> GrammarNode, users: set<GrammarNode>,
                          owner: GrammarNode, root: GrammarNode)
    requires Closed(g) && Placed(g, s, at, users) && root == at(B.Layer(s.bins))
    requires forall n :: n in g ==> n in users || IsBuilt(s, at, n)
    requires owner in users && g[owner] == [Edge(root, 1)] && Leads(g, users - {owner}, users)
    requires forall n :: n in g ==> n.refcnt == Incoming(g, g.Keys, n) + if n in users then 1 else 0
    ensures Dropping(g, s, at, users, owner, root) && Registered(g, s, at)
  {
    hide Closed, IsBuilt, Incoming, B.Layer, Sizes.Kids;
    forall n | IsBuilt(s, at, n)
      ensures n !in users
    {
      BuiltIsNotUsers(g, s, at, users, n);
    }
  }

  // ----- in memory ------------------------------------------------------------------------------------

  method Allocate() returns (nodes: seq<GrammarNode>)
    ensures Ten(nodes) && forall i :: 0 <= i < 10 ==> fresh(nodes[i]) && nodes[i].state == None
  {
    nodes := [];
    for i := 0 to 10
      invariant |nodes| == i && Distinct(nodes)
      invariant forall k :: 0 <= k < i ==> fresh(nodes[k]) && nodes[k].state == None
    {
      var n := new GrammarNode();
      nodes := nodes + [n];
    }
  }

  method Connect(nodes: seq<GrammarNode>, self: bool) returns (ghost g: Graph)
    requires Ten(nodes)
    modifies nodes`children
    ensures Wired(nodes, g, self) && Holds(g)
  {
    hide Links, EdgesOf;
    for i := 0 to 10
      invariant forall k :: 0 <= k < i ==> nodes[k].children == EdgesOf(nodes, k, self)
    {
      nodes[i].children := EdgesOf(nodes, i, self);
    }
    g := map n | n in SetOf(nodes) :: n.children;
  }

  lemma SmallestDropping(nodes: seq<GrammarNode>, g: Graph, self: bool)
    requires Wired(nodes, g, self)
    requires forall n :: n in g ==> n.refcnt == Incoming(g, g.Keys, n) + if n in nodes[BUILT..] then 1 else 0
    ensures Dropping(g, SIZES, At(nodes), Users(nodes), nodes[OWNER], nodes[0]) && Registered(g, SIZES, At(nodes))
    ensures nodes[OWNER] in ReachableSet(g, nodes[0]) <==> self
  {
    hide Incoming, Closed, ReachableSet, Placed, IsBuilt, Distinct, EdgesOf, Links;
    WiredIsPlaced(nodes, g, self);
    WiredUsers(nodes, g, self);
    OwnerReached(nodes, g, self);
    hide Wired;
    CountedIsDropping(g, SIZES, At(nodes), Users(nodes), nodes[OWNER], nodes[0]);
  }

  /** What the build leaves in memory, with the expression above it. */
  method Smallest(self: bool) returns (nodes: seq<GrammarNode>, ghost g: Graph)
    ensures Wired(nodes, g, self) && Holds(g) && forall n :: n in g ==> fresh(n) && n.state == None
    ensures Dropping(g, SIZES, At(nodes), Users(nodes), nodes[OWNER], nodes[0]) && Registered(g, SIZES, At(nodes))
    ensures nodes[OWNER] in ReachableSet(g, nodes[0]) <==> self
  {
    hide Incoming, Dropping, Registered, ReachableSet, EdgesOf, Links;
    nodes := Allocate();
    g := Connect(nodes, self);
    Count(nodes, nodes[BUILT..], g);
    SmallestDropping(nodes, g, self);
  }

  /** When the value node contains the expression, dropping what was built violates the assertion. */
  method DropSmallest(self: bool) returns (holds: bool)
    ensures holds <==> !self
  {
    var nodes: seq<GrammarNode>;
    ghost var g: Graph;
    nodes, g := Smallest(self);
    hide Dropping, Registered, ReachableSet, Links, EdgesOf, Distinct, Users, Index;
    holds := CountBuilt(nodes[0], g, SIZES, At(nodes), Users(nodes), nodes[OWNER]);
  }

  lemma SmallestReaches(nodes: seq<GrammarNode>, g: Graph)
    requires Wired(nodes, g, false) && Closed(g)
    ensures var reach := ReachableSet(g, nodes[0]); nodes[7] in reach && nodes[8] in reach
  {
    hide Closed, Distinct, SetOf, EdgesOf;
    assert nodes[0] in g;
    ReachableCloses(g, nodes[0]);
    hide ReachableSet;
    assert g[nodes[0]] == EdgesOf(nodes, 0, false) && g[nodes[0]][0].to == nodes[1] && g[nodes[0]][1].to == nodes[2];
    assert g[nodes[1]] == EdgesOf(nodes, 1, false) && g[nodes[1]][0].to == nodes[7];
    assert g[nodes[2]] == EdgesOf(nodes, 2, false) && g[nodes[2]][0].to == nodes[4];
    assert g[nodes[4]] == EdgesOf(nodes, 4, false) && g[nodes[4]][0].to == nodes[8];
  }

  lemma SmallestEnds(nodes: seq<GrammarNode>, g: Graph)
    requires Wired(nodes, g, false) && nodes[OWNER] !in ReachableSet(g, nodes[0])
    requires Dropping(g, SIZES, At(nodes), Users(nodes), nodes[OWNER], nodes[0]) && Registered(g, SIZES, At(nodes))
    ensures Closed(g) && Apart(g, SIZES, At(nodes), Users(nodes), nodes[OWNER], nodes[0])
    ensures MarkingEnds(g, HeldSet(g, nodes[0]), nodes[0])
    ensures var reach := ReachableSet(g, nodes[0]); nodes[7] in reach && nodes[8] in reach
    ensures forall i :: 0 <= i < 10 ==> nodes[i] in g && (nodes[i] in Users(nodes) <==> i >= BUILT)
  {
    DroppingCloses(g, SIZES, At(nodes), Users(nodes), nodes[OWNER], nodes[0]);
    SmallestReaches(nodes, g);
    hide Dropping, Registered, ReachableSet, Links, EdgesOf, Distinct, Users, Index, MarkingEnds, HeldSet, Closed;
    RegisteredIsApart(g, SIZES, At(nodes), Users(nodes), nodes[OWNER], nodes[0]);
    forall i | 0 <= i < 10
      ensures nodes[i] in Users(nodes) <==> i >= BUILT
    {
      IsUser(nodes, i);
    }
  }

  /** Otherwise exactly the built nodes are freeable. */
  method FreeSmallest() returns (nodes: seq<GrammarNode>)
    ensures Ten(nodes)
    ensures forall i :: 0 <= i < BUILT ==> nodes[i].state == Freeable
    ensures nodes[7].state == nodes[8].state == NotFreeable && nodes[OWNER].state == None
  {
    ghost var g: Graph;
    nodes, g := Smallest(false);
    hide Dropping, Registered, ReachableSet, Links, EdgesOf, Distinct, Users, Index;
    hide MarkingEnds, HeldSet, Closed, Apart, At, FreePart, HeldPart, SetOf;
    SmallestEnds(nodes, g);
    CountAndMarkBuilt(nodes[0], g, SIZES, At(nodes), Users(nodes), nodes[OWNER]);
  }
}
