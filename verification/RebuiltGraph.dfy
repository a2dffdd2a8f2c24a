/**
 What freeing the built part of an expression node does, for any tables: when
 the assertion on the counts holds, when marking ends, and that the built nodes
 are then freed, and the nodes of the user that are still registered are not.
 */
module RebuiltGraph {
  import opened References
  import opened FreePaths
  import opened FreeMarks
  import opened ExprGrammar
  import B = ExprBuild

  /** The numbers of entries in the tables. */
  datatype Sizes = Sizes(bins: nat, pres: nat, posts: nat, parens: nat) {
    predicate Has(r: B.NodeRef) {
      match r
      case Inner(role) => B.InGraph(bins, parens, role)
      case Slot(kind, i) =>
        match kind
        case Val => true
        case BinOp => i < bins
        case PreOp => i < pres
        case PostOp => i < posts
        case NoKind => false
        case _ => i < parens
    }

    function Kids(role: Role): seq<B.NodeRef>
      requires B.InGraph(bins, parens, role)
    {
      match B.Def(bins, pres, posts, parens, role)
      case SeqDef(kids) => kids
      case OrDef(kids) => kids
      case ManyDef(kid) => [kid]
    }
  }

  lemma KidsInGraph(s: Sizes, role: Role, i: nat)
    requires B.InGraph(s.bins, s.parens, role) && i < |s.Kids(role)|
    ensures s.Has(s.Kids(role)[i])
  {
    if role.Post? && i >= 2 {
      assert s.Kids(role)[i] == B.Parens(s.parens)[i - 2];
    }
  }

  /** The graph in memory: a built node references its children, once or several times. */
  ghost predicate Placed(g: Graph, s: Sizes, at: B.NodeRef -> GrammarNode, users: set<GrammarNode>) {
    && users <= g.Keys
    && (forall kind, i :: s.Has(B.Slot(kind, i)) ==> at(B.Slot(kind, i)) in users)
    && forall role :: B.InGraph(s.bins, s.parens, role) ==>
         var n, kids := at(B.Inner(role)), s.Kids(role);
         n in g && n !in users && |g[n]| == |kids| && forall i :: 0 <= i < |kids| ==> g[n][i].to == at(kids[i])
  }

  ghost predicate IsBuilt(s: Sizes, at: B.NodeRef -> GrammarNode, n: GrammarNode) {
    exists role :: B.InGraph(s.bins, s.parens, role) && at(B.Inner(role)) == n
  }

  lemma BuiltIsNotUsers(g: Graph, s: Sizes, at: B.NodeRef -> GrammarNode, users: set<GrammarNode>, n: GrammarNode)
    requires Placed(g, s, at, users) && IsBuilt(s, at, n)
    ensures n in g && n !in users
  {
  }

  /**
   The moment at which the built nodes are dropped: the graph has all nodes, and
   nothing but the built nodes and the expression node, which lists the one
   reference that is dropped, references a built node.
   */
  ghost predicate Dropping(g: Graph, s: Sizes, at: B.NodeRef -> GrammarNode, users: set<GrammarNode>,
                           owner: GrammarNode, root: GrammarNode)
    reads g.Keys`refcnt
  {
    && Closed(g) && Placed(g, s, at, users) && root == at(B.Layer(s.bins))
    && (forall n :: n in g ==> n in users || IsBuilt(s, at, n))
    && owner in users && g[owner] == [Edge(root, 1)] && Leads(g, users - {owner}, users)
    && (forall n :: n in g ==> n.refcnt >= Incoming(g, g.Keys, n))
    && (forall n :: n in g && IsBuilt(s, at, n) ==> n.refcnt == Incoming(g, g.Keys, n))
  }

  // ----- everything built is reached -----------------------------------------------------------------

  /** A node that lists the node of this role, and where. */
  function Lister(s: Sizes, role: Role): (Role, nat) {
    match role
    case Term => (Next(0), 0)
    case Next(i) => (Next(i + 1), 0)
    case BinMany(i) => (Next(i), 1)
    case BinSeq(i) => (BinMany(i), 0)
    case Post => (Term, 0)
    case PostMany => (Term, 1)
    case PostOr => (PostMany, 0)
    case PreSeq => (Post, 1)
    case ParenSeq(i) => (Post, i + 2)
    case PreOr => (PreSeq, 0)
    case _ => (PreSeq, 1)
  }

  /** How far below the root. */
  function Depth(s: Sizes, role: Role): int {
    match role
    case Next(i) => s.bins - 1 - i
    case BinMany(i) => s.bins - i
    case BinSeq(i) => s.bins - i + 1
    case Term => s.bins
    case Post => s.bins + 1
    case PostMany => s.bins + 1
    case PostOr => s.bins + 2
    case PreSeq => s.bins + 2
    case ParenSeq(_) => s.bins + 2
    case _ => s.bins + 3
  }

  lemma Lists(s: Sizes, role: Role)
    requires B.InGraph(s.bins, s.parens, role) && B.Inner(role) != B.Layer(s.bins)
    ensures
      var (up, i) := Lister(s, role);
      && B.InGraph(s.bins, s.parens, up) && i < |s.Kids(up)| && s.Kids(up)[i] == B.Inner(role)
      && 0 <= Depth(s, up) < Depth(s, role)
  {
    if role.ParenSeq? {
      assert s.Kids(Post)[role.paren + 2] == B.Parens(s.parens)[role.paren];
    }
  }

  lemma {:induction false} RoleReached(g: Graph, s: Sizes, at: B.NodeRef -> GrammarNode, users: set<GrammarNode>,
                                       root: GrammarNode, role: Role)
    requires Closed(g) && Placed(g, s, at, users) && root == at(B.Layer(s.bins))
    requires B.InGraph(s.bins, s.parens, role)
    ensures at(B.Inner(role)) in ReachableSet(g, root)
    decreases Depth(s, role)
  {
    RootBuilt(s, at, root);
    BuiltIsNotUsers(g, s, at, users, root);
    ReachableCloses(g, root);
    if B.Inner(role) != B.Layer(s.bins) {
      var (up, i) := Lister(s, role);
      Lists(s, role);
      RoleReached(g, s, at, users, root, up);
      hide B.Def, B.InGraph, ReachableSet;
      var n := at(B.Inner(up));
      assert g[n][i].to == at(s.Kids(up)[i]);
    }
  }

  lemma BuiltReached(g: Graph, s: Sizes, at: B.NodeRef -> GrammarNode, users: set<GrammarNode>, root: GrammarNode,
                     n: GrammarNode)
    requires Closed(g) && Placed(g, s, at, users) && root == at(B.Layer(s.bins)) && IsBuilt(s, at, n)
    ensures n in ReachableSet(g, root)
  {
    hide Placed, ReachableSet;
    var role :| B.InGraph(s.bins, s.parens, role) && at(B.Inner(role)) == n;
    RoleReached(g, s, at, users, root, role);
  }

  lemma RootBuilt(s: Sizes, at: B.NodeRef -> GrammarNode, root: GrammarNode)
    requires root == at(B.Layer(s.bins))
    ensures IsBuilt(s, at, root)
  {
    var role := if s.bins == 0 then Term else Next(s.bins - 1);
    assert B.InGraph(s.bins, s.parens, role) && B.Layer(s.bins) == B.Inner(role);
  }

  // ----- the count, and the assertion on it ------------------------------------------------------------

  lemma {:induction false} NoneHold(g: Graph, parents: set<GrammarNode>, n: GrammarNode)
    requires parents <= g.Keys && forall m :: m in parents ==> Held(g[m], n) == 0
    ensures Incoming(g, parents, n) == 0
    decreases parents
  {
    if m :| m in parents {
      IncomingFrom(g, parents, m, n);
      NoneHold(g, parents - {m}, n);
    }
  }

  lemma {:induction false} HeldNowhere(edges: seq<Edge>, n: GrammarNode)
    requires forall i :: 0 <= i < |edges| ==> edges[i].to != n
    ensures Held(edges, n) == 0
  {
    if edges != [] {
      HeldNowhere(edges[..|edges| - 1], n);
    }
  }

  /** What is not reached holds no built node, but for the expression node. */
  lemma RestHolds(g: Graph, s: Sizes, at: B.NodeRef -> GrammarNode, users: set<GrammarNode>,
                  owner: GrammarNode, root: GrammarNode, n: GrammarNode)
    requires Dropping(g, s, at, users, owner, root) && IsBuilt(s, at, n)
    ensures
      var reach := ReachableSet(g, root);
      n.refcnt == Incoming(g, reach, n) + if owner !in reach && n == root then 1 else 0
  {
    assert owner in g;
    hide Placed, IsBuilt, Incoming, ReachableSet;
    var reach := ReachableSet(g, root);
    var rest := g.Keys - reach;
    WithinGraph(g, root);
    BuiltIsNotUsers(g, s, at, users, n);
    forall m | m in rest - {owner}
      ensures Held(g[m], n) == 0
    {
      if m !in users {
        BuiltReached(g, s, at, users, root, m);
      }
      HeldNowhere(g[m], n);
    }
    NoneHold(g, rest - {owner}, n);
    if owner in rest {
      IncomingFrom(g, rest, owner, n);
      OneEdge(root, n);
    } else {
      assert rest - {owner} == rest;
    }
    IncomingUnion(g, reach, rest, n);
    assert reach + rest == g.Keys;
  }

  lemma OneEdge(root: GrammarNode, n: GrammarNode)
    ensures Held([Edge(root, 1)], n) == if n == root then 1 else 0
  {
    assert [Edge(root, 1)][..0] == [];
  }

  lemma UsersCount(g: Graph, root: GrammarNode, n: GrammarNode)
    requires n in g && n != root && n.refcnt >= Incoming(g, g.Keys, n)
    ensures n.refcnt >= Reached(g, root, n) + (n.refcnt - Incoming(g, g.Keys, n))
  {
    hide Incoming, ReachableSet;
    var reach := ReachableSet(g, root);
    WithinGraph(g, root);
    IncomingUnion(g, reach, g.Keys - reach, n);
    assert reach + (g.Keys - reach) == g.Keys;
  }

  /**
   The assertion on the counts holds if and only if the expression node is not
   reached from its own nodes: otherwise the reference that is dropped is
   counted twice, for the caller and for the expression node.
   */
  lemma AssertionIffApart(g: Graph, s: Sizes, at: B.NodeRef -> GrammarNode, users: set<GrammarNode>,
                          owner: GrammarNode, root: GrammarNode)
    requires Dropping(g, s, at, users, owner, root)
    ensures
      var reach := ReachableSet(g, root);
      && root in g
      && (root.refcnt < Reached(g, root, root) <==> owner in reach)
      && ((forall n :: n in reach ==> n.refcnt >= Reached(g, root, n)) <==> owner !in reach)
      && (owner !in reach ==> forall n :: n in reach && IsBuilt(s, at, n) ==> n.refcnt == Reached(g, root, n))
  {
    var reach := ReachableSet(g, root);
    RootBuilt(s, at, root);
    BuiltIsNotUsers(g, s, at, users, root);
    RestHolds(g, s, at, users, owner, root, root);
    BuiltReached(g, s, at, users, root, root);
    WithinGraph(g, root);
    forall n | n in reach
      ensures n != root ==> n.refcnt >= Reached(g, root, n)
      ensures owner !in reach && IsBuilt(s, at, n) ==> n.refcnt == Reached(g, root, n)
    {
      hide ReachableSet, Placed, IsBuilt, Incoming;
      if n != root {
        UsersCount(g, root, n);
      }
      if IsBuilt(s, at, n) {
        RestHolds(g, s, at, users, owner, root, n);
      }
    }
  }

  /** Counting from the root tells whether the assertion will hold. */
  method CountBuilt(root: GrammarNode, ghost g: Graph, ghost s: Sizes, ghost at: B.NodeRef -> GrammarNode,
                    ghost users: set<GrammarNode>, ghost owner: GrammarNode) returns (holds: bool)
    requires root in g && Holds(g) && Dropping(g, s, at, users, owner, root)
    requires forall n :: n in g ==> n.state == None
    modifies g.Keys`state, g.Keys`freeRefcnt
    ensures holds <==> owner !in ReachableSet(g, root)
  {
    AssertionIffApart(g, s, at, users, owner, root);
    BuiltReachedRoot(g, s, at, users, root);
    hide Closed, Placed, IsBuilt, Incoming, ReachableSet;
    CountReachable(root, g);
    holds := root.refcnt >= root.freeRefcnt;
  }

  lemma BuiltReachedRoot(g: Graph, s: Sizes, at: B.NodeRef -> GrammarNode, users: set<GrammarNode>, root: GrammarNode)
    requires Closed(g) && Placed(g, s, at, users) && root == at(B.Layer(s.bins))
    ensures root in ReachableSet(g, root)
  {
    RootBuilt(s, at, root);
    BuiltReached(g, s, at, users, root, root);
  }

  // ----- what is freed --------------------------------------------------------------------------------

  /** Dropped without being reached from its own nodes. */
  ghost predicate Apart(g: Graph, s: Sizes, at: B.NodeRef -> GrammarNode, users: set<GrammarNode>,
                        owner: GrammarNode, root: GrammarNode)
    reads g.Keys`refcnt
  {
    Dropping(g, s, at, users, owner, root) && owner !in ReachableSet(g, root)
  }

  /** The nodes of the user that are reached lead to such nodes only, and only they can be held. */
  lemma UsersClose(g: Graph, s: Sizes, at: B.NodeRef -> GrammarNode, users: set<GrammarNode>,
                   owner: GrammarNode, root: GrammarNode)
    requires Apart(g, s, at, users, owner, root)
    ensures var mine := users * ReachableSet(g, root); Leads(g, mine, mine) && HeldSet(g, root) <= mine
  {
    var reach := ReachableSet(g, root);
    var mine := users * reach;
    AssertionIffApart(g, s, at, users, owner, root);
    ReachableCloses(g, root);
    WithinGraph(g, root);
    hide Placed, IsBuilt, Incoming, ReachableSet, Reached;
    forall n, i | n in mine && n in g && 0 <= i < |g[n]|
      ensures g[n][i].to in mine
    {
      assert n in users - {owner};
    }
  }

  lemma HeldIsUsers(g: Graph, held: set<GrammarNode>, mine: set<GrammarNode>)
    requires Leads(g, mine, mine) && held <= mine
    ensures HeldPart(g, held) <= mine
  {
    hide HeldPart;
    forall n | n in HeldPart(g, held)
      ensures n in mine
    {
      var h := HeldPartHas(g, held, n);
      ReachableStays(g, h, n, mine);
    }
  }

  /** What is built is reached without passing a held node, and no held node leads to it. */
  lemma BuiltIsFree(g: Graph, s: Sizes, at: B.NodeRef -> GrammarNode, users: set<GrammarNode>,
                    owner: GrammarNode, root: GrammarNode)
    requires Apart(g, s, at, users, owner, root)
    ensures
      var reach, held := ReachableSet(g, root), HeldSet(g, root);
      && g.Keys - users <= reach
      && reach - users <= FreePart(g, held, root)
      && HeldPart(g, held) <= reach * users
  {
    var reach, held := ReachableSet(g, root), HeldSet(g, root);
    UsersClose(g, s, at, users, owner, root);
    HeldIsUsers(g, held, users * reach);
    BuiltReachedRoot(g, s, at, users, root);
    forall n | n in g.Keys - users
      ensures n in reach
    {
      hide ReachableSet;
      BuiltReached(g, s, at, users, root, n);
    }
    hide Placed, IsBuilt, Incoming, ReachableSet, Reached, FreePart, HeldPart, HeldSet;
    WithinGraph(g, root);
    PartsCover(g, held, root);
  }

  /** Marking ends when the nodes of the user that could be freed are not tangled with held ones. */
  lemma RebuiltEnds(g: Graph, s: Sizes, at: B.NodeRef -> GrammarNode, users: set<GrammarNode>,
                    owner: GrammarNode, root: GrammarNode)
    requires Apart(g, s, at, users, owner, root)
    requires var held := HeldSet(g, root); Untangled(g, held, FreePart(g, held, root) * users)
    ensures root in g && MarkingEnds(g, HeldSet(g, root), root)
  {
    var held := HeldSet(g, root);
    UsersClose(g, s, at, users, owner, root);
    HeldIsUsers(g, held, users * ReachableSet(g, root));
    BuiltReachedRoot(g, s, at, users, root);
    WithinGraph(g, root);
    hide Dropping, ReachableSet, FreePart, HeldSet, WalkAt, OnFreeCycle;
    forall n | n in FreePart(g, held, root)
      ensures !(OnFreeCycle(g, held, n) && WithHeld(g, held, n))
    {
      if WithHeld(g, held, n) {
        WithHeldIsHeld(g, held, root, n);
      }
    }
    assert Closed(g) by { DroppingCloses(g, s, at, users, owner, root); }
    UntangledEnds(g, held, root);
  }

  lemma DroppingCloses(g: Graph, s: Sizes, at: B.NodeRef -> GrammarNode, users: set<GrammarNode>,
                       owner: GrammarNode, root: GrammarNode)
    requires Dropping(g, s, at, users, owner, root)
    ensures Closed(g)
  {
  }

  /** Every node of the user that is in a table has a reference from there. */
  ghost predicate Registered(g: Graph, s: Sizes, at: B.NodeRef -> GrammarNode)
    reads g.Keys`refcnt
  {
    forall kind, i :: s.Has(B.Slot(kind, i)) ==>
      var n := at(B.Slot(kind, i));
      n in g && n.refcnt > Incoming(g, g.Keys, n)
  }

  lemma RegisteredIsHeld(g: Graph, s: Sizes, at: B.NodeRef -> GrammarNode, users: set<GrammarNode>,
                         owner: GrammarNode, root: GrammarNode, n: GrammarNode, i: nat)
    requires Apart(g, s, at, users, owner, root) && Registered(g, s, at)
    requires IsBuilt(s, at, n) && i < |g[n]| && g[n][i].to in users
    ensures g[n][i].to in HeldSet(g, root)
  {
    var role :| B.InGraph(s.bins, s.parens, role) && at(B.Inner(role)) == n;
    var slot := s.Kids(role)[i];
    KidsInGraph(s, role, i);
    var kid := at(slot);
    assert g[n][i].to == kid && slot.Slot?;
    BuiltReached(g, s, at, users, root, n);
    BuiltReachedRoot(g, s, at, users, root);
    RootBuilt(s, at, root);
    BuiltIsNotUsers(g, s, at, users, root);
    hide Placed, IsBuilt, Incoming, B.Def;
    UsersCount(g, root, kid);
    ReachableCloses(g, root);
  }

  lemma BuiltLeads(g: Graph, s: Sizes, at: B.NodeRef -> GrammarNode, users: set<GrammarNode>,
                   owner: GrammarNode, root: GrammarNode)
    requires Apart(g, s, at, users, owner, root) && Registered(g, s, at)
    ensures Leads(g, g.Keys - users, g.Keys - users + HeldSet(g, root))
  {
    hide IsBuilt, Placed, Incoming, HeldSet, Registered;
    forall n, i | n in g.Keys - users && n in g && 0 <= i < |g[n]|
      ensures g[n][i].to in g.Keys - users + HeldSet(g, root)
    {
      if g[n][i].to in users {
        RegisteredIsHeld(g, s, at, users, owner, root, n, i);
      }
    }
  }

  /** Then what is reached without passing a held node is exactly what was built, and marking ends. */
  lemma RegisteredIsApart(g: Graph, s: Sizes, at: B.NodeRef -> GrammarNode, users: set<GrammarNode>,
                          owner: GrammarNode, root: GrammarNode)
    requires Apart(g, s, at, users, owner, root) && Registered(g, s, at)
    ensures
      var reach, held := ReachableSet(g, root), HeldSet(g, root);
      && FreePart(g, held, root) == reach - users && HeldPart(g, held) == reach * users
      && root in g && MarkingEnds(g, held, root)
  {
    var reach, held := ReachableSet(g, root), HeldSet(g, root);
    BuiltIsFree(g, s, at, users, owner, root);
    BuiltLeads(g, s, at, users, owner, root);
    assert root in g.Keys - users && Closed(g) && users <= g.Keys by { RootIn(g, s, at, users, owner, root); }
    assert held <= reach by { UsersClose(g, s, at, users, owner, root); }
    hide Apart, ReachableSet, FreePart, HeldPart, HeldSet, MarkingEnds, Registered;
    forall n | n in FreePart(g, held, root)
      ensures n in g.Keys - users
    {
      var path := FreePartHas(g, held, root, n);
      AvoidStays(g, held, root, path, n, g.Keys - users);
    }
    InFreePart(g, held, root);
    PartsCover(g, held, root);
    RebuiltEnds(g, s, at, users, owner, root);
  }

  lemma RootIn(g: Graph, s: Sizes, at: B.NodeRef -> GrammarNode, users: set<GrammarNode>,
               owner: GrammarNode, root: GrammarNode)
    requires Apart(g, s, at, users, owner, root)
    ensures root in g.Keys - users && Closed(g) && users <= g.Keys
  {
    RootBuilt(s, at, root);
    BuiltIsNotUsers(g, s, at, users, root);
  }

  ghost predicate CanCount(g: Graph, root: GrammarNode)
    requires root in g
    reads g.Keys`refcnt
  {
    forall n :: n in ReachableSet(g, root) ==> n.refcnt >= Reached(g, root, n)
  }

  lemma ApartCounts(g: Graph, s: Sizes, at: B.NodeRef -> GrammarNode, users: set<GrammarNode>,
                    owner: GrammarNode, root: GrammarNode)
    requires Apart(g, s, at, users, owner, root) && root in g
    ensures CanCount(g, root)
  {
    AssertionIffApart(g, s, at, users, owner, root);
  }

  /**
   Dropping the built nodes, when the expression node is not reached from them,
   whenever marking ends: all of them are freeable. Of the nodes of the user,
   those that held ones lead to are not, unless they are also reached without
   passing a held one; none is when all those in the tables are registered.
   */
  method CountAndMarkBuilt(root: GrammarNode, ghost g: Graph, ghost s: Sizes, ghost at: B.NodeRef -> GrammarNode,
                           ghost users: set<GrammarNode>, ghost owner: GrammarNode)
    requires root in g && Closed(g) && Holds(g) && Apart(g, s, at, users, owner, root)
    requires forall n :: n in g ==> n.state == None
    requires MarkingEnds(g, HeldSet(g, root), root)
    modifies g.Keys`state, g.Keys`freeRefcnt
    ensures forall n :: n in g.Keys - users ==> n.state == Freeable
    ensures
      var held := HeldSet(g, root);
      var a, r := FreePart(g, held, root), HeldPart(g, held);
      && (forall n :: n in a - r ==> n.state == Freeable)
      && (forall n :: n in r - a ==> n.state == NotFreeable)
      && (forall n :: n in a * r ==> n.state in {Freeable, NotFreeable})
      && forall n :: n in g.Keys - ReachableSet(g, root) ==> n.state == None
    ensures old(Registered(g, s, at)) ==> forall n :: n in ReachableSet(g, root) * users ==> n.state == NotFreeable
  {
    hide Apart, Closed, Reached, FreePart, HeldPart, MarkingEnds, HeldSet, ReachableSet, Registered;
    ghost var held := HeldSet(g, root);
    assert CanCount(g, root) by { ApartCounts(g, s, at, users, owner, root); }
    BuiltIsFree(g, s, at, users, owner, root);
    if Registered(g, s, at) {
      RegisteredIsApart(g, s, at, users, owner, root);
    }
    CountAndMark(root, g);
    assert HeldSet(g, root) == held;
  }
}
