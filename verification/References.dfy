/**
 Counting, over a grammar graph that may have cycles, the references that can
 be reached from a node, and clearing the marks this leaves.
 */
module References {

  datatype FreeState = None | Traversed | Freeable | NotFreeable | Freeing

  /** A child of a node, and the number of references to it that its parent holds. */
  datatype Edge = Edge(to: GrammarNode, refs: nat)

  class GrammarNode {
    var children: seq<Edge>
    var refcnt: nat
    var state: FreeState
    var freeRefcnt: nat

    constructor ()
      ensures refcnt == 1 && state == None && freeRefcnt == 0 && children == []
    {
      refcnt, state, freeRefcnt, children := 1, None, 0, [];
    }
  }

  /** The nodes of a graph with their edges. */
  type Graph = map<GrammarNode, seq<Edge>>

  ghost predicate Closed(g: Graph) {
    forall n :: n in g ==> forall i :: 0 <= i < |g[n]| ==> g[n][i].to in g
  }

  ghost predicate Holds(g: Graph)
    reads g.Keys
  {
    forall n :: n in g ==> n.children == g[n]
  }

  // ----- sums of references ----------------------------------------------------------------------

  /** The references that a list of edges holds to a node. */
  ghost function Held(edges: seq<Edge>, to: GrammarNode): nat {
    if edges == [] then 0
    else Held(edges[..|edges| - 1], to) + if edges[|edges| - 1].to == to then edges[|edges| - 1].refs else 0
  }

  /** The references that a set of parents holds to a node. */
  ghost function Incoming(g: Graph, parents: set<GrammarNode>, to: GrammarNode): nat
    requires parents <= g.Keys
  {
    if parents == {} then 0
    else
      var n :| n in parents;
      Held(g[n], to) + Incoming(g, parents - {n}, to)
  }

  lemma {:induction false} IncomingFrom(g: Graph, parents: set<GrammarNode>, n: GrammarNode, to: GrammarNode)
    requires parents <= g.Keys && n in parents
    ensures Incoming(g, parents, to) == Held(g[n], to) + Incoming(g, parents - {n}, to)
  {
    var first :|
      first in parents && Incoming(g, parents, to) == Held(g[first], to) + Incoming(g, parents - {first}, to);
    if first != n {
      IncomingFrom(g, parents - {first}, n, to);
      IncomingFrom(g, parents - {n}, first, to);
      assert parents - {first} - {n} == parents - {n} - {first};
    }
  }

  lemma {:induction false} IncomingUnion(g: Graph, a: set<GrammarNode>, b: set<GrammarNode>, to: GrammarNode)
    requires a <= g.Keys && b <= g.Keys && a !! b
    ensures Incoming(g, a + b, to) == Incoming(g, a, to) + Incoming(g, b, to)
    decreases b
  {
    if b == {} {
      assert a + b == a;
    } else {
      var n :| n in b;
      IncomingFrom(g, b, n, to);
      IncomingFrom(g, a + b, n, to);
      IncomingUnion(g, a, b - {n}, to);
      assert a + b - {n} == a + (b - {n});
    }
  }

  // ----- the marks on a graph ----------------------------------------------------------------------

  datatype Mark = Mark(state: FreeState, refs: nat)

  type Marks = map<GrammarNode, Mark>

  ghost function MarksOf(g: Graph): Marks
    reads g.Keys
  {
    map n | n in g :: Mark(n.state, n.freeRefcnt)
  }

  ghost function Unmarked(m: Marks): set<GrammarNode> {
    set n | n in m && m[n].state != Traversed
  }

  /** What has been counted for a node. */
  ghost function Counted(m: Mark): nat { if m.state == Traversed then m.refs else 0 }

  ghost function When(b: bool, refs: nat): nat { if b then refs else 0 }

  /** The edges from these nodes lead into a set. */
  ghost predicate Leads(g: Graph, from: set<GrammarNode>, into: set<GrammarNode>) {
    forall n :: n in from && n in g ==> forall i :: 0 <= i < |g[n]| ==> g[n][i].to in into
  }

  /** Exactly these nodes get marked, and the others that are unmarked do not change. */
  ghost predicate Marked(before: Marks, after: Marks, marked: set<GrammarNode>) {
    && before.Keys == after.Keys
    && marked == Unmarked(before) - Unmarked(after)
    && Unmarked(after) <= Unmarked(before)
    && forall n :: n in Unmarked(after) ==> after[n] == before[n]
  }

  /** No smaller set holds the node and what can be reached from it through unmarked nodes. */
  ghost predicate Least(g: Graph, before: Marks, node: GrammarNode, marked: set<GrammarNode>) {
    forall s :: s <= g.Keys && node in s && Leads(g, s * Unmarked(before), s) ==> marked <= s
  }

  /** The caller's references to a node, those of some of its edges, and those of a set of parents, are added. */
  ghost predicate Adds(g: Graph, before: Marks, after: Marks, node: GrammarNode, refs: nat,
                       edges: seq<Edge>, parents: set<GrammarNode>)
    requires g.Keys == before.Keys == after.Keys && parents <= g.Keys
  {
    forall n :: n in g ==>
      Counted(after[n]) == Counted(before[n]) + When(n == node, refs) + Held(edges, n) + Incoming(g, parents, n)
  }

  /** Counting from a node: the marks before and after, and the nodes that get marked. */
  ghost predicate Counts(g: Graph, before: Marks, after: Marks, node: GrammarNode, refs: nat,
                         marked: set<GrammarNode>)
  {
    && g.Keys == before.Keys && marked <= g.Keys
    && Marked(before, after, marked)
    && node !in Unmarked(after)
    && Leads(g, marked, g.Keys - Unmarked(after))
    && Least(g, before, node, marked)
    && Adds(g, before, after, node, refs, [], marked)
  }

  /** The same in the middle: the node is marked, and i of its children have been counted. */
  ghost predicate Counting(g: Graph, before: Marks, after: Marks, node: GrammarNode, refs: nat, i: nat,
                           below: set<GrammarNode>)
  {
    && g.Keys == before.Keys && below <= g.Keys && node in g && i <= |g[node]| && node !in below
    && Marked(before, after, below + {node})
    && Leads(g, below, g.Keys - Unmarked(after))
    && (forall j :: 0 <= j < i ==> g[node][j].to !in Unmarked(after))
    && Least(g, before, node, below)
    && Adds(g, before, after, node, refs, g[node][..i], below)
  }

  lemma AlreadyMarked(g: Graph, before: Marks, node: GrammarNode, refs: nat)
    requires g.Keys == before.Keys && node in g && before[node].state == Traversed
    ensures Counts(g, before, before[node := Mark(Traversed, before[node].refs + refs)], node, refs, {})
  {
  }

  lemma MarkNode(g: Graph, before: Marks, node: GrammarNode, refs: nat)
    requires g.Keys == before.Keys && node in g && before[node].state != Traversed
    ensures Counting(g, before, before[node := Mark(Traversed, refs)], node, refs, 0, {})
  {
  }

  lemma MarkedMore(before: Marks, mid: Marks, after: Marks, a: set<GrammarNode>, b: set<GrammarNode>)
    requires Marked(before, mid, a) && Marked(mid, after, b)
    ensures Marked(before, after, a + b) && a !! b
  {
  }

  lemma LeadsMore(g: Graph, mid: Marks, after: Marks, a: set<GrammarNode>, b: set<GrammarNode>)
    requires Marked(mid, after, b)
    requires Leads(g, a, g.Keys - Unmarked(mid)) && Leads(g, b, g.Keys - Unmarked(after))
    ensures Leads(g, a + b, g.Keys - Unmarked(after))
  {
  }

  lemma LeastMore(g: Graph, before: Marks, mid: Marks, node: GrammarNode, i: nat,
                  below: set<GrammarNode>, more: set<GrammarNode>)
    requires g.Keys == before.Keys && node in g && i < |g[node]| && node in Unmarked(before)
    requires Marked(before, mid, below + {node})
    requires Least(g, before, node, below) && Least(g, mid, g[node][i].to, more)
    ensures Least(g, before, node, below + more)
  {
    forall s | s <= g.Keys && node in s && Leads(g, s * Unmarked(before), s)
      ensures below + more <= s
    {
      assert node in s * Unmarked(before);
      assert g[node][i].to in s;
      assert s * Unmarked(mid) <= s * Unmarked(before);
      assert Leads(g, s * Unmarked(mid), s);
    }
  }

  lemma AddsMore(g: Graph, before: Marks, mid: Marks, after: Marks, node: GrammarNode, refs: nat, i: nat,
                 below: set<GrammarNode>, more: set<GrammarNode>)
    requires g.Keys == before.Keys == mid.Keys == after.Keys && below <= g.Keys && more <= g.Keys
    requires node in g && i < |g[node]| && below !! more
    requires Adds(g, before, mid, node, refs, g[node][..i], below)
    requires Adds(g, mid, after, g[node][i].to, g[node][i].refs, [], more)
    ensures Adds(g, before, after, node, refs, g[node][..i + 1], below + more)
  {
    hide Counted, Incoming;
    forall n | n in g
      ensures Counted(after[n]) ==
        Counted(before[n]) + When(n == node, refs) + Held(g[node][..i + 1], n) + Incoming(g, below + more, n)
    {
      IncomingUnion(g, below, more, n);
      assert g[node][..i + 1][..i] == g[node][..i];
    }
  }

  lemma CountedChild(g: Graph, before: Marks, mid: Marks, after: Marks, node: GrammarNode, refs: nat, i: nat,
                     below: set<GrammarNode>, more: set<GrammarNode>)
    requires Counting(g, before, mid, node, refs, i, below) && i < |g[node]|
    requires Counts(g, mid, after, g[node][i].to, g[node][i].refs, more)
    ensures Counting(g, before, after, node, refs, i + 1, below + more)
  {
    hide Marked, Leads, Least, Adds, Unmarked;
    MarkedMore(before, mid, after, below + {node}, more);
    LeadsMore(g, mid, after, below, more);
    MarkedFacts(before, mid, below + {node});
    MarkedFacts(mid, after, more);
    LeastMore(g, before, mid, node, i, below, more);
    AddsMore(g, before, mid, after, node, refs, i, below, more);
    assert below + {node} + more == below + more + {node};
  }

  lemma MarkedFacts(before: Marks, after: Marks, marked: set<GrammarNode>)
    requires Marked(before, after, marked)
    ensures before.Keys == after.Keys && marked <= Unmarked(before) && Unmarked(after) <= Unmarked(before)
    ensures marked == Unmarked(before) - Unmarked(after)
  {
  }

  lemma CountedAll(g: Graph, before: Marks, after: Marks, node: GrammarNode, refs: nat, below: set<GrammarNode>)
    requires Closed(g)
    requires node in g && Counting(g, before, after, node, refs, |g[node]|, below)
    ensures Counts(g, before, after, node, refs, below + {node})
  {
    hide Incoming;
    assert g[node][..|g[node]|] == g[node];
    forall n | n in g
      ensures Incoming(g, below + {node}, n) == Incoming(g, below, n) + Held(g[node], n)
    {
      IncomingFrom(g, below + {node}, node, n);
      assert below + {node} - {node} == below;
    }
  }

  // ----- counting --------------------------------------------------------------------------------

  /**
   Counting from a node marks what can be reached from it, and adds to every
   node the references of the nodes it marks and those the caller holds.
   */
  method CountReferences(node: GrammarNode, refs: nat, ghost g: Graph) returns (ghost marked: set<GrammarNode>)
    requires node in g && Closed(g) && Holds(g)
    modifies g.Keys`state, g.Keys`freeRefcnt
    ensures Counts(g, old(MarksOf(g)), MarksOf(g), node, refs, marked)
    decreases Unmarked(MarksOf(g))
  {
    hide Counts, Counting, Closed;
    ghost var before := MarksOf(g);
    if node.state == Traversed {
      node.freeRefcnt := node.freeRefcnt + refs;
      AlreadyMarked(g, before, node, refs);
      assert MarksOf(g) == before[node := Mark(Traversed, before[node].refs + refs)];
      return {};
    }
    node.freeRefcnt := refs;
    node.state := Traversed;
    MarkNode(g, before, node, refs);
    assert MarksOf(g) == before[node := Mark(Traversed, refs)];
    ghost var below := {};
    var i := 0;
    while i < |node.children|
      invariant 0 <= i <= |g[node]|
      invariant Counting(g, before, MarksOf(g), node, refs, i, below)
    {
      ghost var mid := MarksOf(g);
      FewerUnmarked(g, before, mid, node, refs, i, below);
      ChildInGraph(g, node, i);
      var child, held := node.children[i].to, node.children[i].refs;
      ghost var more := CountReferences(child, held, g);
      CountedChild(g, before, mid, MarksOf(g), node, refs, i, below, more);
      i := i + 1;
      below := below + more;
    }
    CountedAll(g, before, MarksOf(g), node, refs, below);
    marked := below + {node};
  }

  lemma FewerUnmarked(g: Graph, before: Marks, mid: Marks, node: GrammarNode, refs: nat, i: nat,
                      below: set<GrammarNode>)
    requires Counting(g, before, mid, node, refs, i, below)
    ensures Unmarked(mid) < Unmarked(before)
  {
  }

  lemma ChildInGraph(g: Graph, node: GrammarNode, i: nat)
    requires Closed(g) && node in g && i < |g[node]|
    ensures g[node][i].to in g
  {
  }

  // ----- from an unmarked graph ------------------------------------------------------------------

  /** A path, as the children taken, leads from one node to another. */
  ghost predicate Path(g: Graph, from: GrammarNode, path: seq<nat>, to: GrammarNode) {
    if path == [] then from == to
    else from in g && path[0] < |g[from]| && Path(g, g[from][path[0]].to, path[1..], to)
  }

  ghost predicate Reachable(g: Graph, from: GrammarNode, to: GrammarNode) {
    exists path :: Path(g, from, path, to)
  }

  ghost function ReachableSet(g: Graph, from: GrammarNode): set<GrammarNode> {
    set n | n in g && Reachable(g, from, n)
  }

  lemma {:induction false} PathStep(g: Graph, from: GrammarNode, path: seq<nat>, n: GrammarNode, i: nat)
    requires Path(g, from, path, n) && n in g && i < |g[n]|
    ensures Path(g, from, path + [i], g[n][i].to)
    decreases path
  {
    if path == [] {
      assert Path(g, g[n][i].to, [i][1..], g[n][i].to);
    } else {
      PathStep(g, g[from][path[0]].to, path[1..], n, i);
      assert (path + [i])[1..] == path[1..] + [i];
    }
  }

  lemma {:induction false} PathStays(g: Graph, from: GrammarNode, path: seq<nat>, to: GrammarNode, s: set<GrammarNode>)
    requires Leads(g, s, s) && from in s && Path(g, from, path, to)
    ensures to in s
    decreases path
  {
    if path != [] {
      PathStays(g, g[from][path[0]].to, path[1..], to, s);
    }
  }

  lemma ReachableCloses(g: Graph, root: GrammarNode)
    requires Closed(g) && root in g
    ensures root in ReachableSet(g, root) && Leads(g, ReachableSet(g, root), ReachableSet(g, root))
  {
    assert Path(g, root, [], root);
    var s := ReachableSet(g, root);
    forall n, i | n in s && n in g && 0 <= i < |g[n]|
      ensures g[n][i].to in s
    {
      var path :| Path(g, root, path, n);
      PathStep(g, root, path, n, i);
    }
  }

  lemma MarksReachable(g: Graph, before: Marks, after: Marks, root: GrammarNode, refs: nat, marked: set<GrammarNode>)
    requires Closed(g) && root in g && Counts(g, before, after, root, refs, marked)
    requires Unmarked(before) == g.Keys
    ensures marked == ReachableSet(g, root)
  {
    hide Adds;
    var s := ReachableSet(g, root);
    ReachableCloses(g, root);
    assert s * Unmarked(before) == s;
    assert marked == g.Keys - Unmarked(after);
    forall n | n in s
      ensures n in marked
    {
      var path :| Path(g, root, path, n);
      PathStays(g, root, path, n, marked);
    }
  }

  /**
   When nothing was marked, every node that can be reached from the root gets
   the references that its reachable parents hold, and one more for the root.
   */
  method CountReachable(root: GrammarNode, ghost g: Graph)
    requires root in g && Closed(g) && Holds(g)
    requires forall n :: n in g ==> n.state != Traversed
    modifies g.Keys`state, g.Keys`freeRefcnt
    ensures forall n :: n in ReachableSet(g, root) ==>
      && n.state == Traversed
      && n.freeRefcnt == (if n == root then 1 else 0) + Incoming(g, ReachableSet(g, root), n)
    ensures forall n :: n in g.Keys - ReachableSet(g, root) ==>
      n.state == old(n.state) && n.freeRefcnt == old(n.freeRefcnt)
  {
    hide Closed, ReachableSet, Leads, Least;
    ghost var before := MarksOf(g);
    assert Unmarked(before) == g.Keys;
    ghost var marked := CountReferences(root, 1, g);
    MarksReachable(g, before, MarksOf(g), root, 1, marked);
  }

  // ----- clearing the marks ------------------------------------------------------------------------

  ghost function Dirty(m: Marks): set<GrammarNode> {
    set n | n in m && m[n].state != None
  }

  /** Clearing: some nodes are reset, the others do not change. */
  ghost predicate Clears(g: Graph, before: Marks, after: Marks) {
    && g.Keys == before.Keys == after.Keys
    && (forall n :: n in g ==> after[n] == before[n] || after[n] == Mark(None, 0))
    && Leads(g, Dirty(before) - Dirty(after), g.Keys - Dirty(after))
  }

  ghost predicate Clearing(g: Graph, before: Marks, after: Marks, node: GrammarNode, i: nat) {
    && g.Keys == before.Keys == after.Keys
    && node in g && node in Dirty(before) && node !in Dirty(after) && i <= |g[node]|
    && (forall n :: n in g ==> after[n] == before[n] || after[n] == Mark(None, 0))
    && Leads(g, Dirty(before) - Dirty(after) - {node}, g.Keys - Dirty(after))
    && forall j :: 0 <= j < i ==> g[node][j].to !in Dirty(after)
  }

  lemma ClearNode(g: Graph, before: Marks, node: GrammarNode)
    requires g.Keys == before.Keys && node in g && node in Dirty(before)
    ensures Clearing(g, before, before[node := Mark(None, 0)], node, 0)
  {
  }

  lemma ClearedChild(g: Graph, before: Marks, mid: Marks, after: Marks, node: GrammarNode, i: nat)
    requires Clearing(g, before, mid, node, i) && i < |g[node]|
    requires Clears(g, mid, after) && g[node][i].to !in Dirty(after)
    ensures Clearing(g, before, after, node, i + 1)
    ensures Dirty(after) <= Dirty(mid)
  {
    assert Dirty(after) <= Dirty(mid) <= Dirty(before);
  }

  lemma ClearedAll(g: Graph, before: Marks, after: Marks, node: GrammarNode)
    requires Closed(g) && node in g && Clearing(g, before, after, node, |g[node]|)
    ensures Clears(g, before, after)
  {
  }

  lemma FewerDirty(g: Graph, before: Marks, mid: Marks, node: GrammarNode, i: nat)
    requires Clearing(g, before, mid, node, i)
    ensures Dirty(mid) < Dirty(before)
  {
  }

  method ResetMark(node: GrammarNode, ghost g: Graph)
    requires node in g && Closed(g) && Holds(g)
    modifies g.Keys`state, g.Keys`freeRefcnt
    ensures Clears(g, old(MarksOf(g)), MarksOf(g)) && node !in Dirty(MarksOf(g))
    decreases Dirty(MarksOf(g))
  {
    hide Closed, Clearing, Leads;
    ghost var before := MarksOf(g);
    if node.state == None {
      NothingCleared(g, before);
      return;
    }
    node.state := None;
    node.freeRefcnt := 0;
    ClearNode(g, before, node);
    assert MarksOf(g) == before[node := Mark(None, 0)];
    var i := 0;
    while i < |node.children|
      invariant 0 <= i <= |g[node]|
      invariant Clearing(g, before, MarksOf(g), node, i)
    {
      ghost var mid := MarksOf(g);
      FewerDirty(g, before, mid, node, i);
      ChildInGraph(g, node, i);
      ResetMark(node.children[i].to, g);
      ClearedChild(g, before, mid, MarksOf(g), node, i);
      i := i + 1;
    }
    ClearedAll(g, before, MarksOf(g), node);
    ClearingFacts(g, before, MarksOf(g), node, i);
  }

  lemma NothingCleared(g: Graph, before: Marks)
    requires g.Keys == before.Keys
    ensures Clears(g, before, before)
  {
  }

  lemma ClearingFacts(g: Graph, before: Marks, after: Marks, node: GrammarNode, i: nat)
    requires Clearing(g, before, after, node, i)
    ensures node !in Dirty(after)
  {
  }

  lemma ClearsMarked(g: Graph, before: Marks, mid: Marks, after: Marks, root: GrammarNode, refs: nat,
                     marked: set<GrammarNode>)
    requires Closed(g) && root in g && Counts(g, before, mid, root, refs, marked)
    requires forall n :: n in g ==> before[n] == Mark(None, 0)
    requires Clears(g, mid, after) && root !in Dirty(after)
    ensures after == before
  {
    hide Adds;
    assert Unmarked(before) == g.Keys;
    assert marked == g.Keys - Unmarked(mid);
    var s := marked - Dirty(after);
    assert s * Unmarked(before) == s;
    assert Leads(g, s, s) by {
      assert s <= Dirty(mid) - Dirty(after);
    }
    assert marked <= s;
  }

  /** On a clean graph, counting and then clearing from the same node leaves every mark as it was. */
  method CountAndReset(root: GrammarNode, ghost g: Graph)
    requires root in g && Closed(g) && Holds(g)
    requires forall n :: n in g ==> n.state == None && n.freeRefcnt == 0
    modifies g.Keys`state, g.Keys`freeRefcnt
    ensures forall n :: n in g ==> n.state == None && n.freeRefcnt == 0
  {
    hide Counts, Clears, Closed;
    ghost var before := MarksOf(g);
    ghost var marked := CountReferences(root, 1, g);
    ghost var mid := MarksOf(g);
    ResetMark(root, g);
    ghost var after := MarksOf(g);
    ClearsMarked(g, before, mid, after, root, 1, marked);
    forall n | n in g
      ensures n.state == None && n.freeRefcnt == 0
    {
      assert after[n] == before[n];
    }
  }
}
