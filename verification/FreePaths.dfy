/**
 Paths through a graph of which some nodes are held from elsewhere, and why a
 walk that marks nodes freeable and not freeable cannot go on for ever.
 */
module FreePaths {
  import opened References

  // ----- paths -------------------------------------------------------------------------------------

  /** A path that passes no held node. */
  ghost predicate Avoids(g: Graph, held: set<GrammarNode>, from: GrammarNode, path: seq<nat>, to: GrammarNode) {
    && from !in held
    && if path == [] then from == to
       else from in g && path[0] < |g[from]| && Avoids(g, held, g[from][path[0]].to, path[1..], to)
  }

  ghost predicate FreelyReaches(g: Graph, held: set<GrammarNode>, from: GrammarNode, to: GrammarNode) {
    exists path :: Avoids(g, held, from, path, to)
  }

  lemma ReachesChild(g: Graph, n: GrammarNode, i: nat)
    requires n in g && i < |g[n]|
    ensures Reachable(g, n, n) && Reachable(g, n, g[n][i].to)
  {
    assert Path(g, n, [], n);
    PathStep(g, n, [], n, i);
  }

  lemma ReachesThrough(g: Graph, a: GrammarNode, b: GrammarNode, c: GrammarNode)
    requires Closed(g) && a in g && Reachable(g, a, b) && Reachable(g, b, c)
    ensures Reachable(g, a, c)
  {
    ReachableCloses(g, a);
    InReach(g, a, b);
    ReachableStays(g, b, c, ReachableSet(g, a));
  }

  lemma InReach(g: Graph, a: GrammarNode, b: GrammarNode)
    requires Closed(g) && a in g && Reachable(g, a, b)
    ensures b in ReachableSet(g, a)
  {
    ReachableCloses(g, a);
    ReachableStays(g, a, b, ReachableSet(g, a));
  }

  lemma ReachableStays(g: Graph, from: GrammarNode, n: GrammarNode, s: set<GrammarNode>)
    requires Leads(g, s, s) && from in s && Reachable(g, from, n)
    ensures n in s
  {
    var path :| Path(g, from, path, n);
    PathStays(g, from, path, n, s);
  }

  // ----- cycles --------------------------------------------------------------------------------------

  /** A child of the node leads back to it, and no held node is passed. */
  ghost predicate OnFreeCycle(g: Graph, held: set<GrammarNode>, n: GrammarNode) {
    n in g && exists i :: 0 <= i < |g[n]| && FreelyReaches(g, held, g[n][i].to, n)
  }

  /** The node leads to a held node that leads back to it. */
  ghost predicate WithHeld(g: Graph, held: set<GrammarNode>, n: GrammarNode) {
    exists h :: h in held && Reachable(g, n, h) && Reachable(g, h, n)
  }

  /** No node is both on a cycle of free nodes and on a cycle through a held one. */
  ghost predicate Untangled(g: Graph, held: set<GrammarNode>, free: set<GrammarNode>) {
    forall n :: n in free ==> !(OnFreeCycle(g, held, n) && WithHeld(g, held, n))
  }

  /** The nodes on a common cycle with this one. */
  ghost function Circle(g: Graph, n: GrammarNode): set<GrammarNode> {
    set m | m in ReachableSet(g, n) && Reachable(g, m, n)
  }

  ghost function FreeFrom(g: Graph, held: set<GrammarNode>, n: GrammarNode): set<GrammarNode> {
    set m | m in g && FreelyReaches(g, held, n, m)
  }

  /** What held nodes within reach of the node lead to. */
  ghost function Turned(g: Graph, held: set<GrammarNode>, n: GrammarNode): set<GrammarNode> {
    set m | m in g && exists h :: h in held && Reachable(g, n, h) && Reachable(g, h, m)
  }

  lemma ChildReaches(g: Graph, held: set<GrammarNode>, n: GrammarNode, i: nat)
    requires Closed(g) && n in g && i < |g[n]|
    ensures
      var c := g[n][i].to;
      && c in g && ReachableSet(g, c) <= ReachableSet(g, n) && Turned(g, held, c) <= Turned(g, held, n)
  {
    var c := g[n][i].to;
    ReachesChild(g, n, i);
    forall m | m in ReachableSet(g, c)
      ensures m in ReachableSet(g, n)
    {
      ReachesThrough(g, n, c, m);
    }
    forall m | m in Turned(g, held, c)
      ensures m in Turned(g, held, n)
    {
      var h :| h in held && Reachable(g, c, h) && Reachable(g, h, m);
      ReachesThrough(g, n, c, h);
    }
  }

  /** A child with the same reach is on a cycle with its parent. */
  lemma SameReach(g: Graph, held: set<GrammarNode>, n: GrammarNode, i: nat)
    requires Closed(g) && n in g && i < |g[n]| && ReachableSet(g, g[n][i].to) == ReachableSet(g, n)
    ensures
      var c := g[n][i].to;
      Circle(g, c) == Circle(g, n) && (WithHeld(g, held, c) <==> WithHeld(g, held, n)) && n in Circle(g, n)
  {
    var c := g[n][i].to;
    ReachesChild(g, n, i);
    InReach(g, n, n);
    assert Reachable(g, c, n);
    forall m | m in ReachableSet(g, n)
      ensures Reachable(g, m, n) <==> Reachable(g, m, c)
    {
      if Reachable(g, m, n) { ReachesThrough(g, m, n, c); }
      if Reachable(g, m, c) { ReachesThrough(g, m, c, n); }
    }
    if WithHeld(g, held, n) { SharesHeld(g, held, n, c); }
    if WithHeld(g, held, c) { SharesHeld(g, held, c, n); }
  }

  lemma SharesHeld(g: Graph, held: set<GrammarNode>, a: GrammarNode, b: GrammarNode)
    requires Closed(g) && a in g && b in g && Reachable(g, a, b) && Reachable(g, b, a) && WithHeld(g, held, a)
    ensures WithHeld(g, held, b)
  {
    var h :| h in held && Reachable(g, a, h) && Reachable(g, h, a);
    InReach(g, a, h);
    ReachesThrough(g, b, a, h);
    ReachesThrough(g, h, a, b);
  }

  /** Without a held node on a cycle with it, what the held nodes lead to is not on a cycle with the node. */
  lemma TurnedElsewhere(g: Graph, held: set<GrammarNode>, n: GrammarNode)
    requires Closed(g) && n in g && !WithHeld(g, held, n)
    ensures Circle(g, n) !! Turned(g, held, n)
  {
    forall m | m in Circle(g, n) && m in Turned(g, held, n)
      ensures false
    {
      var h :| h in held && Reachable(g, n, h) && Reachable(g, h, m);
      InReach(g, n, h);
      ReachesThrough(g, h, m, n);
    }
  }

  /** Off the cycles of free nodes, a child freely reaches less than its parent. */
  lemma LessAhead(g: Graph, held: set<GrammarNode>, n: GrammarNode, i: nat)
    requires Closed(g) && n in g && n !in held && i < |g[n]| && !OnFreeCycle(g, held, n)
    ensures FreeFrom(g, held, g[n][i].to) < FreeFrom(g, held, n)
  {
    var c := g[n][i].to;
    assert Avoids(g, held, n, [], n);
    assert n in FreeFrom(g, held, n) && n !in FreeFrom(g, held, c);
    forall m | m in FreeFrom(g, held, c)
      ensures m in FreeFrom(g, held, n)
    {
      var path :| Avoids(g, held, c, path, m);
      assert ([i] + path)[1..] == path;
      assert Avoids(g, held, n, [i] + path, m);
    }
  }

  // ----- what a visit may change ---------------------------------------------------------------------

  type States = map<GrammarNode, FreeState>

  /**
   A visit marks nodes freeable only when it comes with that mark, and not
   freeable only what it reaches, or what held nodes within its reach do.
   */
  ghost predicate Changes(g: Graph, held: set<GrammarNode>, before: States, after: States,
                          node: GrammarNode, mark: FreeState)
  {
    && before.Keys == after.Keys
    && forall m :: m in before ==>
         || after[m] == before[m]
         || (after[m] == Freeable && mark == Freeable)
         || (after[m] == NotFreeable
             && m in if mark == Freeable then Turned(g, held, node) else ReachableSet(g, node))
  }

  lemma ChangesChild(g: Graph, held: set<GrammarNode>, before: States, mid: States, after: States,
                     node: GrammarNode, mark: FreeState, i: nat)
    requires Closed(g) && node in g && i < |g[node]|
    requires Changes(g, held, before, mid, node, mark) && Changes(g, held, mid, after, g[node][i].to, mark)
    ensures Changes(g, held, before, after, node, mark)
  {
    ChildReaches(g, held, node, i);
  }

  /** A node and what its children changed, seen from its caller. */
  lemma ChangesOwn(g: Graph, held: set<GrammarNode>, before: States, after: States, node: GrammarNode,
                   mark0: FreeState, mark: FreeState)
    requires Closed(g) && node in g && node in before && mark in {Freeable, NotFreeable}
    requires Changes(g, held, before[node := mark], after, node, mark)
    requires mark0 == mark || (mark0 == Freeable && node in held)
    ensures Changes(g, held, before, after, node, mark0)
  {
    ReachableCloses(g, node);
    assert Path(g, node, [], node);
    if mark0 != mark {
      forall m | m in ReachableSet(g, node)
        ensures m in Turned(g, held, node)
      {
        assert node in held && Reachable(g, node, node) && Reachable(g, node, m);
      }
    }
  }

  // ----- why it ends -----------------------------------------------------------------------------------

  /** What is still to be marked freeable on the cycles of a node that no held node is on. */
  ghost function Unmade(g: Graph, held: set<GrammarNode>, m: States, n: GrammarNode,
                        mark: FreeState): set<GrammarNode> {
    if mark == Freeable && !WithHeld(g, held, n) then set x | x in Circle(g, n) && x in m && m[x] != Freeable
    else {}
  }

  ghost function Ahead(g: Graph, held: set<GrammarNode>, n: GrammarNode, mark: FreeState): set<GrammarNode> {
    if mark == Freeable then FreeFrom(g, held, n) else {}
  }

  /** What is still to be marked not freeable, once only that mark is handed down. */
  ghost function Pending(m: States, mark: FreeState): set<GrammarNode> {
    if mark == Freeable then {} else set n | n in m && m[n] != NotFreeable
  }

  /** The child comes with less to do than the node did. */
  ghost predicate Less(g: Graph, held: set<GrammarNode>, before: States, mid: States,
                       node: GrammarNode, child: GrammarNode, mark: FreeState)
  {
    var x, y := ReachableSet(g, node), ReachableSet(g, child);
    var u, v := Unmade(g, held, before, node, mark), Unmade(g, held, mid, child, mark);
    var a, b := Ahead(g, held, node, mark), Ahead(g, held, child, mark);
    || y < x
    || (y == x && v < u)
    || (y == x && v == u && b < a)
    || (y == x && v == u && b == a && Pending(mid, mark) < Pending(before, mark))
  }

  lemma ChildIsLess(g: Graph, held: set<GrammarNode>, before: States, mid: States,
                    node: GrammarNode, mark: FreeState, i: nat)
    requires Closed(g) && node in g && i < |g[node]| && g.Keys == before.Keys
    requires mark in {Freeable, NotFreeable} && before[node] != mark
    requires Changes(g, held, before[node := mark], mid, node, mark)
    requires mark == Freeable ==> node !in held && Untangled(g, held, {node})
    ensures Less(g, held, before, mid, node, g[node][i].to, mark)
  {
    var child := g[node][i].to;
    ChildReaches(g, held, node, i);
    if ReachableSet(g, child) == ReachableSet(g, node) {
      SameReach(g, held, node, i);
      if mark == NotFreeable {
        assert node in Pending(before, mark) - Pending(mid, mark);
      } else if WithHeld(g, held, node) {
        LessAhead(g, held, node, i);
      } else {
        TurnedElsewhere(g, held, node);
        assert node in Unmade(g, held, before, node, mark) - Unmade(g, held, mid, child, mark);
      }
    }
  }
}
