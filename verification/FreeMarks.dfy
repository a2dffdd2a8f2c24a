/**
 Marking, after the count, which nodes can be freed with the root: the method
 runs the walk, and what the walk marks when it ends; it ends on any graph in
 which held nodes and cycles are not tangled.
 */
module FreeMarks {
  import opened References
  import opened Marking
  import opened FreePaths

  // ----- the parts of a graph ----------------------------------------------------------------------

  /** The nodes that marking reaches as freeable (a) and as not freeable (r), and those referenced from outside. */
  datatype Parts = Parts(a: set<GrammarNode>, r: set<GrammarNode>, held: set<GrammarNode>)

  /** A freeable node leads to freeable or to held ones, and what is not freeable stays so. */
  ghost predicate Parted(g: Graph, p: Parts) {
    && p.a + p.r <= g.Keys && p.a !! p.held
    && Leads(g, p.a, p.a + p.r * p.held)
    && Leads(g, p.r, p.r)
  }

  /** The nodes that have been marked freeable, and those that have been marked not freeable, at some time. */
  datatype Seen = Seen(f: set<GrammarNode>, n: set<GrammarNode>)

  ghost predicate SeenMore(before: Seen, after: Seen) { before.f <= after.f && before.n <= after.n }

  /** What was seen of a part shows in the marks, for good unless the node is in both parts. */
  ghost predicate Tracks(m: States, p: Parts, seen: Seen) {
    && seen.f <= p.a && seen.n <= p.r
    && p.a + p.r <= m.Keys
    && (forall n :: n in p.a + p.r && m[n] == Freeable ==> n in seen.f)
    && (forall n :: n in p.a + p.r && m[n] == NotFreeable ==> n in seen.n)
    && (forall n :: n in seen.f - p.r ==> m[n] == Freeable)
    && (forall n :: n in seen.n - p.a ==> m[n] == NotFreeable)
    && (forall n :: n in seen.f + seen.n ==> m[n] == Freeable || m[n] == NotFreeable)
  }

  /** The child of a freeable node has been reached. */
  ghost predicate Reaches(p: Parts, seen: Seen, child: GrammarNode) {
    if child in p.a then child in seen.f else child in seen.n
  }

  /** The children of these nodes have been reached from freeable ones. */
  ghost predicate Spreads(g: Graph, p: Parts, from: set<GrammarNode>, seen: Seen) {
    forall n :: n in from && n in g ==> forall i :: 0 <= i < |g[n]| ==> Reaches(p, seen, g[n][i].to)
  }

  ghost predicate Untouched(before: States, after: States, seen: Seen) {
    && before.Keys == after.Keys
    && forall n :: n in before && n !in seen.f + seen.n ==> after[n] == before[n]
  }

  /** A visit: new nodes are seen with all their children, and the other nodes keep their marks. */
  ghost predicate Visited(g: Graph, p: Parts, before: States, after: States, old_: Seen, seen: Seen) {
    && SeenMore(old_, seen)
    && Tracks(after, p, seen)
    && Untouched(before, after, seen)
    && Spreads(g, p, seen.f - old_.f, seen)
    && Leads(g, seen.n - old_.n, seen.n)
  }

  /** In the middle of a visit of a node: it has its mark, and i of its children have been visited. */
  ghost predicate Visiting(g: Graph, p: Parts, before: States, after: States, old_: Seen, seen: Seen,
                           node: GrammarNode, mark: FreeState, i: nat)
  {
    && node in g && i <= |g[node]|
    && SeenMore(old_, seen)
    && Tracks(after, p, seen)
    && Untouched(before, after, seen)
    && (if mark == Freeable then node in p.a && node in seen.f else node in p.r && node in seen.n)
    && Spreads(g, p, seen.f - old_.f - (if mark == Freeable then {node} else {}), seen)
    && Leads(g, seen.n - old_.n - (if mark == Freeable then {} else {node}), seen.n)
    && forall j :: 0 <= j < i ==>
         if mark == Freeable then Reaches(p, seen, g[node][j].to) else g[node][j].to in seen.n
  }

  lemma AlreadySeen(g: Graph, p: Parts, m: States, seen: Seen, node: GrammarNode, mark: FreeState)
    requires Tracks(m, p, seen) && Parted(g, p) && Fits(p, node, mark) && node in m && m[node] == mark
    ensures Visited(g, p, m, m, seen, seen) && Arrived(p, seen, node, mark)
  {
  }

  /** Setting the mark of a node. */
  lemma SetMark(g: Graph, p: Parts, m: States, seen: Seen, node: GrammarNode, mark: FreeState)
    requires g.Keys == m.Keys && node in g && Tracks(m, p, seen)
    requires if mark == Freeable then node in p.a else mark == NotFreeable && node in p.r
    ensures
      var now := if mark == Freeable then Seen(seen.f + {node}, seen.n) else Seen(seen.f, seen.n + {node});
      Visiting(g, p, m, m[node := mark], seen, now, node, mark, 0)
  {
  }

  lemma VisitedChild(g: Graph, p: Parts, before: States, mid: States, after: States, old_: Seen, at: Seen, seen: Seen,
                     node: GrammarNode, mark: FreeState, i: nat)
    requires Visiting(g, p, before, mid, old_, at, node, mark, i) && i < |g[node]|
    requires Visited(g, p, mid, after, at, seen)
    requires if mark == Freeable then Reaches(p, seen, g[node][i].to) else g[node][i].to in seen.n
    ensures Visiting(g, p, before, after, old_, seen, node, mark, i + 1)
  {
    hide Tracks, Untouched, Spreads, Leads;
    UntouchedMore(before, mid, after, at, seen);
    var f, n := if mark == Freeable then {node} else {}, if mark == Freeable then {} else {node};
    SpreadsMore(g, p, at.f - old_.f - f, seen.f - at.f, at, seen);
    SpreadsFewer(g, p, (at.f - old_.f - f) + (seen.f - at.f), seen.f - old_.f - f, seen);
    LeadsWider(g, at.n - old_.n - n, seen.n - at.n, at.n, seen.n);
    LeadsFewer(g, (at.n - old_.n - n) + (seen.n - at.n), seen.n - old_.n - n, seen.n);
  }

  lemma UntouchedMore(before: States, mid: States, after: States, at: Seen, seen: Seen)
    requires Untouched(before, mid, at) && Untouched(mid, after, seen) && SeenMore(at, seen)
    ensures Untouched(before, after, seen)
  {
  }

  lemma SpreadsMore(g: Graph, p: Parts, x: set<GrammarNode>, y: set<GrammarNode>, at: Seen, seen: Seen)
    requires Spreads(g, p, x, at) && Spreads(g, p, y, seen) && SeenMore(at, seen)
    ensures Spreads(g, p, x + y, seen)
  {
  }

  lemma SpreadsFewer(g: Graph, p: Parts, x: set<GrammarNode>, y: set<GrammarNode>, seen: Seen)
    requires Spreads(g, p, x, seen) && y <= x
    ensures Spreads(g, p, y, seen)
  {
  }

  lemma LeadsWider(g: Graph, x: set<GrammarNode>, y: set<GrammarNode>, small: set<GrammarNode>, large: set<GrammarNode>)
    requires Leads(g, x, small) && Leads(g, y, large) && small <= large
    ensures Leads(g, x + y, large)
  {
  }

  lemma LeadsFewer(g: Graph, x: set<GrammarNode>, y: set<GrammarNode>, into: set<GrammarNode>)
    requires Leads(g, x, into) && y <= x
    ensures Leads(g, y, into)
  {
  }

  lemma VisitedAll(g: Graph, p: Parts, before: States, after: States, old_: Seen, seen: Seen,
                   node: GrammarNode, mark: FreeState)
    requires node in g && Visiting(g, p, before, after, old_, seen, node, mark, |g[node]|)
    ensures Visited(g, p, before, after, old_, seen)
    ensures if mark == Freeable then node in seen.f else node in seen.n
  {
  }

  // ----- what a walk marks ---------------------------------------------------------------------------

  /** The marks with which marking reaches a node. */
  ghost predicate Fits(p: Parts, node: GrammarNode, mark: FreeState) {
    || (mark == Freeable && node in p.a + p.r * p.held)
    || (mark == NotFreeable && node in p.r)
  }

  ghost predicate Arrived(p: Parts, seen: Seen, node: GrammarNode, mark: FreeState) {
    if mark == Freeable then Reaches(p, seen, node) else node in seen.n
  }

  /** The mark that a node gets. */
  ghost function OwnMark(held: set<GrammarNode>, node: GrammarNode, mark: FreeState): FreeState {
    if node in held then NotFreeable else mark
  }

  lemma MarkFits(g: Graph, p: Parts, node: GrammarNode, mark0: FreeState)
    requires Parted(g, p) && Fits(p, node, mark0)
    ensures node in g
    ensures
      var mark := OwnMark(p.held, node, mark0);
      && (if mark == Freeable then mark0 == Freeable && node in p.a else mark == NotFreeable && node in p.r)
      && ((mark == mark0 && mark0 in {Freeable, NotFreeable})
          || (mark0 == Freeable && mark == NotFreeable && node !in p.a && node in p.held))
  {
  }

  lemma ChildFits(g: Graph, p: Parts, node: GrammarNode, mark: FreeState, i: nat)
    requires Parted(g, p) && node in g && i < |g[node]|
    requires if mark == Freeable then node in p.a else mark == NotFreeable && node in p.r
    ensures g[node][i].to in g && Fits(p, g[node][i].to, mark)
  {
  }

  lemma VisitingTracks(g: Graph, p: Parts, before: States, after: States, old_: Seen, seen: Seen,
                       node: GrammarNode, mark: FreeState, i: nat)
    requires Visiting(g, p, before, after, old_, seen, node, mark, i)
    ensures Tracks(after, p, seen) && after.Keys == before.Keys
  {
  }

  ghost function SeenWith(seen: Seen, node: GrammarNode, mark: FreeState): Seen {
    if mark == Freeable then Seen(seen.f + {node}, seen.n) else Seen(seen.f, seen.n + {node})
  }

  ghost function ChildrenOf(edges: seq<Edge>): (r: seq<GrammarNode>)
    ensures |r| == |edges| && forall i :: 0 <= i < |edges| ==> r[i] == edges[i].to
  {
    if edges == [] then [] else [edges[0].to] + ChildrenOf(edges[1..])
  }

  /** The graph without its counts of references. */
  ghost function KidsOf(g: Graph): map<GrammarNode, seq<GrammarNode>> {
    map n | n in g :: ChildrenOf(g[n])
  }

  lemma KidsComplete(g: Graph)
    requires Closed(g)
    ensures Complete(KidsOf(g)) && KidsOf(g).Keys == g.Keys
    ensures forall n :: n in g ==> |KidsOf(g)[n]| == |g[n]| && Within(KidsOf(g), KidsOf(g)[n])
    ensures forall n, i :: n in g && 0 <= i < |g[n]| ==> KidsOf(g)[n][i] == g[n][i].to
  {
  }

  /** The walk over the graph, and over the children of a node from one on. */
  ghost function WalkAt(g: Graph, held: set<GrammarNode>, m: States, node: GrammarNode, mark: FreeState, depth: nat):
    (r: Walk<GrammarNode>)
    requires Closed(g) && node in g && m.Keys == g.Keys
    ensures r.Done? ==> r.states.Keys == g.Keys
  {
    KidsComplete(g);
    Visit(KidsOf(g), held, m, node, mark, depth)
  }

  ghost function WalkFrom(g: Graph, held: set<GrammarNode>, m: States, node: GrammarNode, i: nat, mark: FreeState,
                          depth: nat): (r: Walk<GrammarNode>)
    requires Closed(g) && node in g && i <= |g[node]| && m.Keys == g.Keys
    ensures r.Done? ==> r.states.Keys == g.Keys
  {
    KidsComplete(g);
    VisitKids(KidsOf(g), held, m, KidsOf(g)[node][i..], mark, depth)
  }

  lemma WalkIs(g: Graph, held: set<GrammarNode>, m: States, node: GrammarNode, mark: FreeState, depth: nat)
    requires Closed(g) && node in g && m.Keys == g.Keys
    ensures
      var own := OwnMark(held, node, mark);
      WalkAt(g, held, m, node, mark, depth) ==
      if depth == 0 then TooDeep else if m[node] == mark then Done(m)
      else WalkFrom(g, held, m[node := own], node, 0, own, depth - 1)
  {
    KidsComplete(g);
    assert KidsOf(g)[node][0..] == KidsOf(g)[node];
  }

  lemma WalkFromIs(g: Graph, held: set<GrammarNode>, m: States, node: GrammarNode, i: nat, mark: FreeState, depth: nat)
    requires Closed(g) && node in g && i <= |g[node]| && m.Keys == g.Keys
    ensures i < |g[node]| ==> g[node][i].to in g
    ensures
      WalkFrom(g, held, m, node, i, mark, depth) ==
      if i == |g[node]| then Done(m)
      else
        var first := WalkAt(g, held, m, g[node][i].to, mark, depth);
        if first.TooDeep? then TooDeep else WalkFrom(g, held, first.states, node, i + 1, mark, depth)
  {
    KidsComplete(g);
    var kids := KidsOf(g)[node];
    if i < |g[node]| {
      assert kids[i..][0] == kids[i] && kids[i..][1..] == kids[i + 1..];
    }
  }

  /** A walk that ends reaches the freeable part as freeable, and the rest as not freeable. */
  lemma {:induction false} WalkSpreads(g: Graph, p: Parts, m: States, old_: Seen, node: GrammarNode, mark0: FreeState,
                                       depth: nat) returns (seen: Seen)
    requires Closed(g) && Parted(g, p) && Fits(p, node, mark0) && node in g && m.Keys == g.Keys && Tracks(m, p, old_)
    requires WalkAt(g, p.held, m, node, mark0, depth).Done?
    ensures Visited(g, p, m, WalkAt(g, p.held, m, node, mark0, depth).states, old_, seen)
    ensures Arrived(p, seen, node, mark0)
    decreases depth, 0, 0
  {
    hide Closed, Parted, Fits, Tracks, Visited, Visiting, WalkAt, WalkFrom, Arrived, Reaches;
    WalkIs(g, p.held, m, node, mark0, depth);
    if m[node] == mark0 {
      AlreadySeen(g, p, m, old_, node, mark0);
      return old_;
    }
    var mark := OwnMark(p.held, node, mark0);
    MarkFits(g, p, node, mark0);
    SetMark(g, p, m, old_, node, mark);
    seen := KidsSpread(g, p, m, m[node := mark], old_, SeenWith(old_, node, mark), node, mark, 0, depth - 1);
    var after := WalkFrom(g, p.held, m[node := mark], node, 0, mark, depth - 1).states;
    VisitedAll(g, p, m, after, old_, seen, node, mark);
    Arrives(g, p, seen, node, mark0);
  }

  lemma Arrives(g: Graph, p: Parts, seen: Seen, node: GrammarNode, mark0: FreeState)
    requires if OwnMark(p.held, node, mark0) == Freeable then node in seen.f else node in seen.n
    requires Parted(g, p) && Fits(p, node, mark0)
    ensures Arrived(p, seen, node, mark0)
  {
  }

  lemma {:induction false} KidsSpread(g: Graph, p: Parts, before: States, mid: States, old_: Seen, at: Seen,
                                      node: GrammarNode, mark: FreeState, i: nat, depth: nat) returns (seen: Seen)
    requires Closed(g) && Parted(g, p) && before.Keys == mid.Keys == g.Keys
    requires node in g && i <= |g[node]| && Visiting(g, p, before, mid, old_, at, node, mark, i)
    requires if mark == Freeable then node in p.a else mark == NotFreeable && node in p.r
    requires WalkFrom(g, p.held, mid, node, i, mark, depth).Done?
    ensures
      var after := WalkFrom(g, p.held, mid, node, i, mark, depth).states;
      Visiting(g, p, before, after, old_, seen, node, mark, |g[node]|)
    decreases depth, 1, |g[node]| - i
  {
    hide Closed, Parted, Fits, Tracks, Visited, Visiting, WalkAt, WalkFrom, Arrived;
    WalkFromIs(g, p.held, mid, node, i, mark, depth);
    if i == |g[node]| {
      return at;
    }
    var child := g[node][i].to;
    var after := WalkAt(g, p.held, mid, child, mark, depth).states;
    ChildFits(g, p, node, mark, i);
    VisitingTracks(g, p, before, mid, old_, at, node, mark, i);
    var now := WalkSpreads(g, p, mid, at, child, mark, depth);
    ChildArrived(p, now, child, mark);
    VisitedChild(g, p, before, mid, after, old_, at, now, node, mark, i);
    seen := KidsSpread(g, p, before, after, old_, now, node, mark, i + 1, depth);
  }

  lemma ChildArrived(p: Parts, seen: Seen, child: GrammarNode, mark: FreeState)
    requires Arrived(p, seen, child, mark)
    ensures if mark == Freeable then Reaches(p, seen, child) else child in seen.n
  {
  }

  // ----- where a walk ends ---------------------------------------------------------------------------

  lemma {:induction false} WalkChanges(g: Graph, held: set<GrammarNode>, m: States, node: GrammarNode,
                                       mark0: FreeState, depth: nat)
    requires Closed(g) && node in g && m.Keys == g.Keys && mark0 in {Freeable, NotFreeable}
    requires WalkAt(g, held, m, node, mark0, depth).Done?
    ensures Changes(g, held, m, WalkAt(g, held, m, node, mark0, depth).states, node, mark0)
    decreases depth, 0, 0
  {
    hide Closed, WalkAt, WalkFrom;
    WalkIs(g, held, m, node, mark0, depth);
    if m[node] != mark0 {
      var mark := OwnMark(held, node, mark0);
      var own := m[node := mark];
      hide Changes;
      ChangesNone(g, held, own, node, mark);
      KidsChange(g, held, own, own, node, mark, 0, depth - 1);
      ChangesOwn(g, held, m, WalkFrom(g, held, own, node, 0, mark, depth - 1).states, node, mark0, mark);
    }
  }

  lemma ChangesNone(g: Graph, held: set<GrammarNode>, m: States, node: GrammarNode, mark: FreeState)
    ensures Changes(g, held, m, m, node, mark)
  {
  }

  lemma {:induction false} KidsChange(g: Graph, held: set<GrammarNode>, own: States, mid: States, node: GrammarNode,
                                      mark: FreeState, i: nat, depth: nat)
    requires Closed(g) && node in g && i <= |g[node]| && own.Keys == mid.Keys == g.Keys
    requires mark in {Freeable, NotFreeable} && Changes(g, held, own, mid, node, mark)
    requires WalkFrom(g, held, mid, node, i, mark, depth).Done?
    ensures Changes(g, held, own, WalkFrom(g, held, mid, node, i, mark, depth).states, node, mark)
    decreases depth, 1, |g[node]| - i
  {
    hide Closed, WalkAt, WalkFrom, Changes;
    WalkFromIs(g, held, mid, node, i, mark, depth);
    if i < |g[node]| {
      WalkChanges(g, held, mid, g[node][i].to, mark, depth);
      var after := WalkAt(g, held, mid, g[node][i].to, mark, depth).states;
      ChangesChild(g, held, own, mid, after, node, mark, i);
      KidsChange(g, held, own, after, node, mark, i + 1, depth);
    }
  }

  lemma WalkDeeper(g: Graph, held: set<GrammarNode>, m: States, node: GrammarNode, mark: FreeState,
                   depth: nat, more: nat)
    requires Closed(g) && node in g && m.Keys == g.Keys && depth <= more && WalkAt(g, held, m, node, mark, depth).Done?
    ensures WalkAt(g, held, m, node, mark, more) == WalkAt(g, held, m, node, mark, depth)
  {
    KidsComplete(g);
    VisitDeeper(KidsOf(g), held, m, node, mark, depth, more);
  }

  lemma WalkFromDeeper(g: Graph, held: set<GrammarNode>, m: States, node: GrammarNode, i: nat, mark: FreeState,
                       depth: nat, more: nat)
    requires Closed(g) && node in g && i <= |g[node]| && m.Keys == g.Keys && depth <= more
    requires WalkFrom(g, held, m, node, i, mark, depth).Done?
    ensures WalkFrom(g, held, m, node, i, mark, more) == WalkFrom(g, held, m, node, i, mark, depth)
  {
    KidsComplete(g);
    KidsDeeper(KidsOf(g), held, m, KidsOf(g)[node][i..], mark, depth, more);
  }

  /** Marking ends when no node is both on a cycle of freeable nodes and on a cycle through a held node. */
  lemma {:induction false} WalkEnds(g: Graph, p: Parts, m: States, node: GrammarNode, mark0: FreeState)
    returns (depth: nat)
    requires Closed(g) && Parted(g, p) && Fits(p, node, mark0) && node in g && m.Keys == g.Keys
    requires Untangled(g, p.held, p.a)
    ensures WalkAt(g, p.held, m, node, mark0, depth).Done?
    decreases
      if mark0 == Freeable then 1 else 0,
      ReachableSet(g, node),
      Unmade(g, p.held, m, node, mark0),
      Ahead(g, p.held, node, mark0),
      Pending(m, mark0),
      1, 0
  {
    hide Closed, Parted, Fits, Untangled, WalkAt, WalkFrom, ReachableSet, Unmade, Ahead, Pending, Changes;
    if m[node] == mark0 {
      WalkIs(g, p.held, m, node, mark0, 1);
      return 1;
    }
    var mark := OwnMark(p.held, node, mark0);
    MarkFits(g, p, node, mark0);
    var own := m[node := mark];
    ChangesNone(g, p.held, own, node, mark);
    var below := KidsEnd(g, p, m, own, node, mark0, 0);
    depth := below + 1;
    WalkIs(g, p.held, m, node, mark0, depth);
  }

  /** A child has less to do, unless it is handed another mark than its parent was. */
  lemma Enter(g: Graph, p: Parts, before: States, mid: States, node: GrammarNode, mark: FreeState, i: nat)
    requires Closed(g) && Parted(g, p) && Untangled(g, p.held, p.a) && g.Keys == before.Keys
    requires node in g && i < |g[node]| && mark in {Freeable, NotFreeable} && (mark == Freeable ==> node in p.a)
    requires Changes(g, p.held, before[node := mark], mid, node, mark) && before[node] != mark
    ensures Less(g, p.held, before, mid, node, g[node][i].to, mark)
  {
    hide Changes, Less, OnFreeCycle, WithHeld;
    ChildIsLess(g, p.held, before, mid, node, mark, i);
  }

  lemma {:induction false} KidsEnd(g: Graph, p: Parts, m: States, mid: States, node: GrammarNode, mark0: FreeState,
                                   i: nat) returns (depth: nat)
    requires Closed(g) && Parted(g, p) && Fits(p, node, mark0) && node in g && m.Keys == mid.Keys == g.Keys
    requires Untangled(g, p.held, p.a) && i <= |g[node]| && m[node] != mark0
    requires
      var mark := OwnMark(p.held, node, mark0);
      Changes(g, p.held, m[node := mark], mid, node, mark)
    ensures WalkFrom(g, p.held, mid, node, i, OwnMark(p.held, node, mark0), depth).Done?
    decreases
      if mark0 == Freeable then 1 else 0,
      ReachableSet(g, node),
      Unmade(g, p.held, m, node, mark0),
      Ahead(g, p.held, node, mark0),
      Pending(m, mark0),
      0, |g[node]| - i
  {
    hide Closed, Parted, Fits, Untangled, WalkAt, WalkFrom, ReachableSet, Unmade, Ahead, Pending, Changes;
    var mark := OwnMark(p.held, node, mark0);
    MarkFits(g, p, node, mark0);
    if i == |g[node]| {
      WalkFromIs(g, p.held, mid, node, i, mark, 0);
      return 0;
    }
    var child := g[node][i].to;
    ChildFits(g, p, node, mark, i);
    if mark == mark0 {
      Enter(g, p, m, mid, node, mark, i);
    }
    var here := WalkEnds(g, p, mid, child, mark);
    WalkChanges(g, p.held, mid, child, mark, here);
    var after := WalkAt(g, p.held, mid, child, mark, here).states;
    ChangesChild(g, p.held, m[node := mark], mid, after, node, mark, i);
    var rest := KidsEnd(g, p, m, after, node, mark0, i + 1);
    depth := if here < rest then rest else here;
    WalkDeeper(g, p.held, mid, child, mark, here, depth);
    WalkFromDeeper(g, p.held, after, node, i + 1, mark, rest, depth);
    WalkFromIs(g, p.held, mid, node, i, mark, depth);
  }

  // ----- marking -------------------------------------------------------------------------------------

  ghost function StatesOf(g: Graph): States
    reads g.Keys`state
  {
    map n | n in g :: n.state
  }

  /** Among these nodes the held ones are those with more references than were counted, and no count is too large. */
  ghost predicate HeldAre(held: set<GrammarNode>, nodes: set<GrammarNode>)
    reads nodes`refcnt, nodes`freeRefcnt
  {
    forall n :: n in nodes ==> n.refcnt >= n.freeRefcnt && (n in held <==> n.refcnt > n.freeRefcnt)
  }

  lemma HeldIs(held: set<GrammarNode>, nodes: set<GrammarNode>, n: GrammarNode)
    requires HeldAre(held, nodes) && n in nodes
    ensures n.refcnt >= n.freeRefcnt && (n in held <==> n.refcnt > n.freeRefcnt)
  {
  }

  /** Whenever the walk ends, marking does what it does. */
  method MarkFreeable(node: GrammarNode, mark0: FreeState, ghost g: Graph, ghost held: set<GrammarNode>,
                      ghost nodes: set<GrammarNode>, ghost depth: nat)
    requires node in g && Closed(g) && Holds(g) && node in nodes && nodes <= g.Keys && Leads(g, nodes, nodes)
    requires HeldAre(held, nodes)
    requires WalkAt(g, held, StatesOf(g), node, mark0, depth).Done?
    modifies g.Keys`state
    ensures StatesOf(g) == WalkAt(g, held, old(StatesOf(g)), node, mark0, depth).states
    decreases depth
  {
    hide Closed, WalkAt, WalkFrom, HeldAre;
    ghost var before := StatesOf(g);
    HeldIs(held, nodes, node);
    WalkIs(g, held, before, node, mark0, depth);
    var mark := mark0;
    if mark == node.state {
      return;
    }
    if node.refcnt > node.freeRefcnt {
      mark := NotFreeable;
    }
    assert node.refcnt >= node.freeRefcnt;
    node.state := mark;
    assert StatesOf(g) == before[node := mark];
    var i := 0;
    while i < |node.children|
      invariant 0 <= i <= |g[node]|
      invariant WalkFrom(g, held, StatesOf(g), node, i, mark, depth - 1)
             == WalkFrom(g, held, before[node := mark], node, 0, mark, depth - 1)
    {
      WalkFromIs(g, held, StatesOf(g), node, i, mark, depth - 1);
      MarkFreeable(node.children[i].to, mark, g, held, nodes, depth - 1);
      i := i + 1;
    }
    WalkFromIs(g, held, StatesOf(g), node, i, mark, depth - 1);
  }

  // ----- after the count -----------------------------------------------------------------------------

  /** The references to a node that can be reached from the root, the root's own included. */
  ghost function Reached(g: Graph, root: GrammarNode, n: GrammarNode): nat {
    (if n == root then 1 else 0) + Incoming(g, ReachableSet(g, root), n)
  }

  /** The nodes within reach of the root that are also referenced from elsewhere. */
  ghost function HeldSet(g: Graph, root: GrammarNode): set<GrammarNode>
    reads g.Keys`refcnt
  {
    set n | n in ReachableSet(g, root) && n.refcnt > Reached(g, root, n)
  }

  /** What the root reaches without passing a held node. */
  ghost function FreePart(g: Graph, held: set<GrammarNode>, root: GrammarNode): set<GrammarNode> {
    set n | n in ReachableSet(g, root) && exists path :: Avoids(g, held, root, path, n)
  }

  /** What held nodes reach. */
  ghost function HeldPart(g: Graph, held: set<GrammarNode>): set<GrammarNode> {
    set n | n in g && exists h :: h in held && Reachable(g, h, n)
  }

  lemma {:induction false} AvoidStep(g: Graph, held: set<GrammarNode>, from: GrammarNode, path: seq<nat>,
                                     n: GrammarNode, i: nat)
    requires Avoids(g, held, from, path, n) && n in g && i < |g[n]| && g[n][i].to !in held
    ensures Avoids(g, held, from, path + [i], g[n][i].to)
    decreases path
  {
    if path == [] {
      assert Avoids(g, held, g[n][i].to, [i][1..], g[n][i].to);
    } else {
      AvoidStep(g, held, g[from][path[0]].to, path[1..], n, i);
      assert (path + [i])[1..] == path[1..] + [i];
    }
  }

  lemma {:induction false} AvoidStays(g: Graph, held: set<GrammarNode>, from: GrammarNode, path: seq<nat>,
                                      to: GrammarNode, s: set<GrammarNode>)
    requires Leads(g, s, s + held) && from in s && Avoids(g, held, from, path, to)
    ensures to in s
    decreases path
  {
    if path != [] {
      AvoidStays(g, held, g[from][path[0]].to, path[1..], to, s);
    }
  }

  /** The free part leads to itself or to held nodes, and ends before them. */
  lemma FreePartLeads(g: Graph, held: set<GrammarNode>, root: GrammarNode)
    requires Closed(g) && root in g
    ensures var a := FreePart(g, held, root); a !! held && Leads(g, a, a + held)
    ensures root in FreePart(g, held, root) <==> root !in held
  {
    var a := FreePart(g, held, root);
    ReachableCloses(g, root);
    assert root !in held ==> Avoids(g, held, root, [], root);
    forall n | n in a
      ensures n !in held
    {
      var path :| Avoids(g, held, root, path, n);
      AvoidsLast(g, held, root, path, n);
    }
    forall n, i | n in a && n in g && 0 <= i < |g[n]| && g[n][i].to !in held
      ensures g[n][i].to in a
    {
      var path :| Avoids(g, held, root, path, n);
      AvoidStep(g, held, root, path, n, i);
    }
  }

  lemma {:induction false} AvoidsLast(g: Graph, held: set<GrammarNode>, from: GrammarNode, path: seq<nat>,
                                      to: GrammarNode)
    requires Avoids(g, held, from, path, to)
    ensures to !in held
    decreases path
  {
    if path != [] {
      AvoidsLast(g, held, g[from][path[0]].to, path[1..], to);
    }
  }

  lemma HeldPartCloses(g: Graph, held: set<GrammarNode>)
    requires Closed(g) && held <= g.Keys
    ensures held <= HeldPart(g, held) && Leads(g, HeldPart(g, held), HeldPart(g, held))
  {
    var r := HeldPart(g, held);
    forall h | h in held
      ensures h in r
    {
      ReachableCloses(g, h);
    }
    forall n, i | n in r && n in g && 0 <= i < |g[n]|
      ensures g[n][i].to in r
    {
      var h :| h in held && Reachable(g, h, n);
      var path :| Path(g, h, path, n);
      PathStep(g, h, path, n, i);
    }
  }

  /** The two parts make up what the root reaches. */
  lemma PartsCover(g: Graph, held: set<GrammarNode>, root: GrammarNode)
    requires Closed(g) && root in g && held <= ReachableSet(g, root)
    ensures FreePart(g, held, root) + HeldPart(g, held) == ReachableSet(g, root)
  {
    hide FreePart, Reachable;
    var s, all := FreePart(g, held, root) + HeldPart(g, held), ReachableSet(g, root);
    FreePartLeads(g, held, root);
    HeldPartCloses(g, held);
    ReachableCloses(g, root);
    forall n | n in all
      ensures n in s
    {
      ReachableStays(g, root, n, s);
    }
    forall n | n in HeldPart(g, held)
      ensures n in all
    {
      var h :| h in held && Reachable(g, h, n);
      ReachableStays(g, h, n, all);
    }
    assert forall n :: n in FreePart(g, held, root) ==> n in all by {
      InFreePart(g, held, root);
    }
  }

  lemma InFreePart(g: Graph, held: set<GrammarNode>, root: GrammarNode)
    ensures FreePart(g, held, root) <= ReachableSet(g, root)
  {
  }

  ghost function PartsOf(g: Graph, held: set<GrammarNode>, root: GrammarNode): Parts {
    Parts(FreePart(g, held, root), HeldPart(g, held), held)
  }

  lemma PartsFit(g: Graph, held: set<GrammarNode>, root: GrammarNode)
    requires Closed(g) && root in g && held <= ReachableSet(g, root)
    ensures var p := PartsOf(g, held, root);
      Parted(g, p) && Fits(p, root, Freeable) && p.a + p.r == ReachableSet(g, root)
  {
    hide FreePart, HeldPart, ReachableSet;
    FreePartLeads(g, held, root);
    HeldPartCloses(g, held) by { WithinGraph(g, root); }
    PartsCover(g, held, root);
    WithinGraph(g, root);
  }

  lemma WithinGraph(g: Graph, root: GrammarNode)
    ensures ReachableSet(g, root) <= g.Keys
  {
  }

  /** A visit of the root that starts with nothing seen reaches both parts whole. */
  lemma RootSeesAll(g: Graph, held: set<GrammarNode>, root: GrammarNode,
                    before: States, after: States, seen: Seen)
    requires Closed(g) && root in g && held <= ReachableSet(g, root)
    requires var p := PartsOf(g, held, root);
      Visited(g, p, before, after, Seen({}, {}), seen) && Arrived(p, seen, root, Freeable)
    ensures seen.f == FreePart(g, held, root) && seen.n == HeldPart(g, held)
  {
    hide FreePart, HeldPart, ReachableSet, Untouched;
    var p := PartsOf(g, held, root);
    PartsFit(g, held, root);
    FreePartLeads(g, held, root);
    assert seen.f - {} == seen.f && seen.n - {} == seen.n;
    var s := seen.f + seen.n;
    assert Leads(g, s, s);
    forall n | n in ReachableSet(g, root)
      ensures n in s
    {
      ReachableHas(g, root, n);
      ReachableStays(g, root, n, s);
    }
    forall n | n in p.r
      ensures n in seen.n
    {
      var h := HeldPartHas(g, held, n);
      ReachableStays(g, h, n, seen.n);
    }
    forall n | n in p.a
      ensures n in seen.f
    {
      var path := FreePartHas(g, held, root, n);
      if root in held {
        AvoidStays(g, held, root, path, n, {});
      }
      AvoidStays(g, held, root, path, n, p.a * seen.f);
    }
  }

  lemma ReachableHas(g: Graph, root: GrammarNode, n: GrammarNode)
    requires n in ReachableSet(g, root)
    ensures Reachable(g, root, n)
  {
  }

  lemma HeldPartHas(g: Graph, held: set<GrammarNode>, n: GrammarNode) returns (h: GrammarNode)
    requires n in HeldPart(g, held)
    ensures h in held && Reachable(g, h, n)
  {
    h :| h in held && Reachable(g, h, n);
  }

  lemma FreePartHas(g: Graph, held: set<GrammarNode>, root: GrammarNode, n: GrammarNode) returns (path: seq<nat>)
    requires n in FreePart(g, held, root)
    ensures Avoids(g, held, root, path, n)
  {
    path :| Avoids(g, held, root, path, n);
  }

  /** The marks that counting from the root of an unmarked graph leaves. */
  ghost function AfterCount(g: Graph, root: GrammarNode): States {
    map n | n in g :: if n in ReachableSet(g, root) then Traversed else None
  }

  /** Marking from the root, after the count, ends. */
  ghost predicate MarkingEnds(g: Graph, held: set<GrammarNode>, root: GrammarNode)
    requires Closed(g) && root in g
  {
    exists depth :: WalkAt(g, held, AfterCount(g, root), root, Freeable, depth).Done?
  }

  /** It ends when it does within as many nested calls as there are different ones, and not otherwise. */
  lemma MarkingEndsIffBounded(g: Graph, held: set<GrammarNode>, root: GrammarNode)
    requires Closed(g) && root in g
    ensures
      MarkingEnds(g, held, root) <==>
      WalkAt(g, held, AfterCount(g, root), root, Freeable, |AllCalls(KidsOf(g))|).Done?
  {
    KidsComplete(g);
    EndsIffBounded(KidsOf(g), held, AfterCount(g, root), root, Freeable);
  }

  /**
   It ends when no node that could be freed is both on a cycle of such nodes and
   on a cycle through a held one.
   */
  lemma UntangledEnds(g: Graph, held: set<GrammarNode>, root: GrammarNode)
    requires Closed(g) && root in g && held <= ReachableSet(g, root)
    requires Untangled(g, held, FreePart(g, held, root))
    ensures MarkingEnds(g, held, root)
  {
    hide Closed, FreePart, HeldPart, ReachableSet, Untangled, WalkAt, Parted, Fits;
    PartsFit(g, held, root);
    var depth := WalkEnds(g, PartsOf(g, held, root), AfterCount(g, root), root, Freeable);
  }

  /**
   Counting and marking from the root of an unmarked graph, whenever that ends:
   what the root reaches only without passing a held node is freeable, and what
   only held nodes reach is not.
   */
  method CountAndMark(root: GrammarNode, ghost g: Graph)
    requires root in g && Closed(g) && Holds(g)
    requires forall n :: n in g ==> n.state == None
    requires forall n :: n in ReachableSet(g, root) ==> n.refcnt >= Reached(g, root, n)
    requires MarkingEnds(g, HeldSet(g, root), root)
    modifies g.Keys`state, g.Keys`freeRefcnt
    ensures
      var held := HeldSet(g, root);
      var a, r := FreePart(g, held, root), HeldPart(g, held);
      && a + r == ReachableSet(g, root)
      && (forall n :: n in a - r ==> n.state == Freeable)
      && (forall n :: n in r - a ==> n.state == NotFreeable)
      && (forall n :: n in a * r ==> n.state in {Freeable, NotFreeable})
      && forall n :: n in g.Keys - a - r ==> n.state == None
  {
    hide Closed, Incoming, Leads, ReachableSet, FreePart, HeldPart, Parted, Fits, Visited, Arrived, Tracks, WalkAt;
    ghost var held := HeldSet(g, root);
    ghost var p := PartsOf(g, held, root);
    ghost var depth :| WalkAt(g, held, AfterCount(g, root), root, Freeable, depth).Done?;
    PartsFit(g, held, root);
    WithinGraph(g, root);
    ReachableCloses(g, root);
    CountReachable(root, g);
    ghost var before := StatesOf(g);
    assert before == AfterCount(g, root);
    StartTracks(p, before);
    ghost var seen := WalkSpreads(g, p, before, Seen({}, {}), root, Freeable, depth);
    MarkFreeable(root, Freeable, g, held, ReachableSet(g, root), depth);
    RootSeesAll(g, held, root, before, StatesOf(g), seen);
    FinalMarks(g, p, before, StatesOf(g), seen);
    assert forall n :: n in g ==> StatesOf(g)[n] == n.state;
  }

  lemma StartTracks(p: Parts, m: States)
    requires p.a + p.r <= m.Keys && forall n :: n in p.a + p.r ==> m[n] == Traversed
    ensures Tracks(m, p, Seen({}, {}))
  {
  }

  lemma FinalMarks(g: Graph, p: Parts, before: States, after: States, seen: Seen)
    requires Visited(g, p, before, after, Seen({}, {}), seen) && seen == Seen(p.a, p.r)
    ensures before.Keys == after.Keys && p.a + p.r <= after.Keys
    ensures forall n :: n in p.a - p.r ==> after[n] == Freeable
    ensures forall n :: n in p.r - p.a ==> after[n] == NotFreeable
    ensures forall n :: n in p.a * p.r ==> after[n] in {Freeable, NotFreeable}
    ensures forall n :: n in before && n !in p.a + p.r ==> after[n] == before[n]
  {
  }

  /**
   The condition holds when the root is held, when nothing is, and when nothing
   that held nodes reach is reached without passing one.
   */
  lemma ApartIsUntangled(g: Graph, held: set<GrammarNode>, root: GrammarNode)
    requires Closed(g) && root in g && held <= ReachableSet(g, root)
    requires root in held || held == {} || FreePart(g, held, root) !! HeldPart(g, held)
    ensures Untangled(g, held, FreePart(g, held, root))
    ensures root in held ==> HeldPart(g, held) == ReachableSet(g, root) && FreePart(g, held, root) == {}
    ensures held == {} ==> FreePart(g, held, root) == ReachableSet(g, root) && HeldPart(g, held) == {}
  {
    PartsCover(g, held, root);
    if root in held {
      forall n | n in FreePart(g, held, root)
        ensures false
      {
        var path := FreePartHas(g, held, root, n);
      }
    }
    forall n | n in FreePart(g, held, root)
      ensures WithHeld(g, held, n) ==> n in HeldPart(g, held)
    {
      WithHeldIsHeld(g, held, root, n);
    }
  }

  lemma WithHeldIsHeld(g: Graph, held: set<GrammarNode>, root: GrammarNode, n: GrammarNode)
    requires n in FreePart(g, held, root)
    ensures WithHeld(g, held, n) ==> n in HeldPart(g, held)
  {
  }
}
