/**
 Small graphs on which marking, after the count, does not end, or ends in marks
 that one might not expect.
 */
module FreeExamples {
  import opened References
  import opened Marking
  import opened FreePaths

  // ----- small graphs ----------------------------------------------------------------------------------

  /** A node of a small graph: its children, its references, and those that were counted. */
  datatype Plain = Plain(kids: seq<nat>, refcnt: nat, counted: nat)

  ghost function Kids(g: seq<Plain>): map<nat, seq<nat>> { map n: nat | n < |g| :: g[n].kids }

  ghost function HeldIn(g: seq<Plain>): set<nat> { set n: nat | n < |g| && g[n].refcnt > g[n].counted }

  ghost function At(states: seq<FreeState>): map<nat, FreeState> { map n: nat | n < |states| :: states[n] }

  ghost predicate Sane(g: seq<Plain>) {
    forall n :: 0 <= n < |g| ==> InBounds(g[n].kids, |g|)
  }

  ghost predicate InBounds(kids: seq<nat>, size: nat) {
    forall i :: 0 <= i < |kids| ==> kids[i] < size
  }

  /** The walk over the graph. */
  ghost function Go(g: seq<Plain>, states: seq<FreeState>, n: nat, mark: FreeState, depth: nat): Walk<nat>
    requires Sane(g) && |states| == |g| && n < |g|
  {
    Visit(Kids(g), HeldIn(g), At(states), n, mark, depth)
  }

  ghost function GoKids(g: seq<Plain>, states: seq<FreeState>, kids: seq<nat>, mark: FreeState, depth: nat): Walk<nat>
    requires Sane(g) && |states| == |g| && InBounds(kids, |g|)
  {
    VisitKids(Kids(g), HeldIn(g), At(states), kids, mark, depth)
  }

  /** One call. */
  lemma Turn(g: seq<Plain>, states: seq<FreeState>, n: nat, mark: FreeState, depth: nat)
    requires Sane(g) && |states| == |g| && n < |g|
    ensures
      var own := if g[n].refcnt > g[n].counted then NotFreeable else mark;
      Go(g, states, n, mark, depth) ==
      if depth == 0 then TooDeep else if states[n] == mark then Done(At(states))
      else GoKids(g, states[n := own], g[n].kids, own, depth - 1)
  {
    var own := if g[n].refcnt > g[n].counted then NotFreeable else mark;
    assert At(states)[n := own] == At(states[n := own]);
  }

  /** A call of a node without children. */
  lemma LeafTurn(g: seq<Plain>, states: seq<FreeState>, n: nat, mark: FreeState, depth: nat)
    requires Sane(g) && |states| == |g| && n < |g| && g[n].kids == [] && depth > 0
    ensures
      var own := if g[n].refcnt > g[n].counted then NotFreeable else mark;
      Go(g, states, n, mark, depth) == Done(At(if states[n] == mark then states else states[n := own]))
  {
    Turn(g, states, n, mark, depth);
  }

  lemma OneKid(g: seq<Plain>, states: seq<FreeState>, kid: nat, mark: FreeState, depth: nat)
    requires Sane(g) && |states| == |g| && kid < |g|
    ensures GoKids(g, states, [kid], mark, depth) == Go(g, states, kid, mark, depth)
  {
    var r := Go(g, states, kid, mark, depth);
    assert [kid][1..] == [];
    assert r.Done? ==> VisitKids(Kids(g), HeldIn(g), r.states, [], mark, depth) == r;
  }

  /** The first child, and the others after it. */
  lemma FirstKid(g: seq<Plain>, states: seq<FreeState>, kids: seq<nat>, mark: FreeState, depth: nat,
                 after: seq<FreeState>)
    requires Sane(g) && |states| == |g| == |after| && InBounds(kids, |g|) && kids != []
    requires Go(g, states, kids[0], mark, depth) in {TooDeep, Done(At(after))}
    ensures
      var r := Go(g, states, kids[0], mark, depth);
      GoKids(g, states, kids, mark, depth) == if r.TooDeep? then r else GoKids(g, after, kids[1..], mark, depth)
  {
  }

  ghost function Occurrences(kids: seq<nat>, n: nat): nat {
    if kids == [] then 0 else (if kids[0] == n then 1 else 0) + Occurrences(kids[1..], n)
  }

  ghost function InEdges(g: seq<Plain>, n: nat): nat {
    if g == [] then 0 else Occurrences(g[0].kids, n) + InEdges(g[1..], n)
  }

  /** The count: two references for every child of a seq, or or many node, and the caller's to the root. */
  ghost predicate IsCounted(g: seq<Plain>, n: nat)
    requires n < |g|
  {
    g[n].counted == (if n == 0 then 1 else 0) + 2 * InEdges(g, n) <= g[n].refcnt
  }

  lemma AllSane()
    ensures Sane(LOOP) && Sane(SWAPPED) && Sane(KNOT) && Sane(KNOT_SWAPPED)
    ensures Sane(SHARED) && Sane(SHARED_FIRST) && Sane(REBUILT)
  {
  }

  const T := Traversed
  const F := Freeable
  const N := NotFreeable

  // ----- a graph on which marking does not end ---------------------------------------------------------

  /** A root with two children that both lead back to it; the first is also referenced from outside. */
  const LOOP: seq<Plain> := [Plain([1, 2], 5, 5), Plain([0], 3, 2), Plain([0], 2, 2)]

  /** The counts are those of the references in the graph, and none exceeds the total. */
  lemma LoopIsCounted(n: nat)
    requires n < 3
    ensures Sane(LOOP) && IsCounted(LOOP, n)
  {
    assert LOOP[1..] == [LOOP[1], LOOP[2]] && LOOP[1..][1..] == [LOOP[2]];
  }

  /** What the second child and the root do with the mark of an unfreeable node. */
  lemma UnfreeableSpreads(q: FreeState, depth: nat)
    requires q in {T, F} && Sane(LOOP)
    ensures Go(LOOP, [F, N, q], 0, N, depth) in {TooDeep, Done(At([N, N, N]))}
  {
    hide Go, GoKids, At, Sane;
    Turn(LOOP, [F, N, q], 0, N, depth);
    assert [F, N, q][0 := N] == [N, N, q];
    if depth > 0 {
      Turn(LOOP, [N, N, q], 1, N, depth - 1);
      FirstKid(LOOP, [N, N, q], [1, 2], N, depth - 1, [N, N, q]);
      assert [1, 2][1..] == [2];
      OneKid(LOOP, [N, N, q], 2, N, depth - 1);
      Turn(LOOP, [N, N, q], 2, N, depth - 1);
      assert [N, N, q][2 := N] == [N, N, N];
      if depth > 1 {
        OneKid(LOOP, [N, N, N], 0, N, depth - 2);
        Turn(LOOP, [N, N, N], 0, N, depth - 2);
      }
    }
  }

  /** The first child is not freeable, whatever mark its parent hands down, and says so to the root. */
  lemma FirstChildSpreads(e: FreeState, q: FreeState, depth: nat)
    requires q in {T, F} && e in {T, N} && Sane(LOOP)
    ensures Go(LOOP, [F, e, q], 1, F, depth) in {TooDeep, Done(At([N, N, N]))}
  {
    hide Go, GoKids, At, Sane;
    Turn(LOOP, [F, e, q], 1, F, depth);
    assert [F, e, q][1 := N] == [F, N, q];
    if depth > 0 {
      OneKid(LOOP, [F, N, q], 0, N, depth - 1);
      UnfreeableSpreads(q, depth - 1);
    }
  }

  /** The root, marked freeable again, is reached again in the same state. */
  lemma {:induction false} RootReturns(e: FreeState, p: FreeState, q: FreeState, depth: nat)
    requires q in {T, F} && e in {T, N} && p in {T, N} && Sane(LOOP)
    ensures Go(LOOP, [p, e, q], 0, F, depth).TooDeep?
    decreases depth
  {
    hide Go, GoKids, At, Sane;
    Turn(LOOP, [p, e, q], 0, F, depth);
    assert [p, e, q][0 := F] == [F, e, q];
    if depth > 0 {
      FirstChildSpreads(e, q, depth - 1);
      FirstKid(LOOP, [F, e, q], [1, 2], F, depth - 1, [N, N, N]);
      assert [1, 2][1..] == [2];
      OneKid(LOOP, [N, N, N], 2, F, depth - 1);
      Turn(LOOP, [N, N, N], 2, F, depth - 1);
      assert [N, N, N][2 := F] == [N, N, F];
      if depth > 1 {
        OneKid(LOOP, [N, N, F], 0, F, depth - 2);
        RootReturns(N, N, F, depth - 2);
      }
    }
  }

  /** However deep the recursion may go, marking the loop as the count left it is not done. */
  lemma MarkingNeverEnds(depth: nat)
    ensures Sane(LOOP) && Go(LOOP, [T, T, T], 0, F, depth).TooDeep?
  {
    LoopIsCounted(0);
    RootReturns(T, T, T, depth);
  }

  /** The same loop with the children of the root the other way round. */
  const SWAPPED: seq<Plain> := [Plain([2, 1], 5, 5), Plain([0], 3, 2), Plain([0], 2, 2)]

  lemma SwappedSecond(depth: nat)
    requires depth >= 4 && Sane(SWAPPED)
    ensures Go(SWAPPED, [F, T, F], 1, F, depth) == Done(At([N, N, N]))
  {
    hide Go, GoKids, At, Sane;
    Turn(SWAPPED, [F, T, F], 1, F, depth);
    assert [F, T, F][1 := N] == [F, N, F] && [F, N, F][0 := N] == [N, N, F] && [N, N, F][2 := N] == [N, N, N];
    OneKid(SWAPPED, [F, N, F], 0, N, depth - 1);
    Turn(SWAPPED, [F, N, F], 0, N, depth - 1);
    Turn(SWAPPED, [N, N, F], 2, N, depth - 2);
    OneKid(SWAPPED, [N, N, N], 0, N, depth - 3);
    Turn(SWAPPED, [N, N, N], 0, N, depth - 3);
    FirstKid(SWAPPED, [N, N, F], [2, 1], N, depth - 2, [N, N, N]);
    assert [2, 1][1..] == [1];
    OneKid(SWAPPED, [N, N, N], 1, N, depth - 2);
    Turn(SWAPPED, [N, N, N], 1, N, depth - 2);
  }

  /** No condition on the references alone decides: with the other order, marking the loop is done. */
  lemma OrderDecides(depth: nat)
    requires depth >= 5
    ensures Sane(SWAPPED) && forall n :: 0 <= n < 3 ==> multiset(SWAPPED[n].kids) == multiset(LOOP[n].kids)
    ensures Go(SWAPPED, [T, T, T], 0, F, depth) == Done(At([N, N, N]))
  {
    hide Go, GoKids, At, Sane;
    AllSane();
    Turn(SWAPPED, [T, T, T], 0, F, depth);
    assert [T, T, T][0 := F] == [F, T, T] && [F, T, T][2 := F] == [F, T, F];
    Turn(SWAPPED, [F, T, T], 2, F, depth - 1);
    OneKid(SWAPPED, [F, T, F], 0, F, depth - 2);
    Turn(SWAPPED, [F, T, F], 0, F, depth - 2);
    FirstKid(SWAPPED, [F, T, T], [2, 1], F, depth - 1, [F, T, F]);
    assert [2, 1][1..] == [1];
    OneKid(SWAPPED, [F, T, F], 1, F, depth - 1);
    SwappedSecond(depth - 1);
  }

  // ----- a graph on which marking ends although it is tangled ------------------------------------------

  /**
   A root on a cycle with its second child; its first child is held, and leads
   back to the root through a node of its own.
   */
  const KNOT: seq<Plain> := [Plain([1, 2], 5, 5), Plain([3], 3, 2), Plain([0], 2, 2), Plain([0], 2, 2)]
  const KNOT_SWAPPED: seq<Plain> := [Plain([2, 1], 5, 5), Plain([3], 3, 2), Plain([0], 2, 2), Plain([0], 2, 2)]

  /** In such a graph the root is on both kinds of cycles. */
  lemma KnotIsTangled(g: Graph, root: GrammarNode, first: GrammarNode, second: GrammarNode, third: GrammarNode)
    requires g.Keys == {root, first, second, third} && first !in {root, second, third}
    requires g[root] == [Edge(first, 2), Edge(second, 2)] && g[first] == [Edge(third, 2)]
    requires g[second] == [Edge(root, 2)] && g[third] == [Edge(root, 2)]
    ensures OnFreeCycle(g, {first}, root) && WithHeld(g, {first}, root)
  {
    assert Avoids(g, {first}, root, [0][1..], root);
    assert Avoids(g, {first}, second, [0], root);
    assert g[root][1].to == second && FreelyReaches(g, {first}, second, root);
    ReachesChild(g, root, 0);
    assert Path(g, root, [0][1..], root) && Path(g, third, [0], root) && [0, 0][1..] == [0];
    assert Path(g, first, [0, 0], root);
  }

  lemma KnotIsCounted(n: nat)
    requires n < 4
    ensures Sane(KNOT) && IsCounted(KNOT, n)
  {
    assert KNOT[1..] == [KNOT[1], KNOT[2], KNOT[3]];
    assert KNOT[1..][1..] == [KNOT[2], KNOT[3]] && KNOT[1..][1..][1..] == [KNOT[3]];
  }

  /** From the first child down to the root, which has both of its children done or to do. */
  lemma KnotFirst(g: seq<Plain>, second: FreeState, depth: nat)
    requires g in {KNOT, KNOT_SWAPPED} && second in {T, F} && depth >= 5 && Sane(g)
    ensures Go(g, [F, T, second, T], 1, F, depth) == Done(At([N, N, N, N]))
  {
    hide Go, GoKids, At, Sane;
    Turn(g, [F, T, second, T], 1, F, depth);
    assert [F, T, second, T][1 := N] == [F, N, second, T] && [F, N, second, T][3 := N] == [F, N, second, N];
    assert [F, N, second, N][0 := N] == [N, N, second, N];
    OneKid(g, [F, N, second, T], 3, N, depth - 1);
    Turn(g, [F, N, second, T], 3, N, depth - 1);
    OneKid(g, [F, N, second, N], 0, N, depth - 2);
    Turn(g, [F, N, second, N], 0, N, depth - 2);
    KnotRoot(g, second, depth - 3);
  }

  lemma KnotRoot(g: seq<Plain>, second: FreeState, depth: nat)
    requires g in {KNOT, KNOT_SWAPPED} && second in {T, F} && depth >= 2 && Sane(g)
    ensures GoKids(g, [N, N, second, N], g[0].kids, N, depth) == Done(At([N, N, N, N]))
  {
    hide Go, GoKids, At, Sane;
    assert [N, N, second, N][2 := N] == [N, N, N, N] && [1, 2][1..] == [2] && [2, 1][1..] == [1];
    Turn(g, [N, N, second, N], 2, N, depth);
    OneKid(g, [N, N, N, N], 0, N, depth - 1);
    Turn(g, [N, N, N, N], 0, N, depth - 1);
    if g == KNOT {
      Turn(g, [N, N, second, N], 1, N, depth);
      FirstKid(g, [N, N, second, N], [1, 2], N, depth, [N, N, second, N]);
      OneKid(g, [N, N, second, N], 2, N, depth);
    } else {
      FirstKid(g, [N, N, second, N], [2, 1], N, depth, [N, N, N, N]);
      OneKid(g, [N, N, N, N], 1, N, depth);
      Turn(g, [N, N, N, N], 1, N, depth);
    }
  }

  lemma KnotSecond(depth: nat)
    requires depth >= 4 && Sane(KNOT)
    ensures Go(KNOT, [N, N, N, N], 2, F, depth) == Done(At([F, N, F, N]))
  {
    hide Go, GoKids, At, Sane;
    assert [N, N, N, N][2 := F] == [N, N, F, N] && [N, N, F, N][0 := F] == [F, N, F, N];
    assert [F, N, F, N][1 := N] == [F, N, F, N] && [1, 2][1..] == [2];
    Turn(KNOT, [N, N, N, N], 2, F, depth);
    OneKid(KNOT, [N, N, F, N], 0, F, depth - 1);
    Turn(KNOT, [N, N, F, N], 0, F, depth - 1);
    Turn(KNOT, [F, N, F, N], 1, F, depth - 2);
    OneKid(KNOT, [F, N, F, N], 3, N, depth - 3);
    Turn(KNOT, [F, N, F, N], 3, N, depth - 3);
    FirstKid(KNOT, [F, N, F, N], [1, 2], F, depth - 2, [F, N, F, N]);
    OneKid(KNOT, [F, N, F, N], 2, F, depth - 2);
    Turn(KNOT, [F, N, F, N], 2, F, depth - 2);
  }

  /** With either order of the root's children, marking is done. */
  lemma KnotEnds(depth: nat)
    requires depth >= 6
    ensures Sane(KNOT) && Go(KNOT, [T, T, T, T], 0, F, depth) == Done(At([F, N, F, N]))
    ensures Sane(KNOT_SWAPPED) && Go(KNOT_SWAPPED, [T, T, T, T], 0, F, depth) == Done(At([N, N, N, N]))
  {
    AllSane();
    hide Go, GoKids, At, Sane;
    assert [T, T, T, T][0 := F] == [F, T, T, T] && [F, T, T, T][2 := F] == [F, T, F, T];
    assert [1, 2][1..] == [2] && [2, 1][1..] == [1];
    Turn(KNOT, [T, T, T, T], 0, F, depth);
    KnotFirst(KNOT, T, depth - 1);
    FirstKid(KNOT, [F, T, T, T], [1, 2], F, depth - 1, [N, N, N, N]);
    OneKid(KNOT, [N, N, N, N], 2, F, depth - 1);
    KnotSecond(depth - 1);
    Turn(KNOT_SWAPPED, [T, T, T, T], 0, F, depth);
    Turn(KNOT_SWAPPED, [F, T, T, T], 2, F, depth - 1);
    OneKid(KNOT_SWAPPED, [F, T, F, T], 0, F, depth - 2);
    Turn(KNOT_SWAPPED, [F, T, F, T], 0, F, depth - 2);
    FirstKid(KNOT_SWAPPED, [F, T, T, T], [2, 1], F, depth - 1, [F, T, F, T]);
    OneKid(KNOT_SWAPPED, [F, T, F, T], 1, F, depth - 1);
    KnotFirst(KNOT_SWAPPED, F, depth - 1);
  }

  // ----- below a node that is not freeable ---------------------------------------------------------------

  /** A root with a reference back to it, a node that is held elsewhere, and one that both the root and it use. */
  const SHARED: seq<Plain> := [Plain([1, 2, 3], 3, 3), Plain([0], 2, 2), Plain([3], 3, 2), Plain([], 4, 4)]

  lemma SharedIsCounted(n: nat)
    requires n < 4
    ensures Sane(SHARED) && IsCounted(SHARED, n)
  {
    assert SHARED[1..] == [SHARED[1], SHARED[2], SHARED[3]];
    assert SHARED[1..][1..] == [SHARED[2], SHARED[3]] && SHARED[1..][1..][1..] == [SHARED[3]];
  }

  /** The held node is not freeable, and the node that it still uses is. */
  lemma FreeableBelowHeld(depth: nat)
    requires depth >= 3
    ensures Sane(SHARED) && 3 in SHARED[2].kids
    ensures Go(SHARED, [T, T, T, T], 0, F, depth) == Done(At([F, F, N, F]))
  {
    AllSane();
    hide Go, GoKids, At, Sane;
    Turn(SHARED, [T, T, T, T], 0, F, depth);
    assert [T, T, T, T][0 := F] == [F, T, T, T] && [F, T, T, T][1 := F] == [F, F, T, T];
    SharedLoop(SHARED, depth - 1);
    FirstKid(SHARED, [F, T, T, T], [1, 2, 3], F, depth - 1, [F, F, T, T]);
    assert [1, 2, 3][1..] == [2, 3] && [2, 3][1..] == [3];
    assert [F, F, T, T][2 := N] == [F, F, N, T] && [F, F, N, T][3 := N] == [F, F, N, N];
    Turn(SHARED, [F, F, T, T], 2, F, depth - 1);
    OneKid(SHARED, [F, F, N, T], 3, N, depth - 2);
    LeafTurn(SHARED, [F, F, N, T], 3, N, depth - 2);
    FirstKid(SHARED, [F, F, T, T], [2, 3], F, depth - 1, [F, F, N, N]);
    OneKid(SHARED, [F, F, N, N], 3, F, depth - 1);
    LeafTurn(SHARED, [F, F, N, N], 3, F, depth - 1);
    assert [F, F, N, N][3 := F] == [F, F, N, F];
  }

  lemma SharedLoop(g: seq<Plain>, depth: nat)
    requires g in {SHARED, SHARED_FIRST} && depth >= 2 && Sane(g)
    ensures Go(g, [F, T, T, T], 1, F, depth) == Done(At([F, F, T, T]))
  {
    hide Go, GoKids, At, Sane;
    Turn(g, [F, T, T, T], 1, F, depth);
    assert [F, T, T, T][1 := F] == [F, F, T, T];
    OneKid(g, [F, F, T, T], 0, F, depth - 1);
    Turn(g, [F, F, T, T], 0, F, depth - 1);
  }

  /** The same with the held node last. */
  const SHARED_FIRST: seq<Plain> := [Plain([1, 3, 2], 3, 3), Plain([0], 2, 2), Plain([3], 3, 2), Plain([], 4, 4)]

  lemma NothingFreeableBelowHeld(depth: nat)
    requires depth >= 3
    ensures Sane(SHARED_FIRST) && SHARED_FIRST[1..] == SHARED[1..]
    ensures Go(SHARED_FIRST, [T, T, T, T], 0, F, depth) == Done(At([F, F, N, N]))
  {
    AllSane();
    hide Go, GoKids, At, Sane;
    Turn(SHARED_FIRST, [T, T, T, T], 0, F, depth);
    assert [T, T, T, T][0 := F] == [F, T, T, T] && [1, 3, 2][1..] == [3, 2] && [3, 2][1..] == [2];
    SharedLoop(SHARED_FIRST, depth - 1);
    FirstKid(SHARED_FIRST, [F, T, T, T], [1, 3, 2], F, depth - 1, [F, F, T, T]);
    assert [F, F, T, T][3 := F] == [F, F, T, F] && [F, F, T, F][2 := N] == [F, F, N, F];
    assert [F, F, N, F][3 := N] == [F, F, N, N];
    LeafTurn(SHARED_FIRST, [F, F, T, T], 3, F, depth - 1);
    FirstKid(SHARED_FIRST, [F, F, T, T], [3, 2], F, depth - 1, [F, F, T, F]);
    OneKid(SHARED_FIRST, [F, F, T, F], 2, F, depth - 1);
    Turn(SHARED_FIRST, [F, F, T, F], 2, F, depth - 1);
    OneKid(SHARED_FIRST, [F, F, N, F], 3, N, depth - 2);
    LeafTurn(SHARED_FIRST, [F, F, N, F], 3, N, depth - 2);
  }

  // ----- the graph of a rebuilt expression ---------------------------------------------------------------

  /** The root and a reference back to it, which nobody else holds, and an operator that is still registered. */
  const REBUILT: seq<Plain> := [Plain([1, 2], 3, 3), Plain([0], 2, 2), Plain([], 3, 2)]

  lemma RebuiltIsCounted(n: nat)
    requires n < 3
    ensures Sane(REBUILT) && IsCounted(REBUILT, n)
  {
    assert REBUILT[1..] == [REBUILT[1], REBUILT[2]] && REBUILT[1..][1..] == [REBUILT[2]];
  }

  /** The cycle is freeable, the operator is not. */
  lemma RebuiltIsFreed(depth: nat)
    requires depth >= 3
    ensures Sane(REBUILT) && Go(REBUILT, [T, T, T], 0, F, depth) == Done(At([F, F, N]))
  {
    AllSane();
    hide Go, GoKids, At, Sane;
    Turn(REBUILT, [T, T, T], 0, F, depth);
    assert [T, T, T][0 := F] == [F, T, T] && [F, T, T][1 := F] == [F, F, T] && [F, F, T][2 := N] == [F, F, N];
    Turn(REBUILT, [F, T, T], 1, F, depth - 1);
    OneKid(REBUILT, [F, F, T], 0, F, depth - 2);
    Turn(REBUILT, [F, F, T], 0, F, depth - 2);
    FirstKid(REBUILT, [F, T, T], [1, 2], F, depth - 1, [F, F, T]);
    assert [1, 2][1..] == [2];
    OneKid(REBUILT, [F, F, T], 2, F, depth - 1);
    LeafTurn(REBUILT, [F, F, T], 2, F, depth - 1);
  }
}
