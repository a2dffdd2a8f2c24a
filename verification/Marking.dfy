/**
 Marking, after the count, which nodes can be freed with the root: the walk as a
 function of the depth to which it may recurse, and when it ends.
 */
module Marking {
  import opened References

  /** The marks that a walk leaves, unless it recurses too deep. */
  datatype Walk<N> = TooDeep | Done(states: map<N, FreeState>)

  ghost predicate Within<N>(kids: map<N, seq<N>>, nodes: seq<N>) {
    forall i :: 0 <= i < |nodes| ==> nodes[i] in kids
  }

  ghost predicate Complete<N>(kids: map<N, seq<N>>) {
    forall n :: n in kids ==> Within(kids, kids[n])
  }

  /** A call: a node that has the mark is left alone, a held one is not freeable. */
  ghost function Visit<N>(kids: map<N, seq<N>>, held: set<N>, m: map<N, FreeState>, node: N, mark: FreeState,
                          depth: nat): (r: Walk<N>)
    requires Complete(kids) && node in kids && m.Keys == kids.Keys
    ensures r.Done? ==> r.states.Keys == kids.Keys
    decreases depth, 0
  {
    if depth == 0 then TooDeep
    else if m[node] == mark then Done(m)
    else
      var own := if node in held then NotFreeable else mark;
      VisitKids(kids, held, m[node := own], kids[node], own, depth - 1)
  }

  ghost function VisitKids<N>(kids: map<N, seq<N>>, held: set<N>, m: map<N, FreeState>, nodes: seq<N>, mark: FreeState,
                              depth: nat): (r: Walk<N>)
    requires Complete(kids) && Within(kids, nodes) && m.Keys == kids.Keys
    ensures r.Done? ==> r.states.Keys == kids.Keys
    decreases depth, |nodes| + 1
  {
    if nodes == [] then Done(m)
    else
      var first := Visit(kids, held, m, nodes[0], mark, depth);
      if first.TooDeep? then TooDeep else VisitKids(kids, held, first.states, nodes[1..], mark, depth)
  }

  /** Allowing more depth does not change a walk that is done. */
  lemma {:induction false} VisitDeeper<N>(kids: map<N, seq<N>>, held: set<N>, m: map<N, FreeState>, node: N,
                                          mark: FreeState, depth: nat, more: nat)
    requires Complete(kids) && node in kids && m.Keys == kids.Keys && depth <= more
    requires Visit(kids, held, m, node, mark, depth).Done?
    ensures Visit(kids, held, m, node, mark, more) == Visit(kids, held, m, node, mark, depth)
    decreases depth, 0
  {
    if m[node] != mark {
      var own := if node in held then NotFreeable else mark;
      KidsDeeper(kids, held, m[node := own], kids[node], own, depth - 1, more - 1);
    }
  }

  lemma {:induction false} KidsDeeper<N>(kids: map<N, seq<N>>, held: set<N>, m: map<N, FreeState>, nodes: seq<N>,
                                         mark: FreeState, depth: nat, more: nat)
    requires Complete(kids) && Within(kids, nodes) && m.Keys == kids.Keys && depth <= more
    requires VisitKids(kids, held, m, nodes, mark, depth).Done?
    ensures VisitKids(kids, held, m, nodes, mark, more) == VisitKids(kids, held, m, nodes, mark, depth)
    decreases depth, |nodes| + 1
  {
    hide Complete;
    if nodes != [] {
      VisitDeeper(kids, held, m, nodes[0], mark, depth, more);
      var first := Visit(kids, held, m, nodes[0], mark, depth);
      KidsDeeper(kids, held, first.states, nodes[1..], mark, depth, more);
    }
  }

  /** Marking ends: some depth is enough. */
  ghost predicate Ends<N>(kids: map<N, seq<N>>, held: set<N>, m: map<N, FreeState>, node: N, mark: FreeState)
    requires Complete(kids) && node in kids && m.Keys == kids.Keys
  {
    exists depth :: Visit(kids, held, m, node, mark, depth).Done?
  }

  // ----- how deep it can be ------------------------------------------------------------------------

  /** The arguments of a call, and the marks at that moment. */
  datatype Call<N> = Call(m: map<N, FreeState>, node: N, mark: FreeState)

  ghost predicate IsCall<N>(kids: map<N, seq<N>>, c: Call<N>) {
    c.node in kids && c.m.Keys == kids.Keys
  }

  ghost predicate DoneIn<N>(kids: map<N, seq<N>>, held: set<N>, c: Call<N>, depth: nat)
    requires Complete(kids) && IsCall(kids, c)
  {
    Visit(kids, held, c.m, c.node, c.mark, depth).Done?
  }

  const STATES: set<FreeState> := {None, Traversed, Freeable, NotFreeable, Freeing}

  lemma InStates(s: FreeState)
    ensures s in STATES
  {
    match s
    case None =>
    case Traversed =>
    case Freeable =>
    case NotFreeable =>
    case Freeing =>
  }

  /** All marks of these nodes. */
  ghost function AllMarks<N>(nodes: set<N>): set<map<N, FreeState>> {
    if nodes == {} then {map[]}
    else
      var n :| n in nodes;
      set m, s | m in AllMarks(nodes - {n}) && s in STATES :: m[n := s]
  }

  lemma {:induction false} AllMarksHas<N>(m: map<N, FreeState>)
    ensures m in AllMarks(m.Keys)
    decreases |m.Keys|
  {
    if m.Keys == {} {
      assert m == map[];
    } else {
      var n :| n in m.Keys && AllMarks(m.Keys) == set l, s | l in AllMarks(m.Keys - {n}) && s in STATES :: l[n := s];
      var rest := m - {n};
      assert rest.Keys == m.Keys - {n};
      AllMarksHas(rest);
      InStates(m[n]);
      hide AllMarks;
      assert m == rest[n := m[n]];
    }
  }

  ghost function AllCalls<N>(kids: map<N, seq<N>>): set<Call<N>> {
    set m, n, s | m in AllMarks(kids.Keys) && n in kids && s in STATES :: Call(m, n, s)
  }

  lemma AllCallsHas<N>(kids: map<N, seq<N>>, c: Call<N>)
    requires IsCall(kids, c)
    ensures c in AllCalls(kids)
  {
    AllMarksHas(c.m);
    InStates(c.mark);
  }

  /** A call among the children that needs all the depth they need. */
  lemma {:induction false} DeepKid<N>(kids: map<N, seq<N>>, held: set<N>, m: map<N, FreeState>, nodes: seq<N>,
                                      mark: FreeState, depth: nat) returns (c: Call<N>)
    requires Complete(kids) && Within(kids, nodes) && m.Keys == kids.Keys
    requires VisitKids(kids, held, m, nodes, mark, depth).TooDeep?
    requires VisitKids(kids, held, m, nodes, mark, depth + 1).Done?
    ensures IsCall(kids, c) && !DoneIn(kids, held, c, depth) && DoneIn(kids, held, c, depth + 1)
    decreases nodes
  {
    hide Complete;
    c := Call(m, nodes[0], mark);
    if DoneIn(kids, held, c, depth) {
      VisitDeeper(kids, held, m, nodes[0], mark, depth, depth + 1);
      var first := Visit(kids, held, m, nodes[0], mark, depth);
      c := DeepKid(kids, held, first.states, nodes[1..], mark, depth);
    }
  }

  /** A call that needs some depth makes one that needs the depth below. */
  lemma DeepCall<N>(kids: map<N, seq<N>>, held: set<N>, c: Call<N>, depth: nat) returns (kid: Call<N>)
    requires Complete(kids) && IsCall(kids, c) && depth > 0
    requires !DoneIn(kids, held, c, depth) && DoneIn(kids, held, c, depth + 1)
    ensures IsCall(kids, kid) && !DoneIn(kids, held, kid, depth - 1) && DoneIn(kids, held, kid, depth)
  {
    var own := if c.node in held then NotFreeable else c.mark;
    kid := DeepKid(kids, held, c.m[c.node := own], kids[c.node], own, depth - 1);
  }

  lemma DoneDeeper<N>(kids: map<N, seq<N>>, held: set<N>, c: Call<N>, depth: nat)
    requires Complete(kids) && IsCall(kids, c) && DoneIn(kids, held, c, depth)
    ensures DoneIn(kids, held, c, depth + 1)
  {
    VisitDeeper(kids, held, c.m, c.node, c.mark, depth, depth + 1);
  }

  /** A walk that needs some depth nests as many different calls. */
  lemma {:induction false} Nested<N>(kids: map<N, seq<N>>, held: set<N>, c: Call<N>, depth: nat)
    returns (calls: set<Call<N>>)
    requires Complete(kids) && IsCall(kids, c)
    requires !DoneIn(kids, held, c, depth) && DoneIn(kids, held, c, depth + 1)
    ensures |calls| == depth + 1
    ensures forall d :: d in calls ==> IsCall(kids, d) && DoneIn(kids, held, d, depth + 1)
    decreases depth
  {
    hide DoneIn, Complete, IsCall;
    calls := {c};
    if depth > 0 {
      var kid := DeepCall(kids, held, c, depth);
      var below := Nested(kids, held, kid, depth - 1);
      forall d | d in below
        ensures DoneIn(kids, held, d, depth + 1)
      {
        DoneDeeper(kids, held, d, depth);
      }
      assert c !in below;
      calls := below + {c};
    }
  }

  lemma {:induction false} Least<N>(kids: map<N, seq<N>>, held: set<N>, c: Call<N>, depth: nat) returns (least: nat)
    requires Complete(kids) && IsCall(kids, c) && DoneIn(kids, held, c, depth)
    ensures least < depth && !DoneIn(kids, held, c, least) && DoneIn(kids, held, c, least + 1)
    decreases depth
  {
    if DoneIn(kids, held, c, depth - 1) {
      least := Least(kids, held, c, depth - 1);
    } else {
      least := depth - 1;
    }
  }

  /** Marking ends if and only if it does within as many nested calls as there are different ones. */
  lemma EndsIffBounded<N>(kids: map<N, seq<N>>, held: set<N>, m: map<N, FreeState>, node: N, mark: FreeState)
    requires Complete(kids) && node in kids && m.Keys == kids.Keys
    ensures Ends(kids, held, m, node, mark) <==> Visit(kids, held, m, node, mark, |AllCalls(kids)|).Done?
  {
    hide AllCalls;
    if depth: nat :| Visit(kids, held, m, node, mark, depth).Done? {
      var c := Call(m, node, mark);
      assert DoneIn(kids, held, c, depth);
      var least := Least(kids, held, c, depth);
      var calls := Nested(kids, held, c, least);
      forall d | d in calls
        ensures d in AllCalls(kids)
      {
        AllCallsHas(kids, d);
      }
      Fewer(calls, AllCalls(kids));
      VisitDeeper(kids, held, m, node, mark, least + 1, |AllCalls(kids)|);
    }
  }

  lemma {:induction false} Fewer<T>(a: set<T>, b: set<T>)
    requires a <= b
    ensures |a| <= |b|
    decreases a
  {
    if x :| x in a {
      Fewer(a - {x}, b - {x});
    }
  }
}
