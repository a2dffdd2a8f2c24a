/** What compiled commands match. */
module CmdMatch {
  import opened Prelude
  import opened Grammar
  import opened GrammarFacts
  import opened CmdCompile
  import E = ExprEval

  /** The number of words a node matches at the start of the input. */
  function Took(g: Node, input: seq<Token>): (r: Option<nat>)
    ensures r.Some? ==> r.value <= |input|
  {
    match ParseChild([], g, input)
    case Matched(t) => Some(|t.words|)
    case _ => None
  }

  // ----- sequences ---------------------------------------------------------------------------------

  /** A sequence takes what its children take one after the other. */
  lemma {:induction false} SeqIsChain(id: nat, kids: seq<Node>, done: seq<PTree>, len: nat, input: seq<Token>)
    requires len <= |input| && forall k :: k in kids ==> Safe(k)
    ensures
      var b := SeqLoop([], id, kids, done, len, input);
      var c := Chain(kids, input[len..]);
      if c.Some? then b.ret == Match(len + c.value) else b.ret == NoMatch
    decreases kids
  {
    hide ParseChild, Safe;
    if kids != [] {
      assert Safe(kids[0]);
      SafeNoOnce(kids[0]);
      NoError([], kids[0], input[len..]);
      PathIrrelevant([Frame(id, done)], [], kids[0], input[len..]);
      assert [] + [Frame(id, done)] == [Frame(id, done)];
      var r := ParseChild([], kids[0], input[len..]);
      if r.Matched? {
        assert input[len..][|r.t.words|..] == input[len + |r.t.words|..];
        SeqIsChain(id, kids[1..], done + [r.t], len + |r.t.words|, input);
      }
    }
  }

  lemma TookSeq(id: nat, kids: seq<Node>, input: seq<Token>)
    requires forall k :: k in kids ==> Safe(k)
    ensures Took(Seq(id, kids), input) == Chain(kids, input)
  {
    assert input[0..] == input;
    SeqIsChain(id, kids, [], 0, input);
    assert ParseBody([], Seq(id, kids), input) == SeqLoop([], id, kids, [], 0, input);
  }

  lemma {:induction false} ChainAppend(a: seq<Node>, b: seq<Node>, input: seq<Token>)
    ensures
      Chain(a + b, input) ==
      match Chain(a, input)
      case None => None
      case Some(n) =>
        var m := Chain(b, input[n..]);
        if m.None? then None else Some(n + m.value)
    decreases a
  {
    hide ParseChild;
    if a == [] {
      assert a + b == b && input[0..] == input;
    } else {
      assert (a + b)[1..] == a[1..] + b;
      var r := ParseChild([], a[0], input);
      if r.Matched? {
        var rest := input[|r.t.words|..];
        ChainAppend(a[1..], b, rest);
        var n := Chain(a[1..], rest);
        if n.Some? {
          assert rest[n.value..] == input[|r.t.words| + n.value..];
        }
      }
    }
  }

  lemma ChainOne(g: Node, input: seq<Token>)
    ensures Chain([g], input) == Took(g, input)
  {
    assert [g][1..] == [];
  }

  /** Juxtaposing takes what the second operand takes after the first, extended in place or not. */
  lemma JuxtaposeTakesBoth(v: Node, w: Node, input: seq<Token>)
    requires Safe(v) && Safe(w)
    ensures Took(Juxtapose(v, w), input) == Chain([v, w], input)
    ensures Took(Juxtapose(v, w), input) == Took(Seq(0, [v, w]), input)
  {
    hide ParseChild;
    TookSeq(0, [v, w], input);
    if v.Seq? {
      assert Safe(Seq(v.id, v.kids + [w]));
      TookSeq(v.id, v.kids + [w], input);
      TookSeq(v.id, v.kids, input);
      ChainAppend(v.kids, [w], input);
      ChainAppend([v], [w], input);
      ChainOne(v, input);
      assert [v] + [w] == [v, w];
    }
  }

  // ----- choices -----------------------------------------------------------------------------------

  ghost predicate SomeTakes(kids: seq<Node>, input: seq<Token>) {
    exists i :: 0 <= i < |kids| && Took(kids[i], input).Some?
  }

  lemma {:induction false} OrIsSome(id: nat, kids: seq<Node>, input: seq<Token>)
    requires forall k :: k in kids ==> Safe(k)
    ensures OrLoop([], id, kids, input).ret.Match? <==> SomeTakes(kids, input)
    decreases kids
  {
    hide ParseChild, Safe;
    if kids != [] {
      assert Safe(kids[0]);
      SafeNoOnce(kids[0]);
      NoError([], kids[0], input);
      PathIrrelevant([Frame(id, [])], [], kids[0], input);
      assert [] + [Frame(id, [])] == [Frame(id, [])];
      OrIsSome(id, kids[1..], input);
      TookIs(kids[0], input);
      SomeOfRest(kids, input);
    }
  }

  lemma TookIs(g: Node, input: seq<Token>)
    ensures Took(g, input).Some? <==> ParseChild([], g, input).Matched?
  {
  }

  lemma SomeOfRest(kids: seq<Node>, input: seq<Token>)
    requires kids != []
    ensures SomeTakes(kids, input) <==> Took(kids[0], input).Some? || SomeTakes(kids[1..], input)
  {
    hide Took;
    if i :| 0 <= i < |kids| && Took(kids[i], input).Some? {
      if i > 0 {
        assert kids[1..][i - 1] == kids[i];
      }
    }
  }

  lemma TookOr(id: nat, kids: seq<Node>, input: seq<Token>)
    requires forall k :: k in kids ==> Safe(k)
    ensures Took(Or(id, kids), input).Some? <==> SomeTakes(kids, input)
  {
    OrIsSome(id, kids, input);
    assert ParseBody([], Or(id, kids), input) == OrLoop([], id, kids, input);
  }

  lemma SomeAppend(kids: seq<Node>, g: Node, input: seq<Token>)
    ensures SomeTakes(kids + [g], input) <==> SomeTakes(kids, input) || Took(g, input).Some?
  {
    hide Took;
    var all := kids + [g];
    assert forall i :: 0 <= i < |kids| ==> all[i] == kids[i];
    assert all[|kids|] == g;
  }

  /** A choice, extended and reordered or not, matches when one of the two operands does. */
  lemma EitherMatchesOne(v: Node, w: Node, input: seq<Token>)
    requires Safe(v) && Safe(w)
    ensures Took(Either(v, w), input).Some? <==> Took(v, input).Some? || Took(w, input).Some?
  {
    hide Took, SomeTakes;
    SomeAppend([], v, input);
    SomeAppend([v], w, input);
    SomeNone(input);
    assert [] + [v] == [v] && [v] + [w] == [v, w];
    TookOr(0, [v, w], input);
    if w.Or? {
      TookOr(w.id, w.kids, input);
      TookOr(w.id, w.kids + [v], input);
      SomeAppend(w.kids, v, input);
    } else if v.Or? {
      TookOr(v.id, v.kids, input);
      TookOr(v.id, v.kids + [w], input);
      SomeAppend(v.kids, w, input);
    }
  }

  lemma SomeNone(input: seq<Token>)
    ensures !SomeTakes([], input)
  {
  }

  // ----- subsets -----------------------------------------------------------------------------------

  lemma TookSubset(id: nat, min: nat, kids: seq<Node>, input: seq<Token>) returns (best: seq<Node>)
    requires forall k :: k in kids ==> Safe(k)
    ensures IsChain(kids, best, input)
    ensures forall nodes :: IsChain(kids, nodes, input) ==> |nodes| <= |best|
    ensures Took(Subset(id, min, kids), input).Some? <==> min <= |best|
  {
    hide ParseChild, Safe;
    forall k | k in kids
      ensures NoOnce(k)
    {
      SafeNoOnce(k);
    }
    SafeSubset(id, min, kids);
    NoError([], Subset(id, min, kids), input);
    best := SubsetIsLongest([], id, min, kids, input);
    TookIs(Subset(id, min, kids), input);
  }

  lemma SafeSubset(id: nat, min: nat, kids: seq<Node>)
    requires forall k :: k in kids ==> Safe(k)
    ensures Safe(Subset(id, min, kids))
  {
  }

  lemma SafeKids(g: Node)
    requires Safe(g) && g.Subset?
    ensures forall k :: k in g.kids ==> Safe(k)
  {
  }

  /** A chain of a table that starts with one of its nodes. */
  lemma OneIsChain(kids: seq<Node>, i: nat, input: seq<Token>)
    requires i < |kids| && Took(kids[i], input).Some?
    ensures IsChain(kids, [kids[i]], input)
  {
    hide Took, Chain;
    ChainOne(kids[i], input);
    assert multiset([kids[i]]) <= multiset(kids);
  }

  lemma ChainHead(kids: seq<Node>, nodes: seq<Node>, input: seq<Token>)
    requires IsChain(kids, nodes, input) && nodes != []
    ensures SomeTakes(kids, input)
  {
    ChainStarts(kids, nodes, input);
    TookIs(nodes[0], input);
    assert nodes[0] in multiset(nodes);
    var i :| 0 <= i < |kids| && kids[i] == nodes[0];
  }

  /** A subset with minimum 1 matches when one of its children does. */
  lemma TookListed(id: nat, kids: seq<Node>, input: seq<Token>)
    requires forall k :: k in kids ==> Safe(k)
    ensures Took(Subset(id, 1, kids), input).Some? <==> SomeTakes(kids, input)
  {
    hide Took, Chain, Safe, IsChain;
    var best := TookSubset(id, 1, kids, input);
    if best != [] {
      ChainHead(kids, best, input);
    }
    if SomeTakes(kids, input) {
      SomeIsChain(kids, input);
    }
  }

  lemma SomeIsChain(kids: seq<Node>, input: seq<Token>)
    requires SomeTakes(kids, input)
    ensures exists nodes :: IsChain(kids, nodes, input) && |nodes| == 1
  {
    hide Took, IsChain;
    var i :| 0 <= i < |kids| && Took(kids[i], input).Some?;
    OneIsChain(kids, i, input);
    assert |[kids[i]]| == 1;
  }

  /** The list operator, extended and reordered or not, matches when one of the two operands does. */
  lemma SomeOfMatchesOne(v: Node, w: Node, input: seq<Token>)
    requires Safe(v) && Safe(w)
    ensures Took(SomeOf(v, w), input).Some? <==> Took(v, input).Some? || Took(w, input).Some?
  {
    hide Took, SomeTakes, Safe;
    SomeAppend([], v, input);
    SomeAppend([v], w, input);
    SomeNone(input);
    assert [] + [v] == [v] && [v] + [w] == [v, w];
    TookListed(0, [v, w], input);
    if Listed(w) {
      SafeKids(w);
      TookListed(w.id, w.kids, input);
      TookListed(w.id, w.kids + [v], input);
      SomeAppend(w.kids, v, input);
    } else if Listed(v) {
      SafeKids(v);
      TookListed(v.id, v.kids, input);
      TookListed(v.id, v.kids + [w], input);
      SomeAppend(v.kids, w, input);
    }
  }

  /** The nodes can be matched one after the other, in some order. */
  ghost predicate AllTake(kids: seq<Node>, input: seq<Token>) {
    exists nodes :: Chain(nodes, input).Some? && multiset(nodes) == multiset(kids)
  }

  lemma SameSize(a: seq<Node>, b: seq<Node>)
    requires multiset(a) <= multiset(b) && |a| >= |b|
    ensures multiset(a) == multiset(b)
  {
    var more := multiset(b) - multiset(a);
    assert multiset(b) == multiset(a) + more;
    assert |multiset(a)| == |a| && |multiset(b)| == |b|;
  }

  /** A subset whose minimum is the number of its children matches when all of them do, in some order. */
  lemma TookAll(id: nat, kids: seq<Node>, input: seq<Token>)
    requires forall k :: k in kids ==> Safe(k)
    ensures Took(Subset(id, |kids|, kids), input).Some? <==> AllTake(kids, input)
  {
    hide Took, Chain, Safe;
    var best := TookSubset(id, |kids|, kids, input);
    if |kids| <= |best| {
      SameSize(best, kids);
    }
    if AllTake(kids, input) {
      var nodes :| Chain(nodes, input).Some? && multiset(nodes) == multiset(kids);
      assert |multiset(nodes)| == |nodes| && |multiset(kids)| == |kids|;
      assert IsChain(kids, nodes, input);
    }
  }

  // ----- whole commands -----------------------------------------------------------------------------

  /** The nodes that operands compile to, when they all do. */
  function Operands(table: Names, steps: seq<E.Step>): Option<seq<Node>> {
    if steps == [] then Some([])
    else
      match E.DenoteStep(CmdOps(table), steps[0])
      case Value(v) =>
        (match Operands(table, steps[1..])
         case Some(rest) => Some([v] + rest)
         case None => None)
      case _ => None
  }

  /** All operators of a chain are the same. */
  predicate Uniform(steps: seq<E.Step>, op: seq<Token>) {
    forall k :: 0 <= k < |steps| ==> steps[k].op.toks == op
  }

  const OR: seq<Token> := [Token("|")]
  const LIST: seq<Token> := [Token(",")]
  const ALL: seq<Token> := [Token("&")]

  function Combine(op: seq<Token>, v: Node, w: Node): Node
    requires op in {[], OR, LIST, ALL}
  {
    if op == [] then Juxtapose(v, w) else if op == OR then Either(v, w)
    else if op == LIST then SomeOf(v, w) else AllOf(v, w)
  }

  /** The left fold of the operands that follow the first operator. */
  function Fold(op: seq<Token>, v: Node, operands: seq<Node>): Node
    requires op in {[], OR, LIST, ALL}
    decreases |operands|
  {
    if operands == [] then v else Fold(op, Combine(op, v, operands[0]), operands[1..])
  }

  /** The node of a chain of operands. */
  function Group(op: seq<Token>, operands: seq<Node>): Node
    requires op in {[], OR, LIST, ALL} && operands != []
  {
    if |operands| == 1 then operands[0] else Combine(op, operands[0], Fold(op, operands[1], operands[2..]))
  }

  lemma {:induction false} StepsFold(table: Names, op: seq<Token>, v: Node, steps: seq<E.Step>)
    requires op in {[], OR, LIST, ALL} && Uniform(steps, op) && Operands(table, steps).Some?
    ensures E.DenoteSteps(CmdOps(table), v, steps) == E.Value(Fold(op, v, Operands(table, steps).value))
    decreases |steps|
  {
    if steps != [] {
      var w := E.DenoteStep(CmdOps(table), steps[0]).v;
      var rest := Operands(table, steps[1..]).value;
      assert ([w] + rest)[1..] == rest;
      CombineIsBinOp(op, v, w);
      StepsFold(table, op, Combine(op, v, w), steps[1..]);
    }
  }

  lemma CombineIsBinOp(op: seq<Token>, v: Node, w: Node)
    requires op in {[], OR, LIST, ALL}
    ensures BinOp(v, op, w) == Some(Combine(op, v, w))
  {
  }

  /** A chain of one operator compiles to the group of its operands. */
  lemma ChainIsGroup(table: Names, op: seq<Token>, level: nat, first: E.Ast, steps: seq<E.Step>)
    requires op in {[], OR, LIST, ALL} && Uniform(steps, op) && Operands(table, steps).Some?
    requires E.Denote(CmdOps(table), first).Value?
    ensures
      E.Denote(CmdOps(table), E.Chain(level, first, steps)) ==
      E.Value(Group(op, [E.Denote(CmdOps(table), first).v] + Operands(table, steps).value))
  {
    var ops := CmdOps(table);
    var v := E.Denote(ops, first).v;
    var operands := Operands(table, steps).value;
    if steps == [] {
      assert [v] + operands == [v];
    } else {
      var w := E.DenoteStep(ops, steps[0]).v;
      var rest := Operands(table, steps[1..]).value;
      StepsFold(table, op, w, steps[1..]);
      assert ([v] + operands)[1] == w && ([v] + operands)[2..] == rest;
      CombineIsBinOp(op, v, Fold(op, w, rest));
    }
  }

  // ----- safety of what is built ---------------------------------------------------------------------

  lemma CombineSafe(op: seq<Token>, v: Node, w: Node)
    requires op in {[], OR, LIST, ALL} && Safe(v) && Safe(w)
    ensures Safe(Combine(op, v, w))
  {
  }

  lemma {:induction false} FoldSafe(op: seq<Token>, v: Node, operands: seq<Node>)
    requires op in {[], OR, LIST, ALL} && Safe(v) && forall k :: 0 <= k < |operands| ==> Safe(operands[k])
    ensures Safe(Fold(op, v, operands))
    decreases |operands|
  {
    hide Safe, Combine;
    if operands != [] {
      CombineSafe(op, v, operands[0]);
      FoldSafe(op, Combine(op, v, operands[0]), operands[1..]);
    }
  }

  lemma {:induction false} FoldMatchesSome(op: seq<Token>, v: Node, operands: seq<Node>, input: seq<Token>)
    requires op in {OR, LIST} && Safe(v) && forall k :: 0 <= k < |operands| ==> Safe(operands[k])
    ensures Took(Fold(op, v, operands), input).Some? <==> Took(v, input).Some? || SomeTakes(operands, input)
    decreases |operands|
  {
    hide Safe, Took, SomeTakes, Either, SomeOf;
    SomeNone(input);
    if operands != [] {
      var u := Combine(op, v, operands[0]);
      CombineSafe(op, v, operands[0]);
      EitherMatchesOne(v, operands[0], input);
      SomeOfMatchesOne(v, operands[0], input);
      FoldMatchesSome(op, u, operands[1..], input);
      SomeOfRest(operands, input);
    }
  }

  /** A chain of choices or of list elements matches when one of its operands does. */
  lemma GroupMatchesSome(op: seq<Token>, operands: seq<Node>, input: seq<Token>)
    requires op in {OR, LIST} && operands != [] && forall k :: 0 <= k < |operands| ==> Safe(operands[k])
    ensures Took(Group(op, operands), input).Some? <==> SomeTakes(operands, input)
  {
    hide Safe, Took, SomeTakes, Either, SomeOf, Fold;
    SomeNone(input);
    SomeOfRest(operands, input);
    if |operands| > 1 {
      var rest := Fold(op, operands[1], operands[2..]);
      FoldSafe(op, operands[1], operands[2..]);
      FoldMatchesSome(op, operands[1], operands[2..], input);
      EitherMatchesOne(operands[0], rest, input);
      SomeOfMatchesOne(operands[0], rest, input);
      SomeOfRest(operands[1..], input);
      assert operands[1..][1..] == operands[2..];
    } else {
      assert operands[1..] == [];
    }
  }

  /** What the first node that matches takes. */
  function FirstTook(kids: seq<Node>, input: seq<Token>): Option<nat> {
    if kids == [] then None
    else if Took(kids[0], input).Some? then Took(kids[0], input)
    else FirstTook(kids[1..], input)
  }

  lemma {:induction false} OrIsFirst(id: nat, kids: seq<Node>, input: seq<Token>)
    requires forall k :: k in kids ==> Safe(k)
    ensures
      var b := OrLoop([], id, kids, input);
      var n := FirstTook(kids, input);
      b.ret == if n.None? then NoMatch else Match(n.value)
    decreases kids
  {
    hide ParseChild, Safe;
    if kids != [] {
      assert Safe(kids[0]);
      SafeNoOnce(kids[0]);
      NoError([], kids[0], input);
      PathIrrelevant([Frame(id, [])], [], kids[0], input);
      assert [] + [Frame(id, [])] == [Frame(id, [])];
      OrIsFirst(id, kids[1..], input);
    }
  }

  lemma TookFirst(id: nat, kids: seq<Node>, input: seq<Token>)
    requires forall k :: k in kids ==> Safe(k)
    ensures Took(Or(id, kids), input) == FirstTook(kids, input)
  {
    hide FirstTook;
    OrIsFirst(id, kids, input);
    assert ParseBody([], Or(id, kids), input) == OrLoop([], id, kids, input);
  }

  /** The order in which the operands of a chain of choices are tried: from three on, the first comes last. */
  function TriedOrder(operands: seq<Node>): seq<Node> {
    if |operands| <= 2 then operands else operands[1..] + [operands[0]]
  }

  lemma {:induction false} FoldIsOr(kids: seq<Node>, operands: seq<Node>)
    requires forall k :: k in operands ==> !k.Or?
    ensures Fold(OR, Or(0, kids), operands) == Or(0, kids + operands)
    decreases operands
  {
    if operands == [] {
      assert kids + operands == kids;
    } else {
      FoldIsOr(kids + [operands[0]], operands[1..]);
      assert kids + [operands[0]] + operands[1..] == kids + operands;
    }
  }

  /** A chain of choices between nodes that are none themselves is one choice, tried in that order. */
  lemma ChoiceOrder(operands: seq<Node>, input: seq<Token>)
    requires |operands| > 1 && forall k :: k in operands ==> !k.Or?
    ensures Group(OR, operands) == Or(0, TriedOrder(operands))
    ensures (forall k :: k in operands ==> Safe(k)) ==>
      Took(Group(OR, operands), input) == FirstTook(TriedOrder(operands), input)
  {
    hide Took, FirstTook, Safe;
    var first, second, rest := operands[0], operands[1], operands[2..];
    assert first in operands && second in operands;
    if rest == [] {
      assert operands == [first, second];
      assert Fold(OR, second, []) == second;
    } else {
      assert rest[0] in operands;
      assert Fold(OR, second, rest) == Fold(OR, Or(0, [second, rest[0]]), rest[1..]);
      FoldIsOr([second, rest[0]], rest[1..]);
      assert [second, rest[0]] + rest[1..] + [first] == TriedOrder(operands);
    }
    if forall k :: k in operands ==> Safe(k) {
      TookFirst(0, TriedOrder(operands), input);
    }
  }

  const X: Token := Token("x")

  /** In x | any | y the word x is taken by the any node, although x is written first. */
  lemma FirstIsLast()
    ensures
      ParseChild([], Group(OR, [Str(1, X), AnyWord(2), Str(3, Token("y"))]), [X]) ==
        Matched(PTree(0, [PTree(2, [], [X])], [X]))
  {
    var operands := [Str(1, X), AnyWord(2), Str(3, Token("y"))];
    ChoiceOrder(operands, [X]);
    var kids := TriedOrder(operands);
    assert kids == [AnyWord(2), Str(3, Token("y")), Str(1, X)];
    assert [X][..1] == [X];
    var none: Path := [];
    assert ParseChild(none + [Frame(0, [])], kids[0], [X]) == Matched(PTree(2, [], [X]));
    assert OrLoop(none, 0, kids, [X]) == Body(Match(1), [PTree(2, [], [X])]);
    assert ParseBody(none, Or(0, kids), [X]) == OrLoop(none, 0, kids, [X]);
  }

  lemma {:induction false} FoldTakesAll(v: Node, operands: seq<Node>, input: seq<Token>)
    requires Safe(v) && forall k :: 0 <= k < |operands| ==> Safe(operands[k])
    ensures Took(Fold([], v, operands), input) == Chain([v] + operands, input)
    decreases |operands|
  {
    hide Safe, Took, Juxtapose, Chain;
    if operands == [] {
      ChainOne(v, input);
      assert [v] + operands == [v];
    } else {
      var u := Juxtapose(v, operands[0]);
      CombineSafe([], v, operands[0]);
      JuxtaposeTakesBoth(v, operands[0], input);
      FoldTakesAll(u, operands[1..], input);
      ChainAppend([u], operands[1..], input);
      ChainOne(u, input);
      ChainAppend([v, operands[0]], operands[1..], input);
      assert [v, operands[0]] + operands[1..] == [v] + operands;
    }
  }

  /** A chain of juxtaposed operands takes what they take one after the other, however it was nested. */
  lemma GroupTakesAll(operands: seq<Node>, input: seq<Token>)
    requires operands != [] && forall k :: 0 <= k < |operands| ==> Safe(operands[k])
    ensures Took(Group([], operands), input) == Chain(operands, input)
  {
    hide Safe, Took, Juxtapose, Chain, Fold;
    ChainOne(operands[0], input);
    if |operands| == 1 {
      assert operands == [operands[0]];
    } else {
      var rest := Fold([], operands[1], operands[2..]);
      FoldSafe([], operands[1], operands[2..]);
      assert [operands[1]] + operands[2..] == operands[1..];
      forall i: seq<Token>
        ensures Took(rest, i) == Chain(operands[1..], i)
      {
        FoldTakesAll(operands[1], operands[2..], i);
      }
      JuxtaposeTakesBoth(operands[0], rest, input);
      ChainAppend([operands[0]], [rest], input);
      assert [operands[0]] + [rest] == [operands[0], rest];
      ChainAppend([operands[0]], operands[1..], input);
      assert [operands[0]] + operands[1..] == operands;
      ChainRest(rest, operands[1..], operands[0], input);
    }
  }

  lemma ChainRest(rest: Node, operands: seq<Node>, first: Node, input: seq<Token>)
    requires Safe(rest) && forall i: seq<Token> :: Took(rest, i) == Chain(operands, i)
    ensures Chain([first] + [rest], input) == Chain([first] + operands, input)
  {
    hide Took, Chain;
    ChainAppend([first], [rest], input);
    ChainAppend([first], operands, input);
    var n := Chain([first], input);
    if n.Some? {
      ChainOne(rest, input[n.value..]);
    }
  }

  /** A subset of these operands, in some order, that needs all of them. */
  ghost predicate NeedsAll(g: Node, operands: seq<Node>) {
    && g.Subset?
    && g.min == |g.kids| == |operands|
    && multiset(g.kids) == multiset(operands)
  }

  lemma NeedsMore(g: Node, operands: seq<Node>, w: Node)
    requires NeedsAll(g, operands) && |operands| > 1 && !All(w)
    ensures NeedsAll(AllOf(g, w), operands + [w]) && NeedsAll(AllOf(w, g), [w] + operands)
  {
  }

  lemma {:induction false} FoldNeedsAll(g: Node, before: seq<Node>, operands: seq<Node>)
    requires NeedsAll(g, before) && |before| > 1 && forall k :: 0 <= k < |operands| ==> !All(operands[k])
    ensures NeedsAll(Fold(ALL, g, operands), before + operands)
    decreases |operands|
  {
    hide NeedsAll, AllOf;
    if operands == [] {
      assert before + operands == before;
    } else {
      NeedsMore(g, before, operands[0]);
      FoldNeedsAll(AllOf(g, operands[0]), before + [operands[0]], operands[1..]);
      assert before + [operands[0]] + operands[1..] == before + operands;
    }
  }

  lemma TwoNeedAll(v: Node, w: Node)
    requires !All(v) && !All(w)
    ensures NeedsAll(AllOf(v, w), [v, w])
  {
  }

  /** A chain of operands that must all match becomes one subset of them. */
  lemma GroupNeedsAll(operands: seq<Node>)
    requires |operands| > 1 && forall k :: 0 <= k < |operands| ==> !All(operands[k])
    ensures NeedsAll(Group(ALL, operands), operands)
  {
    hide NeedsAll, AllOf, Fold;
    var first, second := operands[0], operands[1];
    FoldStart(ALL, second, operands[2..]);
    if |operands| == 2 {
      TwoNeedAll(first, second);
      assert operands == [first, second];
    } else {
      TwoNeedAll(second, operands[2]);
      FoldNeedsAll(AllOf(second, operands[2]), [second, operands[2]], operands[3..]);
      assert [second, operands[2]] + operands[3..] == operands[1..];
      assert operands[2..][1..] == operands[3..];
      NeedsMore(Fold(ALL, second, operands[2..]), operands[1..], first);
      assert [first] + operands[1..] == operands;
    }
  }

  lemma FoldStart(op: seq<Token>, v: Node, operands: seq<Node>)
    requires op in {[], OR, LIST, ALL}
    ensures Fold(op, v, operands) == if operands == [] then v else Fold(op, Combine(op, v, operands[0]), operands[1..])
  {
  }

  /** A chain of operands that must all match does so when they match one after the other, in some order. */
  lemma GroupMatchesAll(operands: seq<Node>, input: seq<Token>)
    requires |operands| > 1 && forall k :: 0 <= k < |operands| ==> Safe(operands[k]) && !All(operands[k])
    ensures Took(Group(ALL, operands), input).Some? <==> AllTake(operands, input)
  {
    hide Safe, Took, Chain, Group, All;
    GroupNeedsAll(operands);
    var g := Group(ALL, operands);
    forall k | k in g.kids
      ensures Safe(k)
    {
      assert k in multiset(operands);
    }
    TookAll(g.id, g.kids, input);
  }

  // ----- repetitions and options ---------------------------------------------------------------------

  /** The operator '+' needs a first match that takes at least one word. */
  lemma PlusMatches(v: Node, input: seq<Token>)
    requires Safe(v)
    ensures Took(Many(0, 1, 0, v), input).Some? <==> Took(v, input).Some? && Took(v, input).value > 0
  {
    hide Safe;
    SafeNoOnce(v);
    NoError([], v, input);
    PathIrrelevant([Frame(0, [])], [], v, input);
    assert [] + [Frame(0, [])] == [Frame(0, [])] && input[0..] == input;
    var r := ParseChild([], v, input);
    assert ParseBody([], Many(0, 1, 0, v), input) == ManyLoop([], 0, 1, 0, v, 0, 0, [], input);
    if r.Matched? && r.t.words != [] {
      ManyMore(v, 1, |r.t.words|, [] + [r.t], input);
    }
  }

  lemma {:induction false} ManyMore(v: Node, count: nat, off: nat, done: seq<PTree>, input: seq<Token>)
    requires Safe(v) && off <= |input| && count >= 1
    ensures ManyLoop([], 0, 1, 0, v, count, off, done, input).ret.Match?
    decreases |input| - off
  {
    hide ParseChild, Safe;
    NoError([] + [Frame(0, done)], v, input[off..]);
    var r := ParseChild([] + [Frame(0, done)], v, input[off..]);
    if r.Matched? && r.t.words != [] {
      ManyMore(v, count + 1, off + |r.t.words|, done + [r.t], input);
    }
  }

  /** The brackets always match: what the operand takes, or nothing. */
  lemma BracketsMatch(v: Node, input: seq<Token>)
    requires Safe(v)
    ensures Took(Opt(0, v), input) == if Took(v, input).Some? then Took(v, input) else Some(0)
  {
    hide Safe;
    SafeNoOnce(v);
    NoError([], v, input);
    PathIrrelevant([Frame(0, [])], [], v, input);
    assert [] + [Frame(0, [])] == [Frame(0, [])];
    assert ParseBody([], Opt(0, v), input).ret.Match?;
  }

  /** An operand that always matches without a word is refused by '+'. */
  lemma PlusRefusesEmpty(input: seq<Token>)
    ensures Took(Empty(0), input) == Some(0) && Took(Many(0, 1, 0, Empty(0)), input) == None
  {
    PlusMatches(Empty(0), input);
  }
}
