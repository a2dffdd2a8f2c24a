/**
 The build step: the operator tables compiled into a cyclic graph of sequences,
 choices and repetitions, and the proof that the layered parser is what those
 combinators compute on the graph.
 */
module ExprBuild {
  import opened Prelude
  import opened ExprGrammar

  /** A reference to a built node, or to entry i of a table of user nodes. */
  datatype NodeRef = Inner(role: Role) | Slot(kind: Kind, i: nat)

  datatype NodeDef = SeqDef(kids: seq<NodeRef>) | OrDef(kids: seq<NodeRef>) | ManyDef(kid: NodeRef)

  function Layer(i: nat): NodeRef {
    if i == 0 then Inner(Term) else Inner(Next(i - 1))
  }

  function Slots(kind: Kind, n: nat): (r: seq<NodeRef>)
    ensures |r| == n && forall i :: 0 <= i < n ==> r[i] == Slot(kind, i)
  {
    if n == 0 then [] else Slots(kind, n - 1) + [Slot(kind, n - 1)]
  }

  function Parens(n: nat): (r: seq<NodeRef>)
    ensures |r| == n && forall i :: 0 <= i < n ==> r[i] == Inner(ParenSeq(i))
  {
    if n == 0 then [] else Parens(n - 1) + [Inner(ParenSeq(n - 1))]
  }

  /** The nodes of the graph built for these tables; the expression node itself is above them. */
  predicate InGraph(bins: nat, parens: nat, role: Role) {
    match role
    case Top => false
    case ParenSeq(i) => i < parens
    case Next(i) => i < bins
    case BinMany(i) => i < bins
    case BinSeq(i) => i < bins
    case _ => true
  }

  function Def(bins: nat, pres: nat, posts: nat, parens: nat, role: Role): NodeDef
    requires InGraph(bins, parens, role)
  {
    match role
    case Ref => SeqDef([Layer(bins)])
    case PreOr => OrDef(Slots(PreOp, pres))
    case PostOr => OrDef(Slots(PostOp, posts))
    case Post => OrDef([Slot(Val, 0), Inner(PreSeq)] + Parens(parens))
    case PreSeq => SeqDef([Inner(PreOr), Inner(Ref)])
    case ParenSeq(i) => SeqDef([Slot(ParenOpen, i), Inner(Ref), Slot(ParenClose, i)])
    case Term => SeqDef([Inner(Post), Inner(PostMany)])
    case PostMany => ManyDef(Inner(PostOr))
    case Next(i) => SeqDef([Layer(i), Inner(BinMany(i))])
    case BinMany(i) => ManyDef(Inner(BinSeq(i)))
    case BinSeq(i) => SeqDef([Slot(BinOp, i), Layer(i)])
  }

  // ----- building ------------------------------------------------------------------------

  /** The three nodes made for one binary operator. */
  datatype OpLayer = OpLayer(next: NodeDef, many: NodeDef, step: NodeDef)

  datatype Graph = Graph(
    root: NodeRef, ref: NodeDef, preOr: NodeDef, postOr: NodeDef, preSeq: NodeDef,
    post: NodeDef, postMany: NodeDef, term: NodeDef, parens: seq<NodeDef>, layers: seq<OpLayer>
  ) {
    function At(role: Role): NodeDef
      requires InGraph(|layers|, |parens|, role)
    {
      match role
      case Ref => ref
      case PreOr => preOr
      case PostOr => postOr
      case Post => post
      case PreSeq => preSeq
      case ParenSeq(i) => parens[i]
      case Term => term
      case PostMany => postMany
      case Next(i) => layers[i].next
      case BinMany(i) => layers[i].many
      case BinSeq(i) => layers[i].step
    }
  }

  /** The configuration and the built node of an expression node. */
  class ExprNode {
    var val: Option<Leaf>
    var bins: seq<Leaf>
    var pres: seq<Leaf>
    var posts: seq<Leaf>
    var opens: seq<Leaf>
    var closes: seq<Leaf>
    var child: Option<Graph>

    ghost predicate Buildable()
      reads this
    {
      val.Some? && (bins != [] || pres != [] || posts != [])
    }

    /** The built node is always the one for the current tables, and missing when they are incomplete. */
    ghost predicate Valid()
      reads this
    {
      && |opens| == |closes|
      && (child.Some? <==> Buildable())
      && (child.Some? ==>
            && child.value.root == Layer(|bins|)
            && |child.value.layers| == |bins| && |child.value.parens| == |opens|
            && forall role :: InGraph(|bins|, |opens|, role) ==>
                 child.value.At(role) == Def(|bins|, |pres|, |posts|, |opens|, role))
    }

    constructor ()
      ensures Valid() && val == None && child == None
      ensures bins == pres == posts == opens == closes == []
    {
      val, child := None, None;
      bins, pres, posts, opens, closes := [], [], [], [], [];
    }

    method Build() returns (ok: bool)
      requires |opens| == |closes|
      modifies `child
      ensures Valid() && ok == Buildable()
    {
      child := None;
      if val.None? {
        return false;
      }
      if |bins| == 0 && |pres| == 0 && |posts| == 0 {
        return false;
      }
      var preOps, postOps := [], [];
      for i := 0 to |pres|
        invariant preOps == Slots(PreOp, i)
      {
        preOps := preOps + [Slot(PreOp, i)];
      }
      for i := 0 to |posts|
        invariant postOps == Slots(PostOp, i)
      {
        postOps := postOps + [Slot(PostOp, i)];
      }
      var post, parens := [Slot(Val, 0), Inner(PreSeq)], [];
      for i := 0 to |opens|
        invariant post == [Slot(Val, 0), Inner(PreSeq)] + Parens(i)
        invariant |parens| == i
        invariant forall k :: 0 <= k < i ==>
          parens[k] == SeqDef([Slot(ParenOpen, k), Inner(Ref), Slot(ParenClose, k)])
      {
        parens := parens + [SeqDef([Slot(ParenOpen, i), Inner(Ref), Slot(ParenClose, i)])];
        post := post + [Inner(ParenSeq(i))];
      }
      var term, layers := Inner(Term), [];
      for i := 0 to |bins|
        invariant term == Layer(i) && |layers| == i
        invariant forall k :: 0 <= k < i ==>
          layers[k] == OpLayer(SeqDef([Layer(k), Inner(BinMany(k))]), ManyDef(Inner(BinSeq(k))),
                               SeqDef([Slot(BinOp, k), Layer(k)]))
      {
        layers := layers + [OpLayer(SeqDef([term, Inner(BinMany(i))]), ManyDef(Inner(BinSeq(i))),
                                    SeqDef([Slot(BinOp, i), term]))];
        term := Inner(Next(i));
      }
      child := Some(Graph(
        term, SeqDef([term]), OrDef(preOps), OrDef(postOps), SeqDef([Inner(PreOr), Inner(Ref)]),
        OrDef(post), ManyDef(Inner(PostOr)), SeqDef([Inner(Post), Inner(PostMany)]), parens, layers));
      return true;
    }

    method SetValNode(node: Leaf)
      requires Valid()
      modifies this
      ensures Valid() && val == Some(node)
      ensures unchanged(`bins, `pres, `posts, `opens, `closes)
    {
      val := Some(node);
      var _ := Build();
    }

    method AddBinOp(op: Leaf)
      requires Valid()
      modifies this
      ensures Valid() && bins == old(bins) + [op]
      ensures unchanged(`val, `pres, `posts, `opens, `closes)
    {
      bins := bins + [op];
      var _ := Build();
    }

    method AddPreOp(op: Leaf)
      requires Valid()
      modifies this
      ensures Valid() && pres == old(pres) + [op]
      ensures unchanged(`val, `bins, `posts, `opens, `closes)
    {
      pres := pres + [op];
      var _ := Build();
    }

    method AddPostOp(op: Leaf)
      requires Valid()
      modifies this
      ensures Valid() && posts == old(posts) + [op]
      ensures unchanged(`val, `bins, `pres, `opens, `closes)
    {
      posts := posts + [op];
      var _ := Build();
    }

    method AddParenthesis(open: Leaf, close: Leaf)
      requires Valid()
      modifies this
      ensures Valid() && opens == old(opens) + [open] && closes == old(closes) + [close]
      ensures unchanged(`val, `bins, `pres, `posts)
    {
      opens, closes := opens + [open], closes + [close];
      var _ := Build();
    }
  }

  // ----- the combinators on the graph ---------------------------------------------------

  predicate RefOk(cfg: Config, r: NodeRef) {
    match r
    case Inner(role) => InGraph(|cfg.bins|, |cfg.opens|, role)
    case Slot(kind, i) =>
      match kind
      case Val => true
      case BinOp => i < |cfg.bins|
      case PreOp => i < |cfg.pres|
      case PostOp => i < |cfg.posts|
      case ParenOpen => i < |cfg.opens|
      case ParenClose => i < |cfg.closes|
      case NoKind => false
  }

  /** The layered parser at a node of the graph. */
  function ParseAt(cfg: Config, r: NodeRef, input: seq<Token>): (t: Option<Tree>)
    requires Guarded(cfg) && RefOk(cfg, r)
    ensures t.Some? ==> t.value.toks <= input
  {
    match r
    case Slot(kind, i) =>
      var leaf := match kind
        case BinOp => cfg.bins[i]
        case PreOp => cfg.pres[i]
        case PostOp => cfg.posts[i]
        case ParenOpen => cfg.opens[i]
        case ParenClose => cfg.closes[i]
        case _ => cfg.val;
      assert LeafOk(leaf);
      leaf.parse(input)
    case Inner(role) =>
      match role
      case Ref => ParseRef(cfg, input)
      case PreOr => ParsePreOr(cfg, input)
      case PostOr => ParsePostOr(cfg, input)
      case Post => ParsePost(cfg, input)
      case PreSeq => ParsePreSeq(cfg, input)
      case ParenSeq(i) => ParseParen(cfg, i, input)
      case Term => ParseTerm(cfg, input)
      case PostMany => var k := ParsePosts(cfg, input); Some(Tree(Built(PostMany), Toks(k), k))
      case Next(i) => ParseLevel(cfg, i + 1, input)
      case BinMany(i) => var k := ParseSteps(cfg, i, input); Some(Tree(Built(BinMany(i)), Toks(k), k))
      case BinSeq(i) => ParseStep(cfg, i, input)
  }

  ghost predicate RefsOk(cfg: Config, rs: seq<NodeRef>) {
    forall i :: 0 <= i < |rs| ==> RefOk(cfg, rs[i])
  }

  /** What the children of a node compute. */
  type Parser = (NodeRef, seq<Token>) -> Option<Tree>

  /** What a child leaves of the input. */
  function After(t: Tree, input: seq<Token>): seq<Token> {
    if |t.toks| <= |input| then input[|t.toks|..] else []
  }

  /** The sequence node: every child in turn, each on what the previous left. */
  function RunSeq(p: Parser, kids: seq<NodeRef>, input: seq<Token>): Option<seq<Tree>> {
    if kids == [] then Some([])
    else
      var t := p(kids[0], input);
      if t.None? then None
      else
        var rest := RunSeq(p, kids[1..], After(t.value, input));
        if rest.None? then None else Some([t.value] + rest.value)
  }

  /** The choice node: the first child that matches. */
  function RunOr(p: Parser, kids: seq<NodeRef>, input: seq<Token>): Option<Tree> {
    if kids == [] then None
    else
      var t := p(kids[0], input);
      if t.Some? then t else RunOr(p, kids[1..], input)
  }

  /** The repetition node without bounds: greedy, until a failure or an empty match. */
  function RunMany(p: Parser, kid: NodeRef, input: seq<Token>): seq<Tree>
    decreases |input|
  {
    var t := p(kid, input);
    if t.None? || t.value.toks == [] || input == [] then []
    else [t.value] + RunMany(p, kid, After(t.value, input))
  }

  function Run(p: Parser, role: Role, def: NodeDef, input: seq<Token>): Option<Tree> {
    match def
    case SeqDef(kids) =>
      var r := RunSeq(p, kids, input);
      if r.None? then None else Some(Tree(Built(role), Toks(r.value), r.value))
    case OrDef(kids) =>
      var r := RunOr(p, kids, input);
      if r.None? then None else Some(Tree(Built(role), r.value.toks, [r.value]))
    case ManyDef(kid) =>
      var r := RunMany(p, kid, input);
      Some(Tree(Built(role), Toks(r), r))
  }

  /** The layered parser as what the nodes of the graph compute. */
  ghost function At(cfg: Config): Parser {
    (r: NodeRef, input: seq<Token>) => if Guarded(cfg) && RefOk(cfg, r) then ParseAt(cfg, r, input) else None
  }

  lemma RunSeq2(cfg: Config, a: NodeRef, b: NodeRef, input: seq<Token>)
    requires Guarded(cfg) && RefOk(cfg, a) && RefOk(cfg, b)
    ensures
      var r := RunSeq(At(cfg), [a, b], input);
      var s := ParseAt(cfg, a, input);
      var t := if s.None? then None else ParseAt(cfg, b, input[|s.value.toks|..]);
      if t.None? then r.None? else
        r == Some([s.value, t.value]) && Toks(r.value) == s.value.toks + t.value.toks
  {
    hide Guarded, ParseAt, RefOk;
    assert [a, b][1..] == [b] && [b][1..] == [];
    var s := ParseAt(cfg, a, input);
    if s.Some? {
      var t := ParseAt(cfg, b, input[|s.value.toks|..]);
      if t.Some? {
        assert [t.value] + [] == [t.value];
        assert RunSeq(At(cfg), [b], input[|s.value.toks|..]) == Some([t.value]);
        assert RunSeq(At(cfg), [a, b], input) == Some([s.value] + [t.value]);
        assert [s.value, t.value] == [s.value] + [t.value];
        ToksCons(s.value, [t.value]);
        ToksCons(t.value, []);
      }
    }
  }

  lemma {:induction false} RunOrSlots(cfg: Config, leaves: seq<Leaf>, kids: seq<NodeRef>, input: seq<Token>)
    requires Guarded(cfg) && RefsOk(cfg, kids) && LeavesOk(leaves) && |leaves| == |kids|
    requires forall i :: 0 <= i < |kids| ==> ParseAt(cfg, kids[i], input) == leaves[i].parse(input)
    ensures RunOr(At(cfg), kids, input) == ParseFirst(leaves, input)
  {
    hide Guarded, ParseAt, RefOk, LeafOk;
    if kids != [] {
      RunOrSlots(cfg, leaves[1..], kids[1..], input);
    }
  }

  lemma {:induction false} RunOrParens(cfg: Config, i: nat, kids: seq<NodeRef>, input: seq<Token>)
    requires Guarded(cfg) && RefsOk(cfg, kids) && i + |kids| == |cfg.opens|
    requires forall k :: 0 <= k < |kids| ==> kids[k] == Inner(ParenSeq(i + k))
    ensures RunOr(At(cfg), kids, input) == ParseParens(cfg, i, input)
    decreases |kids|
  {
    hide Guarded, Valid;
    if kids != [] {
      assert ParseAt(cfg, kids[0], input) == ParseParen(cfg, i, input);
      RunOrParens(cfg, i + 1, kids[1..], input);
    }
  }

  lemma AtRef(cfg: Config, r: NodeRef, input: seq<Token>)
    requires Guarded(cfg) && RefOk(cfg, r)
    ensures At(cfg)(r, input) == ParseAt(cfg, r, input)
  {
    hide Guarded, RefOk, ParseAt;
  }

  lemma AtPost(cfg: Config, input: seq<Token>)
    requires Guarded(cfg)
    ensures At(cfg)(Inner(PostOr), input) == ParsePostOr(cfg, input)
  {
    hide Guarded, ParsePostOr, At;
    AtRef(cfg, Inner(PostOr), input);
  }

  lemma AtStep(cfg: Config, level: nat, input: seq<Token>)
    requires Guarded(cfg) && level < |cfg.bins|
    ensures At(cfg)(Inner(BinSeq(level)), input) == ParseStep(cfg, level, input)
  {
    hide Guarded, ParseStep, At;
    AtRef(cfg, Inner(BinSeq(level)), input);
  }

  lemma {:induction false} RunManyPosts(cfg: Config, input: seq<Token>)
    requires Guarded(cfg)
    ensures RunMany(At(cfg), Inner(PostOr), input) == ParsePosts(cfg, input)
    decreases |input|
  {
    hide Guarded, ParsePostOr, At;
    AtPost(cfg, input);
    var t := ParsePostOr(cfg, input);
    if t.Some? && t.value.toks != [] {
      RunManyPosts(cfg, input[|t.value.toks|..]);
    }
  }

  lemma {:induction false} RunManySteps(cfg: Config, level: nat, input: seq<Token>)
    requires Guarded(cfg) && level < |cfg.bins|
    ensures RunMany(At(cfg), Inner(BinSeq(level)), input) == ParseSteps(cfg, level, input)
    decreases |input|
  {
    hide Guarded, ParseStep, At;
    AtStep(cfg, level, input);
    var t := ParseStep(cfg, level, input);
    if t.Some? && t.value.toks != [] {
      RunManySteps(cfg, level, input[|t.value.toks|..]);
    }
  }

  lemma RunSeq3(cfg: Config, a: NodeRef, b: NodeRef, c: NodeRef, input: seq<Token>)
    requires Guarded(cfg) && RefOk(cfg, a) && RefOk(cfg, b) && RefOk(cfg, c)
    ensures
      var r := RunSeq(At(cfg), [a, b, c], input);
      var s := ParseAt(cfg, a, input);
      if s.None? then r.None? else
        var rest := RunSeq(At(cfg), [b, c], input[|s.value.toks|..]);
        if rest.None? then r.None? else r == Some([s.value] + rest.value)
  {
    hide Guarded, ParseAt, RefOk;
    assert [a, b, c][1..] == [b, c];
  }

  /** The shape shared by the sequences of two. */
  lemma SolvesPair(cfg: Config, role: Role, a: NodeRef, b: NodeRef, input: seq<Token>)
    requires Guarded(cfg) && RefOk(cfg, a) && RefOk(cfg, b) && RefOk(cfg, Inner(role))
    requires
      var s := ParseAt(cfg, a, input);
      var t := if s.None? then None else ParseAt(cfg, b, input[|s.value.toks|..]);
      ParseAt(cfg, Inner(role), input) ==
        if t.None? then None else Some(Tree(Built(role), s.value.toks + t.value.toks, [s.value, t.value]))
    ensures RefsOk(cfg, [a, b]) && ParseAt(cfg, Inner(role), input) == Run(At(cfg), role, SeqDef([a, b]), input)
  {
    hide Guarded, ParseAt, RefOk;
    RunSeq2(cfg, a, b, input);
  }

  lemma SolvesPreSeq(cfg: Config, input: seq<Token>)
    requires Guarded(cfg)
    ensures RefsOk(cfg, [Inner(PreOr), Inner(Ref)])
    ensures ParsePreSeq(cfg, input) == Run(At(cfg), PreSeq, SeqDef([Inner(PreOr), Inner(Ref)]), input)
  {
    hide Guarded, Valid, ParsePreOr, ParseRef, IsRef, Run;
    SolvesPair(cfg, PreSeq, Inner(PreOr), Inner(Ref), input);
  }

  lemma SolvesTerm(cfg: Config, input: seq<Token>)
    requires Guarded(cfg)
    ensures RefsOk(cfg, [Inner(Post), Inner(PostMany)])
    ensures ParseTerm(cfg, input) == Run(At(cfg), Term, SeqDef([Inner(Post), Inner(PostMany)]), input)
  {
    hide Guarded, Valid, ParsePost, IsPost, ParsePosts, Run;
    SolvesPair(cfg, Term, Inner(Post), Inner(PostMany), input);
  }

  lemma ParseLayer(cfg: Config, i: nat, input: seq<Token>)
    requires Guarded(cfg) && i <= |cfg.bins|
    ensures RefOk(cfg, Layer(i)) && ParseAt(cfg, Layer(i), input) == ParseLevel(cfg, i, input)
  {
    hide Guarded, Valid, ParseTerm, IsTerm, ParseSteps;
  }

  lemma SolvesNext(cfg: Config, i: nat, input: seq<Token>)
    requires Guarded(cfg) && i < |cfg.bins|
    ensures RefsOk(cfg, [Layer(i), Inner(BinMany(i))])
    ensures ParseLevel(cfg, i + 1, input) == Run(At(cfg), Next(i), SeqDef([Layer(i), Inner(BinMany(i))]), input)
  {
    hide Guarded, Valid, Layer, ParseSteps, IsLevel, Run;
    ParseLayer(cfg, i, input);
    SolvesPair(cfg, Next(i), Layer(i), Inner(BinMany(i)), input);
  }

  lemma SolvesStep(cfg: Config, i: nat, input: seq<Token>)
    requires Guarded(cfg) && i < |cfg.bins|
    ensures RefsOk(cfg, [Slot(BinOp, i), Layer(i)])
    ensures ParseStep(cfg, i, input) == Run(At(cfg), BinSeq(i), SeqDef([Slot(BinOp, i), Layer(i)]), input)
  {
    hide Guarded, Valid, Layer, ParseLevel, IsLevel, Run;
    var op := cfg.bins[i].parse(input);
    assert op == ParseAt(cfg, Slot(BinOp, i), input);
    ParseLayer(cfg, i, input);
    if op.Some? {
      ParseLayer(cfg, i, input[|op.value.toks|..]);
    }
    SolvesPair(cfg, BinSeq(i), Slot(BinOp, i), Layer(i), input);
  }

  lemma SolvesRef(cfg: Config, input: seq<Token>)
    requires Guarded(cfg)
    ensures RefsOk(cfg, [Layer(|cfg.bins|)])
    ensures ParseRef(cfg, input) == Run(At(cfg), Ref, SeqDef([Layer(|cfg.bins|)]), input)
  {
    hide Guarded, Valid, Layer, ParseLevel, IsLevel, ParseAt;
    ParseLayer(cfg, |cfg.bins|, input);
    var kids := [Layer(|cfg.bins|)];
    assert kids[1..] == [];
    var t := ParseAt(cfg, kids[0], input);
    if t.Some? {
      assert [t.value] + [] == [t.value];
      assert RunSeq(At(cfg), kids, input) == Some([t.value]);
      assert [t.value][1..] == [] && Toks([t.value]) == t.value.toks;
    }
  }

  lemma SolvesOr(cfg: Config, input: seq<Token>)
    requires Guarded(cfg)
    ensures RefsOk(cfg, Slots(PreOp, |cfg.pres|)) && RefsOk(cfg, Slots(PostOp, |cfg.posts|))
    ensures ParsePreOr(cfg, input) == Run(At(cfg), PreOr, OrDef(Slots(PreOp, |cfg.pres|)), input)
    ensures ParsePostOr(cfg, input) == Run(At(cfg), PostOr, OrDef(Slots(PostOp, |cfg.posts|)), input)
  {
    assert Valid(cfg);
    hide Guarded, Valid, LeafOk;
    RunOrSlots(cfg, cfg.pres, Slots(PreOp, |cfg.pres|), input);
    RunOrSlots(cfg, cfg.posts, Slots(PostOp, |cfg.posts|), input);
  }

  lemma SolvesPost(cfg: Config, input: seq<Token>)
    requires Guarded(cfg)
    ensures
      var kids := [Slot(Val, 0), Inner(PreSeq)] + Parens(|cfg.opens|);
      RefsOk(cfg, kids) && ParsePost(cfg, input) == Run(At(cfg), Post, OrDef(kids), input)
  {
    hide Guarded, Valid, ParsePreSeq, ParseParens, IsOperand, Parens;
    var parens := Parens(|cfg.opens|);
    var kids := [Slot(Val, 0), Inner(PreSeq)] + parens;
    RunOrParens(cfg, 0, parens, input);
    assert kids[1..] == [Inner(PreSeq)] + parens && kids[1..][1..] == parens;
    assert RefsOk(cfg, kids);
    assert RunOr(At(cfg), kids[1..], input) ==
      if ParsePreSeq(cfg, input).Some? then ParsePreSeq(cfg, input) else RunOr(At(cfg), parens, input);
  }

  lemma SolvesParen(cfg: Config, i: nat, input: seq<Token>)
    requires Guarded(cfg) && i < |cfg.opens| && |cfg.opens| == |cfg.closes|
    ensures
      var kids := [Slot(ParenOpen, i), Inner(Ref), Slot(ParenClose, i)];
      RefsOk(cfg, kids) && ParseParen(cfg, i, input) == Run(At(cfg), ParenSeq(i), SeqDef(kids), input)
  {
    hide Guarded, Valid, ParseRef, IsRef, RunSeq;
    RunSeq3(cfg, Slot(ParenOpen, i), Inner(Ref), Slot(ParenClose, i), input);
    var open := cfg.opens[i].parse(input);
    if open.Some? {
      var rest := input[|open.value.toks|..];
      RunSeq2(cfg, Inner(Ref), Slot(ParenClose, i), rest);
      var arg := ParseRef(cfg, rest);
      if arg.Some? {
        var close := cfg.closes[i].parse(rest[|arg.value.toks|..]);
        if close.Some? {
          ToksCons(open.value, [arg.value, close.value]);
          assert [open.value] + [arg.value, close.value] == [open.value, arg.value, close.value];
          assert open.value.toks + (arg.value.toks + close.value.toks)
              == open.value.toks + arg.value.toks + close.value.toks;
        }
      }
    }
  }

  /**
   The layered parser is the meaning of the graph: at every node it computes
   what that node's combinator computes from its children, around the cycle
   that the reference closes included.
   */
  lemma ParserSolvesGraph(cfg: Config, role: Role, input: seq<Token>)
    requires Guarded(cfg) && InGraph(|cfg.bins|, |cfg.opens|, role)
    ensures
      var def := Def(|cfg.bins|, |cfg.pres|, |cfg.posts|, |cfg.opens|, role);
      && (if def.ManyDef? then RefOk(cfg, def.kid) else RefsOk(cfg, def.kids))
      && ParseAt(cfg, Inner(role), input) == Run(At(cfg), role, def, input)
  {
    ParenCounts(cfg);
    hide Guarded, Valid, Layer, Slots, Parens, RunSeq, RunOr;
    match role
    case Ref => SolvesRef(cfg, input);
    case PreOr => SolvesOr(cfg, input);
    case PostOr => SolvesOr(cfg, input);
    case Post => SolvesPost(cfg, input);
    case PreSeq => SolvesPreSeq(cfg, input);
    case ParenSeq(i) => SolvesParen(cfg, i, input);
    case Term => SolvesTerm(cfg, input);
    case PostMany => RunManyPosts(cfg, input);
    case Next(i) => SolvesNext(cfg, i, input);
    case BinMany(i) => RunManySteps(cfg, i, input);
    case BinSeq(i) => SolvesStep(cfg, i, input);
  }

  lemma ParenCounts(cfg: Config)
    requires Guarded(cfg)
    ensures |cfg.opens| == |cfg.closes|
  {
  }
}
