/**
 Nodes that are registered in several tables: which of them the evaluator takes
 for something they are not, and when it still meets its assertions.
 */
module ExprTables {
  import opened Prelude
  import opened ExprGrammar
  import opened ExprEval

  // ----- what is parsed is what is found -----------------------------------------------------------

  function KindOfLeaf(cfg: Config, leaf: Leaf): Kind { KindOf(cfg, User(leaf.id)) }

  predicate TakesPre(cfg: Config, input: seq<Token>)
    requires Guarded(cfg)
  {
    var op := ParsePreOr(cfg, input);
    op.Some? && KindOf(cfg, op.value.kids[0].node) == PreOp
  }

  predicate TakesPair(cfg: Config, i: nat) {
    && i < |cfg.opens| && KindOfLeaf(cfg, cfg.opens[i]) in {PreOp, ParenOpen}
    && i < |cfg.closes| && KindOfLeaf(cfg, cfg.closes[i]) in {BinOp, PreOp, PostOp, ParenOpen, ParenClose}
  }

  ghost predicate AcceptsOps(cfg: Config) {
    && (forall i :: 0 <= i < |cfg.bins| ==> KindOfLeaf(cfg, cfg.bins[i]) == BinOp)
    && (forall i :: 0 <= i < |cfg.posts| ==> KindOfLeaf(cfg, cfg.posts[i]) in {BinOp, PreOp, PostOp})
  }

  /** An operand that starts with a prefix operator or a parenthesis. */
  ghost predicate AcceptsOperand(cfg: Config, input: seq<Token>)
    requires Guarded(cfg)
  {
    if ParsePreSeq(cfg, input).Some? then TakesPre(cfg, input)
    else forall i :: 0 <= i < |cfg.opens| && ParseParen(cfg, i, input).Some? ==> TakesPair(cfg, i)
  }

  /** Whatever the parser takes is found in a table that the evaluator can do with. */
  ghost predicate Accepts(cfg: Config)
    requires Guarded(cfg)
  {
    Sealed(cfg) && AcceptsOps(cfg) && forall input :: cfg.val.parse(input).None? ==> AcceptsOperand(cfg, input)
  }

  lemma LeafTree(cfg: Config, leaf: Leaf, input: seq<Token>)
    requires LeafOk(leaf) && SealedLeaf(cfg, leaf) && leaf.parse(input).Some?
    ensures
      var t := leaf.parse(input).value;
      t.node == User(leaf.id) && forall k :: k in t.kids ==> Inert(cfg, k)
  {
  }

  lemma FirstTree(cfg: Config, leaves: seq<Leaf>, input: seq<Token>) returns (i: nat)
    requires LeavesOk(leaves) && SealedLeaves(cfg, leaves) && ParseFirst(leaves, input).Some?
    ensures i < |leaves| && leaves[i].parse(input) == ParseFirst(leaves, input)
    ensures
      var t := ParseFirst(leaves, input).value;
      t.node == User(leaves[i].id) && forall k :: k in t.kids ==> Inert(cfg, k)
  {
    hide LeafOk, SealedLeaf;
    i :| 0 <= i < |leaves| && leaves[i].parse(input) == ParseFirst(leaves, input);
    LeafTree(cfg, leaves[i], input);
  }

  lemma PostOrShape(cfg: Config, input: seq<Token>)
    requires Guarded(cfg) && Accepts(cfg) && ParsePostOr(cfg, input).Some?
    ensures IsPostOp(cfg, ParsePostOr(cfg, input).value)
  {
    assert LeavesOk(cfg.posts) && SealedLeaves(cfg, cfg.posts) && AcceptsOps(cfg);
    hide LeavesOk, SealedLeaves, Accepts, Guarded, KindOf, Inert;
    var i := FirstTree(cfg, cfg.posts, input);
  }

  lemma {:induction false} PostsShape(cfg: Config, input: seq<Token>)
    requires Guarded(cfg) && Accepts(cfg)
    ensures forall k :: k in ParsePosts(cfg, input) ==> IsPostOp(cfg, k)
    decreases |input|
  {
    hide Guarded, Accepts, IsPostOp, ParsePostOr;
    var op := ParsePostOr(cfg, input);
    if op.Some? && op.value.toks != [] {
      PostOrShape(cfg, input);
      PostsShape(cfg, input[|op.value.toks|..]);
    }
  }

  lemma PreShape(cfg: Config, input: seq<Token>)
    requires Guarded(cfg) && Accepts(cfg) && ParsePreSeq(cfg, input).Some? && cfg.val.parse(input).None?
    requires IsRef(cfg, ParsePreSeq(cfg, input).value.kids[1])
    ensures IsOperand(cfg, ParsePreSeq(cfg, input).value)
  {
    assert LeavesOk(cfg.pres) && SealedLeaves(cfg, cfg.pres) && AcceptsOperand(cfg, input);
    hide LeavesOk, SealedLeaves, Accepts, Guarded, KindOf, Inert, ParseRef, IsRef;
    var i := FirstTree(cfg, cfg.pres, input);
  }

  lemma PairShape(cfg: Config, i: nat, input: seq<Token>)
    requires Guarded(cfg) && Accepts(cfg) && i < |cfg.opens| && ParseParen(cfg, i, input).Some?
    requires ParsePreSeq(cfg, input).None? && cfg.val.parse(input).None?
    requires IsRef(cfg, ParseParen(cfg, i, input).value.kids[1])
    ensures IsOperand(cfg, ParseParen(cfg, i, input).value)
  {
    assert AcceptsOperand(cfg, input) && |cfg.opens| == |cfg.closes|;
    assert LeafOk(cfg.opens[i]) && SealedLeaf(cfg, cfg.opens[i]);
    assert LeafOk(cfg.closes[i]) && SealedLeaf(cfg, cfg.closes[i]);
    hide LeafOk, SealedLeaf, Accepts, Guarded, KindOf, Inert, ParseRef, IsRef;
    LeafTree(cfg, cfg.opens[i], input);
    var rest := input[|cfg.opens[i].parse(input).value.toks|..];
    LeafTree(cfg, cfg.closes[i], rest[|ParseRef(cfg, rest).value.toks|..]);
  }

  lemma ValueShape(cfg: Config, input: seq<Token>)
    requires Guarded(cfg) && Accepts(cfg) && cfg.val.parse(input).Some?
    ensures IsOperand(cfg, cfg.val.parse(input).value)
  {
    LeafTree(cfg, cfg.val, input);
  }

  lemma {:induction false} PairTaken(cfg: Config, j: nat, input: seq<Token>) returns (i: nat)
    requires Guarded(cfg) && j <= |cfg.opens| && ParseParens(cfg, j, input).Some?
    ensures i < |cfg.opens| && ParseParen(cfg, i, input) == ParseParens(cfg, j, input)
    ensures cfg.opens[i].parse(input).Some? && 0 < |cfg.opens[i].parse(input).value.toks|
    decreases |cfg.opens| - j
  {
    if ParseParen(cfg, j, input).Some? {
      i := j;
    } else {
      i := PairTaken(cfg, j + 1, input);
    }
  }

  lemma {:induction false} PostShape(cfg: Config, input: seq<Token>)
    requires Guarded(cfg) && Accepts(cfg) && ParsePost(cfg, input).Some?
    ensures IsPost(cfg, ParsePost(cfg, input).value)
    decreases |input|, 0
  {
    hide Guarded, Accepts, ParseLevel, IsLevel, IsOp, IsPair;
    if cfg.val.parse(input).Some? {
      ValueShape(cfg, input);
    } else if ParsePreSeq(cfg, input).Some? {
      var rest := input[|ParsePreOr(cfg, input).value.toks|..];
      assert ParseRef(cfg, rest).Some?;
      LevelShape(cfg, |cfg.bins|, rest);
      PreShape(cfg, input);
    } else {
      var i := PairTaken(cfg, 0, input);
      LevelShape(cfg, |cfg.bins|, input[|cfg.opens[i].parse(input).value.toks|..]);
      PairShape(cfg, i, input);
    }
  }

  lemma {:induction false} LevelShape(cfg: Config, level: nat, input: seq<Token>)
    requires Guarded(cfg) && Accepts(cfg) && level <= |cfg.bins| && ParseLevel(cfg, level, input).Some?
    ensures IsLevel(cfg, level, ParseLevel(cfg, level, input).value)
    decreases |input|, 2 * level + 1
  {
    hide Guarded, Accepts, ParsePost, IsPost, ParsePosts, ParseSteps, IsStep, IsPostOp;
    if level == 0 {
      PostShape(cfg, input);
      PostsShape(cfg, input[|ParsePost(cfg, input).value.toks|..]);
    } else {
      LevelShape(cfg, level - 1, input);
      StepsShape(cfg, level - 1, input[|ParseLevel(cfg, level - 1, input).value.toks|..]);
    }
  }

  lemma {:induction false} StepsShape(cfg: Config, level: nat, input: seq<Token>)
    requires Guarded(cfg) && Accepts(cfg) && level < |cfg.bins|
    ensures forall k :: k in ParseSteps(cfg, level, input) ==> IsStep(cfg, level, k)
    decreases |input|, 2 * level + 2, 1
  {
    hide Guarded, Accepts, ParseStep, IsStep;
    var step := ParseStep(cfg, level, input);
    if step.Some? && step.value.toks != [] {
      StepShape(cfg, level, input);
      StepsShape(cfg, level, input[|step.value.toks|..]);
    }
  }

  lemma {:induction false} StepShape(cfg: Config, level: nat, input: seq<Token>)
    requires Guarded(cfg) && Accepts(cfg) && level < |cfg.bins| && ParseStep(cfg, level, input).Some?
    ensures IsStep(cfg, level, ParseStep(cfg, level, input).value)
    decreases |input|, 2 * level + 2, 0
  {
    assert LeafOk(cfg.bins[level]) && SealedLeaf(cfg, cfg.bins[level]) && AcceptsOps(cfg);
    hide Guarded, Accepts, LeafOk, SealedLeaf, ParseLevel, IsLevel, KindOf, Inert;
    LeafTree(cfg, cfg.bins[level], input);
    LevelShape(cfg, level, input[|cfg.bins[level].parse(input).value.toks|..]);
    assert KindOfLeaf(cfg, cfg.bins[level]) == BinOp;
  }

  /** The shape that evaluation relies on. */
  lemma AcceptedShape(cfg: Config, input: seq<Token>)
    requires Guarded(cfg) && Accepts(cfg) && Parse(cfg, input).Some?
    ensures IsTop(cfg, Parse(cfg, input).value)
  {
    hide Guarded, Accepts, ParseLevel, IsLevel;
    LevelShape(cfg, |cfg.bins|, input);
  }

  // ----- what the shape is worth ------------------------------------------------------------------------

  /** Two operators after one operand, told from the tree alone. */
  predicate TwoPosts(t: Tree) {
    (t.node == Built(PostMany) && |t.kids| > 1) || exists k :: k in t.kids && TwoPosts(k)
  }

  lemma {:induction false} DoubleInLevel(cfg: Config, level: nat, t: Tree)
    requires level <= |cfg.bins| && IsLevel(cfg, level, t) && DoublePost(ReadLevel(cfg, level, t))
    ensures TwoPosts(t)
    decreases t, 1
  {
    hide KindOf, Inert, IsPair;
    if level == 0 {
      DoubleInTerm(cfg, t);
    } else if DoublePost(ReadLevel(cfg, level - 1, t.kids[0])) {
      DoubleInLevel(cfg, level - 1, t.kids[0]);
    } else {
      DoubleInSteps(cfg, level - 1, t.kids[1].kids);
      assert TwoPosts(t.kids[1]);
    }
  }

  lemma {:induction false} DoubleInSteps(cfg: Config, level: nat, kids: seq<Tree>)
    requires level < |cfg.bins| && forall k :: k in kids ==> IsStep(cfg, level, k)
    requires exists s :: s in ReadSteps(cfg, level, kids) && DoublePost(s.arg)
    ensures exists k :: k in kids && TwoPosts(k)
    decreases kids, 0
  {
    hide IsOp;
    assert IsStep(cfg, level, kids[0]);
    if DoublePost(ReadLevel(cfg, level, kids[0].kids[1])) {
      DoubleInLevel(cfg, level, kids[0].kids[1]);
      assert TwoPosts(kids[0]);
    } else {
      DoubleInSteps(cfg, level, kids[1..]);
    }
  }

  lemma {:induction false} DoubleInTerm(cfg: Config, t: Tree)
    requires IsTerm(cfg, t) && DoublePost(ReadTerm(cfg, t))
    ensures TwoPosts(t)
    decreases t, 0
  {
    hide KindOf, Inert, IsOperand, ReadOperand;
    if |t.kids[1].kids| <= 1 {
      assert IsPost(cfg, t.kids[0]);
      assert |ReadPostOps(cfg, t.kids[1].kids)| <= 1;
      DoubleInOperand(cfg, t.kids[0].kids[0]);
      assert TwoPosts(t.kids[0]);
    } else {
      assert TwoPosts(t.kids[1]);
    }
  }

  lemma {:induction false} DoubleInOperand(cfg: Config, t: Tree)
    requires IsOperand(cfg, t) && DoublePost(ReadOperand(cfg, t))
    ensures TwoPosts(t)
    decreases t, 0
  {
    hide KindOf, Inert, IsLevel, ReadLevel;
    if !IsOp(cfg, Val, t) {
      assert t.node == Built(PreSeq) || t.node.role.ParenSeq?;
      DoubleInLevel(cfg, |cfg.bins|, t.kids[1].kids[0]);
      assert TwoPosts(t.kids[1]);
    }
  }

  /** The assertions of the evaluator, those on the final result included. */
  predicate Meets<V>(o: Outcome<V>) {
    !o.Asserted? && !o.NullOperand? && (o.Ok? ==> o.r.val.Some? && o.r.op.None?)
  }

  lemma AcceptedMeets<V(!new)>(cfg: Config, ops: Ops<V>, input: seq<Token>)
    requires Guarded(cfg) && Accepts(cfg) && Parse(cfg, input).Some?
    ensures
      var t := Parse(cfg, input).value;
      && IsTop(cfg, t)
      && (Total(ops) ==> (Eval(cfg, ops, t).Asserted? <==> DoublePost(Read(cfg, t))))
      && (!TwoPosts(t) ==> Meets(Eval(cfg, ops, t)))
  {
    hide Guarded, Accepts, Parse, Eval, KindOf;
    var t := Parse(cfg, input).value;
    AcceptedShape(cfg, input);
    AssertionIffDoublePost(cfg, ops, t);
    if DoublePost(Read(cfg, t)) {
      DoubleInLevel(cfg, |cfg.bins|, t.kids[0]);
    }
  }

  // ----- any nodes ----------------------------------------------------------------------------------------

  /** An entry that is the value node matches what the value node does. */
  ghost predicate LikeValue(cfg: Config, leaf: Leaf) {
    leaf.id == cfg.val.id ==> forall input :: leaf.parse(input) == cfg.val.parse(input)
  }

  /**
   No node is registered where the evaluator finds it in a table that it cannot
   do with: the value node among the operators that follow an operand or the
   closing parentheses, a binary operator among prefix operators or opening
   parentheses, a postfix operator among opening parentheses.
   */
  ghost predicate Unclashed(cfg: Config) {
    && AcceptsOps(cfg)
    && (forall i :: 0 <= i < |cfg.pres| ==> KindOfLeaf(cfg, cfg.pres[i]) in {Val, PreOp} && LikeValue(cfg, cfg.pres[i]))
    && (forall i :: 0 <= i < |cfg.opens| ==>
          KindOfLeaf(cfg, cfg.opens[i]) in {Val, PreOp, ParenOpen} && LikeValue(cfg, cfg.opens[i]))
    && forall i :: 0 <= i < |cfg.closes| ==> KindOfLeaf(cfg, cfg.closes[i]) != Val
  }

  lemma UnclashedOperand(cfg: Config, input: seq<Token>)
    requires Guarded(cfg) && Sealed(cfg) && Unclashed(cfg) && cfg.val.parse(input).None?
    ensures AcceptsOperand(cfg, input)
  {
    hide Inert, ParseRef, HasId;
    if ParsePreSeq(cfg, input).Some? {
      var i := FirstTree(cfg, cfg.pres, input);
      assert LikeValue(cfg, cfg.pres[i]) && KindOfLeaf(cfg, cfg.pres[i]) in {Val, PreOp};
    } else {
      forall i | 0 <= i < |cfg.opens| && ParseParen(cfg, i, input).Some?
        ensures TakesPair(cfg, i)
      {
        assert LikeValue(cfg, cfg.opens[i]) && KindOfLeaf(cfg, cfg.opens[i]) in {Val, PreOp, ParenOpen};
        ClosesFound(cfg, i);
      }
    }
  }

  lemma ClosesFound(cfg: Config, i: nat)
    requires i < |cfg.closes| && KindOfLeaf(cfg, cfg.closes[i]) != Val
    ensures KindOfLeaf(cfg, cfg.closes[i]) in {BinOp, PreOp, PostOp, ParenOpen, ParenClose}
  {
    assert HasId(cfg.closes, cfg.closes[i].id);
  }

  /** Whatever the nodes match: without such a node every expression meets the assertions. */
  lemma UnclashedMeets<V(!new)>(cfg: Config, ops: Ops<V>, input: seq<Token>)
    requires Guarded(cfg) && Sealed(cfg) && Unclashed(cfg) && Parse(cfg, input).Some?
    ensures !TwoPosts(Parse(cfg, input).value) ==> Meets(Eval(cfg, ops, Parse(cfg, input).value))
  {
    hide Guarded, Sealed, Parse, Eval, KindOf, AcceptsOperand;
    forall i | cfg.val.parse(i).None?
      ensures AcceptsOperand(cfg, i)
    {
      UnclashedOperand(cfg, i);
    }
    AcceptedMeets(cfg, ops, input);
  }
}
