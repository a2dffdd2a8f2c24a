/**
 Which nodes may be registered in several tables, for nodes that match words:
 the evaluator meets its assertions on every input exactly when no node is
 found in an earlier table that it cannot do with.
 */
module ExprClashes {
  import opened Prelude
  import opened ExprGrammar
  import opened ExprEval
  import opened ExprTables

  // ----- nodes that match words ----------------------------------------------------------------------

  function WordTree(id: nat, w: Token): Tree { Tree(User(id), [w], []) }

  /** The node takes one word, of those that belong to it; there is one. */
  ghost predicate WordNode(leaf: Leaf, owner: Token -> nat) {
    && (forall input :: leaf.parse(input) ==
          if input != [] && owner(input[0]) == leaf.id then Some(WordTree(leaf.id, input[0])) else None)
    && exists w :: owner(w) == leaf.id
  }

  ghost predicate WordTable(leaves: seq<Leaf>, owner: Token -> nat) {
    forall i :: 0 <= i < |leaves| ==> WordNode(leaves[i], owner)
  }

  ghost predicate WordNodes(cfg: Config, owner: Token -> nat) {
    && |cfg.opens| == |cfg.closes|
    && WordNode(cfg.val, owner)
    && WordTable(cfg.bins, owner) && WordTable(cfg.pres, owner) && WordTable(cfg.posts, owner)
    && WordTable(cfg.opens, owner) && WordTable(cfg.closes, owner)
  }

  lemma NodeOk(cfg: Config, leaf: Leaf, owner: Token -> nat)
    requires WordNode(leaf, owner)
    ensures LeafOk(leaf) && SealedLeaf(cfg, leaf) && Consumes(leaf)
  {
  }

  lemma TableOk(cfg: Config, leaves: seq<Leaf>, owner: Token -> nat)
    requires WordTable(leaves, owner)
    ensures LeavesOk(leaves) && SealedLeaves(cfg, leaves)
    ensures forall i :: 0 <= i < |leaves| ==> Consumes(leaves[i])
  {
    hide WordNode, LeafOk, SealedLeaf, Consumes;
    forall i | 0 <= i < |leaves|
      ensures LeafOk(leaves[i]) && SealedLeaf(cfg, leaves[i]) && Consumes(leaves[i])
    {
      NodeOk(cfg, leaves[i], owner);
    }
  }

  lemma WordsOk(cfg: Config, owner: Token -> nat)
    requires WordNodes(cfg, owner)
    ensures Guarded(cfg) && Sealed(cfg)
  {
    hide WordNode, WordTable, LeafOk, LeavesOk, SealedLeaf, SealedLeaves, Consumes;
    NodeOk(cfg, cfg.val, owner);
    TableOk(cfg, cfg.bins, owner);
    TableOk(cfg, cfg.pres, owner);
    TableOk(cfg, cfg.posts, owner);
    TableOk(cfg, cfg.opens, owner);
    TableOk(cfg, cfg.closes, owner);
  }

  /** What a table makes of the next word. */
  function TableTree(leaves: seq<Leaf>, owner: Token -> nat, input: seq<Token>): Option<Tree> {
    if input != [] && HasId(leaves, owner(input[0])) then Some(WordTree(owner(input[0]), input[0])) else None
  }

  lemma {:induction false} FirstWord(leaves: seq<Leaf>, owner: Token -> nat, input: seq<Token>)
    requires WordTable(leaves, owner) && LeavesOk(leaves)
    ensures ParseFirst(leaves, input) == TableTree(leaves, owner, input)
  {
    hide LeafOk;
    if leaves != [] {
      assert WordNode(leaves[0], owner);
      FirstWord(leaves[1..], owner, input);
      if input != [] {
        IdInRest(leaves, owner(input[0]));
      }
    }
  }

  lemma IdInRest(leaves: seq<Leaf>, id: nat)
    requires leaves != []
    ensures HasId(leaves, id) <==> leaves[0].id == id || HasId(leaves[1..], id)
  {
    if HasId(leaves, id) && leaves[0].id != id {
      var i :| 0 <= i < |leaves| && leaves[i].id == id;
      assert leaves[1..][i - 1].id == id;
    }
    if HasId(leaves[1..], id) {
      var i :| 0 <= i < |leaves[1..]| && leaves[1..][i].id == id;
      assert leaves[i + 1].id == id;
    }
  }

  /** The tables of the configuration, one word at a time. */
  lemma OneWordAt(cfg: Config, owner: Token -> nat, input: seq<Token>)
    requires WordNodes(cfg, owner)
    ensures Guarded(cfg)
    ensures cfg.val.parse(input) ==
      if input != [] && owner(input[0]) == cfg.val.id then Some(WordTree(cfg.val.id, input[0])) else None
    ensures ParsePreOr(cfg, input) == OrTree(PreOr, TableTree(cfg.pres, owner, input))
    ensures ParsePostOr(cfg, input) == OrTree(PostOr, TableTree(cfg.posts, owner, input))
  {
    WordsOk(cfg, owner);
    hide Guarded, WordTable, HasId, LeafOk;
    assert Valid(cfg) by { ValidOf(cfg); }
    FirstWord(cfg.pres, owner, input);
    FirstWord(cfg.posts, owner, input);
  }

  lemma ValidOf(cfg: Config)
    requires Guarded(cfg)
    ensures Valid(cfg)
  {
  }

  function OrTree(role: Role, t: Option<Tree>): Option<Tree> {
    if t.None? then None else Some(Tree(Built(role), t.value.toks, [t.value]))
  }

  // ----- enough: no node is found where it does harm ---------------------------------------------------

  /** The pair can be parsed: its nodes are not taken for something else before. */
  predicate Live(cfg: Config, i: nat)
    requires i < |cfg.opens| == |cfg.closes|
  {
    && cfg.opens[i].id != cfg.val.id && !HasId(cfg.pres, cfg.opens[i].id)
    && !HasId(cfg.posts, cfg.closes[i].id)
  }

  /** What the tables of a pair that can be parsed may not share with others. */
  predicate HarmlessPair(cfg: Config, i: nat)
    requires i < |cfg.opens| == |cfg.closes|
  {
    && !HasId(cfg.bins, cfg.opens[i].id) && !HasId(cfg.posts, cfg.opens[i].id)
    && cfg.closes[i].id != cfg.val.id
  }

  /** Told from the tables: no node does harm where it is registered a second time. */
  predicate Harmless(cfg: Config)
    requires |cfg.opens| == |cfg.closes|
  {
    && !HasId(cfg.bins, cfg.val.id) && !HasId(cfg.posts, cfg.val.id)
    && (forall i :: 0 <= i < |cfg.pres| ==> !HasId(cfg.bins, cfg.pres[i].id))
    && forall i :: 0 <= i < |cfg.opens| && Live(cfg, i) ==> HarmlessPair(cfg, i)
  }

  lemma {:induction false} PostsStop(cfg: Config, owner: Token -> nat, input: seq<Token>)
    requires WordNodes(cfg, owner) && Guarded(cfg)
    ensures ParsePostOr(cfg, input[|Toks(ParsePosts(cfg, input))|..]).None?
    decreases |input|
  {
    hide WordNodes, Guarded, ParsePostOr;
    OneWordAt(cfg, owner, input);
    var op := ParsePostOr(cfg, input);
    if op.Some? {
      var tail := input[|op.value.toks|..];
      PostsStop(cfg, owner, tail);
      ToksCons(op.value, ParsePosts(cfg, tail));
      assert tail[|Toks(ParsePosts(cfg, tail))|..] == input[|Toks(ParsePosts(cfg, input))|..];
    } else {
      assert input[0..] == input;
    }
  }

  /** What follows an expression does not start with a postfix operator. */
  lemma {:induction false} LevelStops(cfg: Config, owner: Token -> nat, level: nat, input: seq<Token>)
    requires WordNodes(cfg, owner) && Guarded(cfg) && level <= |cfg.bins| && ParseLevel(cfg, level, input).Some?
    ensures ParsePostOr(cfg, input[|ParseLevel(cfg, level, input).value.toks|..]).None?
    decreases |input|, 2 * level + 1
  {
    hide WordNodes, Guarded, ParsePostOr, ParsePost, ParsePosts, ParseSteps;
    if level == 0 {
      var post := ParsePost(cfg, input).value;
      var tail := input[|post.toks|..];
      PostsStop(cfg, owner, tail);
      assert tail[|Toks(ParsePosts(cfg, tail))|..] == input[|post.toks + Toks(ParsePosts(cfg, tail))|..];
    } else {
      var first := ParseLevel(cfg, level - 1, input).value;
      var tail := input[|first.toks|..];
      LevelStops(cfg, owner, level - 1, input);
      StepsStop(cfg, owner, level - 1, tail);
      assert tail[|Toks(ParseSteps(cfg, level - 1, tail))|..]
          == input[|first.toks + Toks(ParseSteps(cfg, level - 1, tail))|..];
    }
  }

  lemma StepsRest(cfg: Config, level: nat, input: seq<Token>)
    requires Guarded(cfg) && level < |cfg.bins|
    requires ParseStep(cfg, level, input).Some? && ParseStep(cfg, level, input).value.toks != []
    ensures
      var tail := input[|ParseStep(cfg, level, input).value.toks|..];
      tail[|Toks(ParseSteps(cfg, level, tail))|..] == input[|Toks(ParseSteps(cfg, level, input))|..]
  {
    hide Guarded, ParseStep;
    var t := ParseStep(cfg, level, input).value;
    ToksCons(t, ParseSteps(cfg, level, input[|t.toks|..]));
  }

  lemma {:induction false} StepsStop(cfg: Config, owner: Token -> nat, level: nat, input: seq<Token>)
    requires WordNodes(cfg, owner) && Guarded(cfg) && level < |cfg.bins| && ParsePostOr(cfg, input).None?
    ensures ParsePostOr(cfg, input[|Toks(ParseSteps(cfg, level, input))|..]).None?
    decreases |input|, 2 * level + 2, 1
  {
    hide WordNodes, Guarded, ParsePostOr, ParseLevel;
    var step := ParseStep(cfg, level, input);
    if step.Some? && step.value.toks != [] {
      var op := cfg.bins[level].parse(input).value;
      var rest := input[|op.toks|..];
      LevelStops(cfg, owner, level, rest);
      var tail := input[|step.value.toks|..];
      assert rest[|ParseLevel(cfg, level, rest).value.toks|..] == tail;
      hide ParseStep;
      StepsStop(cfg, owner, level, tail);
      StepsRest(cfg, level, input);
    } else {
      assert input[0..] == input;
    }
  }

  /** A pair that the parser takes as an operand is live. */
  lemma TakenIsLive(cfg: Config, owner: Token -> nat, i: nat, input: seq<Token>)
    requires WordNodes(cfg, owner) && Guarded(cfg) && i < |cfg.opens|
    requires cfg.val.parse(input).None? && ParsePreSeq(cfg, input).None? && ParseParen(cfg, i, input).Some?
    ensures Live(cfg, i)
  {
    assert WordNode(cfg.opens[i], owner) && WordNode(cfg.closes[i], owner);
    OneWordAt(cfg, owner, input);
    hide WordNodes, Guarded, ParsePostOr, ParseLevel, HasId;
    var open := cfg.opens[i].parse(input).value;
    assert open == WordTree(cfg.opens[i].id, input[0]);
    var rest := input[1..];
    assert input[|open.toks|..] == rest;
    var arg := ParseRef(cfg, rest).value;
    LevelStops(cfg, owner, |cfg.bins|, rest);
    OneWordAt(cfg, owner, rest[|arg.toks|..]);
  }

  lemma HarmlessTables(cfg: Config)
    requires |cfg.opens| == |cfg.closes| && Harmless(cfg)
    ensures AcceptsOps(cfg)
  {
    forall i | 0 <= i < |cfg.bins|
      ensures KindOfLeaf(cfg, cfg.bins[i]) == BinOp
    {
      assert HasId(cfg.bins, cfg.bins[i].id);
    }
    forall i | 0 <= i < |cfg.posts|
      ensures KindOfLeaf(cfg, cfg.posts[i]) in {BinOp, PreOp, PostOp}
    {
      assert HasId(cfg.posts, cfg.posts[i].id);
    }
  }

  lemma HarmlessTakes(cfg: Config, i: nat)
    requires i < |cfg.opens| == |cfg.closes| && Live(cfg, i) && HarmlessPair(cfg, i)
    ensures TakesPair(cfg, i)
  {
    assert HasId(cfg.opens, cfg.opens[i].id);
    ClosesFound(cfg, i);
  }

  lemma HarmlessOperand(cfg: Config, owner: Token -> nat, input: seq<Token>)
    requires WordNodes(cfg, owner) && Guarded(cfg) && Harmless(cfg) && cfg.val.parse(input).None?
    ensures AcceptsOperand(cfg, input)
  {
    OneWordAt(cfg, owner, input);
    hide WordNodes, Guarded, ParseRef, ParsePostOr, Live, HarmlessPair, TakesPair;
    if ParsePreSeq(cfg, input).Some? {
      var i :| 0 <= i < |cfg.pres| && cfg.pres[i].id == owner(input[0]);
    } else {
      forall i | 0 <= i < |cfg.opens| && ParseParen(cfg, i, input).Some?
        ensures TakesPair(cfg, i)
      {
        TakenIsLive(cfg, owner, i, input);
        HarmlessTakes(cfg, i);
      }
    }
  }

  lemma HarmlessAccepts(cfg: Config, owner: Token -> nat)
    requires WordNodes(cfg, owner) && Harmless(cfg)
    ensures Guarded(cfg) && Accepts(cfg)
  {
    WordsOk(cfg, owner);
    hide WordNodes, Guarded, Sealed, AcceptsOperand, Harmless, AcceptsOps;
    SameNumber(cfg, owner);
    HarmlessTables(cfg);
    forall input | cfg.val.parse(input).None?
      ensures AcceptsOperand(cfg, input)
    {
      HarmlessOperand(cfg, owner, input);
    }
  }

  lemma SameNumber(cfg: Config, owner: Token -> nat)
    requires WordNodes(cfg, owner)
    ensures |cfg.opens| == |cfg.closes|
  {
  }

  // ----- trees of short inputs ---------------------------------------------------------------------------

  /** A tree of one layer in the layers above it, when no operator follows. */
  function Wrap(from: nat, level: nat, t: Tree): Tree {
    if level <= from then t
    else Tree(Built(Next(level - 1)), t.toks, [Wrap(from, level - 1, t), Tree(Built(BinMany(level - 1)), [], [])])
  }

  lemma {:induction false} WrapKeeps<V>(cfg: Config, ops: Ops<V>, from: nat, level: nat, t: Tree)
    requires t.node.Built? && (Eval(cfg, ops, t).Ok? ==> !Eval(cfg, ops, t).r.Empty())
    ensures
      var w := Wrap(from, level, t);
      w.toks == t.toks && w.node.Built? && (TwoPosts(w) ==> TwoPosts(t)) && Eval(cfg, ops, w) == Eval(cfg, ops, t)
    decreases level
  {
    if level > from {
      WrapKeeps(cfg, ops, from, level - 1, t);
      var empty := Tree(Built(BinMany(level - 1)), [], []);
      assert !TwoPosts(empty);
      assert Eval(cfg, ops, empty) == Ok(Partial(None, None, NoKind));
      EvalPair(cfg, ops, Wrap(from, level, t));
    }
  }

  lemma {:induction false} ParseWrap(cfg: Config, from: nat, level: nat, input: seq<Token>, t: Tree)
    requires Guarded(cfg) && from <= level <= |cfg.bins| && ParseLevel(cfg, from, input) == Some(t)
    requires forall j :: from <= j < level ==> ParseStep(cfg, j, input[|t.toks|..]).None?
    ensures ParseLevel(cfg, level, input) == Some(Wrap(from, level, t)) && Wrap(from, level, t).toks == t.toks
    decreases level
  {
    hide Guarded, ParseStep;
    if level > from {
      ParseWrap(cfg, from, level - 1, input, t);
      assert ParseStep(cfg, level - 1, input[|t.toks|..]).None?;
      assert t.toks + [] == t.toks;
    }
  }

  /** At most one word is left: no operator with an operand. */
  lemma NoStep(cfg: Config, owner: Token -> nat, j: nat, rest: seq<Token>)
    requires WordNodes(cfg, owner) && Guarded(cfg) && j < |cfg.bins| && |rest| <= 1
    ensures ParseStep(cfg, j, rest).None?
  {
    assert WordNode(cfg.bins[j], owner);
    NodeOk(cfg, cfg.val, owner);
    hide Guarded, WordNodes, ParseLevel, WordNode, Consumes, LeafOk;
    var op := cfg.bins[j].parse(rest);
    if op.Some? {
      OneTok(cfg.bins[j], owner, rest);
      assert rest[1..] == [];
    }
  }

  lemma OneTok(leaf: Leaf, owner: Token -> nat, input: seq<Token>)
    requires WordNode(leaf, owner) && leaf.parse(input).Some?
    ensures leaf.parse(input).value.toks == input[..1] && |input| >= 1
  {
  }

  /** An operand without operators after it. */
  function TermOf(t: Tree): Tree {
    Tree(Built(Term), t.toks, [Tree(Built(Post), t.toks, [t]), Tree(Built(PostMany), [], [])])
  }

  lemma ParseTermOf(cfg: Config, input: seq<Token>, t: Tree)
    requires Guarded(cfg) && ParsePost(cfg, input) == Some(Tree(Built(Post), t.toks, [t]))
    requires t.toks <= input && ParsePostOr(cfg, input[|t.toks|..]).None?
    ensures ParseLevel(cfg, 0, input) == Some(TermOf(t))
  {
    hide Guarded, ParsePost, ParsePostOr;
    assert t.toks + [] == t.toks;
  }

  lemma EvalTermOf<V>(cfg: Config, ops: Ops<V>, t: Tree)
    requires KindOf(cfg, t.node) !in {ParenOpen, ParenClose}
    requires Eval(cfg, ops, t).Ok? ==> !Eval(cfg, ops, t).r.Empty()
    ensures Eval(cfg, ops, TermOf(t)) == Eval(cfg, ops, t)
    ensures TwoPosts(TermOf(t)) ==> TwoPosts(t)
  {
    var term := TermOf(t);
    EvalSingle(cfg, ops, term.kids[0], Eval(cfg, ops, t));
    EmptyNode(cfg, ops, term.kids[1]);
    EvalPair(cfg, ops, term);
    assert TwoPosts(term.kids[0]) ==> TwoPosts(t);
    assert !TwoPosts(term.kids[1]);
  }

  lemma EmptyNode<V>(cfg: Config, ops: Ops<V>, t: Tree)
    requires KindOf(cfg, t.node) == NoKind && t.kids == []
    ensures Eval(cfg, ops, t) == Ok(Partial(None, None, NoKind))
  {
  }

  /** An expression that ends the input. */
  lemma Whole<V>(cfg: Config, ops: Ops<V>, from: nat, input: seq<Token>, t: Tree)
    requires Guarded(cfg) && from <= |cfg.bins| && ParseLevel(cfg, from, input) == Some(t) && t.node.Built?
    requires forall j :: from <= j < |cfg.bins| ==> ParseStep(cfg, j, input[|t.toks|..]).None?
    requires Eval(cfg, ops, t).Ok? ==> !Eval(cfg, ops, t).r.Empty()
    ensures
      var p := Parse(cfg, input);
      p.Some? && Eval(cfg, ops, p.value) == Eval(cfg, ops, t) && (TwoPosts(p.value) ==> TwoPosts(t))
  {
    hide Guarded, ParseLevel, ParseStep, Wrap;
    ParseWrap(cfg, from, |cfg.bins|, input, t);
    WrapKeeps(cfg, ops, from, |cfg.bins|, t);
    var p := Parse(cfg, input).value;
    EvalSingle(cfg, ops, p, Eval(cfg, ops, p.kids[0]));
  }

  /** The value node on its word. */
  lemma ValueWord<V(!new)>(cfg: Config, ops: Ops<V>, owner: Token -> nat, w: Token, rest: seq<Token>)
    requires WordNodes(cfg, owner) && Guarded(cfg) && owner(w) == cfg.val.id && Total(ops)
    ensures
      var t := WordTree(cfg.val.id, w);
      && ParsePost(cfg, [w] + rest) == Some(Tree(Built(Post), [w], [t]))
      && Eval(cfg, ops, t) == Ok(Partial(ops.evalVar(t), None, NoKind)) && !TwoPosts(t)
      && ops.evalVar(t).Some? && ([w] + rest)[1..] == rest
  {
    OneWordAt(cfg, owner, [w] + rest);
    assert ([w] + rest)[0] == w;
    hide Guarded, WordNodes, HasId;
  }

  /** A reference to an expression that is one value, before a rest of at most one word. */
  function ValueRef(cfg: Config, w: Token): Tree {
    Tree(Built(Ref), [w], [Wrap(0, |cfg.bins|, TermOf(WordTree(cfg.val.id, w)))])
  }

  lemma ValueRefParses<V(!new)>(cfg: Config, ops: Ops<V>, owner: Token -> nat, w: Token, rest: seq<Token>)
    requires WordNodes(cfg, owner) && Guarded(cfg) && owner(w) == cfg.val.id && Total(ops)
    requires |rest| <= 1 && ParsePostOr(cfg, rest).None?
    ensures ParseRef(cfg, [w] + rest) == Some(ValueRef(cfg, w))
    ensures
      var r := Eval(cfg, ops, ValueRef(cfg, w));
      r.Ok? && r.r.val.Some? && r.r.op.None? && !TwoPosts(ValueRef(cfg, w))
  {
    hide Guarded, WordNodes, ParsePost, ParsePostOr, ParseStep, Wrap, ParseLevel;
    var t := WordTree(cfg.val.id, w);
    ValueWord(cfg, ops, owner, w, rest);
    ParseTermOf(cfg, [w] + rest, t);
    forall j | 0 <= j < |cfg.bins|
      ensures ParseStep(cfg, j, rest).None?
    {
      NoStep(cfg, owner, j, rest);
    }
    ParseWrap(cfg, 0, |cfg.bins|, [w] + rest, TermOf(t));
    ValueKind(cfg);
    EvalTermOf(cfg, ops, t);
    WrapKeeps(cfg, ops, 0, |cfg.bins|, TermOf(t));
    EvalSingle(cfg, ops, ValueRef(cfg, w), Eval(cfg, ops, ValueRef(cfg, w).kids[0]));
  }

  lemma ValueKind(cfg: Config)
    ensures KindOf(cfg, User(cfg.val.id)) == Val
  {
  }

  // ----- necessary: every harmful table breaks an assertion ------------------------------------------------

  /** An input that is parsed, without two operators after an operand, and breaks an assertion. */
  ghost predicate Breaks<V>(cfg: Config, ops: Ops<V>, input: seq<Token>)
    requires Guarded(cfg)
  {
    var t := Parse(cfg, input);
    t.Some? && !TwoPosts(t.value) && !Meets(Eval(cfg, ops, t.value))
  }

  lemma WordOf(leaf: Leaf, owner: Token -> nat) returns (w: Token)
    requires WordNode(leaf, owner)
    ensures owner(w) == leaf.id
  {
    w :| owner(w) == leaf.id;
  }

  /** A single operand that is the whole input. */
  lemma OperandWhole<V>(cfg: Config, ops: Ops<V>, owner: Token -> nat, input: seq<Token>, t: Tree)
    requires WordNodes(cfg, owner) && Guarded(cfg) && t.node.Built? && t.toks == input
    requires ParsePost(cfg, input) == Some(Tree(Built(Post), t.toks, [t])) && !TwoPosts(t)
    requires Eval(cfg, ops, t).Ok? ==> !Eval(cfg, ops, t).r.Empty()
    ensures
      var e := Wrap(0, |cfg.bins|, TermOf(t));
      && ParseLevel(cfg, |cfg.bins|, input) == Some(e) && e.toks == input && e.node.Built?
      && Eval(cfg, ops, e) == Eval(cfg, ops, t) && !TwoPosts(e)
    ensures
      var p := Parse(cfg, input);
      p.Some? && p.value.toks == input && Eval(cfg, ops, p.value) == Eval(cfg, ops, t) && !TwoPosts(p.value)
  {
    OneWordAt(cfg, owner, []);
    hide Guarded, WordNodes, ParsePost, ParsePostOr, ParseStep, ParseLevel, Eval, Wrap, TwoPosts;
    assert input[|t.toks|..] == [];
    ParseTermOf(cfg, input, t);
    EvalTermOf(cfg, ops, t);
    forall j | 0 <= j < |cfg.bins|
      ensures ParseStep(cfg, j, []).None?
    {
      NoStep(cfg, owner, j, []);
    }
    ParseWrap(cfg, 0, |cfg.bins|, input, TermOf(t));
    WrapKeeps(cfg, ops, 0, |cfg.bins|, TermOf(t));
    Whole(cfg, ops, 0, input, TermOf(t));
  }

  /** The value node among the postfix operators. */
  lemma ValuePostfix<V(!new)>(cfg: Config, ops: Ops<V>, owner: Token -> nat) returns (input: seq<Token>)
    requires WordNodes(cfg, owner) && Total(ops) && HasId(cfg.posts, cfg.val.id)
    ensures Guarded(cfg) && Breaks(cfg, ops, input)
  {
    WordsOk(cfg, owner);
    var w := WordOf(cfg.val, owner);
    input := [w] + [w];
    var v := WordTree(cfg.val.id, w);
    var op := Tree(Built(PostOr), [w], [v]);
    var term := Tree(Built(Term), [w] + [w], [Tree(Built(Post), [w], [v]), Tree(Built(PostMany), [w], [op])]);
    ValueWord(cfg, ops, owner, w, [w]);
    OneWordAt(cfg, owner, [w]);
    OneWordAt(cfg, owner, []);
    PostsOne(cfg, [w], op);
    ValueKind(cfg);
    assert ParseLevel(cfg, 0, input) == Some(term);
    ValuesClash(cfg, ops, term, v, op);
    forall j | 0 <= j < |cfg.bins|
      ensures ParseStep(cfg, j, []).None?
    {
      NoStep(cfg, owner, j, []);
    }
    assert input[|term.toks|..] == [];
    Whole(cfg, ops, 0, input, term);
  }

  lemma PostsOne(cfg: Config, input: seq<Token>, op: Tree)
    requires Guarded(cfg) && ParsePostOr(cfg, input) == Some(op) && op.toks == input && input != []
    requires ParsePostOr(cfg, []).None?
    ensures ParsePosts(cfg, input) == [op] && Toks([op]) == op.toks
  {
    hide Guarded, ParsePostOr;
    assert input[|op.toks|..] == [];
    assert [op] + [] == [op];
    ToksCons(op, []);
  }

  lemma ValuesClash<V(!new)>(cfg: Config, ops: Ops<V>, term: Tree, v: Tree, op: Tree)
    requires Total(ops) && v.node == User(cfg.val.id) && v.kids == []
    requires op == Tree(Built(PostOr), v.toks, [v]) && term.node == Built(Term)
    requires term.kids == [Tree(Built(Post), v.toks, [v]), Tree(Built(PostMany), v.toks, [op])]
    ensures Eval(cfg, ops, term).Asserted? && !TwoPosts(term)
  {
    var value: Outcome<V> := Ok(Partial(ops.evalVar(v), None, NoKind));
    assert Eval(cfg, ops, v) == value && !TwoPosts(v);
    EvalSingle(cfg, ops, term.kids[0], value);
    EvalSingle(cfg, ops, op, value);
    EvalSingle(cfg, ops, term.kids[1], value);
    EvalPair(cfg, ops, term);
    assert !TwoPosts(op) && !TwoPosts(term.kids[0]) && !TwoPosts(term.kids[1]);
  }

  /** The lowest layer whose operator is the value node. */
  lemma {:induction false} LowestLayer(cfg: Config, n: nat) returns (level: nat)
    requires n <= |cfg.bins| && exists i :: 0 <= i < n && cfg.bins[i].id == cfg.val.id
    ensures level < n && cfg.bins[level].id == cfg.val.id
    ensures forall j :: 0 <= j < level ==> cfg.bins[j].id != cfg.val.id
  {
    if i :| 0 <= i < n - 1 && cfg.bins[i].id == cfg.val.id {
      level := LowestLayer(cfg, n - 1);
    } else {
      level := n - 1;
    }
  }

  /** The value node among the binary operators. */
  lemma ValueBinary<V(!new)>(cfg: Config, ops: Ops<V>, owner: Token -> nat) returns (input: seq<Token>)
    requires WordNodes(cfg, owner) && Total(ops)
    requires HasId(cfg.bins, cfg.val.id) && !HasId(cfg.posts, cfg.val.id)
    ensures Guarded(cfg) && Breaks(cfg, ops, input)
  {
    WordsOk(cfg, owner);
    var w := WordOf(cfg.val, owner);
    var level := LowestLayer(cfg, |cfg.bins|);
    input := [w] + [w, w];
    var v := WordTree(cfg.val.id, w);
    var operand := Wrap(0, level, TermOf(v));
    ValueLevel(cfg, ops, owner, w, level, [w, w]);
    ValueLevel(cfg, ops, owner, w, level, []);
    var step := Tree(Built(BinSeq(level)), [w] + [w], [v, operand]);
    assert ParseStep(cfg, level, [w, w]) == Some(step) by {
      assert WordNode(cfg.bins[level], owner);
      assert [w, w][1..] == [w] + [];
    }
    StepsOne(cfg, owner, level, [w, w], step);
    var many := Tree(Built(BinMany(level)), step.toks, [step]);
    var t := Tree(Built(Next(level)), [w] + step.toks, [operand, many]);
    assert ParseLevel(cfg, level + 1, input) == Some(t) by {
      assert input[1..] == [w, w];
    }
    StepsClash(cfg, ops, t, v, operand, step, many);
    forall j | level + 1 <= j < |cfg.bins|
      ensures ParseStep(cfg, j, []).None?
    {
      NoStep(cfg, owner, j, []);
    }
    assert input[|t.toks|..] == [];
    Whole(cfg, ops, level + 1, input, t);
  }

  /** A value in the layers below the lowest one whose operator is the value node. */
  lemma ValueLevel<V(!new)>(cfg: Config, ops: Ops<V>, owner: Token -> nat, w: Token, level: nat, rest: seq<Token>)
    requires WordNodes(cfg, owner) && Guarded(cfg) && owner(w) == cfg.val.id && Total(ops)
    requires level <= |cfg.bins| && forall j :: 0 <= j < level ==> cfg.bins[j].id != cfg.val.id
    requires !HasId(cfg.posts, cfg.val.id) && (rest == [] || rest == [w, w])
    ensures
      var t := Wrap(0, level, TermOf(WordTree(cfg.val.id, w)));
      && ParseLevel(cfg, level, [w] + rest) == Some(t) && t.toks == [w] && t.node.Built?
      && Eval(cfg, ops, t) == Ok(Partial(ops.evalVar(WordTree(cfg.val.id, w)), None, NoKind)) && !TwoPosts(t)
  {
    ValueWord(cfg, ops, owner, w, rest);
    OneWordAt(cfg, owner, rest);
    ValueKind(cfg);
    hide Guarded, ParsePost, ParsePostOr, Wrap, ParseLevel, TwoPosts, Eval, Total;
    var v := WordTree(cfg.val.id, w);
    ParseTermOf(cfg, [w] + rest, v);
    EvalTermOf(cfg, ops, v);
    forall j | 0 <= j < level
      ensures ParseStep(cfg, j, rest).None?
    {
      assert WordNode(cfg.bins[j], owner);
    }
    ParseWrap(cfg, 0, level, [w] + rest, TermOf(v));
    WrapKeeps(cfg, ops, 0, level, TermOf(v));
  }

  lemma StepsOne(cfg: Config, owner: Token -> nat, level: nat, input: seq<Token>, step: Tree)
    requires WordNodes(cfg, owner) && Guarded(cfg) && level < |cfg.bins|
    requires ParseStep(cfg, level, input) == Some(step) && step.toks == input && input != []
    ensures ParseSteps(cfg, level, input) == [step] && Toks([step]) == step.toks
  {
    NoStep(cfg, owner, level, []);
    hide WordNodes, Guarded, ParseStep;
    assert input[|step.toks|..] == [];
    assert [step] + [] == [step];
    ToksCons(step, []);
  }

  lemma StepsClash<V(!new)>(cfg: Config, ops: Ops<V>, t: Tree, v: Tree, operand: Tree, step: Tree, many: Tree)
    requires Total(ops) && v.node == User(cfg.val.id) && v.kids == []
    requires operand.node.Built? && !TwoPosts(operand)
    requires Eval(cfg, ops, operand).Ok? && Eval(cfg, ops, operand).r.val.Some? && Eval(cfg, ops, operand).r.op.None?
    requires step.node.Built? && step.node.role.BinSeq? && step.kids == [v, operand]
    requires many.node.Built? && many.node.role.BinMany? && many.kids == [step]
    requires t.node.Built? && t.node.role.Next? && t.kids == [operand, many]
    ensures Eval(cfg, ops, t).Asserted? && !TwoPosts(t)
  {
    assert Eval(cfg, ops, v) == Ok(Partial(ops.evalVar(v), None, NoKind)) && !TwoPosts(v);
    EvalPair(cfg, ops, step);
    EvalSingle(cfg, ops, many, Eval(cfg, ops, step));
    EvalPair(cfg, ops, t);
    assert !TwoPosts(step) && !TwoPosts(many);
  }

  /** A binary operator among the prefix operators: the result keeps its operator. */
  lemma BinaryPrefix<V(!new)>(cfg: Config, ops: Ops<V>, owner: Token -> nat, i: nat) returns (input: seq<Token>)
    requires WordNodes(cfg, owner) && Total(ops)
    requires i < |cfg.pres| && HasId(cfg.bins, cfg.pres[i].id) && cfg.pres[i].id != cfg.val.id
    ensures Guarded(cfg) && Breaks(cfg, ops, input)
  {
    WordsOk(cfg, owner);
    assert WordNode(cfg.pres[i], owner);
    var w := WordOf(cfg.val, owner);
    var p := WordOf(cfg.pres[i], owner);
    input := [p] + ([w] + []);
    var op := WordTree(cfg.pres[i].id, p);
    var t := Tree(Built(PreSeq), [p] + [w], [Tree(Built(PreOr), [p], [op]), ValueRef(cfg, w)]);
    OneWordAt(cfg, owner, input);
    OneWordAt(cfg, owner, []);
    ValueRefParses(cfg, ops, owner, w, []);
    hide WordNodes, Eval, TwoPosts, Meets, Parse, Guarded;
    assert input[1..] == [w] + [];
    assert ParsePreSeq(cfg, input) == Some(t);
    PrefixClash(cfg, ops, t, op, ValueRef(cfg, w));
    assert ParsePost(cfg, input) == Some(Tree(Built(Post), t.toks, [t]));
    OperandWhole(cfg, ops, owner, input, t);
  }

  lemma PrefixClash<V(!new)>(cfg: Config, ops: Ops<V>, t: Tree, op: Tree, arg: Tree)
    requires op.kids == [] && KindOf(cfg, op.node) == BinOp && arg.node == Built(Ref) && !TwoPosts(arg)
    requires var r := Eval(cfg, ops, arg); r.Ok? && r.r.val.Some? && r.r.op.None?
    requires t.node == Built(PreSeq) && t.kids == [Tree(Built(PreOr), op.toks, [op]), arg]
    ensures Eval(cfg, ops, t) == Ok(Partial(Eval(cfg, ops, arg).r.val, Some(op), BinOp)) && !TwoPosts(t)
  {
    var x: Outcome<V> := Ok(Partial(None, Some(op), BinOp));
    assert Eval(cfg, ops, op) == x && !TwoPosts(op);
    EvalSingle(cfg, ops, t.kids[0], x);
    EvalPair(cfg, ops, t);
    assert !TwoPosts(t.kids[0]);
  }

  /** A live pair whose opening node is another operator, or whose closing node is the value node. */
  lemma HarmfulPair<V(!new)>(cfg: Config, ops: Ops<V>, owner: Token -> nat, i: nat) returns (input: seq<Token>)
    requires WordNodes(cfg, owner) && Total(ops) && i < |cfg.opens| == |cfg.closes|
    requires Live(cfg, i) && !HarmlessPair(cfg, i)
    ensures Guarded(cfg) && Breaks(cfg, ops, input)
  {
    WordsOk(cfg, owner);
    assert WordNode(cfg.opens[i], owner) && WordNode(cfg.closes[i], owner) && WordNode(cfg.val, owner);
    hide Guarded, WordNodes, WordNode, ParsePost, ParsePostOr, ValueRef, Eval, TwoPosts, Total, Live, HarmlessPair;
    hide PairTree, KindOf, Meets, Parse;
    var w := WordOf(cfg.val, owner);
    var o := WordOf(cfg.opens[i], owner);
    var c := WordOf(cfg.closes[i], owner);
    input := [o] + ([w] + [c]);
    var j := PairOperand(cfg, ops, owner, i, o, w, c);
    var t := PairTree(cfg, j, o, w, c);
    PairTreeClash(cfg, ops, owner, i, j, o, w, c);
    OperandWhole(cfg, ops, owner, input, t);
  }

  lemma PairOperand<V(!new)>(cfg: Config, ops: Ops<V>, owner: Token -> nat, i: nat, o: Token, w: Token, c: Token)
    returns (j: nat)
    requires WordNodes(cfg, owner) && Guarded(cfg) && Total(ops) && i < |cfg.opens| == |cfg.closes| && Live(cfg, i)
    requires owner(w) == cfg.val.id && owner(o) == cfg.opens[i].id && owner(c) == cfg.closes[i].id
    ensures j < |cfg.opens| && cfg.opens[j].id == cfg.opens[i].id && cfg.closes[j].id == cfg.closes[i].id
    ensures ParsePostOr(cfg, [c]).None?
    ensures
      var t := PairTree(cfg, j, o, w, c);
      ParsePost(cfg, [o] + ([w] + [c])) == Some(Tree(Built(Post), t.toks, [t]))
  {
    var input := [o] + ([w] + [c]);
    assert input[0] == o && [c][0] == c;
    OneWordAt(cfg, owner, input);
    OneWordAt(cfg, owner, [c]);
    hide Guarded, WordNodes, ParsePostOr, ParseParens, PairTree, HasId;
    j := FirstPair(cfg, ops, owner, 0, i, o, w, c);
    assert ParsePreSeq(cfg, input).None?;
  }

  lemma PairTreeClash<V(!new)>(cfg: Config, ops: Ops<V>, owner: Token -> nat, i: nat, j: nat,
                               o: Token, w: Token, c: Token)
    requires WordNodes(cfg, owner) && Guarded(cfg) && Total(ops) && i < |cfg.opens| == |cfg.closes|
    requires Live(cfg, i) && !HarmlessPair(cfg, i) && j < |cfg.opens|
    requires cfg.opens[j].id == cfg.opens[i].id && cfg.closes[j].id == cfg.closes[i].id
    requires owner(w) == cfg.val.id && ParsePostOr(cfg, [c]).None?
    ensures
      var t := PairTree(cfg, j, o, w, c);
      var r := Eval(cfg, ops, t);
      && t.node.Built? && t.toks == [o] + ([w] + [c])
      && !Meets(r) && (r.Ok? ==> !r.r.Empty()) && !TwoPosts(t)
  {
    hide Guarded, WordNodes, ParsePostOr, ParseRef, Eval, TwoPosts, Total;
    ValueRefParses(cfg, ops, owner, w, [c]);
    assert HasId(cfg.opens, cfg.opens[i].id);
    PairClash(cfg, ops, PairTree(cfg, j, o, w, c), ValueRef(cfg, w));
  }

  function PairTree(cfg: Config, j: nat, o: Token, w: Token, c: Token): Tree
    requires j < |cfg.opens| == |cfg.closes|
  {
    Tree(Built(ParenSeq(j)), [o] + [w] + [c],
         [WordTree(cfg.opens[j].id, o), ValueRef(cfg, w), WordTree(cfg.closes[j].id, c)])
  }

  /** A pair parses these words exactly when they are its own. */
  lemma PairParses<V(!new)>(cfg: Config, ops: Ops<V>, owner: Token -> nat, j: nat, o: Token, w: Token, c: Token)
    requires WordNodes(cfg, owner) && Guarded(cfg) && Total(ops) && j < |cfg.opens| == |cfg.closes|
    requires owner(w) == cfg.val.id && ParsePostOr(cfg, [c]).None?
    ensures
      ParseParen(cfg, j, [o] + ([w] + [c])) ==
        if owner(o) == cfg.opens[j].id && owner(c) == cfg.closes[j].id then Some(PairTree(cfg, j, o, w, c)) else None
  {
    assert WordNode(cfg.opens[j], owner) && WordNode(cfg.closes[j], owner);
    ValueRefParses(cfg, ops, owner, w, [c]);
    hide WordNodes, Guarded, ParsePostOr, ParseRef, ValueRef, Eval, TwoPosts;
    var input := [o] + ([w] + [c]);
    assert input[0] == o && input[1..] == [w] + [c];
    assert ([w] + [c])[1..] == [c];
    assert ValueRef(cfg, w).toks == [w] by { ValueRefWord(cfg, w); }
  }

  lemma ValueRefWord(cfg: Config, w: Token)
    ensures ValueRef(cfg, w).toks == [w] && ValueRef(cfg, w).node == Built(Ref)
  {
  }

  /** The first pair with the same two nodes is the one that is parsed. */
  lemma {:induction false} FirstPair<V(!new)>(cfg: Config, ops: Ops<V>, owner: Token -> nat, k: nat, i: nat,
                                              o: Token, w: Token, c: Token) returns (j: nat)
    requires WordNodes(cfg, owner) && Guarded(cfg) && Total(ops) && k <= i < |cfg.opens| == |cfg.closes|
    requires owner(w) == cfg.val.id && owner(o) == cfg.opens[i].id && owner(c) == cfg.closes[i].id
    requires ParsePostOr(cfg, [c]).None?
    ensures j < |cfg.opens| && cfg.opens[j].id == cfg.opens[i].id && cfg.closes[j].id == cfg.closes[i].id
    ensures ParseParens(cfg, k, [o] + ([w] + [c])) == Some(PairTree(cfg, j, o, w, c))
    decreases i - k
  {
    hide WordNodes, Guarded, ParseParen, ParsePostOr, PairTree, Total;
    PairParses(cfg, ops, owner, k, o, w, c);
    if owner(o) == cfg.opens[k].id && owner(c) == cfg.closes[k].id {
      j := k;
    } else {
      j := FirstPair(cfg, ops, owner, k + 1, i, o, w, c);
    }
  }

  lemma PairClash<V(!new)>(cfg: Config, ops: Ops<V>, t: Tree, arg: Tree)
    requires Total(ops) && t.node.Built? && t.node.role.ParenSeq? && |t.kids| == 3 && t.kids[1] == arg
    requires t.kids[0].kids == t.kids[2].kids == []
    requires arg.node == Built(Ref) && !TwoPosts(arg)
    requires var r := Eval(cfg, ops, arg); r.Ok? && r.r.val.Some? && r.r.op.None?
    requires
      || KindOf(cfg, t.kids[0].node) in {BinOp, PostOp}
      || (KindOf(cfg, t.kids[0].node) == ParenOpen && KindOf(cfg, t.kids[2].node) == Val)
    ensures
      var r := Eval(cfg, ops, t);
      !Meets(r) && (r.Ok? ==> !r.r.Empty()) && !TwoPosts(t)
  {
    var o, c := t.kids[0], t.kids[2];
    var none: Partial<V> := Partial(None, None, NoKind);
    assert !TwoPosts(o) && !TwoPosts(c);
    assert t.kids[1..] == [arg, c];
    if KindOf(cfg, o.node) == ParenOpen {
      assert Eval(cfg, ops, t) == EvalKids(cfg, ops, none, [arg, c], Some(o), None);
      EvalMiddle(cfg, ops, arg, c, none, Some(o));
      CloseClash(cfg, ops, c, Eval(cfg, ops, arg).r, Some(o));
    } else {
      var kind := KindOf(cfg, o.node);
      var acc: Partial<V> := Partial(None, Some(o), kind);
      assert Eval(cfg, ops, o) == Ok(acc);
      assert Eval(cfg, ops, t) == EvalKids(cfg, ops, acc, [arg, c], None, None);
      EvalMiddle(cfg, ops, arg, c, acc, None);
      if kind == BinOp {
        CloseClash(cfg, ops, c, acc.(val := Eval(cfg, ops, arg).r.val), None);
      }
    }
  }

  /** A node without children, by the table it is found in. */
  lemma BareNode<V(!new)>(cfg: Config, ops: Ops<V>, t: Tree)
    requires Total(ops) && t.kids == []
    ensures
      Eval(cfg, ops, t) ==
      match KindOf(cfg, t.node)
      case Val => Ok(Partial(ops.evalVar(t), None, NoKind))
      case ParenOpen => Ok(Partial(None, None, NoKind))
      case ParenClose => Ok(Partial(None, None, NoKind))
      case NoKind => Ok(Partial(None, None, NoKind))
      case kind => Ok(Partial(None, Some(t), kind))
  {
  }

  /** A closing node after a value that keeps an operator, or the value node after a value. */
  lemma CloseClash<V(!new)>(cfg: Config, ops: Ops<V>, c: Tree, acc: Partial<V>, open: Option<Tree>)
    requires Total(ops) && c.kids == [] && acc.val.Some?
    requires if acc.op.Some? then open.None? else KindOf(cfg, c.node) == Val
    ensures
      var r := EvalKids(cfg, ops, acc, [c], open, None);
      !Meets(r) && (r.Ok? ==> !r.r.Empty())
  {
    assert [c][1..] == [];
    BareNode(cfg, ops, c);
    hide Eval, KindOf, Total;
    var kind := KindOf(cfg, c.node);
    if kind == ParenOpen {
      assert EvalKids(cfg, ops, acc, [c], open, None) == EvalKids(cfg, ops, acc, [], Some(c), None);
    } else if kind == ParenClose {
      assert EvalKids(cfg, ops, acc, [c], open, None) == EvalKids(cfg, ops, acc, [], open, Some(c));
    } else if kind == NoKind {
      assert EvalKids(cfg, ops, acc, [c], open, None) == EvalKids(cfg, ops, acc, [], open, None);
    } else {
      var y := Eval(cfg, ops, c);
      assert kind == Val ==> ops.evalVar(c).Some? by { TotalValue(ops, c); }
      assert y.Ok? && !y.r.Empty() && Merge(ops, acc, y.r) == Asserted;
    }
  }

  lemma TotalValue<V(!new)>(ops: Ops<V>, t: Tree)
    requires Total(ops)
    ensures ops.evalVar(t).Some?
  {
  }

  /**
   For nodes that match words, and callbacks that succeed: every input that is
   parsed without two operators after an operand meets the assertions of the
   evaluator if and only if the tables are harmless.
   */
  lemma MeetsIffHarmless<V(!new)>(cfg: Config, ops: Ops<V>, owner: Token -> nat)
    requires WordNodes(cfg, owner) && Total(ops)
    ensures |cfg.opens| == |cfg.closes| && Guarded(cfg)
    ensures Harmless(cfg) <==> forall input :: !Breaks(cfg, ops, input)
  {
    WordsOk(cfg, owner);
    SameNumber(cfg, owner);
    hide Guarded, WordNodes, Total, Live, HarmlessPair, Breaks;
    if Harmless(cfg) {
      HarmlessAccepts(cfg, owner);
      forall input
        ensures !Breaks(cfg, ops, input)
      {
        NotBroken(cfg, ops, input);
      }
    } else if HasId(cfg.posts, cfg.val.id) {
      var input := ValuePostfix(cfg, ops, owner);
    } else if HasId(cfg.bins, cfg.val.id) {
      var input := ValueBinary(cfg, ops, owner);
    } else if i :| 0 <= i < |cfg.pres| && HasId(cfg.bins, cfg.pres[i].id) {
      var input := BinaryPrefix(cfg, ops, owner, i);
    } else {
      var i :| 0 <= i < |cfg.opens| && Live(cfg, i) && !HarmlessPair(cfg, i);
      var input := HarmfulPair(cfg, ops, owner, i);
    }
  }

  lemma NotBroken<V(!new)>(cfg: Config, ops: Ops<V>, input: seq<Token>)
    requires Guarded(cfg) && Accepts(cfg)
    ensures !Breaks(cfg, ops, input)
  {
    hide Guarded, Accepts, Parse, Eval;
    if Parse(cfg, input).Some? {
      AcceptedMeets(cfg, ops, input);
    }
  }

  // ----- one node as binary and as prefix operator -----------------------------------------------------------

  const A: Token := Token("a")
  const MINUS: Token := Token("-")

  function Owner(w: Token): nat { if w == A then 0 else if w == MINUS then 1 else 2 }

  function OwnedLeaf(id: nat): Leaf {
    Leaf(id, input => if input != [] && Owner(input[0]) == id then Some(WordTree(id, input[0])) else None)
  }

  /** The letter a as value; the minus sign both as binary and as prefix operator. */
  const MINUSES: Config := Config(OwnedLeaf(0), [OwnedLeaf(1)], [OwnedLeaf(1)], [], [], [])

  lemma MinusesAreWords()
    ensures WordNodes(MINUSES, Owner)
  {
    assert Owner(A) == 0 && Owner(MINUS) == 1;
  }

  /** After - a an operator is left; - - a reaches the assertion of the merge. */
  lemma MinusMinus<V(!new)>(ops: Ops<V>)
    requires Total(ops)
    ensures Guarded(MINUSES) && !Harmless(MINUSES)
    ensures
      var t := Parse(MINUSES, [MINUS, A]);
      t.Some? && t.value.toks == [MINUS, A] && !TwoPosts(t.value)
      && Eval(MINUSES, ops, t.value).Ok? && Eval(MINUSES, ops, t.value).r.op.Some?
    ensures
      var t := Parse(MINUSES, [MINUS, MINUS, A]);
      t.Some? && t.value.toks == [MINUS, MINUS, A] && !TwoPosts(t.value) && Eval(MINUSES, ops, t.value).Asserted?
  {
    MinusesAreWords();
    WordsOk(MINUSES, Owner);
    hide Guarded, WordNodes, ParsePost, Eval, TwoPosts, Total, Parse, Wrap, ParseLevel;
    assert HasId(MINUSES.bins, MINUSES.pres[0].id);
    var t := OneMinus(ops);
    OperandWhole(MINUSES, ops, Owner, [MINUS, A], t);
    var e := Wrap(0, 1, TermOf(t));
    var u := TwoMinuses(ops, e);
    OperandWhole(MINUSES, ops, Owner, [MINUS, MINUS, A], u);
  }

  lemma OneMinus<V(!new)>(ops: Ops<V>) returns (t: Tree)
    requires Total(ops) && WordNodes(MINUSES, Owner) && Guarded(MINUSES)
    ensures t.node.Built? && t.toks == [MINUS, A] && !TwoPosts(t)
    ensures ParsePost(MINUSES, t.toks) == Some(Tree(Built(Post), t.toks, [t]))
    ensures var r := Eval(MINUSES, ops, t); r.Ok? && r.r.val.Some? && r.r.op.Some?
  {
    var input := [MINUS, A];
    var op := WordTree(1, MINUS);
    OneWordAt(MINUSES, Owner, input);
    OneWordAt(MINUSES, Owner, []);
    MinusIsBoth();
    ValueRefParses(MINUSES, ops, Owner, A, []);
    hide Guarded, WordNodes, HasId, ParseRef, Eval, TwoPosts, Total, ValueRef;
    ValueRefWord(MINUSES, A);
    t := Tree(Built(PreSeq), [MINUS] + [A], [Tree(Built(PreOr), [MINUS], [op]), ValueRef(MINUSES, A)]);
    assert input[1..] == [A] + [];
    assert ParsePreSeq(MINUSES, input) == Some(t);
    PrefixClash(MINUSES, ops, t, op, ValueRef(MINUSES, A));
  }

  lemma MinusIsBoth()
    ensures HasId(MINUSES.pres, 1) && KindOf(MINUSES, User(1)) == BinOp
  {
    assert MINUSES.bins[0].id == 1 && MINUSES.pres[0].id == 1;
  }

  lemma TwoMinuses<V(!new)>(ops: Ops<V>, e: Tree) returns (t: Tree)
    requires Total(ops) && WordNodes(MINUSES, Owner) && Guarded(MINUSES)
    requires ParseLevel(MINUSES, 1, [MINUS, A]) == Some(e) && e.node.Built? && e.toks == [MINUS, A] && !TwoPosts(e)
    requires var r := Eval(MINUSES, ops, e); r.Ok? && r.r.val.Some? && r.r.op.Some?
    ensures t.node.Built? && t.toks == [MINUS, MINUS, A] && !TwoPosts(t)
    ensures ParsePost(MINUSES, t.toks) == Some(Tree(Built(Post), t.toks, [t]))
    ensures Eval(MINUSES, ops, t).Asserted?
  {
    var input := [MINUS, MINUS, A];
    var op, ref := WordTree(1, MINUS), Tree(Built(Ref), e.toks, [e]);
    OneWordAt(MINUSES, Owner, input);
    MinusIsBoth();
    hide Guarded, WordNodes, HasId, ParseLevel;
    assert input[1..] == [MINUS, A];
    assert ParseRef(MINUSES, [MINUS, A]) == Some(ref);
    var or := Tree(Built(PreOr), [MINUS], [op]);
    t := Tree(Built(PreSeq), [MINUS] + e.toks, [or, ref]);
    assert ParsePreSeq(MINUSES, input) == Some(t);
    MergesTwice(ops, t, or, op, ref, e);
  }

  lemma MergesTwice<V(!new)>(ops: Ops<V>, t: Tree, or: Tree, op: Tree, ref: Tree, e: Tree)
    requires KindOf(MINUSES, op.node) == BinOp && op.kids == [] && or.node == Built(PreOr) && or.kids == [op]
    requires e.node.Built? && !TwoPosts(e) && ref.node == Built(Ref) && ref.kids == [e]
    requires t.node == Built(PreSeq) && t.kids == [or, ref]
    requires var r := Eval(MINUSES, ops, e); r.Ok? && r.r.val.Some? && r.r.op.Some?
    ensures Eval(MINUSES, ops, t).Asserted? && !TwoPosts(t)
  {
    var x: Outcome<V> := Ok(Partial(None, Some(op), BinOp));
    assert Eval(MINUSES, ops, op) == x && !TwoPosts(op);
    EvalSingle(MINUSES, ops, or, x);
    EvalSingle(MINUSES, ops, ref, Eval(MINUSES, ops, e));
    EvalPair(MINUSES, ops, t);
    assert !TwoPosts(or) && !TwoPosts(ref);
  }
}
