/**
 The language of the layered grammar when every operator, parenthesis and value
 is a single word: printing and parsing are inverse to each other.
 */
module ExprRoundTrip {
  import opened Prelude
  import opened ExprGrammar
  import opened ExprEval

  /** What a word is; being a function, it makes the operators distinct. */
  datatype Class =
    IsValue | IsBin(i: nat) | IsPre(i: nat) | IsPostfix(i: nat) | IsOpen(i: nat) | IsClose(i: nat) | IsOther

  /** The class of each word, and the tree each user node builds for a word. */
  datatype Lexicon = Lexicon(cls: Token -> Class, tree: (nat, Token) -> Tree)

  /** The leaf matches exactly the vectors that start with a word of class c, and takes that word. */
  ghost predicate ReadsClass(leaf: Leaf, lex: Lexicon, c: Class) {
    && (forall input :: leaf.parse(input) ==
          if input != [] && lex.cls(input[0]) == c then Some(lex.tree(leaf.id, input[0])) else None)
    && forall w :: lex.tree(leaf.id, w).toks == [w]
  }

  ghost predicate OneWord(cfg: Config, lex: Lexicon) {
    && Guarded(cfg) && Separate(cfg)
    && ReadsClass(cfg.val, lex, IsValue)
    && (forall i :: 0 <= i < |cfg.bins| ==> ReadsClass(cfg.bins[i], lex, IsBin(i)))
    && (forall i :: 0 <= i < |cfg.pres| ==> ReadsClass(cfg.pres[i], lex, IsPre(i)))
    && (forall i :: 0 <= i < |cfg.posts| ==> ReadsClass(cfg.posts[i], lex, IsPostfix(i)))
    && (forall i :: 0 <= i < |cfg.opens| ==> ReadsClass(cfg.opens[i], lex, IsOpen(i)))
    && (forall i :: 0 <= i < |cfg.closes| ==> ReadsClass(cfg.closes[i], lex, IsClose(i)))
  }

  // ----- printing ----------------------------------------------------------------

  function Print(a: Ast): seq<Token>
    decreases a, 0
  {
    match a
    case Var(leaf) => leaf.toks
    case Prefix(op, arg) => op.toks + Print(arg)
    case Paren(open, arg, close) => open.toks + Print(arg) + close.toks
    case Postfix(arg, ops) => Print(arg) + Toks(ops)
    case Chain(_, first, steps) => Print(first) + PrintSteps(steps)
  }

  function PrintStep(s: Step): seq<Token>
    decreases s, 0
  {
    s.op.toks + Print(s.arg)
  }

  function PrintSteps(steps: seq<Step>): seq<Token>
    decreases steps, 0
  {
    if steps == [] then [] else PrintStep(steps[0]) + PrintSteps(steps[1..])
  }

  // ----- the expressions of each level ----------------------------------------------

  /** The tree the leaf builds for its one word. */
  ghost predicate From(leaf: Leaf, t: Tree) {
    |t.toks| == 1 && leaf.parse(t.toks) == Some(t)
  }

  ghost predicate FromSome(leaves: seq<Leaf>, t: Tree) {
    exists i :: 0 <= i < |leaves| && From(leaves[i], t)
  }

  /** The expression ends with a prefix operator's argument, which extends as far as it can. */
  predicate OpenEnd(a: Ast) {
    match a
    case Prefix(_, _) => true
    case Chain(_, first, steps) => steps != [] && OpenEnd(steps[|steps| - 1].arg)
    case _ => false
  }

  ghost predicate Operand(cfg: Config, a: Ast)
    requires |cfg.opens| == |cfg.closes|
    decreases a, 0
  {
    match a
    case Var(leaf) => From(cfg.val, leaf)
    case Prefix(op, arg) => FromSome(cfg.pres, op) && InLevel(cfg, |cfg.bins|, arg)
    case Paren(open, arg, close) =>
      && InLevel(cfg, |cfg.bins|, arg)
      && exists i :: 0 <= i < |cfg.opens| && From(cfg.opens[i], open) && From(cfg.closes[i], close)
    case _ => false
  }

  /** Expressions built from operators below `level`, without parentheses around chains. */
  ghost predicate InLevel(cfg: Config, level: nat, a: Ast)
    requires |cfg.opens| == |cfg.closes| && level <= |cfg.bins|
    decreases a, 1 + level
  {
    if level == 0 then
      if a.Postfix? then
        && Operand(cfg, a.arg) && !OpenEnd(a.arg)
        && a.ops != [] && forall k :: k in a.ops ==> FromSome(cfg.posts, k)
      else Operand(cfg, a)
    else if a.Chain? && a.level == level - 1 then
      && InLevel(cfg, level - 1, a.first) && !OpenEnd(a.first)
      && a.steps != [] && InSteps(cfg, level - 1, a.steps)
    else InLevel(cfg, level - 1, a)
  }

  ghost predicate InStep(cfg: Config, level: nat, s: Step)
    requires |cfg.opens| == |cfg.closes| && level < |cfg.bins|
    decreases s, 0
  {
    From(cfg.bins[level], s.op) && InLevel(cfg, level, s.arg)
  }

  /** Only the last argument of a chain may have an open end. */
  ghost predicate InSteps(cfg: Config, level: nat, steps: seq<Step>)
    requires |cfg.opens| == |cfg.closes| && level < |cfg.bins|
    decreases steps, 0
  {
    steps == [] ||
    (&& InStep(cfg, level, steps[0])
     && (|steps| > 1 ==> !OpenEnd(steps[0].arg))
     && InSteps(cfg, level, steps[1..]))
  }

  /** An expression of this level, followed by `rest`, is not continued into it. */
  ghost predicate Stops(lex: Lexicon, rest: seq<Token>, level: nat, open: bool) {
    rest != [] ==> !lex.cls(rest[0]).IsPostfix? && (lex.cls(rest[0]).IsBin? ==> !open && lex.cls(rest[0]).i >= level)
  }

  // ----- leaves --------------------------------------------------------------------

  lemma Drop<T>(a: seq<T>, b: seq<T>)
    ensures (a + b)[|a|..] == b
  {
  }

  lemma LeafReads(leaf: Leaf, lex: Lexicon, c: Class, t: Tree, rest: seq<Token>)
    requires ReadsClass(leaf, lex, c) && From(leaf, t)
    ensures leaf.parse(t.toks + rest) == Some(t)
    ensures |t.toks| == 1 && lex.cls(t.toks[0]) == c && (t.toks + rest)[0] == t.toks[0]
  {
    assert t.toks == [t.toks[0]];
  }

  lemma LeafRefuses(leaf: Leaf, lex: Lexicon, c: Class, input: seq<Token>)
    requires ReadsClass(leaf, lex, c) && (input != [] ==> lex.cls(input[0]) != c)
    ensures leaf.parse(input) == None
  {
  }

  lemma {:induction false} FirstReads(cfg: Config, leaves: seq<Leaf>, i: nat, input: seq<Token>)
    requires LeavesOk(leaves) && i < |leaves|
    requires forall j :: 0 <= j < i ==> leaves[j].parse(input).None?
    requires leaves[i].parse(input).Some?
    ensures ParseFirst(leaves, input) == leaves[i].parse(input)
  {
    if i > 0 {
      FirstReads(cfg, leaves[1..], i - 1, input);
    }
  }

  lemma PreOrRefuses(cfg: Config, lex: Lexicon, input: seq<Token>)
    requires OneWord(cfg, lex) && (input != [] ==> !lex.cls(input[0]).IsPre?)
    ensures ParsePreOr(cfg, input) == None
  {
    forall i | 0 <= i < |cfg.pres|
      ensures cfg.pres[i].parse(input) == None
    {
      LeafRefuses(cfg.pres[i], lex, IsPre(i), input);
    }
  }

  lemma PreOrReads(cfg: Config, lex: Lexicon, op: Tree, rest: seq<Token>)
    requires OneWord(cfg, lex) && FromSome(cfg.pres, op)
    ensures ParsePreOr(cfg, op.toks + rest) == Some(Tree(Built(PreOr), op.toks, [op]))
    ensures |op.toks| == 1 && lex.cls(op.toks[0]).IsPre?
  {
    var i :| 0 <= i < |cfg.pres| && From(cfg.pres[i], op);
    LeafReads(cfg.pres[i], lex, IsPre(i), op, rest);
    forall j | 0 <= j < i
      ensures cfg.pres[j].parse(op.toks + rest) == None
    {
      LeafRefuses(cfg.pres[j], lex, IsPre(j), op.toks + rest);
    }
    FirstReads(cfg, cfg.pres, i, op.toks + rest);
  }

  lemma PostOrRefuses(cfg: Config, lex: Lexicon, input: seq<Token>)
    requires OneWord(cfg, lex) && (input != [] ==> !lex.cls(input[0]).IsPostfix?)
    ensures ParsePostOr(cfg, input) == None
  {
    forall i | 0 <= i < |cfg.posts|
      ensures cfg.posts[i].parse(input) == None
    {
      LeafRefuses(cfg.posts[i], lex, IsPostfix(i), input);
    }
  }

  lemma PostOrReads(cfg: Config, lex: Lexicon, op: Tree, rest: seq<Token>)
    requires OneWord(cfg, lex) && FromSome(cfg.posts, op)
    ensures ParsePostOr(cfg, op.toks + rest) == Some(Tree(Built(PostOr), op.toks, [op]))
    ensures |op.toks| == 1 && lex.cls(op.toks[0]).IsPostfix?
  {
    var i :| 0 <= i < |cfg.posts| && From(cfg.posts[i], op);
    LeafReads(cfg.posts[i], lex, IsPostfix(i), op, rest);
    forall j | 0 <= j < i
      ensures cfg.posts[j].parse(op.toks + rest) == None
    {
      LeafRefuses(cfg.posts[j], lex, IsPostfix(j), op.toks + rest);
    }
    FirstReads(cfg, cfg.posts, i, op.toks + rest);
  }

  lemma Facts(cfg: Config, lex: Lexicon)
    requires OneWord(cfg, lex)
    ensures Guarded(cfg) && Separate(cfg) && ReadsClass(cfg.val, lex, IsValue) && |cfg.opens| == |cfg.closes|
    ensures LeavesOk(cfg.pres) && LeavesOk(cfg.posts)
    ensures forall i :: 0 <= i < |cfg.bins| ==> ReadsClass(cfg.bins[i], lex, IsBin(i))
    ensures forall i :: 0 <= i < |cfg.opens| ==> ReadsClass(cfg.opens[i], lex, IsOpen(i))
    ensures forall i :: 0 <= i < |cfg.closes| ==> ReadsClass(cfg.closes[i], lex, IsClose(i))
  {
  }

  // ----- printing, then parsing ----------------------------------------------------

  lemma PostsCons(cfg: Config, op: Tree, ops: seq<Tree>, tail: seq<Token>)
    requires Guarded(cfg) && Separate(cfg) && op.toks != []
    requires ParsePostOr(cfg, op.toks + tail) == Some(Tree(Built(PostOr), op.toks, [op]))
    requires Toks(ParsePosts(cfg, tail)) == Toks(ops) && ReadPostOps(cfg, ParsePosts(cfg, tail)) == ops
    ensures
      var kids := ParsePosts(cfg, op.toks + tail);
      Toks(kids) == op.toks + Toks(ops) && ReadPostOps(cfg, kids) == [op] + ops
  {
    hide Guarded, Valid, Separate, LeafOk, LeavesOk, Consumes, HasId, IsOp, ParsePostOr;
    Drop(op.toks, tail);
    var t := Tree(Built(PostOr), op.toks, [op]);
    var kids := ParsePosts(cfg, tail);
    assert ParsePosts(cfg, op.toks + tail) == [t] + kids;
    ToksCons(t, kids);
    assert ([t] + kids)[1..] == kids;
  }

  lemma {:induction false} PostsReturn(cfg: Config, lex: Lexicon, ops: seq<Tree>, rest: seq<Token>)
    requires OneWord(cfg, lex)
    requires forall k :: k in ops ==> FromSome(cfg.posts, k)
    requires rest != [] ==> !lex.cls(rest[0]).IsPostfix?
    ensures
      var kids := ParsePosts(cfg, Toks(ops) + rest);
      Toks(kids) == Toks(ops) && ReadPostOps(cfg, kids) == ops
  {
    hide OneWord, Guarded, Valid, Separate, LeafOk, LeavesOk, Consumes, ReadsClass, HasId, FromSome, IsPostOp;
    Facts(cfg, lex);
    var input := Toks(ops) + rest;
    if ops == [] {
      assert input == rest;
      PostOrRefuses(cfg, lex, rest);
    } else {
      hide ParsePosts, ReadPostOps;
      assert ops[0] in ops;
      var tail := Toks(ops[1..]) + rest;
      assert input == ops[0].toks + tail;
      PostOrReads(cfg, lex, ops[0], tail);
      PostsReturn(cfg, lex, ops[1..], rest);
      PostsCons(cfg, ops[0], ops[1..], tail);
      assert ops == [ops[0]] + ops[1..];
    }
  }

  lemma {:induction false} OperandReturns(cfg: Config, lex: Lexicon, a: Ast, rest: seq<Token>)
    requires OneWord(cfg, lex) && Operand(cfg, a)
    requires OpenEnd(a) ==> Stops(lex, rest, 0, true)
    ensures
      var t := ParsePost(cfg, Print(a) + rest);
      t.Some? && t.value.toks == Print(a) && ReadOperand(cfg, t.value.kids[0]) == a
    decreases a, 0
  {
    match a
    case Var(leaf) =>
      LeafReads(cfg.val, lex, IsValue, leaf, rest);
    case Prefix(op, arg) =>
      LevelReturns(cfg, lex, |cfg.bins|, arg, rest);
      PrefixReturns(cfg, lex, op, arg, rest);
    case Paren(open, arg, close) =>
      var i :| 0 <= i < |cfg.opens| && From(cfg.opens[i], open) && From(cfg.closes[i], close);
      LeafReads(cfg.closes[i], lex, IsClose(i), close, rest);
      LevelReturns(cfg, lex, |cfg.bins|, arg, close.toks + rest);
      ParenReturns(cfg, lex, i, open, arg, close, rest);
  }

  lemma PrefixReturns(cfg: Config, lex: Lexicon, op: Tree, arg: Ast, rest: seq<Token>)
    requires OneWord(cfg, lex) && FromSome(cfg.pres, op)
    requires
      var t := ParseLevel(cfg, |cfg.bins|, Print(arg) + rest);
      t.Some? && t.value.toks == Print(arg) && ReadLevel(cfg, |cfg.bins|, t.value) == arg
    ensures
      var t := ParsePost(cfg, Print(Prefix(op, arg)) + rest);
      t.Some? && t.value.toks == Print(Prefix(op, arg)) && ReadOperand(cfg, t.value.kids[0]) == Prefix(op, arg)
  {
    hide OneWord, Guarded, Valid, Separate, LeafOk, LeavesOk, Consumes, ReadsClass, HasId;
    hide FromSome, IsLevel, ReadLevel, ParseLevel;
    Facts(cfg, lex);
    var tail := Print(arg) + rest;
    var input := op.toks + tail;
    assert Print(Prefix(op, arg)) + rest == input;
    PreOrReads(cfg, lex, op, tail);
    Drop(op.toks, tail);
    LeafRefuses(cfg.val, lex, IsValue, input);
    assert ParseRef(cfg, tail).Some?;
    assert ParsePreSeq(cfg, input).Some?;
  }

  lemma ParenReturns(cfg: Config, lex: Lexicon, i: nat, open: Tree, arg: Ast, close: Tree, rest: seq<Token>)
    requires OneWord(cfg, lex) && i < |cfg.opens|
    requires |cfg.opens| == |cfg.closes| && From(cfg.opens[i], open) && From(cfg.closes[i], close)
    requires
      var t := ParseLevel(cfg, |cfg.bins|, Print(arg) + (close.toks + rest));
      t.Some? && t.value.toks == Print(arg) && ReadLevel(cfg, |cfg.bins|, t.value) == arg
    ensures
      var t := ParsePost(cfg, Print(Paren(open, arg, close)) + rest);
      && t.Some? && t.value.toks == Print(Paren(open, arg, close))
      && ReadOperand(cfg, t.value.kids[0]) == Paren(open, arg, close)
  {
    hide OneWord, Guarded, Valid, Separate, LeafOk, LeavesOk, Consumes, ReadsClass, HasId, From;
    hide ParseParen, IsRef, ReadRef, IsOp;
    Facts(cfg, lex);
    var input := Print(Paren(open, arg, close)) + rest;
    ParenParses(cfg, lex, i, open, arg, close, rest);
    PreOrRefuses(cfg, lex, input);
    LeafRefuses(cfg.val, lex, IsValue, input);
    forall k | 0 <= k < i
      ensures cfg.opens[k].parse(input).None?
    {
      LeafRefuses(cfg.opens[k], lex, IsOpen(k), input);
    }
    ParensReturn(cfg, 0, i, input);
  }

  /** The parenthesis that was printed is the one that parses. */
  lemma ParenParses(cfg: Config, lex: Lexicon, i: nat, open: Tree, arg: Ast, close: Tree, rest: seq<Token>)
    requires OneWord(cfg, lex) && i < |cfg.opens|
    requires |cfg.opens| == |cfg.closes| && From(cfg.opens[i], open) && From(cfg.closes[i], close)
    requires
      var t := ParseLevel(cfg, |cfg.bins|, Print(arg) + (close.toks + rest));
      t.Some? && t.value.toks == Print(arg) && ReadLevel(cfg, |cfg.bins|, t.value) == arg
    ensures
      var input := Print(Paren(open, arg, close)) + rest;
      var t := ParseParen(cfg, i, input);
      && input != [] && lex.cls(input[0]) == IsOpen(i)
      && t.Some? && t.value.toks == Print(Paren(open, arg, close))
      && ReadOperand(cfg, t.value) == Paren(open, arg, close)
  {
    hide OneWord, Guarded, Valid, Separate, LeafOk, LeavesOk, Consumes, ReadsClass, HasId, From;
    hide IsLevel, ReadLevel, ParseLevel;
    Facts(cfg, lex);
    var tail := Print(arg) + (close.toks + rest);
    var input := open.toks + tail;
    assert Print(Paren(open, arg, close)) + rest == input;
    LeafReads(cfg.opens[i], lex, IsOpen(i), open, tail);
    LeafReads(cfg.closes[i], lex, IsClose(i), close, rest);
    var t := ParseLevel(cfg, |cfg.bins|, tail).value;
    ParenComputes(cfg, i, open, t, close, tail, close.toks + rest);
  }

  lemma ParenComputes(cfg: Config, i: nat, open: Tree, t: Tree, close: Tree, tail: seq<Token>, after: seq<Token>)
    requires Guarded(cfg) && Separate(cfg) && i < |cfg.opens| && |cfg.opens| == |cfg.closes| && tail == t.toks + after
    requires cfg.opens[i].parse(open.toks + tail) == Some(open) && 0 < |open.toks|
    requires ParseLevel(cfg, |cfg.bins|, tail) == Some(t) && cfg.closes[i].parse(after) == Some(close)
    ensures ParseParen(cfg, i, open.toks + tail) == Some(Tree(Built(ParenSeq(i)), open.toks + t.toks + close.toks,
              [open, Tree(Built(Ref), t.toks, [t]), close]))
  {
    hide Guarded, Valid, Separate, LeafOk, LeavesOk, Consumes, HasId, IsOp, IsLevel, ParseLevel;
    Drop(open.toks, tail);
    Drop(t.toks, after);
    assert ParseRef(cfg, tail).Some?;
  }

  lemma {:induction false} ParensReturn(cfg: Config, j: nat, i: nat, input: seq<Token>)
    requires Guarded(cfg) && j <= i < |cfg.opens|
    requires forall k :: j <= k < i ==> cfg.opens[k].parse(input).None?
    requires ParseParen(cfg, i, input).Some?
    ensures ParseParens(cfg, j, input) == ParseParen(cfg, i, input)
    decreases i - j
  {
    hide Guarded, Valid, LeafOk, Consumes, HasId;
    if j < i {
      ParensReturn(cfg, j + 1, i, input);
    }
  }

  lemma {:induction false} TermReturns(cfg: Config, lex: Lexicon, a: Ast, rest: seq<Token>)
    requires OneWord(cfg, lex) && InLevel(cfg, 0, a) && Stops(lex, rest, 0, OpenEnd(a))
    ensures
      var t := ParseTerm(cfg, Print(a) + rest);
      t.Some? && t.value.toks == Print(a) && ReadTerm(cfg, t.value) == a
    decreases a, 1
  {
    hide OneWord, Guarded, Valid, Separate, LeafOk, LeavesOk, Consumes, ReadsClass, HasId, FromSome;
    Facts(cfg, lex);
    var operand := if a.Postfix? then a.arg else a;
    var ops := if a.Postfix? then a.ops else [];
    var tail := Toks(ops) + rest;
    assert Print(a) + rest == Print(operand) + tail;
    assert ops == [] ==> tail == rest;
    OperandReturns(cfg, lex, operand, tail);
    PostsReturn(cfg, lex, ops, rest);
    Drop(Print(operand), tail);
    assert Print(operand) + Toks(ops) == Print(a);
    var kids := ParsePosts(cfg, tail);
    assert |ReadPostOps(cfg, kids)| == |kids|;
  }

  /** One level up: the steps that follow, if any, make a chain. */
  lemma LevelUp(cfg: Config, level: nat, input: seq<Token>, t: Tree)
    requires Guarded(cfg) && Separate(cfg) && level < |cfg.bins| && ParseLevel(cfg, level, input) == Some(t)
    ensures
      var steps := ParseSteps(cfg, level, input[|t.toks|..]);
      var r := ParseLevel(cfg, level + 1, input);
      && r.Some? && r.value.toks == t.toks + Toks(steps)
      && ReadLevel(cfg, level + 1, r.value) ==
         (var a := ReadLevel(cfg, level, t);
          if steps == [] then a else Chain(level, a, ReadSteps(cfg, level, steps)))
  {
    hide Guarded, Valid, Separate, LeafOk, Consumes, HasId;
  }

  lemma {:induction false} LevelReturns(cfg: Config, lex: Lexicon, level: nat, a: Ast, rest: seq<Token>)
    requires OneWord(cfg, lex) && level <= |cfg.bins| && InLevel(cfg, level, a) && Stops(lex, rest, level, OpenEnd(a))
    ensures
      var t := ParseLevel(cfg, level, Print(a) + rest);
      t.Some? && t.value.toks == Print(a) && ReadLevel(cfg, level, t.value) == a
    decreases a, 2 + level
  {
    hide OneWord, Guarded, Valid, Separate, LeafOk, LeavesOk, Consumes, ReadsClass, HasId, From, FromSome;
    if level == 0 {
      TermReturns(cfg, lex, a, rest);
    } else if a.Chain? && a.level == level - 1 {
      ChainReturns(cfg, lex, level - 1, a, rest);
    } else {
      LevelReturns(cfg, lex, level - 1, a, rest);
      NoChainReturns(cfg, lex, level - 1, a, rest);
    }
  }

  lemma {:induction false} ChainReturns(cfg: Config, lex: Lexicon, level: nat, a: Ast, rest: seq<Token>)
    requires OneWord(cfg, lex) && level < |cfg.bins| && a.Chain? && a.level == level
    requires InLevel(cfg, level + 1, a) && Stops(lex, rest, level + 1, OpenEnd(a))
    ensures
      var t := ParseLevel(cfg, level + 1, Print(a) + rest);
      t.Some? && t.value.toks == Print(a) && ReadLevel(cfg, level + 1, t.value) == a
    decreases a, 1 + level
  {
    hide OneWord, Guarded, Valid, Separate, LeafOk, LeavesOk, Consumes, ReadsClass, HasId, From, FromSome;
    hide ParseLevel, ParseSteps, IsLevel, IsStep, ReadLevel, ReadSteps, IsOp;
    Facts(cfg, lex);
    var tail := PrintSteps(a.steps) + rest;
    assert Print(a) + rest == Print(a.first) + tail;
    StepsStart(cfg, lex, level, a.steps, rest);
    LevelReturns(cfg, lex, level, a.first, tail);
    StepsReturn(cfg, lex, level, a.steps, rest);
    Drop(Print(a.first), tail);
    LevelUp(cfg, level, Print(a) + rest, ParseLevel(cfg, level, Print(a) + rest).value);
  }

  /** An expression of the level below, not followed by this level's operator. */
  lemma NoChainReturns(cfg: Config, lex: Lexicon, level: nat, a: Ast, rest: seq<Token>)
    requires OneWord(cfg, lex) && level < |cfg.bins| && Stops(lex, rest, level + 1, OpenEnd(a))
    requires
      var t := ParseLevel(cfg, level, Print(a) + rest);
      t.Some? && t.value.toks == Print(a) && ReadLevel(cfg, level, t.value) == a
    ensures
      var t := ParseLevel(cfg, level + 1, Print(a) + rest);
      t.Some? && t.value.toks == Print(a) && ReadLevel(cfg, level + 1, t.value) == a
  {
    hide OneWord, Guarded, Valid, Separate, LeafOk, LeavesOk, Consumes, ReadsClass, HasId, From, FromSome;
    hide ParseLevel, IsLevel, IsStep, ReadLevel, ReadSteps, IsOp, Print;
    Facts(cfg, lex);
    Drop(Print(a), rest);
    LeafRefuses(cfg.bins[level], lex, IsBin(level), rest);
    LevelUp(cfg, level, Print(a) + rest, ParseLevel(cfg, level, Print(a) + rest).value);
  }

  /** A non-empty chain tail starts with its operator. */
  lemma StepsStart(cfg: Config, lex: Lexicon, level: nat, steps: seq<Step>, rest: seq<Token>)
    requires OneWord(cfg, lex) && level < |cfg.bins| && InSteps(cfg, level, steps) && steps != []
    ensures PrintSteps(steps) != [] && lex.cls((PrintSteps(steps) + rest)[0]) == IsBin(level)
  {
    hide OneWord, Guarded, Valid, Separate, LeafOk, LeavesOk, Consumes, ReadsClass, HasId, InLevel, Print;
    Facts(cfg, lex);
    var op := steps[0].op;
    LeafReads(cfg.bins[level], lex, IsBin(level), op, []);
    assert PrintSteps(steps) == PrintStep(steps[0]) + PrintSteps(steps[1..]);
    assert PrintStep(steps[0])[0] == op.toks[0];
  }

  lemma StepsCons(cfg: Config, level: nat, t: Tree, input: seq<Token>, rest: seq<Token>)
    requires Guarded(cfg) && Separate(cfg) && level < |cfg.bins|
    requires ParseStep(cfg, level, input) == Some(t) && t.toks != [] && input == t.toks + rest
    ensures
      var kids := ParseSteps(cfg, level, rest);
      && Toks(ParseSteps(cfg, level, input)) == t.toks + Toks(kids)
      && ReadSteps(cfg, level, ParseSteps(cfg, level, input))
         == [Step(t.kids[0], ReadLevel(cfg, level, t.kids[1]))] + ReadSteps(cfg, level, kids)
  {
    hide Guarded, Valid, Separate, LeafOk, Consumes, HasId, IsLevel, ReadLevel, ParseStep;
    var kids := ParseSteps(cfg, level, rest);
    Drop(t.toks, rest);
    assert ParseSteps(cfg, level, input) == [t] + kids;
    ToksCons(t, kids);
    assert ([t] + kids)[1..] == kids;
  }

  lemma {:induction false} StepsReturn(cfg: Config, lex: Lexicon, level: nat, steps: seq<Step>, rest: seq<Token>)
    requires OneWord(cfg, lex) && level < |cfg.bins| && InSteps(cfg, level, steps)
    requires Stops(lex, rest, level + 1, steps != [] && OpenEnd(steps[|steps| - 1].arg))
    ensures
      var kids := ParseSteps(cfg, level, PrintSteps(steps) + rest);
      Toks(kids) == PrintSteps(steps) && ReadSteps(cfg, level, kids) == steps
    decreases steps, 0
  {
    hide OneWord, Guarded, Valid, Separate, LeafOk, LeavesOk, Consumes, ReadsClass, HasId, InLevel, From, Print;
    Facts(cfg, lex);
    var input := PrintSteps(steps) + rest;
    if steps == [] {
      assert input == rest;
      LeafRefuses(cfg.bins[level], lex, IsBin(level), rest);
    } else {
      var tail := PrintSteps(steps[1..]) + rest;
      assert input == PrintStep(steps[0]) + tail;
      if |steps| > 1 {
        StepsStart(cfg, lex, level, steps[1..], rest);
      } else {
        assert tail == rest;
      }
      StepReturns(cfg, lex, level, steps[0], tail);
      StepsReturn(cfg, lex, level, steps[1..], rest);
      StepsCons(cfg, level, ParseStep(cfg, level, input).value, input, tail);
      assert steps == [steps[0]] + steps[1..];
    }
  }

  lemma {:induction false} StepReturns(cfg: Config, lex: Lexicon, level: nat, s: Step, rest: seq<Token>)
    requires OneWord(cfg, lex) && level < |cfg.bins| && InStep(cfg, level, s)
    requires Stops(lex, rest, level, OpenEnd(s.arg))
    ensures
      var t := ParseStep(cfg, level, PrintStep(s) + rest);
      && t.Some? && t.value.toks == PrintStep(s) && t.value.toks != []
      && Step(t.value.kids[0], ReadLevel(cfg, level, t.value.kids[1])) == s
    decreases s, 0
  {
    hide OneWord, Guarded, Valid, Separate, LeafOk, LeavesOk, Consumes, ReadsClass, HasId;
    Facts(cfg, lex);
    var tail := Print(s.arg) + rest;
    assert PrintStep(s) + rest == s.op.toks + tail;
    LeafReads(cfg.bins[level], lex, IsBin(level), s.op, tail);
    Drop(s.op.toks, tail);
    LevelReturns(cfg, lex, level, s.arg, rest);
  }

  /** Parsing what was printed gives the expression back and consumes every word. */
  lemma PrintThenParse(cfg: Config, lex: Lexicon, a: Ast)
    requires OneWord(cfg, lex) && InLevel(cfg, |cfg.bins|, a)
    ensures
      var t := Parse(cfg, Print(a));
      t.Some? && t.value.toks == Print(a) && Read(cfg, t.value) == a
  {
    assert Print(a) + [] == Print(a);
    LevelReturns(cfg, lex, |cfg.bins|, a, []);
  }
}
