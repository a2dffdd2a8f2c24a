/**
 The other direction: every tree the parser builds is the tree of a well-formed
 expression, so the parser accepts exactly what the printer can write.
 */
module ExprLanguage {
  import opened Prelude
  import opened ExprGrammar
  import opened ExprEval
  import opened ExprRoundTrip

  // ----- printing what was read ---------------------------------------------------

  lemma {:induction false} PrintReadPostOps(cfg: Config, kids: seq<Tree>)
    requires forall k :: k in kids ==> IsPostOp(cfg, k)
    ensures Toks(ReadPostOps(cfg, kids)) == Toks(kids)
  {
    if kids != [] {
      assert IsPostOp(cfg, kids[0]);
      PrintReadPostOps(cfg, kids[1..]);
      ToksCons(kids[0].kids[0], ReadPostOps(cfg, kids[1..]));
    }
  }

  lemma {:induction false} PrintReadOperand(cfg: Config, t: Tree)
    requires Separate(cfg) && IsOperand(cfg, t)
    ensures Print(ReadOperand(cfg, t)) == t.toks
    decreases t, 0
  {
    hide KindOf, Inert, SealedLeaf;
    if !IsOp(cfg, Val, t) {
      PrintReadLevel(cfg, |cfg.bins|, t.kids[1].kids[0]);
    }
  }

  lemma {:induction false} PrintReadTerm(cfg: Config, t: Tree)
    requires Separate(cfg) && IsTerm(cfg, t)
    ensures Print(ReadTerm(cfg, t)) == t.toks
    decreases t, 0
  {
    hide IsOp, IsPostOp, Separate;
    PrintReadOperand(cfg, t.kids[0].kids[0]);
    PrintReadPostOps(cfg, t.kids[1].kids);
  }

  lemma {:induction false} PrintReadLevel(cfg: Config, level: nat, t: Tree)
    requires Separate(cfg) && level <= |cfg.bins| && IsLevel(cfg, level, t)
    ensures Print(ReadLevel(cfg, level, t)) == t.toks
    decreases t, 1
  {
    hide IsOp, Separate;
    if level == 0 {
      PrintReadTerm(cfg, t);
    } else {
      PrintReadLevel(cfg, level - 1, t.kids[0]);
      PrintReadSteps(cfg, level - 1, t.kids[1].kids);
    }
  }

  lemma {:induction false} PrintReadSteps(cfg: Config, level: nat, kids: seq<Tree>)
    requires Separate(cfg) && level < |cfg.bins| && forall k :: k in kids ==> IsStep(cfg, level, k)
    ensures PrintSteps(ReadSteps(cfg, level, kids)) == Toks(kids)
    decreases kids, 0
  {
    hide IsOp, Separate;
    if kids != [] {
      assert IsStep(cfg, level, kids[0]);
      PrintReadLevel(cfg, level, kids[0].kids[1]);
      PrintReadSteps(cfg, level, kids[1..]);
      assert ReadSteps(cfg, level, kids)[1..] == ReadSteps(cfg, level, kids[1..]);
    }
  }

  /** When no node is in two tables, the words of a tree are those of its expression. */
  lemma PrintRead(cfg: Config, t: Tree)
    requires Separate(cfg) && IsTop(cfg, t)
    ensures Print(Read(cfg, t)) == t.toks
  {
    PrintReadLevel(cfg, |cfg.bins|, t.kids[0]);
  }

  // ----- parsing, then reading ------------------------------------------------------

  /** No operator of these levels, with an operand after it, starts here. */
  ghost predicate Quiet(cfg: Config, rest: seq<Token>, level: nat, open: bool)
    requires Guarded(cfg) && level <= |cfg.bins|
  {
    && ParsePostOr(cfg, rest) == None
    && forall j :: 0 <= j < (if open then |cfg.bins| else level) ==> ParseStep(cfg, j, rest) == None
  }

  lemma LeafFrom(leaf: Leaf, lex: Lexicon, c: Class, input: seq<Token>)
    requires ReadsClass(leaf, lex, c) && leaf.parse(input).Some?
    ensures From(leaf, leaf.parse(input).value)
  {
    assert [input[0]][0] == input[0];
  }

  lemma PreOrFrom(cfg: Config, lex: Lexicon, input: seq<Token>)
    requires OneWord(cfg, lex) && ParsePreOr(cfg, input).Some?
    ensures FromSome(cfg.pres, ParsePreOr(cfg, input).value.kids[0])
  {
    var i :| 0 <= i < |cfg.pres| && cfg.pres[i].parse(input) == ParseFirst(cfg.pres, input);
    LeafFrom(cfg.pres[i], lex, IsPre(i), input);
  }

  lemma PostOrFrom(cfg: Config, lex: Lexicon, input: seq<Token>)
    requires OneWord(cfg, lex) && ParsePostOr(cfg, input).Some?
    ensures FromSome(cfg.posts, ParsePostOr(cfg, input).value.kids[0])
    ensures ParsePostOr(cfg, input).value.toks != []
  {
    var i :| 0 <= i < |cfg.posts| && cfg.posts[i].parse(input) == ParseFirst(cfg.posts, input);
    LeafFrom(cfg.posts[i], lex, IsPostfix(i), input);
  }

  lemma {:induction false} PostsSound(cfg: Config, lex: Lexicon, input: seq<Token>)
    requires OneWord(cfg, lex)
    ensures
      var kids := ParsePosts(cfg, input);
      && (forall k :: k in ReadPostOps(cfg, kids) ==> FromSome(cfg.posts, k))
      && ParsePostOr(cfg, input[|Toks(kids)|..]) == None
      && (kids == [] <==> ParsePostOr(cfg, input) == None)
    decreases |input|
  {
    hide OneWord, Guarded, Valid, Separate, LeafOk, LeavesOk, Consumes, ReadsClass, HasId, FromSome, IsOp;
    Facts(cfg, lex);
    hide ParsePostOr;
    var op := ParsePostOr(cfg, input);
    var kids := ParsePosts(cfg, input);
    if op == None {
      assert input[0..] == input;
    } else {
      PostOrFrom(cfg, lex, input);
      var tail := input[|op.value.toks|..];
      PostsSound(cfg, lex, tail);
      var rest := ParsePosts(cfg, tail);
      assert kids == [op.value] + rest && kids[1..] == rest;
      ToksCons(op.value, rest);
      assert tail[|Toks(rest)|..] == input[|Toks(kids)|..];
    }
  }

  lemma {:induction false} OperandSound(cfg: Config, lex: Lexicon, input: seq<Token>)
    requires OneWord(cfg, lex) && ParsePost(cfg, input).Some?
    ensures
      var t := ParsePost(cfg, input).value;
      var a := ReadOperand(cfg, t.kids[0]);
      && |cfg.opens| == |cfg.closes| && Operand(cfg, a)
      && (OpenEnd(a) ==> Quiet(cfg, input[|t.toks|..], 0, true))
    decreases |input|, 0
  {
    hide OneWord, Guarded, Valid, Separate, LeafOk, LeavesOk, Consumes, ReadsClass, HasId, From, FromSome;
    Facts(cfg, lex);
    if cfg.val.parse(input).Some? {
      ValSound(cfg, lex, input);
    } else if ParsePreSeq(cfg, input).Some? {
      PreOrFrom(cfg, lex, input);
      PrefixSound(cfg, input);
      LevelSound(cfg, lex, |cfg.bins|, input[|ParsePreOr(cfg, input).value.toks|..]);
    } else {
      var i := ParensWhich(cfg, 0, input);
      var open := cfg.opens[i].parse(input).value;
      LeafFrom(cfg.opens[i], lex, IsOpen(i), input);
      assert 0 < |open.toks| by { LeafWord(cfg.opens[i], lex, IsOpen(i), input); }
      LevelSound(cfg, lex, |cfg.bins|, input[|open.toks|..]);
      ParenSound(cfg, lex, i, input);
    }
  }

  lemma LeafWord(leaf: Leaf, lex: Lexicon, c: Class, input: seq<Token>)
    requires ReadsClass(leaf, lex, c) && leaf.parse(input).Some?
    ensures |leaf.parse(input).value.toks| == 1
  {
  }

  lemma ValSound(cfg: Config, lex: Lexicon, input: seq<Token>)
    requires OneWord(cfg, lex) && cfg.val.parse(input).Some?
    ensures
      var t := ParsePost(cfg, input).value.kids[0];
      ReadOperand(cfg, t) == Var(t) && From(cfg.val, t)
  {
    LeafFrom(cfg.val, lex, IsValue, input);
  }

  lemma PrefixSound(cfg: Config, input: seq<Token>)
    requires Guarded(cfg) && Separate(cfg) && cfg.val.parse(input).None? && ParsePreSeq(cfg, input).Some?
    ensures
      var op := ParsePreOr(cfg, input).value;
      var tail := input[|op.toks|..];
      var e := ParseLevel(cfg, |cfg.bins|, tail);
      var t := ParsePost(cfg, input).value;
      && ParsePreOr(cfg, input).Some? && e.Some?
      && ReadOperand(cfg, t.kids[0]) == Prefix(op.kids[0], ReadLevel(cfg, |cfg.bins|, e.value))
      && input[|t.toks|..] == tail[|e.value.toks|..]
  {
    hide Guarded, Valid, Separate, LeafOk, LeavesOk, Consumes, HasId, ParsePreOr, ParseLevel, IsLevel, ReadLevel;
  }

  lemma {:induction false} ParensWhich(cfg: Config, j: nat, input: seq<Token>) returns (i: nat)
    requires Guarded(cfg) && j <= |cfg.opens| && ParseParens(cfg, j, input).Some?
    ensures i < |cfg.opens| && ParseParen(cfg, i, input) == ParseParens(cfg, j, input)
    ensures cfg.opens[i].parse(input).Some?
    decreases |cfg.opens| - j
  {
    hide Guarded, Valid, Separate, LeafOk, Consumes, HasId;
    if ParseParen(cfg, j, input).Some? {
      i := j;
    } else {
      i := ParensWhich(cfg, j + 1, input);
    }
  }

  lemma ParenSound(cfg: Config, lex: Lexicon, i: nat, input: seq<Token>)
    requires OneWord(cfg, lex) && i < |cfg.opens| && |cfg.opens| == |cfg.closes|
    requires cfg.val.parse(input).None? && ParsePreSeq(cfg, input).None?
    requires ParseParen(cfg, i, input).Some? && ParseParens(cfg, 0, input) == ParseParen(cfg, i, input)
    requires
      var tail := input[|cfg.opens[i].parse(input).value.toks|..];
      var e := ParseLevel(cfg, |cfg.bins|, tail);
      e.Some? ==> InLevel(cfg, |cfg.bins|, ReadLevel(cfg, |cfg.bins|, e.value))
    ensures
      var a := ReadOperand(cfg, ParsePost(cfg, input).value.kids[0]);
      Operand(cfg, a) && a.Paren?
  {
    hide OneWord, Guarded, Valid, Separate, LeafOk, LeavesOk, Consumes, ReadsClass, HasId, From;
    hide ParseLevel, IsLevel, ReadLevel, ParsePreSeq;
    Facts(cfg, lex);
    var open := cfg.opens[i].parse(input).value;
    var rest := input[|open.toks|..];
    var arg := ParseRef(cfg, rest).value;
    LeafFrom(cfg.opens[i], lex, IsOpen(i), input);
    LeafFrom(cfg.closes[i], lex, IsClose(i), rest[|arg.toks|..]);
  }

  lemma {:induction false} TermSound(cfg: Config, lex: Lexicon, input: seq<Token>)
    requires OneWord(cfg, lex) && ParseLevel(cfg, 0, input).Some?
    ensures
      var t := ParseLevel(cfg, 0, input).value;
      var a := ReadLevel(cfg, 0, t);
      && |cfg.opens| == |cfg.closes| && InLevel(cfg, 0, a)
      && Quiet(cfg, input[|t.toks|..], 0, OpenEnd(a))
    decreases |input|, 1
  {
    hide OneWord, Guarded, Valid, Separate, LeafOk, LeavesOk, Consumes, ReadsClass, HasId, From, FromSome, IsOp;
    hide ParsePost, IsOperand, ReadOperand, ParsePostOr;
    Facts(cfg, lex);
    OperandSound(cfg, lex, input);
    var post := ParsePost(cfg, input).value;
    var tail := input[|post.toks|..];
    PostsSound(cfg, lex, tail);
    var ops := ParsePosts(cfg, tail);
    assert tail[|Toks(ops)|..] == input[|post.toks + Toks(ops)|..];
    assert ops == [] ==> input[|post.toks + Toks(ops)|..] == tail;
    assert |ReadPostOps(cfg, ops)| == |ops|;
  }

  lemma {:induction false} LevelSound(cfg: Config, lex: Lexicon, level: nat, input: seq<Token>)
    requires OneWord(cfg, lex) && level <= |cfg.bins| && ParseLevel(cfg, level, input).Some?
    ensures
      var t := ParseLevel(cfg, level, input).value;
      var a := ReadLevel(cfg, level, t);
      && |cfg.opens| == |cfg.closes| && InLevel(cfg, level, a)
      && Quiet(cfg, input[|t.toks|..], level, OpenEnd(a))
    decreases |input|, 2 * level + 2
  {
    hide OneWord, Guarded, Valid, Separate, LeafOk, LeavesOk, Consumes, ReadsClass, HasId, From, FromSome;
    hide ParseLevel, ParseSteps, ParsePostOr, IsLevel, ReadLevel, InLevel, Quiet;
    if level == 0 {
      TermSound(cfg, lex, input);
    } else {
      LevelDown(cfg, lex, level - 1, input);
      LevelSound(cfg, lex, level - 1, input);
      var first := ParseLevel(cfg, level - 1, input).value;
      StepsSound(cfg, lex, level - 1, input[|first.toks|..]);
      JoinSound(cfg, lex, level - 1, input, first);
    }
  }

  lemma LevelDown(cfg: Config, lex: Lexicon, level: nat, input: seq<Token>)
    requires OneWord(cfg, lex) && level < |cfg.bins| && ParseLevel(cfg, level + 1, input).Some?
    ensures Guarded(cfg) && Separate(cfg) && ParseLevel(cfg, level, input).Some?
  {
    hide OneWord, Guarded, Valid, Separate, LeafOk, LeavesOk, Consumes, ReadsClass, HasId;
    Facts(cfg, lex);
  }

  /** A first operand and the steps after it make an expression of the next level. */
  lemma JoinSound(cfg: Config, lex: Lexicon, level: nat, input: seq<Token>, first: Tree)
    requires OneWord(cfg, lex) && |cfg.opens| == |cfg.closes| && level < |cfg.bins|
    requires ParseLevel(cfg, level, input) == Some(first)
    requires
      var a := ReadLevel(cfg, level, first);
      var tail := input[|first.toks|..];
      var kids := ParseSteps(cfg, level, tail);
      var steps := ReadSteps(cfg, level, kids);
      && InLevel(cfg, level, a) && Quiet(cfg, tail, level, OpenEnd(a))
      && InSteps(cfg, level, steps)
      && (kids == [] <==> ParseStep(cfg, level, tail) == None)
      && (kids != [] ==> Quiet(cfg, tail[|Toks(kids)|..], level + 1, OpenEnd(steps[|steps| - 1].arg)))
    ensures
      var t := ParseLevel(cfg, level + 1, input);
      && t.Some?
      && InLevel(cfg, level + 1, ReadLevel(cfg, level + 1, t.value))
      && Quiet(cfg, input[|t.value.toks|..], level + 1, OpenEnd(ReadLevel(cfg, level + 1, t.value)))
  {
    hide OneWord, Guarded, Valid, Separate, LeafOk, LeavesOk, Consumes, ReadsClass, HasId, From, FromSome, IsOp, IsStep;
    hide ParseLevel, ParseStep, ParseSteps, ParsePostOr, InSteps, IsLevel, ReadLevel, ReadSteps;
    Facts(cfg, lex);
    LevelUp(cfg, level, input, first);
    var tail := input[|first.toks|..];
    var kids := ParseSteps(cfg, level, tail);
    assert tail[|Toks(kids)|..] == input[|first.toks + Toks(kids)|..];
    ChainLevel(cfg, level, ReadLevel(cfg, level, first));
  }

  lemma {:induction false} ChainLevel(cfg: Config, level: nat, a: Ast)
    requires |cfg.opens| == |cfg.closes| && level <= |cfg.bins| && InLevel(cfg, level, a)
    ensures a.Chain? ==> a.level < level
  {
    hide FromSome, From;
    if level > 0 && !(a.Chain? && a.level == level - 1) {
      ChainLevel(cfg, level - 1, a);
    }
  }

  lemma {:induction false} StepsSound(cfg: Config, lex: Lexicon, level: nat, input: seq<Token>)
    requires OneWord(cfg, lex) && level < |cfg.bins|
    ensures
      var kids := ParseSteps(cfg, level, input);
      var steps := ReadSteps(cfg, level, kids);
      && |cfg.opens| == |cfg.closes| && InSteps(cfg, level, steps)
      && (kids == [] <==> ParseStep(cfg, level, input) == None)
      && (kids != [] ==> Quiet(cfg, input[|Toks(kids)|..], level + 1, OpenEnd(steps[|steps| - 1].arg)))
    decreases |input|, 2 * level + 3, 1
  {
    hide OneWord, Guarded, Valid, Separate, LeafOk, LeavesOk, Consumes, ReadsClass, HasId, From, FromSome, IsOp;
    hide ParseStep, ParseLevel, IsLevel, IsStep, ReadLevel, InLevel, ParsePostOr;
    Facts(cfg, lex);
    var step := ParseStep(cfg, level, input);
    if step.Some? {
      StepSound(cfg, lex, level, input);
      var tail := input[|step.value.toks|..];
      StepsSound(cfg, lex, level, tail);
      StepsUnfold(cfg, level, input);
      assert ParseSteps(cfg, level, tail) == [] ==> tail[0..] == tail;
    }
  }

  /** A step that takes words, and those after it. */
  lemma StepsUnfold(cfg: Config, level: nat, input: seq<Token>)
    requires Guarded(cfg) && Separate(cfg) && level < |cfg.bins|
    requires ParseStep(cfg, level, input).Some? && ParseStep(cfg, level, input).value.toks != []
    ensures
      var t := ParseStep(cfg, level, input).value;
      var tail := input[|t.toks|..];
      var kids, rest := ParseSteps(cfg, level, input), ParseSteps(cfg, level, tail);
      && kids != [] && tail[|Toks(rest)|..] == input[|Toks(kids)|..]
      && ReadSteps(cfg, level, kids)
         == [Step(t.kids[0], ReadLevel(cfg, level, t.kids[1]))] + ReadSteps(cfg, level, rest)
  {
    hide Guarded, Separate, LeafOk, LeavesOk, Consumes, HasId, ParseStep, ParseLevel, IsLevel, IsStep, ReadLevel;
    var t := ParseStep(cfg, level, input).value;
    var rest := ParseSteps(cfg, level, input[|t.toks|..]);
    var kids := ParseSteps(cfg, level, input);
    assert kids == [t] + rest && kids[1..] == rest;
    ToksCons(t, rest);
  }

  lemma {:induction false} StepSound(cfg: Config, lex: Lexicon, level: nat, input: seq<Token>)
    requires OneWord(cfg, lex) && level < |cfg.bins| && ParseStep(cfg, level, input).Some?
    ensures
      var t := ParseStep(cfg, level, input).value;
      var s := Step(t.kids[0], ReadLevel(cfg, level, t.kids[1]));
      && |cfg.opens| == |cfg.closes| && InStep(cfg, level, s) && t.toks != []
      && Quiet(cfg, input[|t.toks|..], level, OpenEnd(s.arg))
    decreases |input|, 2 * level + 3, 0
  {
    hide OneWord, Guarded, Valid, Separate, LeafOk, LeavesOk, Consumes, ReadsClass, HasId, From, FromSome, IsOp;
    hide ParseLevel, IsLevel, ReadLevel, InLevel, Quiet;
    Facts(cfg, lex);
    var op := cfg.bins[level].parse(input).value;
    LeafFrom(cfg.bins[level], lex, IsBin(level), input);
    LeafWord(cfg.bins[level], lex, IsBin(level), input);
    var tail := input[|op.toks|..];
    LevelSound(cfg, lex, level, tail);
    var arg := ParseLevel(cfg, level, tail).value;
    assert tail[|arg.toks|..] == input[|op.toks + arg.toks|..];
  }

  // ----- the language ------------------------------------------------------------------

  /** A parsed prefix reads as a well-formed expression that prints as those words. */
  lemma ParseThenPrint(cfg: Config, lex: Lexicon, input: seq<Token>)
    requires OneWord(cfg, lex) && Parse(cfg, input).Some?
    ensures
      var t := Parse(cfg, input).value;
      InLevel(cfg, |cfg.bins|, Read(cfg, t)) && Print(Read(cfg, t)) == t.toks && t.toks <= input
  {
    LevelSound(cfg, lex, |cfg.bins|, input);
    PrintRead(cfg, Parse(cfg, input).value);
  }

  /** The parser consumes a whole vector exactly when some well-formed expression prints as it. */
  lemma AcceptsExactlyPrinted(cfg: Config, lex: Lexicon, input: seq<Token>)
    requires OneWord(cfg, lex)
    ensures
      (Parse(cfg, input).Some? && Parse(cfg, input).value.toks == input)
      <==> exists a :: InLevel(cfg, |cfg.bins|, a) && Print(a) == input
  {
    if Parse(cfg, input).Some? && Parse(cfg, input).value.toks == input {
      ParseThenPrint(cfg, lex, input);
    }
    if a :| InLevel(cfg, |cfg.bins|, a) && Print(a) == input {
      PrintThenParse(cfg, lex, a);
    }
  }

  /** The grammar is unambiguous. */
  lemma PrintIsInjective(cfg: Config, lex: Lexicon, a: Ast, b: Ast)
    requires OneWord(cfg, lex) && InLevel(cfg, |cfg.bins|, a) && InLevel(cfg, |cfg.bins|, b)
    requires Print(a) == Print(b)
    ensures a == b
  {
    PrintThenParse(cfg, lex, a);
    PrintThenParse(cfg, lex, b);
  }
}
