/**
 When evaluation is safe, told from the words alone: a caller can look for two
 postfix operators in a row before parsing.
 */
module ExprGuard {
  import opened Prelude
  import opened ExprGrammar
  import opened ExprEval
  import opened ExprRoundTrip
  import opened ExprLanguage

  predicate IsPostWord(lex: Lexicon, w: Token) {
    lex.cls(w).IsPostfix?
  }

  /** Two postfix operators in a row. */
  predicate Adjacent(lex: Lexicon, words: seq<Token>) {
    exists i :: 0 <= i < |words| - 1 && IsPostWord(lex, words[i]) && IsPostWord(lex, words[i + 1])
  }

  lemma AdjacentJoin(lex: Lexicon, x: seq<Token>, y: seq<Token>)
    requires x != [] && y != [] && !(IsPostWord(lex, x[|x| - 1]) && IsPostWord(lex, y[0]))
    ensures Adjacent(lex, x + y) <==> Adjacent(lex, x) || Adjacent(lex, y)
  {
    hide IsPostWord;
    var z := x + y;
    if Adjacent(lex, x) {
      var i :| 0 <= i < |x| - 1 && IsPostWord(lex, x[i]) && IsPostWord(lex, x[i + 1]);
      assert z[i] == x[i] && z[i + 1] == x[i + 1];
    }
    if Adjacent(lex, y) {
      var i :| 0 <= i < |y| - 1 && IsPostWord(lex, y[i]) && IsPostWord(lex, y[i + 1]);
      assert z[|x| + i] == y[i] && z[|x| + i + 1] == y[i + 1];
    }
    if Adjacent(lex, z) {
      var i :| 0 <= i < |z| - 1 && IsPostWord(lex, z[i]) && IsPostWord(lex, z[i + 1]);
      if i >= |x| {
        assert y[i - |x|] == z[i] && y[i - |x| + 1] == z[i + 1];
      }
    }
  }

  lemma LeafWords(leaf: Leaf, lex: Lexicon, c: Class, t: Tree)
    requires ReadsClass(leaf, lex, c) && From(leaf, t)
    ensures |t.toks| == 1 && lex.cls(t.toks[0]) == c && !Adjacent(lex, t.toks)
  {
  }

  lemma PreWords(cfg: Config, lex: Lexicon, t: Tree)
    requires OneWord(cfg, lex) && FromSome(cfg.pres, t)
    ensures |t.toks| == 1 && !IsPostWord(lex, t.toks[0]) && !Adjacent(lex, t.toks)
  {
    var i :| 0 <= i < |cfg.pres| && From(cfg.pres[i], t);
    LeafWords(cfg.pres[i], lex, IsPre(i), t);
  }

  lemma PostWords(cfg: Config, lex: Lexicon, t: Tree)
    requires OneWord(cfg, lex) && FromSome(cfg.posts, t)
    ensures |t.toks| == 1 && IsPostWord(lex, t.toks[0])
  {
    var i :| 0 <= i < |cfg.posts| && From(cfg.posts[i], t);
    LeafWords(cfg.posts[i], lex, IsPostfix(i), t);
  }

  lemma {:induction false} OpsWords(cfg: Config, lex: Lexicon, ops: seq<Tree>)
    requires OneWord(cfg, lex) && forall k :: k in ops ==> FromSome(cfg.posts, k)
    ensures |Toks(ops)| == |ops| && forall i :: 0 <= i < |ops| ==> IsPostWord(lex, Toks(ops)[i])
  {
    hide OneWord, Guarded, FromSome;
    if ops != [] {
      assert ops[0] in ops;
      PostWords(cfg, lex, ops[0]);
      OpsWords(cfg, lex, ops[1..]);
    }
  }

  /** What the words of an expression look like from outside. */
  ghost predicate Shape(lex: Lexicon, a: Ast, words: seq<Token>) {
    && words != [] && !IsPostWord(lex, words[0])
    && (a.Var? || a.Paren? ==> !IsPostWord(lex, words[|words| - 1]))
    && (Adjacent(lex, words) <==> DoublePost(a))
  }

  lemma {:induction false} OperandShape(cfg: Config, lex: Lexicon, a: Ast)
    requires OneWord(cfg, lex) && |cfg.opens| == |cfg.closes| && Operand(cfg, a)
    ensures Shape(lex, a, Print(a))
    decreases a, 0
  {
    hide OneWord, Guarded, ReadsClass, From, FromSome, Adjacent;
    Facts(cfg, lex);
    match a
    case Var(leaf) => LeafWords(cfg.val, lex, IsValue, leaf);
    case Prefix(op, arg) =>
      PreWords(cfg, lex, op);
      LevelShape(cfg, lex, |cfg.bins|, arg);
      AdjacentJoin(lex, op.toks, Print(arg));
    case Paren(open, arg, close) =>
      var i :| 0 <= i < |cfg.opens| && From(cfg.opens[i], open) && From(cfg.closes[i], close);
      LeafWords(cfg.opens[i], lex, IsOpen(i), open);
      LeafWords(cfg.closes[i], lex, IsClose(i), close);
      LevelShape(cfg, lex, |cfg.bins|, arg);
      AdjacentJoin(lex, open.toks, Print(arg));
      AdjacentJoin(lex, open.toks + Print(arg), close.toks);
  }

  lemma PostfixShape(cfg: Config, lex: Lexicon, arg: Ast, ops: seq<Tree>)
    requires OneWord(cfg, lex) && ops != [] && forall k :: k in ops ==> FromSome(cfg.posts, k)
    requires (arg.Var? || arg.Paren?) && Shape(lex, arg, Print(arg))
    ensures Shape(lex, Postfix(arg, ops), Print(Postfix(arg, ops)))
  {
    hide OneWord, Guarded, FromSome, IsPostWord;
    OpsWords(cfg, lex, ops);
    AdjacentJoin(lex, Print(arg), Toks(ops));
    if |ops| > 1 {
      assert IsPostWord(lex, Toks(ops)[0]) && IsPostWord(lex, Toks(ops)[0 + 1]);
    }
  }

  lemma {:induction false} LevelShape(cfg: Config, lex: Lexicon, level: nat, a: Ast)
    requires OneWord(cfg, lex) && |cfg.opens| == |cfg.closes| && level <= |cfg.bins| && InLevel(cfg, level, a)
    ensures Shape(lex, a, Print(a))
    decreases a, 1 + level
  {
    hide OneWord, Guarded, From, FromSome, Adjacent;
    if level == 0 {
      if a.Postfix? {
        OperandShape(cfg, lex, a.arg);
        PostfixShape(cfg, lex, a.arg, a.ops);
      } else {
        OperandShape(cfg, lex, a);
      }
    } else if a.Chain? && a.level == level - 1 {
      LevelShape(cfg, lex, level - 1, a.first);
      StepsShape(cfg, lex, level - 1, a.steps);
      AdjacentJoin(lex, Print(a.first), PrintSteps(a.steps));
    } else {
      LevelShape(cfg, lex, level - 1, a);
    }
  }

  lemma {:induction false} StepsShape(cfg: Config, lex: Lexicon, level: nat, steps: seq<Step>)
    requires OneWord(cfg, lex) && |cfg.opens| == |cfg.closes| && level < |cfg.bins|
    requires InSteps(cfg, level, steps) && steps != []
    ensures
      var words := PrintSteps(steps);
      && words != [] && !IsPostWord(lex, words[0])
      && (Adjacent(lex, words) <==> exists s :: s in steps && DoublePost(s.arg))
    decreases steps, 0
  {
    hide OneWord, Guarded, From, Adjacent, InLevel;
    StepShape(cfg, lex, level, steps[0]);
    assert steps == [steps[0]] + steps[1..];
    if |steps| > 1 {
      StepsShape(cfg, lex, level, steps[1..]);
      AdjacentJoin(lex, PrintStep(steps[0]), PrintSteps(steps[1..]));
    } else {
      assert PrintSteps(steps) == PrintStep(steps[0]);
    }
  }

  lemma {:induction false} StepShape(cfg: Config, lex: Lexicon, level: nat, s: Step)
    requires OneWord(cfg, lex) && |cfg.opens| == |cfg.closes| && level < |cfg.bins| && InStep(cfg, level, s)
    ensures
      var words := PrintStep(s);
      && words != [] && !IsPostWord(lex, words[0])
      && (Adjacent(lex, words) <==> DoublePost(s.arg))
    decreases s, 0
  {
    hide OneWord, Guarded, From, ReadsClass, Adjacent;
    Facts(cfg, lex);
    LeafWords(cfg.bins[level], lex, IsBin(level), s.op);
    LevelShape(cfg, lex, level, s.arg);
    AdjacentJoin(lex, s.op.toks, Print(s.arg));
  }

  /**
   Evaluating what was parsed runs into the source's assertion exactly when the
   parsed words hold two postfix operators in a row (callbacks that succeed);
   without such a pair the assertion is out of reach whatever the callbacks do.
   */
  lemma AssertionIffAdjacent<V(!new)>(cfg: Config, lex: Lexicon, ops: Ops<V>, input: seq<Token>)
    requires OneWord(cfg, lex) && Parse(cfg, input).Some?
    ensures
      var t := Parse(cfg, input).value;
      && (Total(ops) ==> (Eval(cfg, ops, t).Asserted? <==> Adjacent(lex, t.toks)))
      && (!Adjacent(lex, t.toks) ==> !Eval(cfg, ops, t).Asserted?)
  {
    var t := Parse(cfg, input).value;
    ParseThenPrint(cfg, lex, input);
    Facts(cfg, lex);
    LevelShape(cfg, lex, |cfg.bins|, Read(cfg, t));
    AssertionIffDoublePost(cfg, ops, t);
  }
}
