/**
 What the operators of a command mean, from the words they are written with to
 the input that the compiled node takes.
 */
module CmdOperators {
  import opened Prelude
  import opened Grammar
  import opened GrammarFacts
  import opened CmdCompile
  import opened CmdMatch
  import E = ExprEval
  import G = ExprGrammar

  function Compile(table: Names, a: E.Ast): E.Meaning<Node> { E.Denote(CmdOps(table), a) }

  predicate Written(op: G.Tree, text: string) { op.toks == [Token(text)] }

  // ----- repetitions --------------------------------------------------------------------------------------

  /** After one match the minimum of 1 is met. */
  lemma {:induction false} MinMet(v: Node, count: nat, off: nat, done: seq<PTree>, input: seq<Token>)
    requires off <= |input| && count >= 1
    ensures ManyLoop([], 0, 0, 0, v, count, off, done, input) == ManyLoop([], 0, 1, 0, v, count, off, done, input)
    decreases |input| - off
  {
    hide ParseChild;
    var r := ParseChild([] + [Frame(0, done)], v, input[off..]);
    if r.Matched? && r.t.words != [] {
      MinMet(v, count + 1, off + |r.t.words|, done + [r.t], input);
    }
  }

  /** Without a minimum: what is taken with a minimum of 1, or nothing. */
  lemma {:induction false} StarTakes(v: Node, input: seq<Token>)
    requires Safe(v)
    ensures Took(Many(0, 0, 0, v), input) ==
      if Took(Many(0, 1, 0, v), input).Some? then Took(Many(0, 1, 0, v), input) else Some(0)
  {
    hide ParseChild, Safe;
    NoError([] + [Frame(0, [])], v, input);
    assert input[0..] == input;
    var r := ParseChild([] + [Frame(0, [])], v, input);
    if r.Matched? && r.t.words != [] {
      MinMet(v, 1, |r.t.words|, [] + [r.t], input);
      ManyMore(v, 1, |r.t.words|, [] + [r.t], input);
    }
    StarIs(0, v, input);
    StarIs(1, v, input);
    ManyOnce(0, v, input);
    ManyOnce(1, v, input);
  }

  lemma {:induction false} ManyOnce(min: nat, v: Node, input: seq<Token>)
    requires min <= 1
    ensures
      var r := ParseChild([] + [Frame(0, [])], v, input);
      ManyLoop([], 0, min, 0, v, 0, 0, [], input) ==
      if r.ChildError? then Body(Error, [])
      else if r.Matched? && r.t.words != [] then ManyLoop([], 0, min, 0, v, 1, |r.t.words|, [] + [r.t], input)
      else if min == 1 then Body(NoMatch, []) else Body(Match(0), [])
  {
    hide ParseChild;
    assert input[0..] == input;
  }

  lemma {:induction false} StarIs(min: nat, v: Node, input: seq<Token>)
    ensures
      var b := ManyLoop([], 0, min, 0, v, 0, 0, [], input);
      Took(Many(0, min, 0, v), input) == if b.ret.Match? then Some(b.ret.n) else None
  {
    hide ManyLoop;
    var b := ManyLoop([], 0, min, 0, v, 0, 0, [], input);
    assert ParseBody([], Many(0, min, 0, v), input) == b;
  }

  /** The operator '+' compiles if its operand does, and matches if and only if that takes a word. */
  lemma PlusMeans(table: Names, a: E.Ast, op: G.Tree, input: seq<Token>)
    requires Written(op, "+")
    ensures
      var v, g := Compile(table, a), Compile(table, E.Postfix(a, [op]));
      && (v.Value? <==> g.Value?)
      && (v.Value? && Safe(v.v) ==>
            (Took(g.v, input).Some? <==> Took(v.v, input).Some? && Took(v.v, input).value > 0))
  {
    hide Safe, Took;
    var v := Compile(table, a);
    if v.Value? && Safe(v.v) {
      PlusMatches(v.v, input);
    }
  }

  /** The operator '*' compiles if its operand does, always matches, and takes what '+' takes, or nothing. */
  lemma StarMeans(table: Names, a: E.Ast, star: G.Tree, plus: G.Tree, input: seq<Token>)
    requires Written(star, "*") && Written(plus, "+")
    ensures
      var v, g, p := Compile(table, a), Compile(table, E.Postfix(a, [star])), Compile(table, E.Postfix(a, [plus]));
      && (v.Value? <==> g.Value?)
      && (v.Value? && Safe(v.v) ==>
            p.Value? && Took(g.v, input) == if Took(p.v, input).Some? then Took(p.v, input) else Some(0))
  {
    hide Safe, Took;
    var v := Compile(table, a);
    if v.Value? && Safe(v.v) {
      StarTakes(v.v, input);
    }
  }

  /** Brackets compile if what is between them does, and take what that takes, or nothing. */
  lemma BracketsMean(table: Names, open: G.Tree, a: E.Ast, close: G.Tree, input: seq<Token>)
    requires Written(open, "[")
    ensures
      var v, g := Compile(table, a), Compile(table, E.Paren(open, a, close));
      && (v.Value? <==> g.Value?)
      && (v.Value? && Safe(v.v) ==>
            Took(g.v, input) == if Took(v.v, input).Some? then Took(v.v, input) else Some(0))
  {
    hide Safe, Took;
    var v := Compile(table, a);
    if v.Value? && Safe(v.v) {
      BracketsMatch(v.v, input);
    }
  }

  /** Parentheses compile to what is between them. */
  lemma ParenthesesMean(table: Names, open: G.Tree, a: E.Ast, close: G.Tree)
    requires Written(open, "(")
    ensures Compile(table, E.Paren(open, a, close)) == Compile(table, a)
  {
  }

  // ----- identifiers --------------------------------------------------------------------------------------

  /** Entry k is the first one of the table with this identifier. */
  predicate FirstNamed(table: Names, k: nat, str: string) {
    k < |table| && table[k].0 == str && forall j :: 0 <= j < k ==> table[j].0 != str
  }

  lemma {:induction false} NamedIs(table: Names, str: string)
    ensures forall k: nat :: FirstNamed(table, k, str) ==> Named(table, str) == table[k].1
    ensures (forall k :: 0 <= k < |table| ==> table[k].0 != str) ==> Named(table, str) == Str(0, Token(str))
    decreases table
  {
    if table != [] {
      NamedIs(table[1..], str);
      forall k: nat | FirstNamed(table, k, str)
        ensures Named(table, str) == table[k].1
      {
        if k > 0 {
          assert FirstNamed(table[1..], k - 1, str) by {
            forall j | 0 <= j < k - 1
              ensures table[1..][j].0 != str
            {
              assert table[1..][j] == table[j + 1];
            }
          }
          assert table[1..][k - 1] == table[k];
        }
      }
    }
  }

  /** An identifier is the first node of that name, and any other word a node that takes exactly this word. */
  lemma WordMeans(table: Names, leaf: G.Tree, str: string, input: seq<Token>)
    requires Written(leaf, str)
    ensures
      var g := Compile(table, E.Var(leaf));
      && g.Value?
      && (forall k: nat :: FirstNamed(table, k, str) ==> g.v == table[k].1)
      && ((forall k :: 0 <= k < |table| ==> table[k].0 != str) ==>
            Took(g.v, input) == if input != [] && input[0].text == str then Some(1) else None)
  {
    NamedIs(table, str);
    StrTakes(str, input);
    hide Named, Took;
  }

  lemma StrTakes(str: string, input: seq<Token>)
    ensures Took(Str(0, Token(str)), input) == if input != [] && input[0].text == str then Some(1) else None
  {
    var takes := input != [] && input[0].text == str;
    assert ParseBody([], Str(0, Token(str)), input) == Body(if takes then Match(1) else NoMatch, []);
    assert takes ==> |input[..1]| == 1;
  }

  // ----- which commands compile ---------------------------------------------------------------------------

  const BINARY: set<seq<Token>> := {[], [Token("|")], [Token(",")], [Token("&")]}
  const POSTFIX: set<seq<Token>> := {[Token("*")], [Token("+")]}
  const OPENING: set<seq<Token>> := {[Token("[")], [Token("(")]}

  /** Identifiers of one word, and no operator but those of commands. */
  predicate Known(a: E.Ast) {
    match a
    case Var(leaf) => |leaf.toks| == 1
    case Prefix(_, _) => false
    case Paren(open, arg, _) => open.toks in OPENING && Known(arg)
    case Postfix(arg, ops) => Known(arg) && |ops| <= 1 && forall op :: op in ops ==> op.toks in POSTFIX
    case Chain(_, first, steps) =>
      Known(first) && forall s :: s in steps ==> s.op.toks in BINARY && Known(s.arg)
  }

  predicate StepsKnown(steps: seq<E.Step>) {
    forall s :: s in steps ==> s.op.toks in BINARY && Known(s.arg)
  }

  lemma OneWord(words: seq<Token>, text: string)
    ensures OpText(words) == Some(text) <==> words == [Token(text)]
  {
    if |words| == 1 {
      assert words == [words[0]];
    }
  }

  lemma OperatorsKnown(v: Node, words: seq<Token>, w: Node)
    ensures BinOp(v, words, w).Some? <==> words in BINARY
    ensures PostOp(v, words).Some? <==> words in POSTFIX
    ensures Parenthesis(words, v).Some? <==> words in OPENING
  {
    OneWord(words, "*");
    OneWord(words, "+");
    OneWord(words, "[");
    OneWord(words, "(");
    if |words| == 1 {
      assert words == [words[0]] && words[0] == Token(words[0].text);
    }
  }

  /** A command compiles if and only if it is made of known operators and identifiers of one word. */
  lemma {:induction false} CompilesIffKnown(table: Names, a: E.Ast)
    ensures Compile(table, a).Value? <==> Known(a)
    decreases a, 0
  {
    hide BinOp, PostOp, Parenthesis, Named;
    match a
    case Var(leaf) =>
    case Prefix(op, arg) => CompilesIffKnown(table, arg);
    case Paren(open, arg, close) =>
      CompilesIffKnown(table, arg);
      if Compile(table, arg).Value? {
        OperatorsKnown(Compile(table, arg).v, open.toks, Empty(0));
      }
    case Postfix(arg, ops) =>
      CompilesIffKnown(table, arg);
      if Compile(table, arg).Value? && |ops| == 1 {
        OperatorsKnown(Compile(table, arg).v, ops[0].toks, Empty(0));
      }
    case Chain(_, first, steps) =>
      CompilesIffKnown(table, first);
      if Compile(table, first).Value? && steps != [] {
        TailKnown(table, Compile(table, first).v, steps);
      }
  }

  lemma {:induction false} StepKnown(table: Names, step: E.Step)
    ensures E.DenoteStep(CmdOps(table), step).Value? <==> Known(step.arg)
    decreases step, 0
  {
    CompilesIffKnown(table, step.arg);
  }

  lemma {:induction false} TailKnown(table: Names, v: Node, steps: seq<E.Step>)
    requires steps != []
    ensures
      var rest := E.DenoteTail(CmdOps(table), steps);
      (rest.Value? && BinOp(v, steps[0].op.toks, rest.v).Some?) <==> StepsKnown(steps)
    decreases steps, 2
  {
    hide BinOp, PostOp, Parenthesis, Named;
    StepKnown(table, steps[0]);
    var w := E.DenoteStep(CmdOps(table), steps[0]);
    if w.Value? {
      StepsKnownIff(table, w.v, steps[1..]);
      var rest := E.DenoteTail(CmdOps(table), steps);
      if rest.Value? {
        OperatorsKnown(v, steps[0].op.toks, rest.v);
      }
    }
    StepsSplit(steps);
  }

  lemma StepsSplit(steps: seq<E.Step>)
    requires steps != []
    ensures StepsKnown(steps) <==>
      steps[0].op.toks in BINARY && Known(steps[0].arg) && StepsKnown(steps[1..])
  {
    hide Known;
    forall s | s in steps
      ensures s == steps[0] || s in steps[1..]
    {
      var i :| 0 <= i < |steps| && steps[i] == s;
      if i > 0 {
        assert steps[1..][i - 1] == s;
      }
    }
  }

  lemma {:induction false} StepsKnownIff(table: Names, v: Node, steps: seq<E.Step>)
    ensures E.DenoteSteps(CmdOps(table), v, steps).Value? <==> StepsKnown(steps)
    decreases steps, 1
  {
    hide BinOp, PostOp, Parenthesis, Named;
    if steps != [] {
      StepKnown(table, steps[0]);
      var w := E.DenoteStep(CmdOps(table), steps[0]);
      if w.Value? {
        OperatorsKnown(v, steps[0].op.toks, w.v);
        var r := BinOp(v, steps[0].op.toks, w.v);
        if r.Some? {
          StepsKnownIff(table, r.value, steps[1..]);
        }
      }
      StepsSplit(steps);
    }
  }
}
