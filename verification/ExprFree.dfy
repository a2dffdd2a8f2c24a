/**
 Which callback gets what: evaluation with callbacks that record their
 arguments, any of which may report an error.
 */
module ExprFree {
  import opened Prelude
  import opened ExprGrammar
  import opened ExprEval
  import opened ExprRoundTrip
  import opened ExprLanguage

  /** A call of a callback with its arguments. */
  datatype Call =
    | CallVar(leaf: Tree)
    | CallPre(arg: Call, op: Tree)
    | CallPost(arg: Call, op: Tree)
    | CallBin(left: Call, op: Tree, right: Call)
    | CallParen(open: Tree, close: Tree, arg: Call)

  function Try(fails: Call -> bool, c: Call): Option<Call> { if fails(c) then None else Some(c) }

  /** Callbacks that record the call, and fail on the calls given. */
  function Recording(fails: Call -> bool): Ops<Call> {
    Ops(
      (leaf: Tree) => Try(fails, CallVar(leaf)),
      (v: Call, op: Tree) => Try(fails, CallPre(v, op)),
      (v: Call, op: Tree) => Try(fails, CallPost(v, op)),
      (v: Call, op: Tree, w: Call) => Try(fails, CallBin(v, op, w)),
      (open: Tree, close: Tree, v: Call) => Try(fails, CallParen(open, close, v)))
  }

  // ----- the calls that an expression asks for ----------------------------------------------------------

  function CallOf(a: Ast): Call
    requires !DoublePost(a)
    decreases a, 0
  {
    match a
    case Var(leaf) => CallVar(leaf)
    case Prefix(op, arg) => CallPre(CallOf(arg), op)
    case Paren(open, arg, close) => CallParen(open, close, CallOf(arg))
    case Postfix(arg, ops) => if ops == [] then CallOf(arg) else CallPost(CallOf(arg), ops[0])
    case Chain(_, first, steps) =>
      if steps == [] then CallOf(first) else CallBin(CallOf(first), steps[0].op, CallOfTail(steps))
  }

  /** What is right of the first operator: the last operator applies to all that is before it. */
  function CallOfTail(steps: seq<Step>): Call
    requires steps != [] && forall s :: s in steps ==> !DoublePost(s.arg)
    decreases steps, 1
  {
    var last := |steps| - 1;
    if last == 0 then CallOfStep(steps[0])
    else CallBin(CallOfTail(steps[..last]), steps[last].op, CallOfStep(steps[last]))
  }

  function CallOfStep(s: Step): Call
    requires !DoublePost(s.arg)
    decreases s, 0
  {
    CallOf(s.arg)
  }

  /** The call and those that make its arguments. */
  function Calls(c: Call): set<Call> {
    {c} +
    match c
    case CallVar(_) => {}
    case CallPre(arg, _) => Calls(arg)
    case CallPost(arg, _) => Calls(arg)
    case CallBin(l, _, r) => Calls(l) + Calls(r)
    case CallParen(_, _, arg) => Calls(arg)
  }

  ghost predicate SomeFails(fails: Call -> bool, c: Call) { exists x :: x in Calls(c) && fails(x) }

  /** The value of the call, or an error when one of the calls it takes fails. */
  ghost function Made(fails: Call -> bool, c: Call): Meaning<Call> { if SomeFails(fails, c) then Error else Value(c) }

  /** The words of the call, each operator between its operands. */
  function InOrder(c: Call): seq<Token> {
    match c
    case CallVar(leaf) => leaf.toks
    case CallPre(arg, op) => op.toks + InOrder(arg)
    case CallPost(arg, op) => InOrder(arg) + op.toks
    case CallBin(l, op, r) => InOrder(l) + op.toks + InOrder(r)
    case CallParen(open, close, arg) => open.toks + InOrder(arg) + close.toks
  }

  // ----- they are the calls made ------------------------------------------------------------------------

  lemma MadeOne(fails: Call -> bool, c: Call, arg: Call)
    requires Calls(c) == {c} + Calls(arg)
    ensures SomeFails(fails, c) <==> fails(c) || SomeFails(fails, arg)
  {
  }

  lemma MadeBin(fails: Call -> bool, l: Call, op: Tree, r: Call)
    ensures SomeFails(fails, CallBin(l, op, r)) <==>
      fails(CallBin(l, op, r)) || SomeFails(fails, l) || SomeFails(fails, r)
  {
    var c := CallBin(l, op, r);
    assert Calls(c) == {c} + Calls(l) + Calls(r);
  }

  lemma {:induction false} MakesCalls(fails: Call -> bool, a: Ast)
    requires !DoublePost(a)
    ensures Denote(Recording(fails), a) == Made(fails, CallOf(a))
    decreases a, 0
  {
    hide SomeFails;
    match a
    case Var(leaf) => VarMade(fails, leaf);
    case Prefix(op, arg) =>
      MakesCalls(fails, arg);
      MadeOne(fails, CallOf(a), CallOf(arg));
    case Paren(open, arg, close) =>
      MakesCalls(fails, arg);
      MadeOne(fails, CallOf(a), CallOf(arg));
    case Postfix(arg, ops) =>
      MakesCalls(fails, arg);
      if ops != [] {
        MadeOne(fails, CallOf(a), CallOf(arg));
      }
    case Chain(_, first, steps) =>
      MakesCalls(fails, first);
      if steps != [] {
        MakesTail(fails, steps);
        MadeBin(fails, CallOf(first), steps[0].op, CallOfTail(steps));
      }
  }

  lemma VarMade(fails: Call -> bool, leaf: Tree)
    ensures SomeFails(fails, CallVar(leaf)) <==> fails(CallVar(leaf))
  {
    assert Calls(CallVar(leaf)) == {CallVar(leaf)};
  }

  lemma {:induction false} MakesTail(fails: Call -> bool, steps: seq<Step>)
    requires steps != [] && forall s :: s in steps ==> !DoublePost(s.arg)
    ensures DenoteTail(Recording(fails), steps) == Made(fails, CallOfTail(steps))
    decreases steps, 2
  {
    hide SomeFails, Recording, Calls;
    assert steps == [steps[0]] + steps[1..];
    MakesStep(fails, steps[0]);
    assert CallOfTail([steps[0]]) == CallOfStep(steps[0]);
    if !SomeFails(fails, CallOfStep(steps[0])) {
      MakesSteps(fails, [steps[0]], steps[1..]);
    } else {
      FailsOn(fails, [steps[0]], steps[1..]);
    }
  }

  lemma {:induction false} MakesStep(fails: Call -> bool, s: Step)
    requires !DoublePost(s.arg)
    ensures DenoteStep(Recording(fails), s) == Made(fails, CallOfStep(s))
    decreases s, 0
  {
    MakesCalls(fails, s.arg);
  }

  /** One more step applies its operator to all that came before. */
  lemma TailSnoc(before: seq<Step>, s: Step)
    requires before != [] && forall x :: x in before + [s] ==> !DoublePost(x.arg)
    ensures !DoublePost(s.arg) && forall x :: x in before ==> !DoublePost(x.arg)
    ensures CallOfTail(before + [s]) == CallBin(CallOfTail(before), s.op, CallOfStep(s))
  {
    hide DoublePost;
    assert s in before + [s];
    assert forall x :: x in before ==> x in before + [s];
    assert (before + [s])[..|before|] == before;
  }

  /** What fails before the rest of the steps makes the whole fail. */
  lemma {:induction false} FailsOn(fails: Call -> bool, before: seq<Step>, steps: seq<Step>)
    requires before != [] && forall s :: s in before + steps ==> !DoublePost(s.arg)
    requires forall s :: s in before ==> !DoublePost(s.arg)
    requires SomeFails(fails, CallOfTail(before))
    ensures SomeFails(fails, CallOfTail(before + steps))
    decreases steps
  {
    hide SomeFails, CallOfTail, Calls, DoublePost;
    if steps == [] {
      assert before + steps == before;
    } else {
      var more := before + [steps[0]];
      assert before + steps == more + steps[1..];
      assert forall x :: x in more ==> x in before + steps;
      TailSnoc(before, steps[0]);
      MadeBin(fails, CallOfTail(before), steps[0].op, CallOfStep(steps[0]));
      FailsOn(fails, more, steps[1..]);
    }
  }

  lemma {:induction false} MakesSteps(fails: Call -> bool, before: seq<Step>, steps: seq<Step>)
    requires before != [] && forall s :: s in before + steps ==> !DoublePost(s.arg)
    requires forall s :: s in before ==> !DoublePost(s.arg)
    requires !SomeFails(fails, CallOfTail(before))
    ensures DenoteSteps(Recording(fails), CallOfTail(before), steps) == Made(fails, CallOfTail(before + steps))
    decreases steps, 1
  {
    hide SomeFails, CallOfTail, Calls, DoublePost, Denote;
    if steps == [] {
      assert before + steps == before;
    } else {
      var s := steps[0];
      var more := before + [s];
      assert before + steps == more + steps[1..];
      assert forall x :: x in more ==> x in before + steps;
      TailSnoc(before, s);
      MakesStep(fails, s);
      MadeBin(fails, CallOfTail(before), s.op, CallOfStep(s));
      if SomeFails(fails, CallOfTail(more)) {
        FailsOn(fails, more, steps[1..]);
      } else {
        MakesSteps(fails, more, steps[1..]);
      }
    }
  }

  /** The calls are made in the order of the words: each operator between its operands. */
  lemma {:induction false} WrittenInOrder(a: Ast)
    requires !DoublePost(a)
    ensures InOrder(CallOf(a)) == Print(a)
    decreases a, 0
  {
    match a
    case Var(leaf) =>
    case Prefix(op, arg) => WrittenInOrder(arg);
    case Paren(open, arg, close) => WrittenInOrder(arg);
    case Postfix(arg, ops) =>
      WrittenInOrder(arg);
      if ops != [] {
        assert ops == [ops[0]];
        assert Toks(ops) == ops[0].toks by { ToksCons(ops[0], []); }
      }
    case Chain(_, first, steps) =>
      WrittenInOrder(first);
      if steps != [] {
        TailInOrder(steps);
      }
  }

  lemma {:induction false} TailInOrder(steps: seq<Step>)
    requires steps != [] && forall s :: s in steps ==> !DoublePost(s.arg)
    ensures steps[0].op.toks + InOrder(CallOfTail(steps)) == PrintSteps(steps)
    decreases steps, 1
  {
    hide DoublePost;
    var last := |steps| - 1;
    var before, s := steps[..last], steps[last];
    assert steps == before + [s];
    StepInOrder(s);
    PrintSnoc(before, s);
    if last > 0 {
      TailInOrder(before);
      TailSnoc(before, s);
    } else {
      assert PrintSteps([]) == [];
    }
  }

  lemma {:induction false} StepInOrder(s: Step)
    requires !DoublePost(s.arg)
    ensures PrintStep(s) == s.op.toks + InOrder(CallOfStep(s))
    decreases s, 0
  {
    WrittenInOrder(s.arg);
  }

  lemma {:induction false} PrintSnoc(before: seq<Step>, s: Step)
    ensures PrintSteps(before + [s]) == PrintSteps(before) + PrintStep(s)
    decreases before
  {
    hide PrintStep;
    if before == [] {
      assert [s][1..] == [] && before + [s] == [s];
    } else {
      assert (before + [s])[1..] == before[1..] + [s];
      PrintSnoc(before[1..], s);
    }
  }

  /**
   An expression that parses, without two postfix operators on an operand, is
   evaluated by one tree of calls, the one that the words spell; the evaluation
   fails if and only if one of these calls does.
   */
  lemma EvaluatedAsWritten(cfg: Config, lex: Lexicon, fails: Call -> bool, input: seq<Token>)
    requires OneWord(cfg, lex) && Parse(cfg, input).Some?
    requires !DoublePost(Read(cfg, Parse(cfg, input).value))
    ensures
      var t := Parse(cfg, input).value;
      var c := CallOf(Read(cfg, t));
      && InOrder(c) == t.toks
      && Eval(cfg, Recording(fails), t) == if SomeFails(fails, c) then Failed else Ok(Partial(Some(c), None, NoKind))
  {
    hide SomeFails, Calls, CallOf, InOrder, Denote, DoublePost;
    var t := Parse(cfg, input).value;
    ParseThenPrint(cfg, lex, input);
    WrittenInOrder(Read(cfg, t));
    MakesCalls(fails, Read(cfg, t));
    EvalIsMeaning(cfg, Recording(fails), t);
  }
}
