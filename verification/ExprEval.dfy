/**
 Evaluation of an expression parse tree: the fold of the source over partial
 results, the expression it stands for, and the proof that they agree.
 */
module ExprEval {
  import opened Prelude
  import opened ExprGrammar

  // ----- the expression read back from a tree ---------------------------------

  datatype Ast =
    | Var(leaf: Tree)
    | Prefix(op: Tree, arg: Ast)
    | Paren(open: Tree, arg: Ast, close: Tree)
    | Postfix(arg: Ast, ops: seq<Tree>)
    | Chain(level: nat, first: Ast, steps: seq<Step>)

  datatype Step = Step(op: Tree, arg: Ast)

  function ReadOperand(cfg: Config, t: Tree): Ast
    requires IsOperand(cfg, t)
    decreases t, 0
  {
    if IsOp(cfg, Val, t) then Var(t)
    else if t.node == Built(PreSeq) then Prefix(t.kids[0].kids[0], ReadRef(cfg, t.kids[1]))
    else ReadParen(cfg, t.kids[0], ReadRef(cfg, t.kids[1]), t.kids[2])
  }

  /**
   Parentheses that are found in an earlier table are taken for what they are
   there: the opening one for a prefix operator, the closing one for an operator
   applied to what it follows, or for one more opening one.
   */
  function ReadParen(cfg: Config, open: Tree, arg: Ast, close: Tree): Ast {
    var inner := if KindOf(cfg, open.node) == PreOp then Prefix(open, arg) else arg;
    match KindOf(cfg, close.node)
    case ParenClose => if KindOf(cfg, open.node) == ParenOpen then Paren(open, arg, close) else inner
    case ParenOpen => inner
    case _ => Postfix(inner, [close])
  }

  function ReadRef(cfg: Config, t: Tree): Ast
    requires IsRef(cfg, t)
    decreases t, 0
  {
    ReadLevel(cfg, |cfg.bins|, t.kids[0])
  }

  function ReadPostOps(cfg: Config, kids: seq<Tree>): (r: seq<Tree>)
    requires forall k :: k in kids ==> IsPostOp(cfg, k)
    ensures |r| == |kids|
  {
    if kids == [] then []
    else
      assert IsPostOp(cfg, kids[0]);
      [kids[0].kids[0]] + ReadPostOps(cfg, kids[1..])
  }

  function ReadTerm(cfg: Config, t: Tree): Ast
    requires IsTerm(cfg, t)
    decreases t, 0
  {
    assert IsPost(cfg, t.kids[0]);
    var operand := ReadOperand(cfg, t.kids[0].kids[0]);
    if t.kids[1].kids == [] then operand else Postfix(operand, ReadPostOps(cfg, t.kids[1].kids))
  }

  function ReadLevel(cfg: Config, level: nat, t: Tree): Ast
    requires level <= |cfg.bins| && IsLevel(cfg, level, t)
    decreases t, 1
  {
    if level == 0 then ReadTerm(cfg, t)
    else
      var first := ReadLevel(cfg, level - 1, t.kids[0]);
      if t.kids[1].kids == [] then first
      else Chain(level - 1, first, ReadSteps(cfg, level - 1, t.kids[1].kids))
  }

  function ReadSteps(cfg: Config, level: nat, kids: seq<Tree>): (r: seq<Step>)
    requires level < |cfg.bins| && forall k :: k in kids ==> IsStep(cfg, level, k)
    ensures |r| == |kids|
    decreases kids, 0
  {
    if kids == [] then []
    else
      assert IsStep(cfg, level, kids[0]);
      [Step(kids[0].kids[0], ReadLevel(cfg, level, kids[0].kids[1]))] + ReadSteps(cfg, level, kids[1..])
  }

  function Read(cfg: Config, t: Tree): Ast
    requires IsTop(cfg, t)
  {
    ReadLevel(cfg, |cfg.bins|, t.kids[0])
  }

  /** Some operand carries two postfix operators or more. */
  predicate DoublePost(a: Ast) {
    match a
    case Var(_) => false
    case Prefix(_, arg) => DoublePost(arg)
    case Paren(_, arg, _) => DoublePost(arg)
    case Postfix(arg, ops) => |ops| > 1 || DoublePost(arg)
    case Chain(_, first, steps) => DoublePost(first) || exists s :: s in steps && DoublePost(s.arg)
  }

  // ----- what an expression means ---------------------------------------------

  /** The user's callbacks; None is a callback that reports an error. */
  datatype Ops<!V> = Ops(
    evalVar: Tree -> Option<V>,
    pre: (V, Tree) -> Option<V>,
    post: (V, Tree) -> Option<V>,
    bin: (V, Tree, V) -> Option<V>,
    paren: (Tree, Tree, V) -> Option<V>
  )

  /** Stuck: no rule applies, where the source asserts false. */
  datatype Meaning<+V> = Value(v: V) | Error | Stuck

  function Checked<V>(v: Option<V>): Meaning<V> {
    if v.None? then Error else Value(v.value)
  }

  /**
   The meaning of an expression. A chain t0 op1 t1 op2 t2 ... opn tn groups as
   t0 op1 ((t1 op2 t2) ... opn tn), and an operand with several postfix
   operators has no meaning.
   */
  function Denote<V>(ops: Ops<V>, a: Ast): Meaning<V>
    decreases a, 0
  {
    match a
    case Var(leaf) => Checked(ops.evalVar(leaf))
    case Prefix(op, arg) =>
      var v := Denote(ops, arg);
      if !v.Value? then v else Checked(ops.pre(v.v, op))
    case Paren(open, arg, close) =>
      var v := Denote(ops, arg);
      if !v.Value? then v else Checked(ops.paren(open, close, v.v))
    case Postfix(arg, posts) =>
      var v := Denote(ops, arg);
      if !v.Value? || posts == [] then v
      else if |posts| == 1 then Checked(ops.post(v.v, posts[0]))
      else Stuck
    case Chain(_, first, steps) =>
      var v := Denote(ops, first);
      if !v.Value? || steps == [] then v
      else
        var rest := DenoteTail(ops, steps);
        if !rest.Value? then rest else Checked(ops.bin(v.v, steps[0].op, rest.v))
  }

  /** (t1 op2 t2) ... opn tn: everything right of the first operator. */
  function DenoteTail<V>(ops: Ops<V>, steps: seq<Step>): Meaning<V>
    requires steps != []
    decreases steps, 2
  {
    var w := DenoteStep(ops, steps[0]);
    if !w.Value? then w else DenoteSteps(ops, w.v, steps[1..])
  }

  /** The left fold of the steps from a first value. */
  function DenoteSteps<V>(ops: Ops<V>, v: V, steps: seq<Step>): Meaning<V>
    decreases steps, 1
  {
    if steps == [] then Value(v)
    else
      var w := DenoteStep(ops, steps[0]);
      if !w.Value? then w
      else
        var r := ops.bin(v, steps[0].op, w.v);
        if r.None? then Error else DenoteSteps(ops, r.value, steps[1..])
  }

  function DenoteStep<V>(ops: Ops<V>, step: Step): Meaning<V>
    decreases step, 0
  {
    Denote(ops, step.arg)
  }

  // ----- the evaluator ----------------------------------------------------------

  /** A result under construction: a value, an operator waiting for operands, or both. */
  datatype Partial<+V> = Partial(val: Option<V>, op: Option<Tree>, kind: Kind) {
    predicate Empty() {
      val.None? && op.None?
    }
  }

  /** NullOperand: the parenthesis callback is called without a value. */
  datatype Outcome<+V> = Ok(r: Partial<V>) | Failed | Asserted | NullOperand

  /** Merge y into x. */
  function Merge<V>(ops: Ops<V>, x: Partial<V>, y: Partial<V>): Outcome<V> {
    if y.Empty() then Ok(x)
    else if x.Empty() then Ok(y)
    else if x.val.Some? && y.val.Some? && y.op.Some? && y.kind == BinOp then
      var r := ops.bin(x.val.value, y.op.value, y.val.value);
      if r.None? then Failed else Ok(x.(val := r))
    else if x.val.None? && x.op.Some? && y.val.Some? && y.op.None? && x.kind == PreOp then
      var r := ops.pre(y.val.value, x.op.value);
      if r.None? then Failed else Ok(Partial(r, None, NoKind))
    else if x.val.None? && x.op.Some? && y.val.Some? && y.op.None? && x.kind == BinOp then
      Ok(x.(val := y.val))
    else if x.val.Some? && x.op.None? && y.val.None? && y.op.Some? then
      var r := ops.post(x.val.value, y.op.value);
      if r.None? then Failed else Ok(x.(val := r))
    else Asserted
  }

  /** The result a node has before its children are visited. */
  function Start<V>(cfg: Config, ops: Ops<V>, t: Tree): Outcome<V> {
    var kind := KindOf(cfg, t.node);
    if kind == Val then
      var v := ops.evalVar(t);
      if v.None? then Failed else Ok(Partial(v, None, NoKind))
    else if kind == PreOp || kind == PostOp || kind == BinOp then Ok(Partial(None, Some(t), kind))
    else Ok(Partial(None, None, NoKind))
  }

  function Eval<V>(cfg: Config, ops: Ops<V>, t: Tree): Outcome<V>
    decreases t, 1
  {
    var s := Start(cfg, ops, t);
    if !s.Ok? then s else EvalKids(cfg, ops, s.r, t.kids, None, None)
  }

  /** The rest of the child loop, from the current result and parentheses seen. */
  function EvalKids<V>(cfg: Config, ops: Ops<V>, acc: Partial<V>, kids: seq<Tree>,
                       open: Option<Tree>, close: Option<Tree>): Outcome<V>
    decreases kids, 0
  {
    if kids == [] then EvalEnd(ops, acc, open, close)
    else
      var kind := KindOf(cfg, kids[0].node);
      if kind == ParenOpen then EvalKids(cfg, ops, acc, kids[1..], Some(kids[0]), close)
      else if kind == ParenClose then EvalKids(cfg, ops, acc, kids[1..], open, Some(kids[0]))
      else
        var y := Eval(cfg, ops, kids[0]);
        if !y.Ok? then y
        else
          var x := Merge(ops, acc, y.r);
          if !x.Ok? then x else EvalKids(cfg, ops, x.r, kids[1..], open, close)
  }

  function EvalEnd<V>(ops: Ops<V>, acc: Partial<V>, open: Option<Tree>, close: Option<Tree>): Outcome<V> {
    if open.Some? && close.Some? then
      if acc.val.None? then NullOperand
      else
        var r := ops.paren(open.value, close.value, acc.val.value);
        if r.None? then Failed else Ok(acc.(val := r))
    else Ok(acc)
  }

  // ----- agreement ----------------------------------------------------------------

  /** A meaning as a result, with the operator still waiting for a left operand. */
  function Lift<V>(m: Meaning<V>, op: Option<Tree>): Outcome<V> {
    match m
    case Value(v) => Ok(Partial(Some(v), op, if op.None? then NoKind else BinOp))
    case Error => Failed
    case Stuck => Asserted
  }

  lemma {:induction false} InertIsEmpty<V>(cfg: Config, ops: Ops<V>, t: Tree)
    requires Inert(cfg, t)
    ensures Eval(cfg, ops, t) == Ok(Partial(None, None, NoKind))
    decreases t, 1
  {
    InertKidsKeep(cfg, ops, Partial(None, None, NoKind), t.kids);
  }

  lemma {:induction false} InertKidsKeep<V>(cfg: Config, ops: Ops<V>, acc: Partial<V>, kids: seq<Tree>)
    requires forall k :: k in kids ==> Inert(cfg, k)
    ensures EvalKids(cfg, ops, acc, kids, None, None) == Ok(acc)
    decreases kids, 0
  {
    if kids != [] {
      InertIsEmpty(cfg, ops, kids[0]);
      InertKidsKeep(cfg, ops, acc, kids[1..]);
    }
  }

  lemma EvalOp<V>(cfg: Config, ops: Ops<V>, kind: Kind, t: Tree)
    requires IsOp(cfg, kind, t) && kind in {PreOp, PostOp, BinOp}
    ensures Eval(cfg, ops, t) == Ok(Partial(None, Some(t), kind))
  {
    InertKidsKeep(cfg, ops, Partial(None, Some(t), kind), t.kids);
  }

  /** One child: the node's result is the child's, merged into the empty result. */
  lemma EvalSingle<V>(cfg: Config, ops: Ops<V>, t: Tree, r: Outcome<V>)
    requires t.node.Built? && |t.kids| == 1
    requires KindOf(cfg, t.kids[0].node) !in {ParenOpen, ParenClose}
    requires r == Eval(cfg, ops, t.kids[0]) && (r.Ok? ==> r.r.Empty() ==> r.r == Partial(None, None, NoKind))
    ensures Eval(cfg, ops, t) == r
  {
    var acc: Partial<V> := Partial(None, None, NoKind);
    assert Eval(cfg, ops, t) == EvalKids(cfg, ops, acc, t.kids, None, None);
    assert t.kids[1..] == [];
    if r.Ok? {
      var x := Merge(ops, acc, r.r);
      assert x == r;
      assert EvalKids(cfg, ops, x.r, t.kids[1..], None, None) == x;
    }
  }

  /** Two children: both are evaluated, then merged. */
  lemma EvalPair<V>(cfg: Config, ops: Ops<V>, t: Tree)
    requires t.node.Built? && |t.kids| == 2
    requires KindOf(cfg, t.kids[0].node) !in {ParenOpen, ParenClose}
    requires KindOf(cfg, t.kids[1].node) !in {ParenOpen, ParenClose}
    requires var x := Eval(cfg, ops, t.kids[0]); x.Ok? ==> !x.r.Empty()
    ensures
      var x, y := Eval(cfg, ops, t.kids[0]), Eval(cfg, ops, t.kids[1]);
      Eval(cfg, ops, t) == if !x.Ok? then x else if !y.Ok? then y else Merge(ops, x.r, y.r)
  {
    var acc: Partial<V> := Partial(None, None, NoKind);
    assert Eval(cfg, ops, t) == EvalKids(cfg, ops, acc, t.kids, None, None);
    var x, y := Eval(cfg, ops, t.kids[0]), Eval(cfg, ops, t.kids[1]);
    if x.Ok? {
      assert Merge(ops, acc, x.r) == x;
      assert Eval(cfg, ops, t) == EvalKids(cfg, ops, x.r, t.kids[1..], None, None);
      if y.Ok? {
        var m := Merge(ops, x.r, y.r);
        if m.Ok? {
          assert t.kids[1..][1..] == [];
          assert EvalKids(cfg, ops, m.r, t.kids[1..][1..], None, None) == m;
        }
      }
    }
  }

  /** The child loop from the child between two parentheses on. */
  lemma EvalMiddle<V>(cfg: Config, ops: Ops<V>, b: Tree, c: Tree, acc: Partial<V>, open: Option<Tree>)
    requires b.node.Built?
    ensures
      var x := Eval(cfg, ops, b);
      EvalKids(cfg, ops, acc, [b, c], open, None) ==
        if !x.Ok? then x
        else
          var m := Merge(ops, acc, x.r);
          if !m.Ok? then m else EvalKids(cfg, ops, m.r, [c], open, None)
  {
    assert [b, c][1..] == [c];
  }

  lemma EvalClose<V>(cfg: Config, ops: Ops<V>, c: Tree, acc: Partial<V>, open: Option<Tree>)
    requires IsOneOf(cfg, {BinOp, PreOp, PostOp, ParenOpen, ParenClose}, c) && acc.val.Some? && acc.op.None?
    ensures
      EvalKids(cfg, ops, acc, [c], open, None) ==
      match KindOf(cfg, c.node)
      case ParenClose => EvalEnd(ops, acc, open, Some(c))
      case ParenOpen => Ok(acc)
      case _ =>
        var r := ops.post(acc.val.value, c);
        if r.None? then Failed else Ok(acc.(val := r))
  {
    var kind := KindOf(cfg, c.node);
    assert [c][1..] == [];
    if kind == ParenOpen {
      assert EvalKids(cfg, ops, acc, [c], open, None) == EvalKids(cfg, ops, acc, [], Some(c), None);
    } else if kind == ParenClose {
      assert EvalKids(cfg, ops, acc, [c], open, None) == EvalKids(cfg, ops, acc, [], open, Some(c));
    } else {
      EvalOp(cfg, ops, kind, c);
      var r := ops.post(acc.val.value, c);
      if r.Some? {
        assert EvalKids(cfg, ops, acc, [c], open, None) == EvalKids(cfg, ops, acc.(val := r), [], open, None);
      }
    }
  }

  /** From the argument on, when the opening node is a prefix operator, and when it is not. */
  lemma EvalAfterPre<V>(cfg: Config, ops: Ops<V>, a: Tree, b: Tree, c: Tree, arg: Ast)
    requires IsOneOf(cfg, {BinOp, PreOp, PostOp, ParenOpen, ParenClose}, c) && b.node.Built?
    requires KindOf(cfg, a.node) == PreOp && Eval(cfg, ops, b) == Lift(Denote(ops, arg), None)
    ensures
      EvalKids(cfg, ops, Partial(None, Some(a), PreOp), [b, c], None, None) ==
        Lift(Denote(ops, ReadParen(cfg, a, arg, c)), None)
  {
    hide Eval, EvalKids, KindOf, Inert;
    EvalMiddle(cfg, ops, b, c, Partial(None, Some(a), PreOp), None);
    var v := Denote(ops, arg);
    if v.Value? && ops.pre(v.v, a).Some? {
      EvalClose(cfg, ops, c, Partial(ops.pre(v.v, a), None, NoKind), None);
    }
  }

  lemma EvalAfterOpen<V>(cfg: Config, ops: Ops<V>, a: Tree, b: Tree, c: Tree, arg: Ast)
    requires IsOneOf(cfg, {BinOp, PreOp, PostOp, ParenOpen, ParenClose}, c) && b.node.Built?
    requires KindOf(cfg, a.node) == ParenOpen && Eval(cfg, ops, b) == Lift(Denote(ops, arg), None)
    ensures
      EvalKids(cfg, ops, Partial(None, None, NoKind), [b, c], Some(a), None) ==
        Lift(Denote(ops, ReadParen(cfg, a, arg, c)), None)
  {
    hide Eval, EvalKids, KindOf, Inert;
    EvalMiddle(cfg, ops, b, c, Partial(None, None, NoKind), Some(a));
    var v := Denote(ops, arg);
    if v.Value? {
      EvalClose(cfg, ops, c, Partial(Some(v.v), None, NoKind), Some(a));
    }
  }

  /** Parentheses evaluate to what they are read as. */
  lemma EvalParen<V>(cfg: Config, ops: Ops<V>, t: Tree, arg: Ast)
    requires t.node.Built? && t.node.role.ParenSeq? && |t.kids| == 3 && t.kids[1].node.Built?
    requires IsPair(cfg, t.node.role.paren, t.kids[0], t.kids[2])
    requires Eval(cfg, ops, t.kids[1]) == Lift(Denote(ops, arg), None)
    ensures Eval(cfg, ops, t) == Lift(Denote(ops, ReadParen(cfg, t.kids[0], arg, t.kids[2])), None)
  {
    hide Denote, ReadParen, Lift;
    var none: Partial<V> := Partial(None, None, NoKind);
    var a, b, c := t.kids[0], t.kids[1], t.kids[2];
    assert t.kids[1..] == [b, c];
    if KindOf(cfg, a.node) == PreOp {
      EvalOp(cfg, ops, PreOp, a);
      EvalAfterPre(cfg, ops, a, b, c, arg);
      assert Eval(cfg, ops, t) == EvalKids(cfg, ops, Partial(None, Some(a), PreOp), t.kids[1..], None, None);
    } else {
      EvalAfterOpen(cfg, ops, a, b, c, arg);
      assert Eval(cfg, ops, t) == EvalKids(cfg, ops, none, t.kids[1..], Some(a), None);
    }
  }

  lemma {:induction false} EvalOperand<V>(cfg: Config, ops: Ops<V>, t: Tree)
    requires IsOperand(cfg, t)
    ensures Eval(cfg, ops, t) == Lift(Denote(ops, ReadOperand(cfg, t)), None)
    decreases t, 0
  {
    if IsOp(cfg, Val, t) {
      var v := ops.evalVar(t);
      if v.Some? {
        InertKidsKeep(cfg, ops, Partial(v, None, NoKind), t.kids);
      }
    } else if t.node == Built(PreSeq) {
      var op := t.kids[0].kids[0];
      EvalOp(cfg, ops, PreOp, op);
      EvalSingle(cfg, ops, t.kids[0], Eval(cfg, ops, op));
      EvalRef(cfg, ops, t.kids[1]);
      EvalPair(cfg, ops, t);
    } else {
      EvalRef(cfg, ops, t.kids[1]);
      EvalParen(cfg, ops, t, ReadRef(cfg, t.kids[1]));
    }
  }

  lemma {:induction false} EvalRef<V>(cfg: Config, ops: Ops<V>, t: Tree)
    requires IsRef(cfg, t)
    ensures Eval(cfg, ops, t) == Lift(Denote(ops, ReadRef(cfg, t)), None)
    decreases t, 0
  {
    EvalLevel(cfg, ops, |cfg.bins|, t.kids[0]);
    EvalSingle(cfg, ops, t, Eval(cfg, ops, t.kids[0]));
  }

  /** An operator that waits for the operand before it. */
  function PostResult<V>(cfg: Config, op: Tree): Partial<V> {
    Partial(None, Some(op), KindOf(cfg, op.node))
  }

  /** One postfix operator waits for its operand; two do not merge. */
  lemma EvalPostOps<V>(cfg: Config, ops: Ops<V>, t: Tree)
    requires t.node == Built(PostMany) && t.kids != [] && forall k :: k in t.kids ==> IsPostOp(cfg, k)
    ensures
      assert IsPostOp(cfg, t.kids[0]);
      Eval(cfg, ops, t) ==
      if |t.kids| == 1 then Ok(PostResult(cfg, t.kids[0].kids[0])) else Asserted
  {
    assert IsPostOp(cfg, t.kids[0]);
    EvalPostOp(cfg, ops, t.kids[0]);
    if |t.kids| == 1 {
      EvalSingle(cfg, ops, t, Eval(cfg, ops, t.kids[0]));
    } else {
      assert IsPostOp(cfg, t.kids[1]);
      EvalPostOp(cfg, ops, t.kids[1]);
      var acc: Partial<V> := Partial(None, None, NoKind);
      var x := Eval(cfg, ops, t.kids[0]);
      assert Eval(cfg, ops, t) == EvalKids(cfg, ops, acc, t.kids, None, None)
                               == EvalKids(cfg, ops, x.r, t.kids[1..], None, None);
    }
  }

  lemma EvalPostOp<V>(cfg: Config, ops: Ops<V>, t: Tree)
    requires IsPostOp(cfg, t)
    ensures Eval(cfg, ops, t) == Ok(PostResult(cfg, t.kids[0]))
  {
    EvalOp(cfg, ops, KindOf(cfg, t.kids[0].node), t.kids[0]);
    EvalSingle(cfg, ops, t, Eval(cfg, ops, t.kids[0]));
  }

  lemma {:induction false} EvalTerm<V>(cfg: Config, ops: Ops<V>, t: Tree)
    requires IsTerm(cfg, t)
    ensures Eval(cfg, ops, t) == Lift(Denote(ops, ReadTerm(cfg, t)), None)
    decreases t, 0
  {
    var operand := t.kids[0].kids[0];
    EvalOperand(cfg, ops, operand);
    EvalSingle(cfg, ops, t.kids[0], Eval(cfg, ops, operand));
    if t.kids[1].kids != [] {
      EvalPostOps(cfg, ops, t.kids[1]);
    }
    EvalPair(cfg, ops, t);
  }

  lemma {:induction false} EvalLevel<V>(cfg: Config, ops: Ops<V>, level: nat, t: Tree)
    requires level <= |cfg.bins| && IsLevel(cfg, level, t)
    ensures Eval(cfg, ops, t) == Lift(Denote(ops, ReadLevel(cfg, level, t)), None)
    decreases t, 1
  {
    if level == 0 {
      EvalTerm(cfg, ops, t);
    } else {
      var many := t.kids[1];
      EvalLevel(cfg, ops, level - 1, t.kids[0]);
      if many.kids != [] {
        EvalChain(cfg, ops, level - 1, many);
      }
      EvalPair(cfg, ops, t);
    }
  }

  /** The steps of a chain leave their left fold, with the first operator waiting. */
  lemma {:induction false} EvalChain<V>(cfg: Config, ops: Ops<V>, level: nat, many: Tree)
    requires level < |cfg.bins| && many.node == Built(BinMany(level)) && many.kids != []
    requires forall k :: k in many.kids ==> IsStep(cfg, level, k)
    ensures
      var steps := ReadSteps(cfg, level, many.kids);
      Eval(cfg, ops, many) == Lift(DenoteTail(ops, steps), Some(steps[0].op))
    decreases many, 0
  {
    var steps := ReadSteps(cfg, level, many.kids);
    assert IsStep(cfg, level, many.kids[0]);
    EvalStep(cfg, ops, level, many.kids[0]);
    assert steps[1..] == ReadSteps(cfg, level, many.kids[1..]);
    var w := DenoteStep(ops, steps[0]);
    if w.Value? {
      EvalRest(cfg, ops, level, Partial(Some(w.v), Some(steps[0].op), BinOp), many.kids[1..]);
    }
  }

  lemma {:induction false} EvalStep<V>(cfg: Config, ops: Ops<V>, level: nat, t: Tree)
    requires level < |cfg.bins| && IsStep(cfg, level, t)
    ensures Eval(cfg, ops, t) == Lift(Denote(ops, ReadLevel(cfg, level, t.kids[1])), Some(t.kids[0]))
    decreases t, 0
  {
    EvalOp(cfg, ops, BinOp, t.kids[0]);
    EvalLevel(cfg, ops, level, t.kids[1]);
    EvalPair(cfg, ops, t);
  }

  lemma {:induction false} EvalRest<V>(cfg: Config, ops: Ops<V>, level: nat, acc: Partial<V>, kids: seq<Tree>)
    requires level < |cfg.bins| && forall k :: k in kids ==> IsStep(cfg, level, k)
    requires acc.val.Some? && acc.op.Some? && acc.kind == BinOp
    ensures EvalKids(cfg, ops, acc, kids, None, None)
         == Lift(DenoteSteps(ops, acc.val.value, ReadSteps(cfg, level, kids)), acc.op)
    decreases kids, 0
  {
    if kids != [] {
      var steps := ReadSteps(cfg, level, kids);
      assert IsStep(cfg, level, kids[0]);
      EvalStep(cfg, ops, level, kids[0]);
      assert steps[1..] == ReadSteps(cfg, level, kids[1..]);
      var w := DenoteStep(ops, steps[0]);
      if w.Value? {
        var r := ops.bin(acc.val.value, steps[0].op, w.v);
        if r.Some? {
          EvalRest(cfg, ops, level, acc.(val := r), kids[1..]);
        }
      }
    }
  }

  /** Every tree of that shape evaluates to what its expression means, whatever the callbacks do. */
  lemma EvalIsMeaning<V>(cfg: Config, ops: Ops<V>, t: Tree)
    requires IsTop(cfg, t)
    ensures Eval(cfg, ops, t) == Lift(Denote(ops, Read(cfg, t)), None)
  {
    EvalLevel(cfg, ops, |cfg.bins|, t.kids[0]);
    EvalSingle(cfg, ops, t, Eval(cfg, ops, t.kids[0]));
  }

  // ----- when the assertions hold ------------------------------------------------

  ghost predicate Total<V(!new)>(ops: Ops<V>) {
    && (forall t :: ops.evalVar(t).Some?)
    && (forall v, t :: ops.pre(v, t).Some?)
    && (forall v, t :: ops.post(v, t).Some?)
    && (forall v, t, w :: ops.bin(v, t, w).Some?)
    && (forall o, c, v :: ops.paren(o, c, v).Some?)
  }

  lemma {:induction false} StuckOnlyIfDoublePost<V>(ops: Ops<V>, a: Ast)
    ensures Denote(ops, a).Stuck? ==> DoublePost(a)
    decreases a, 0
  {
    match a
    case Var(_) =>
    case Prefix(_, arg) => StuckOnlyIfDoublePost(ops, arg);
    case Paren(_, arg, _) => StuckOnlyIfDoublePost(ops, arg);
    case Postfix(arg, _) => StuckOnlyIfDoublePost(ops, arg);
    case Chain(_, first, steps) =>
      StuckOnlyIfDoublePost(ops, first);
      if steps != [] {
        StuckStep(ops, steps[0]);
        var w := DenoteStep(ops, steps[0]);
        assert DenoteTail(ops, steps).Stuck? ==> exists s :: s in steps && DoublePost(s.arg) by {
          if w.Value? {
            StuckSteps(ops, w.v, steps[1..]);
          }
          assert steps == [steps[0]] + steps[1..];
        }
      }
  }

  lemma {:induction false} StuckStep<V>(ops: Ops<V>, step: Step)
    ensures DenoteStep(ops, step).Stuck? ==> DoublePost(step.arg)
    decreases step, 0
  {
    StuckOnlyIfDoublePost(ops, step.arg);
  }

  lemma {:induction false} StuckSteps<V>(ops: Ops<V>, v: V, steps: seq<Step>)
    ensures DenoteSteps(ops, v, steps).Stuck? ==> exists s :: s in steps && DoublePost(s.arg)
    decreases steps, 1
  {
    if steps != [] {
      StuckStep(ops, steps[0]);
      var w := DenoteStep(ops, steps[0]);
      if w.Value? && ops.bin(v, steps[0].op, w.v).Some? {
        StuckSteps(ops, ops.bin(v, steps[0].op, w.v).value, steps[1..]);
        assert forall s :: s in steps[1..] ==> s in steps;
      }
    }
  }

  lemma {:induction false} TotalIsStuckIff<V(!new)>(ops: Ops<V>, a: Ast)
    requires Total(ops)
    ensures if DoublePost(a) then Denote(ops, a).Stuck? else Denote(ops, a).Value?
    decreases a, 0
  {
    match a
    case Var(_) =>
    case Prefix(_, arg) => TotalIsStuckIff(ops, arg);
    case Paren(_, arg, _) => TotalIsStuckIff(ops, arg);
    case Postfix(arg, _) => TotalIsStuckIff(ops, arg);
    case Chain(_, first, steps) =>
      TotalIsStuckIff(ops, first);
      if steps != [] {
        TotalStep(ops, steps[0]);
        var w := DenoteStep(ops, steps[0]);
        if w.Value? {
          TotalSteps(ops, w.v, steps[1..]);
        }
        assert steps == [steps[0]] + steps[1..];
      }
  }

  lemma {:induction false} TotalStep<V(!new)>(ops: Ops<V>, step: Step)
    requires Total(ops)
    ensures if DoublePost(step.arg) then DenoteStep(ops, step).Stuck? else DenoteStep(ops, step).Value?
    decreases step, 0
  {
    TotalIsStuckIff(ops, step.arg);
  }

  lemma {:induction false} TotalSteps<V(!new)>(ops: Ops<V>, v: V, steps: seq<Step>)
    requires Total(ops)
    ensures if exists s :: s in steps && DoublePost(s.arg) then DenoteSteps(ops, v, steps).Stuck?
            else DenoteSteps(ops, v, steps).Value?
    decreases steps, 1
  {
    if steps != [] {
      TotalStep(ops, steps[0]);
      var w := DenoteStep(ops, steps[0]);
      if w.Value? {
        TotalSteps(ops, ops.bin(v, steps[0].op, w.v).value, steps[1..]);
      }
      assert steps == [steps[0]] + steps[1..];
    }
  }

  /**
   With callbacks that succeed, the evaluator runs into its assertion exactly
   when some operand carries two postfix operators; otherwise the result is a
   value with no operator left. A failing callback never adds another way in.
   */
  lemma AssertionIffDoublePost<V(!new)>(cfg: Config, ops: Ops<V>, t: Tree)
    requires IsTop(cfg, t)
    ensures Eval(cfg, ops, t).Asserted? ==> DoublePost(Read(cfg, t))
    ensures Total(ops) ==> (Eval(cfg, ops, t).Asserted? <==> DoublePost(Read(cfg, t)))
    ensures Eval(cfg, ops, t).Ok? ==> Eval(cfg, ops, t).r.val.Some? && Eval(cfg, ops, t).r.op.None?
    ensures Total(ops) && !DoublePost(Read(cfg, t)) ==> Eval(cfg, ops, t).Ok?
    ensures !Eval(cfg, ops, t).NullOperand?
  {
    EvalIsMeaning(cfg, ops, t);
    StuckOnlyIfDoublePost(ops, Read(cfg, t));
    if Total(ops) {
      TotalIsStuckIff(ops, Read(cfg, t));
    }
  }

  // ----- associative operators ------------------------------------------------------

  /** The usual grouping: every operator applied to everything on its left. */
  function LeftFold<V>(ops: Ops<V>, first: Ast, steps: seq<Step>): Meaning<V> {
    var v := Denote(ops, first);
    if !v.Value? then v else DenoteSteps(ops, v.v, steps)
  }

  /** The operators of the chain are associative and their callback succeeds. */
  ghost predicate Associative<V(!new)>(ops: Ops<V>, steps: seq<Step>) {
    && (forall s, v, w :: s in steps ==> ops.bin(v, s.op, w).Some?)
    && forall r, s, u, v, w :: r in steps && s in steps ==>
         ops.bin(ops.bin(u, r.op, v).value, s.op, w) == ops.bin(u, r.op, ops.bin(v, s.op, w).value)
  }

  lemma {:induction false} FoldAssociates<V(!new)>(ops: Ops<V>, u: V, r: Step, v: V, steps: seq<Step>, all: seq<Step>)
    requires Associative(ops, all) && r in all && forall s :: s in steps ==> s in all
    ensures
      var w := DenoteSteps(ops, v, steps);
      DenoteSteps(ops, ops.bin(u, r.op, v).value, steps) == if w.Value? then Checked(ops.bin(u, r.op, w.v)) else w
  {
    if steps != [] {
      var s := steps[0];
      assert s in all;
      var w := DenoteStep(ops, s);
      if w.Value? {
        FoldAssociates(ops, u, r, ops.bin(v, s.op, w.v).value, steps[1..], all);
      }
    }
  }

  /** The evaluator's grouping is the left fold when the operators are associative. */
  lemma ChainIsLeftFold<V(!new)>(ops: Ops<V>, level: nat, first: Ast, steps: seq<Step>)
    requires Associative(ops, steps)
    ensures Denote(ops, Chain(level, first, steps)) == LeftFold(ops, first, steps)
  {
    var v := Denote(ops, first);
    if v.Value? && steps != [] {
      var w := DenoteStep(ops, steps[0]);
      if w.Value? {
        FoldAssociates(ops, v.v, steps[0], w.v, steps[1..], steps);
      }
    }
  }

  /** With at most one operator there is only one grouping, whatever the callbacks do. */
  lemma ShortChainsAgree<V>(ops: Ops<V>, level: nat, first: Ast, steps: seq<Step>)
    requires |steps| <= 1
    ensures Denote(ops, Chain(level, first, steps)) == LeftFold(ops, first, steps)
  {
    if |steps| == 1 && Denote(ops, first).Value? && DenoteStep(ops, steps[0]).Value? {
      var r := ops.bin(Denote(ops, first).v, steps[0].op, DenoteStep(ops, steps[0]).v);
      assert steps[1..] == [];
      assert DenoteTail(ops, steps) == DenoteStep(ops, steps[0]);
      assert r.Some? ==> DenoteSteps(ops, r.value, steps[1..]) == Value(r.value);
    }
  }

  /** Both groupings of three expressions under two operators have the same value. */
  ghost predicate Regroups<V(!new)>(ops: Ops<V>, a: Ast, r: Tree, b: Ast, s: Tree, c: Ast)
    requires Total(ops)
  {
    Denote(ops, a).Value? && Denote(ops, b).Value? && Denote(ops, c).Value? ==>
      var u, v, w := Denote(ops, a).v, Denote(ops, b).v, Denote(ops, c).v;
      ops.bin(ops.bin(u, r, v).value, s, w) == ops.bin(u, r, ops.bin(v, s, w).value)
  }

  /** The operators are associative on the values that expressions have. */
  ghost predicate AssociativeOnValues<V(!new)>(ops: Ops<V>)
    requires Total(ops)
  {
    forall a, r, b, s, c :: Regroups(ops, a, r, b, s, c)
  }

  lemma OneStep<V(!new)>(ops: Ops<V>, b: Ast, s: Step)
    requires Total(ops) && Denote(ops, b).Value? && DenoteStep(ops, s).Value?
    ensures Denote(ops, Chain(0, b, [s])) == Checked(ops.bin(Denote(ops, b).v, s.op, DenoteStep(ops, s).v))
  {
    assert [s][1..] == [];
    assert DenoteTail(ops, [s]) == DenoteStep(ops, s);
  }

  /** The value of a moves into the fold of the steps that follow b. */
  lemma {:induction false} FoldRegroups<V(!new)>(ops: Ops<V>, a: Ast, r: Tree, b: Ast, steps: seq<Step>)
    requires Total(ops) && AssociativeOnValues(ops) && Denote(ops, a).Value? && Denote(ops, b).Value?
    ensures
      var u, v := Denote(ops, a).v, Denote(ops, b).v;
      var w := DenoteSteps(ops, v, steps);
      DenoteSteps(ops, ops.bin(u, r, v).value, steps) == if w.Value? then Checked(ops.bin(u, r, w.v)) else w
    decreases |steps|
  {
    if steps != [] && DenoteStep(ops, steps[0]).Value? {
      var s := steps[0];
      OneStep(ops, b, s);
      assert Regroups(ops, a, r, b, s.op, s.arg);
      FoldRegroups(ops, a, r, Chain(0, b, [s]), steps[1..]);
    }
  }

  lemma AssociativeIsLeftFold<V(!new)>(ops: Ops<V>, level: nat, first: Ast, steps: seq<Step>)
    requires Total(ops) && AssociativeOnValues(ops)
    ensures Denote(ops, Chain(level, first, steps)) == LeftFold(ops, first, steps)
  {
    hide AssociativeOnValues, Total;
    if Denote(ops, first).Value? && steps != [] && DenoteStep(ops, steps[0]).Value? {
      FoldRegroups(ops, first, steps[0].op, steps[0].arg, steps[1..]);
      TotalBin(ops, Denote(ops, first).v, steps[0].op, DenoteStep(ops, steps[0]).v);
    }
  }

  lemma TotalBin<V(!new)>(ops: Ops<V>, u: V, r: Tree, v: V)
    requires Total(ops)
    ensures ops.bin(u, r, v).Some?
  {
  }

  /** The chain a r b s c has both groupings for its two readings. */
  lemma TwoSteps<V(!new)>(ops: Ops<V>, a: Ast, r: Tree, b: Ast, s: Tree, c: Ast)
    requires Total(ops)
    requires
      var steps := [Step(r, b), Step(s, c)];
      Denote(ops, Chain(0, a, steps)) == LeftFold(ops, a, steps)
    ensures Regroups(ops, a, r, b, s, c)
  {
    if Denote(ops, a).Value? && Denote(ops, b).Value? && Denote(ops, c).Value? {
      var u, v, w := Denote(ops, a).v, Denote(ops, b).v, Denote(ops, c).v;
      var steps := [Step(r, b), Step(s, c)];
      var x, y := ops.bin(u, r, v).value, ops.bin(v, s, w).value;
      assert steps[1..] == [Step(s, c)] && steps[1..][1..] == [];
      assert DenoteStep(ops, Step(r, b)) == Value(v) && DenoteStep(ops, Step(s, c)) == Value(w);
      assert DenoteSteps(ops, v, steps[1..]) == DenoteSteps(ops, y, []) == Value(y);
      assert DenoteSteps(ops, u, steps) == DenoteSteps(ops, x, steps[1..])
                                        == DenoteSteps(ops, ops.bin(x, s, w).value, []);
    }
  }

  /** The grouping of the evaluator is the usual one on every chain exactly when the operators are associative. */
  lemma LeftFoldIffAssociative<V(!new)>(ops: Ops<V>)
    requires Total(ops)
    ensures
      (forall level, first, steps :: Denote(ops, Chain(level, first, steps)) == LeftFold(ops, first, steps))
      <==> AssociativeOnValues(ops)
  {
    hide Denote, LeftFold, Total, Regroups;
    if AssociativeOnValues(ops) {
      forall level, first, steps
        ensures Denote(ops, Chain(level, first, steps)) == LeftFold(ops, first, steps)
      {
        AssociativeIsLeftFold(ops, level, first, steps);
      }
    }
    if forall level, first, steps :: Denote(ops, Chain(level, first, steps)) == LeftFold(ops, first, steps) {
      forall a, r, b, s, c
        ensures Regroups(ops, a, r, b, s, c)
      {
        assert Denote(ops, Chain(0, a, [Step(r, b), Step(s, c)])) == LeftFold(ops, a, [Step(r, b), Step(s, c)]);
        TwoSteps(ops, a, r, b, s, c);
      }
    }
  }

  /** Callbacks that subtract; a value is the number of its words. */
  const SUBTRACT: Ops<int> := Ops(
    (t: Tree) => Some(|t.toks|),
    (v: int, op: Tree) => Some(v),
    (v: int, op: Tree) => Some(v),
    (v: int, op: Tree, w: int) => Some(v - w),
    (o: Tree, c: Tree, v: int) => Some(v))

  /** Three operands and two subtractions: 1 - (1 - 1) for the evaluator, (1 - 1) - 1 as usual. */
  lemma SubtractionGroupsRight(one: Tree, minus: Tree)
    requires |one.toks| == 1
    ensures Total(SUBTRACT)
    ensures
      var steps := [Step(minus, Var(one)), Step(minus, Var(one))];
      && Denote(SUBTRACT, Chain(0, Var(one), steps)) == Value(1)
      && LeftFold(SUBTRACT, Var(one), steps) == Value(-1)
  {
    var steps := [Step(minus, Var(one)), Step(minus, Var(one))];
    assert steps[1..] == [steps[1]] && steps[1..][1..] == [];
    assert DenoteStep(SUBTRACT, steps[0]) == Value(1);
    assert DenoteSteps(SUBTRACT, 1, steps[1..]) == DenoteSteps(SUBTRACT, 0, []) == Value(0);
    assert DenoteSteps(SUBTRACT, 1, steps) == DenoteSteps(SUBTRACT, 0, steps[1..]) == DenoteSteps(SUBTRACT, -1, []);
  }
}
