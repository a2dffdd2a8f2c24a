/**
 The evaluator as it runs: results overwritten in place around the child loop,
 with an account of the user's values.
 */
module ExprEvaluator {
  import opened Prelude
  import opened ExprGrammar
  import opened ExprEval

  lemma EvalFrom<V>(cfg: Config, ops: Ops<V>, t: Tree)
    ensures
      Eval(cfg, ops, t) ==
      var s := Start(cfg, ops, t);
      if !s.Ok? then s else EvalKids(cfg, ops, s.r, t.kids[0..], None, None)
  {
    assert t.kids[0..] == t.kids;
  }

  /** One turn of the child loop, or its end. */
  lemma EvalKid<V>(cfg: Config, ops: Ops<V>, acc: Partial<V>, kids: seq<Tree>, i: nat,
                   open: Option<Tree>, close: Option<Tree>)
    requires i <= |kids|
    ensures
      EvalKids(cfg, ops, acc, kids[i..], open, close) ==
      if i == |kids| then EvalEnd(ops, acc, open, close)
      else
        var kind := KindOf(cfg, kids[i].node);
        if kind == ParenOpen then EvalKids(cfg, ops, acc, kids[i + 1..], Some(kids[i]), close)
        else if kind == ParenClose then EvalKids(cfg, ops, acc, kids[i + 1..], open, Some(kids[i]))
        else
          var y := Eval(cfg, ops, kids[i]);
          if !y.Ok? then y
          else
            var x := Merge(ops, acc, y.r);
            if !x.Ok? then x else EvalKids(cfg, ops, x.r, kids[i + 1..], open, close)
  {
    hide Eval, Merge, KindOf;
    if i < |kids| {
      assert kids[i..][1..] == kids[i + 1..];
    }
  }

  class Evaluator<V> {
    const cfg: Config
    const ops: Ops<V>

    // Every value a callback returned is either used by a later callback, freed, or alive.
    ghost var made: multiset<V>
    ghost var used: multiset<V>
    ghost var freed: multiset<V>
    ghost var live: multiset<V>

    constructor (cfg: Config, ops: Ops<V>)
      ensures this.cfg == cfg && this.ops == ops
      ensures Balanced() && live == made == multiset{}
    {
      this.cfg, this.ops := cfg, ops;
      made, used, freed, live := multiset{}, multiset{}, multiset{}, multiset{};
    }

    ghost predicate Balanced()
      reads this
    {
      made == used + freed + live
    }

    static ghost function Vals(p: Partial<V>): multiset<V> {
      if p.val.None? then multiset{} else multiset{p.val.value}
    }

    /** A callback's effect on its operands: consumed on success, untouched on error. */
    ghost method Account(others: multiset<V>, operands: multiset<V>, r: Option<V>)
      requires Balanced() && live == others + operands
      modifies this
      ensures Balanced() && freed == old(freed)
      ensures live == others + if r.None? then operands else multiset{r.value}
    {
      if r.Some? {
        made, used, live := made + multiset{r.value}, used + operands, others + multiset{r.value};
      }
    }

    /** The free callback: only a live value may be given to it. */
    method FreeResult(ghost others: multiset<V>, p: Partial<V>)
      requires Balanced() && live == others + Vals(p)
      modifies this
      ensures Balanced() && live == others && freed == old(freed) + Vals(p)
    {
      freed, live := freed + Vals(p), others;
    }

    method MergeResults(ghost others: multiset<V>, x: Partial<V>, y: Partial<V>) returns (out: Outcome<V>)
      requires Balanced() && live == others + (Vals(x) + Vals(y))
      modifies this
      ensures out == Merge(ops, x, y)
      ensures Balanced() && freed == old(freed)
      ensures live == others + if out.Ok? then Vals(out.r) else Vals(x) + Vals(y)
    {
      if y.val.None? && y.op.None? {
        return Ok(x);
      }
      if x.val.None? && x.op.None? {
        return Ok(y);
      }
      if x.val.Some? && y.val.Some? && y.op.Some? {
        if y.kind == BinOp {
          var r := ops.bin(x.val.value, y.op.value, y.val.value);
          Account(others, Vals(x) + Vals(y), r);
          if r.None? {
            return Failed;
          }
          return Ok(x.(val := r));
        }
      }
      if x.val.None? && x.op.Some? && y.val.Some? && y.op.None? {
        if x.kind == PreOp {
          var r := ops.pre(y.val.value, x.op.value);
          Account(others, Vals(x) + Vals(y), r);
          if r.None? {
            return Failed;
          }
          return Ok(Partial(r, None, NoKind));
        } else if x.kind == BinOp {
          return Ok(x.(val := y.val));
        }
      }
      if x.val.Some? && x.op.None? && y.val.None? && y.op.Some? {
        var r := ops.post(x.val.value, y.op.value);
        Account(others, Vals(x) + Vals(y), r);
        if r.None? {
          return Failed;
        }
        return Ok(x.(val := r));
      }
      return Asserted;
    }

    /** The result of a node itself, before its children. */
    method StartResult(t: Tree) returns (out: Outcome<V>)
      requires Balanced()
      modifies this
      ensures out == Start(cfg, ops, t)
      ensures Balanced() && live == old(live) + if out.Ok? then Vals(out.r) else multiset{}
    {
      hide KindOf;
      var kind := KindOf(cfg, t.node);
      if kind == Val {
        var v := ops.evalVar(t);
        Account(live, multiset{}, v);
        if v.None? {
          return Failed;
        }
        return Ok(Partial(v, None, NoKind));
      } else if kind == PreOp || kind == PostOp || kind == BinOp {
        return Ok(Partial(None, Some(t), kind));
      }
      return Ok(Partial(None, None, NoKind));
    }

    /** After the children: a value between parentheses goes to its callback. */
    method EndResult(ghost others: multiset<V>, result: Partial<V>, open: Option<Tree>, close: Option<Tree>)
      returns (out: Outcome<V>)
      requires Balanced() && live == others + Vals(result)
      modifies this
      ensures out == EvalEnd(ops, result, open, close)
      ensures Balanced()
      ensures out.Ok? ==> live == others + Vals(out.r)
      ensures out.Failed? ==> live == others
    {
      if open.Some? && close.Some? {
        if result.val.None? {
          return NullOperand;
        }
        var r := ops.paren(open.value, close.value, result.val.value);
        Account(others, Vals(result), r);
        if r.None? {
          FreeResult(others, result);
          return Failed;
        }
        return Ok(result.(val := r));
      }
      return Ok(result);
    }

    /** Merging the result of a child; when a callback fails, both results are freed. */
    method MergeChild(ghost others: multiset<V>, result: Partial<V>, child: Partial<V>) returns (x: Outcome<V>)
      requires Balanced() && live == others + (Vals(result) + Vals(child))
      modifies this
      ensures x == Merge(ops, result, child)
      ensures Balanced()
      ensures x.Ok? ==> live == others + Vals(x.r)
      ensures x.Failed? ==> live == others
    {
      hide Merge;
      x := MergeResults(others, result, child);
      if x.Failed? {
        FreeResult(others + Vals(child), result);
        FreeResult(others, child);
      }
    }

    /** A run that succeeds owns exactly its result; a run that fails owns nothing more than before. */
    method EvalExpression(t: Tree) returns (out: Outcome<V>)
      requires Balanced()
      modifies this
      ensures out == Eval(cfg, ops, t)
      ensures Balanced()
      ensures out.Ok? ==> live == old(live) + Vals(out.r)
      ensures out.Failed? ==> live == old(live)
      decreases t
    {
      hide Eval, EvalKids, Merge, KindOf, Start, EvalEnd;
      EvalFrom(cfg, ops, t);
      var open, close := None, None;
      out := StartResult(t);
      if !out.Ok? {
        return;
      }
      var result := out.r;
      var i := 0;
      while i < |t.kids|
        invariant 0 <= i <= |t.kids|
        invariant EvalKids(cfg, ops, result, t.kids[i..], open, close) == Eval(cfg, ops, t)
        invariant Balanced() && live == old(live) + Vals(result)
      {
        var kid := t.kids[i];
        EvalKid(cfg, ops, result, t.kids, i, open, close);
        i := i + 1;
        var kind := KindOf(cfg, kid.node);
        if kind == ParenOpen {
          open := Some(kid);
          continue;
        } else if kind == ParenClose {
          close := Some(kid);
          continue;
        }
        var y := EvalExpression(kid);
        if !y.Ok? {
          if y.Failed? {
            FreeResult(old(live), result);
          }
          return y;
        }
        var x := MergeChild(old(live), result, y.r);
        if !x.Ok? {
          return x;
        }
        result := x.r;
      }
      EvalKid(cfg, ops, result, t.kids, i, open, close);
      out := EndResult(old(live), result, open, close);
    }

    /**
     Evaluate a parsed expression. The assertions of the source are statements
     here, so no run of the method can violate them.
     */
    method Run(t: Tree) returns (r: Option<V>)
      requires IsTop(cfg, t) && !DoublePost(Read(cfg, t))
      requires Balanced() && live == multiset{}
      modifies this
      ensures r == (match Denote(ops, Read(cfg, t)) case Value(v) => Some(v) case _ => None)
      ensures Balanced()
      ensures live == if r.None? then multiset{} else multiset{r.value}
    {
      StuckOnlyIfDoublePost(ops, Read(cfg, t));
      EvalIsMeaning(cfg, ops, t);
      var out := EvalExpression(t);
      assert !out.Asserted? && !out.NullOperand?;
      if out.Failed? {
        return None;
      }
      assert out.r.val.Some?;
      assert out.r.op.None?;
      return out.r.val;
    }
  }
}
