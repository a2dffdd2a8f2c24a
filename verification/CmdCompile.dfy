/**
 The command node: evaluating a command expression compiles it to grammar
 nodes, extending sequences, choices and subsets in place.
 */
module CmdCompile {
  import opened Prelude
  import opened Grammar
  import G = ExprGrammar
  import E = ExprEval

  /** A node under construction. Its children are not shared with anything else. */
  class CmdNode {
    var g: Node

    constructor (g: Node)
      ensures this.g == g
    {
      this.g := g;
    }
  }

  /** The nodes of the user, by identifier. */
  type Names = seq<(string, Node)>

  function Named(table: Names, str: string): Node {
    if table == [] then Str(0, Token(str))
    else if table[0].0 == str then table[0].1
    else Named(table[1..], str)
  }

  function OpText(words: seq<Token>): Option<string> {
    if |words| == 1 then Some(words[0].text) else None
  }

  predicate Listed(g: Node) { g.Subset? && g.min == 1 }

  predicate All(g: Node) { g.Subset? && g.min > 1 }

  function Juxtapose(in1: Node, in2: Node): Node {
    if in1.Seq? then Seq(in1.id, in1.kids + [in2]) else Seq(0, [in1, in2])
  }

  function Either(in1: Node, in2: Node): Node {
    if in2.Or? then Or(in2.id, in2.kids + [in1])
    else if in1.Or? then Or(in1.id, in1.kids + [in2])
    else Or(0, [in1, in2])
  }

  function SomeOf(in1: Node, in2: Node): Node {
    if Listed(in2) then Subset(in2.id, 1, in2.kids + [in1])
    else if Listed(in1) then Subset(in1.id, 1, in1.kids + [in2])
    else Subset(0, 1, [in1, in2])
  }

  function AllOf(in1: Node, in2: Node): Node {
    if All(in1) then Subset(in1.id, |in1.kids| + 1, in1.kids + [in2])
    else if All(in2) then Subset(in2.id, |in2.kids| + 1, in2.kids + [in1])
    else Subset(0, 2, [in1, in2])
  }

  function BinOp(in1: Node, words: seq<Token>, in2: Node): Option<Node> {
    if |words| > 1 then None
    else if |words| == 0 then Some(Juxtapose(in1, in2))
    else if words[0].text == "|" then Some(Either(in1, in2))
    else if words[0].text == "," then Some(SomeOf(in1, in2))
    else if words[0].text == "&" then Some(AllOf(in1, in2))
    else None
  }

  function PostOp(in1: Node, words: seq<Token>): Option<Node> {
    match OpText(words)
    case Some("*") => Some(Many(0, 0, 0, in1))
    case Some("+") => Some(Many(0, 1, 0, in1))
    case _ => None
  }

  function Parenthesis(open: seq<Token>, in1: Node): Option<Node> {
    match OpText(open)
    case Some("[") => Some(Opt(0, in1))
    case Some("(") => Some(in1)
    case _ => None
  }

  function Variable(table: Names, words: seq<Token>): Option<Node> {
    match OpText(words)
    case Some(str) => Some(Named(table, str))
    case None => None
  }

  /** The callbacks given to the expression evaluator. */
  function CmdOps(table: Names): E.Ops<Node> {
    E.Ops(
      (t: G.Tree) => Variable(table, t.toks),
      (v: Node, op: G.Tree) => None,
      (v: Node, op: G.Tree) => PostOp(v, op.toks),
      (v: Node, op: G.Tree, w: Node) => BinOp(v, op.toks, w),
      (open: G.Tree, close: G.Tree, v: Node) => Parenthesis(open.toks, v)
    )
  }

  // ----- the callbacks ---------------------------------------------------------------------------

  /** Adding a child to a sequence, a choice or a subset. */
  method AddChild(node: CmdNode, child: Node)
    requires node.g.Seq? || node.g.Or? || node.g.Subset?
    modifies node
    ensures node.g == old(node.g).(kids := old(node.g).kids + [child])
  {
    node.g := node.g.(kids := node.g.kids + [child]);
  }

  method SetMin(node: CmdNode, min: nat)
    requires node.g.Subset?
    modifies node
    ensures node.g == Subset(old(node.g).id, min, old(node.g).kids)
  {
    node.g := Subset(node.g.id, min, node.g.kids);
  }

  /** The second operand is released: the result is one of the operands, extended in place, or a new node. */
  method EvalBinOp(in1: CmdNode, operator: seq<Token>, in2: CmdNode) returns (result: Option<CmdNode>)
    requires in1 != in2
    modifies in1, in2
    ensures
      match BinOp(old(in1.g), operator, old(in2.g))
      case None => result.None? && in1.g == old(in1.g) && in2.g == old(in2.g)
      case Some(g) => result.Some? && result.value.g == g && (result.value in {in1, in2} || fresh(result.value))
  {
    var out: CmdNode;
    if |operator| > 1 {
      return None;
    }
    if |operator| == 0 {
      if in1.g.Seq? {
        AddChild(in1, in2.g);
        out := in1;
      } else {
        out := new CmdNode(Seq(0, [in1.g, in2.g]));
      }
    } else if operator[0].text == "|" {
      if in2.g.Or? {
        AddChild(in2, in1.g);
        out := in2;
      } else if in1.g.Or? {
        AddChild(in1, in2.g);
        out := in1;
      } else {
        out := new CmdNode(Or(0, [in1.g, in2.g]));
      }
    } else if operator[0].text == "," {
      if in2.g.Subset? && in2.g.min == 1 {
        AddChild(in2, in1.g);
        out := in2;
      } else if in1.g.Subset? && in1.g.min == 1 {
        AddChild(in1, in2.g);
        out := in1;
      } else {
        out := new CmdNode(Subset(0, 0, [in1.g, in2.g]));
      }
      SetMin(out, 1);
    } else if operator[0].text == "&" {
      if in1.g.Subset? && in1.g.min > 1 {
        AddChild(in1, in2.g);
        out := in1;
      } else if in2.g.Subset? && in2.g.min > 1 {
        AddChild(in2, in1.g);
        out := in2;
      } else {
        out := new CmdNode(Subset(0, 0, [in1.g, in2.g]));
      }
      SetMin(out, |out.g.kids|);
    } else {
      return None;
    }
    result := Some(out);
  }

  method EvalPostOp(in1: CmdNode, operator: seq<Token>) returns (result: Option<CmdNode>)
    ensures
      match PostOp(in1.g, operator)
      case None => result.None?
      case Some(g) => result.Some? && fresh(result.value) && result.value.g == g
  {
    if |operator| != 1 {
      return None;
    }
    if operator[0].text == "*" {
      var out := new CmdNode(Many(0, 0, 0, in1.g));
      return Some(out);
    } else if operator[0].text == "+" {
      var out := new CmdNode(Many(0, 1, 0, in1.g));
      return Some(out);
    } else {
      return None;
    }
  }

  method EvalParenthesis(open: seq<Token>, in1: CmdNode) returns (result: Option<CmdNode>)
    ensures
      match Parenthesis(open, in1.g)
      case None => result.None?
      case Some(g) => result.Some? && result.value.g == g && (g.Opt? || result.value == in1)
  {
    if |open| != 1 {
      return None;
    }
    if open[0].text == "[" {
      var out := new CmdNode(Opt(0, in1.g));
      return Some(out);
    } else if open[0].text == "(" {
      return Some(in1);
    } else {
      return None;
    }
  }

  method EvalVar(table: Names, words: seq<Token>) returns (result: Option<CmdNode>)
    ensures
      match Variable(table, words)
      case None => result.None?
      case Some(g) => result.Some? && result.value.g == g
  {
    if |words| != 1 {
      return None;
    }
    var str := words[0].text;
    var i := 0;
    while i < |table|
      invariant 0 <= i <= |table| && Named(table, str) == Named(table[i..], str)
    {
      assert table[i..][1..] == table[i + 1..];
      if table[i].0 == str {
        var out := new CmdNode(table[i].1);
        return Some(out);
      }
      i := i + 1;
    }
    var out := new CmdNode(Str(0, Token(str)));
    return Some(out);
  }

  // ----- which operator built a subset ---------------------------------------------------------------

  /** A subset has several children, and its minimum is 1 or all of them. */
  predicate Sound(g: Node) {
    g.Subset? ==> |g.kids| > 1 && (g.min == 1 || g.min == |g.kids|)
  }

  ghost predicate SoundNames(table: Names) {
    forall k :: 0 <= k < |table| ==> !table[k].1.Seq? && !table[k].1.Or? && !table[k].1.Subset?
  }

  /** A property that the callbacks keep holds of everything they compute. */
  ghost predicate Kept(ops: E.Ops<Node>, inv: Node -> bool) {
    && (forall t :: ops.evalVar(t).Some? ==> inv(ops.evalVar(t).value))
    && (forall v, t :: inv(v) && ops.pre(v, t).Some? ==> inv(ops.pre(v, t).value))
    && (forall v, t :: inv(v) && ops.post(v, t).Some? ==> inv(ops.post(v, t).value))
    && (forall v, t, w :: inv(v) && inv(w) && ops.bin(v, t, w).Some? ==> inv(ops.bin(v, t, w).value))
    && (forall o, c, v :: inv(v) && ops.paren(o, c, v).Some? ==> inv(ops.paren(o, c, v).value))
  }

  lemma {:induction false} DenoteKeeps(ops: E.Ops<Node>, inv: Node -> bool, a: E.Ast)
    requires Kept(ops, inv)
    ensures E.Denote(ops, a).Value? ==> inv(E.Denote(ops, a).v)
    decreases a, 0
  {
    match a
    case Var(leaf) =>
    case Prefix(op, arg) => DenoteKeeps(ops, inv, arg);
    case Paren(open, arg, close) => DenoteKeeps(ops, inv, arg);
    case Postfix(arg, posts) => DenoteKeeps(ops, inv, arg);
    case Chain(_, first, steps) =>
      DenoteKeeps(ops, inv, first);
      if steps != [] {
        DenoteTailKeeps(ops, inv, steps);
      }
  }

  lemma {:induction false} DenoteTailKeeps(ops: E.Ops<Node>, inv: Node -> bool, steps: seq<E.Step>)
    requires Kept(ops, inv) && steps != []
    ensures E.DenoteTail(ops, steps).Value? ==> inv(E.DenoteTail(ops, steps).v)
    decreases steps, 2
  {
    DenoteStepKeeps(ops, inv, steps[0]);
    var w := E.DenoteStep(ops, steps[0]);
    if w.Value? {
      DenoteStepsKeep(ops, inv, w.v, steps[1..]);
    }
  }

  lemma {:induction false} DenoteStepsKeep(ops: E.Ops<Node>, inv: Node -> bool, v: Node, steps: seq<E.Step>)
    requires Kept(ops, inv) && inv(v)
    ensures E.DenoteSteps(ops, v, steps).Value? ==> inv(E.DenoteSteps(ops, v, steps).v)
    decreases steps, 1
  {
    if steps != [] {
      DenoteStepKeeps(ops, inv, steps[0]);
      var w := E.DenoteStep(ops, steps[0]);
      if w.Value? {
        var r := ops.bin(v, steps[0].op, w.v);
        if r.Some? {
          DenoteStepsKeep(ops, inv, r.value, steps[1..]);
        }
      }
    }
  }

  lemma {:induction false} DenoteStepKeeps(ops: E.Ops<Node>, inv: Node -> bool, step: E.Step)
    requires Kept(ops, inv)
    ensures E.DenoteStep(ops, step).Value? ==> inv(E.DenoteStep(ops, step).v)
    decreases step, 0
  {
    DenoteKeeps(ops, inv, step.arg);
  }

  lemma {:induction false} NamedSound(table: Names, str: string)
    requires SoundNames(table)
    ensures Sound(Named(table, str))
  {
    if table != [] {
      NamedSound(table[1..], str);
    }
  }

  lemma SoundKept(table: Names)
    requires SoundNames(table)
    ensures Kept(CmdOps(table), Sound)
  {
    forall t: G.Tree | CmdOps(table).evalVar(t).Some?
      ensures Sound(CmdOps(table).evalVar(t).value)
    {
      NamedSound(table, t.toks[0].text);
    }
  }

  /**
   A node compiled from the names: down to the user's own nodes, every subset in
   it has several children and a minimum of 1 or all of them, and every
   repetition has no maximum and a minimum of 0 or 1.
   */
  ghost predicate Compiled(table: Names, g: Node) {
    || (exists k :: 0 <= k < |table| && table[k].1 == g)
    || match g
       case Str(_, _) => true
       case Seq(_, kids) => |kids| > 1 && forall k :: k in kids ==> Compiled(table, k)
       case Or(_, kids) => |kids| > 1 && forall k :: k in kids ==> Compiled(table, k)
       case Subset(_, min, kids) =>
         |kids| > 1 && (min == 1 || min == |kids|) && forall k :: k in kids ==> Compiled(table, k)
       case Many(_, min, max, kid) => min <= 1 && max == 0 && Compiled(table, kid)
       case Opt(_, kid) => Compiled(table, kid)
       case _ => false
  }

  lemma {:induction false} NamedCompiled(table: Names, i: nat, str: string)
    requires i <= |table|
    ensures Compiled(table, Named(table[i..], str))
    decreases |table| - i
  {
    if i < |table| {
      NamedCompiled(table, i + 1, str);
      assert table[i..][1..] == table[i + 1..];
    }
  }

  /** What extending a node needs: it is not one of the user's. */
  lemma ExtendedKids(table: Names, g: Node)
    requires SoundNames(table) && Compiled(table, g) && (g.Seq? || g.Or? || g.Subset?)
    ensures |g.kids| > 1 && forall k :: k in g.kids ==> Compiled(table, k)
    ensures g.Subset? ==> g.min == 1 || g.min == |g.kids|
  {
  }

  lemma TwoCompiled(table: Names, v: Node, w: Node)
    requires Compiled(table, v) && Compiled(table, w)
    ensures Compiled(table, Seq(0, [v, w])) && Compiled(table, Or(0, [v, w]))
    ensures Compiled(table, Subset(0, 1, [v, w])) && Compiled(table, Subset(0, 2, [v, w]))
  {
  }

  lemma MoreCompiled(table: Names, id: nat, kids: seq<Node>, w: Node)
    requires |kids| > 1 && (forall k :: k in kids ==> Compiled(table, k)) && Compiled(table, w)
    ensures Compiled(table, Seq(id, kids + [w])) && Compiled(table, Or(id, kids + [w]))
    ensures Compiled(table, Subset(id, 1, kids + [w])) && Compiled(table, Subset(id, |kids| + 1, kids + [w]))
  {
  }

  lemma BinOpCompiled(table: Names, v: Node, words: seq<Token>, w: Node)
    requires SoundNames(table) && Compiled(table, v) && Compiled(table, w) && BinOp(v, words, w).Some?
    ensures Compiled(table, BinOp(v, words, w).value)
  {
    hide Compiled;
    TwoCompiled(table, v, w);
    if v.Seq? || v.Or? || v.Subset? {
      ExtendedKids(table, v);
      MoreCompiled(table, v.id, v.kids, w);
    }
    if w.Seq? || w.Or? || w.Subset? {
      ExtendedKids(table, w);
      MoreCompiled(table, w.id, w.kids, v);
    }
  }

  lemma CompiledKept(table: Names)
    requires SoundNames(table)
    ensures Kept(CmdOps(table), g => Compiled(table, g))
  {
    hide Compiled, BinOp;
    var ops := CmdOps(table);
    forall t: G.Tree | ops.evalVar(t).Some?
      ensures Compiled(table, ops.evalVar(t).value)
    {
      assert table[0..] == table;
      NamedCompiled(table, 0, t.toks[0].text);
    }
    forall v, t: G.Tree | Compiled(table, v) && ops.post(v, t).Some?
      ensures Compiled(table, ops.post(v, t).value)
    {
      OneCompiled(table, v);
    }
    forall v, t: G.Tree, w | Compiled(table, v) && Compiled(table, w) && ops.bin(v, t, w).Some?
      ensures Compiled(table, ops.bin(v, t, w).value)
    {
      BinOpCompiled(table, v, t.toks, w);
    }
    forall o: G.Tree, c: G.Tree, v | Compiled(table, v) && ops.paren(o, c, v).Some?
      ensures Compiled(table, ops.paren(o, c, v).value)
    {
      OneCompiled(table, v);
    }
  }

  lemma OneCompiled(table: Names, v: Node)
    requires Compiled(table, v)
    ensures Compiled(table, Many(0, 0, 0, v)) && Compiled(table, Many(0, 1, 0, v)) && Compiled(table, Opt(0, v))
  {
  }

  /** Every command compiles to a node that is compiled all the way down to the names. */
  lemma CompiledIsSound(table: Names, a: E.Ast)
    requires SoundNames(table)
    ensures E.Denote(CmdOps(table), a).Value? ==>
      Sound(E.Denote(CmdOps(table), a).v) && Compiled(table, E.Denote(CmdOps(table), a).v)
  {
    SoundKept(table);
    DenoteKeeps(CmdOps(table), Sound, a);
    CompiledKept(table);
    DenoteKeeps(CmdOps(table), g => Compiled(table, g), a);
  }

  /** The operator that a subset was built by: the first of a chain, seen through parentheses. */
  function TopOp(a: E.Ast): Option<string> {
    match a
    case Paren(open, arg, _) => if OpText(open.toks) == Some("(") then TopOp(arg) else None
    case Postfix(arg, ops) => if ops == [] then TopOp(arg) else None
    case Chain(_, first, steps) => if steps == [] then TopOp(first) else OpText(steps[0].op.toks)
    case _ => None
  }

  lemma BinOpTells(v: Node, words: seq<Token>, w: Node)
    requires Sound(v) && Sound(w) && BinOp(v, words, w).Some? && BinOp(v, words, w).value.Subset?
    ensures OpText(words) == Some(if BinOp(v, words, w).value.min == 1 then "," else "&")
  {
  }

  /** The minimum of a compiled subset tells the operator that built it. */
  lemma {:induction false} MinTellsOperator(table: Names, a: E.Ast)
    requires SoundNames(table)
    requires E.Denote(CmdOps(table), a).Value? && E.Denote(CmdOps(table), a).v.Subset?
    ensures
      var g := E.Denote(CmdOps(table), a).v;
      && TopOp(a) == Some(if Listed(g) then "," else "&")
      && Listed(g) == !All(g)
  {
    var ops := CmdOps(table);
    CompiledIsSound(table, a);
    match a
    case Var(leaf) => NotNamedSubset(table, leaf.toks[0].text);
    case Paren(open, arg, close) => MinTellsOperator(table, arg);
    case Postfix(arg, posts) =>
      if posts == [] {
        MinTellsOperator(table, arg);
      }
    case Chain(_, first, steps) =>
      if steps == [] {
        MinTellsOperator(table, first);
      } else {
        CompiledIsSound(table, first);
        SoundKept(table);
        DenoteTailKeeps(ops, Sound, steps);
        BinOpTells(E.Denote(ops, first).v, steps[0].op.toks, E.DenoteTail(ops, steps).v);
      }
    case _ =>
  }

  lemma {:induction false} NotNamedSubset(table: Names, str: string)
    requires SoundNames(table)
    ensures !Named(table, str).Subset?
  {
    if table != [] {
      NotNamedSubset(table[1..], str);
    }
  }
}
