/**
 Expression nodes whose operators are distinct strings, as the string node
 matches them, and the round trip of an operator tree through print, parse and
 evaluation.
 */
module ExprAlphabet {
  import opened Prelude
  import opened ExprGrammar
  import opened ExprEval
  import opened ExprRoundTrip

  /**
   Which words are values, and the words of the binary, prefix and postfix
   operators, the opening and the closing parentheses, in that order, with the
   number of each.
   */
  datatype Alphabet = Alphabet(
    isVal: Token -> bool,
    words: seq<Token>,
    bins: nat,
    pres: nat,
    posts: nat,
    parens: nat
  ) {
    ghost predicate Distinct() {
      && |words| == bins + pres + posts + parens + parens
      && (forall i, j :: 0 <= i < j < |words| ==> words[i] != words[j])
      && (forall i :: 0 <= i < |words| ==> !isVal(words[i]))
    }

    /** The class of a word, from its position in the list of all words. */
    function ClassAt(k: nat): Class {
      var n1 := bins;
      var n2 := n1 + pres;
      var n3 := n2 + posts;
      var n4 := n3 + parens;
      if k < n1 then IsBin(k)
      else if k < n2 then IsPre(k - n1)
      else if k < n3 then IsPostfix(k - n2)
      else if k < n4 then IsOpen(k - n3)
      else IsClose(k - n4)
    }

    function Cls(w: Token): Class {
      if isVal(w) then IsValue
      else
        var k := Find(words, w);
        if k == |words| then IsOther else ClassAt(k)
    }

    function Lex(): Lexicon {
      Lexicon(w => Cls(w), (id: nat, w: Token) => Tree(User(id), [w], []))
    }

    /** Node 0 is the value; word k of the list is node k + 1. */
    function Table(first: nat, len: nat): (r: seq<Leaf>)
      requires first + len <= |words|
      ensures |r| == len
      ensures forall i :: 0 <= i < len ==> r[i] == WordLeaf(first + i + 1, words[first + i])
    {
      seq(len, (i: nat) requires i < len => WordLeaf(first + i + 1, words[first + i]))
    }

    function Build(): Config
      requires |words| == bins + pres + posts + parens + parens
    {
      var n2 := bins + pres;
      var n3 := n2 + posts;
      Config(ValLeaf(0, isVal), Table(0, bins), Table(bins, pres), Table(n2, posts),
             Table(n3, parens), Table(n3 + parens, parens))
    }
  }

  function Find(words: seq<Token>, w: Token): (k: nat)
    ensures k <= |words| && (k < |words| ==> words[k] == w)
    ensures w in words ==> k < |words|
  {
    if words == [] then 0 else if words[0] == w then 0 else 1 + Find(words[1..], w)
  }

  function WordLeaf(id: nat, s: Token): Leaf {
    Leaf(id, input => if input != [] && input[0] == s then Some(Tree(User(id), [s], [])) else None)
  }

  function ValLeaf(id: nat, isVal: Token -> bool): Leaf {
    Leaf(id, input => if input != [] && isVal(input[0]) then Some(Tree(User(id), [input[0]], [])) else None)
  }

  lemma Sizes(al: Alphabet)
    requires al.Distinct()
    ensures |al.words| == al.bins + al.pres + al.posts + al.parens + al.parens
  {
  }

  lemma TableIds(al: Alphabet, first: nat, len: nat, id: nat)
    requires first + len <= |al.words|
    ensures HasId(al.Table(first, len), id) <==> first < id <= first + len
  {
    if first < id <= first + len {
      assert al.Table(first, len)[id - 1 - first].id == id;
    }
  }

  lemma KindAt(al: Alphabet, k: nat)
    requires al.Distinct() && k < |al.words|
    ensures KindOf(al.Build(), User(k + 1)) == KindOfClass(al.ClassAt(k))
  {
    hide HasId, Alphabet.Distinct;
    Sizes(al);
    var n2 := al.bins + al.pres;
    var n3 := n2 + al.posts;
    TableIds(al, 0, al.bins, k + 1);
    TableIds(al, al.bins, al.pres, k + 1);
    TableIds(al, n2, al.posts, k + 1);
    TableIds(al, n3, al.parens, k + 1);
    TableIds(al, n3 + al.parens, al.parens, k + 1);
  }

  lemma WordReads(al: Alphabet, k: nat)
    requires al.Distinct() && k < |al.words|
    ensures ReadsClass(WordLeaf(k + 1, al.words[k]), al.Lex(), al.ClassAt(k))
  {
    var leaf := WordLeaf(k + 1, al.words[k]);
    forall input
      ensures leaf.parse(input) ==
        if input != [] && al.Cls(input[0]) == al.ClassAt(k) then Some(Tree(User(k + 1), [input[0]], [])) else None
    {
      if input != [] {
        var j := Find(al.words, input[0]);
        if j < |al.words| && al.ClassAt(j) == al.ClassAt(k) {
          assert j == k;
        }
      }
    }
  }

  lemma WordOk(al: Alphabet, cfg: Config, id: nat, s: Token)
    ensures LeafOk(WordLeaf(id, s)) && Consumes(WordLeaf(id, s))
  {
  }

  function KindOfClass(c: Class): Kind {
    match c
    case IsBin(_) => BinOp
    case IsPre(_) => PreOp
    case IsPostfix(_) => PostOp
    case IsOpen(_) => ParenOpen
    case _ => ParenClose
  }

  lemma TableFacts(al: Alphabet, first: nat, len: nat)
    requires al.Distinct() && first + len <= |al.words|
    ensures
      var leaves := al.Table(first, len);
      && LeavesOk(leaves)
      && (forall i :: 0 <= i < |leaves| ==> Consumes(leaves[i]))
      && (forall i :: 0 <= i < |leaves| ==> ReadsClass(leaves[i], al.Lex(), al.ClassAt(first + i)))
      && forall i :: 0 <= i < |leaves| ==> KindOf(al.Build(), User(leaves[i].id)) == KindOfClass(al.ClassAt(first + i))
  {
    hide ReadsClass, LeafOk, Consumes, KindOf, Alphabet.Distinct;
    Sizes(al);
    forall i | 0 <= i < len
      ensures LeafOk(al.Table(first, len)[i]) && Consumes(al.Table(first, len)[i])
      ensures ReadsClass(al.Table(first, len)[i], al.Lex(), al.ClassAt(first + i))
      ensures KindOf(al.Build(), User(al.Table(first, len)[i].id)) == KindOfClass(al.ClassAt(first + i))
    {
      WordReads(al, first + i);
      WordOk(al, al.Build(), first + i + 1, al.words[first + i]);
      KindAt(al, first + i);
    }
  }

  lemma BuildTables(al: Alphabet)
    requires al.Distinct()
    ensures
      var cfg := al.Build();
      var n2 := al.bins + al.pres;
      var n3 := n2 + al.posts;
      && |al.words| == n3 + al.parens + al.parens
      && cfg.bins == al.Table(0, al.bins) && cfg.pres == al.Table(al.bins, al.pres)
      && cfg.posts == al.Table(n2, al.posts) && cfg.opens == al.Table(n3, al.parens)
      && cfg.closes == al.Table(n3 + al.parens, al.parens)
  {
    hide Alphabet.Table, ValLeaf;
  }

  lemma BinsFacts(al: Alphabet)
    requires al.Distinct()
    ensures
      var cfg := al.Build();
      && |cfg.bins| == al.bins && LeavesOk(cfg.bins)
      && (forall i :: 0 <= i < |cfg.bins| ==> Consumes(cfg.bins[i]))
      && (forall i :: 0 <= i < |cfg.bins| ==> ReadsClass(cfg.bins[i], al.Lex(), IsBin(i)))
      && forall i :: 0 <= i < |cfg.bins| ==> KindOf(cfg, User(cfg.bins[i].id)) == BinOp
  {
    hide ReadsClass, LeavesOk, Consumes, KindOf, WordLeaf, ValLeaf, Alphabet.Distinct, Alphabet.Lex, Alphabet.Table;
    hide Alphabet.Build;
    Sizes(al);
    BuildTables(al);
    TableFacts(al, 0, al.bins);
  }

  lemma PresFacts(al: Alphabet)
    requires al.Distinct()
    ensures
      var cfg := al.Build();
      && |cfg.pres| == al.pres && LeavesOk(cfg.pres)
      && (forall i :: 0 <= i < |cfg.pres| ==> Consumes(cfg.pres[i]))
      && (forall i :: 0 <= i < |cfg.pres| ==> ReadsClass(cfg.pres[i], al.Lex(), IsPre(i)))
      && forall i :: 0 <= i < |cfg.pres| ==> KindOf(cfg, User(cfg.pres[i].id)) == PreOp
  {
    hide ReadsClass, LeavesOk, Consumes, KindOf, WordLeaf, ValLeaf, Alphabet.Distinct, Alphabet.Lex, Alphabet.Table;
    hide Alphabet.Build;
    Sizes(al);
    BuildTables(al);
    TableFacts(al, al.bins, al.pres);
  }

  lemma PostsFacts(al: Alphabet)
    requires al.Distinct()
    ensures
      var cfg := al.Build();
      && |cfg.posts| == al.posts && LeavesOk(cfg.posts)
      && (forall i :: 0 <= i < |cfg.posts| ==> Consumes(cfg.posts[i]))
      && (forall i :: 0 <= i < |cfg.posts| ==> ReadsClass(cfg.posts[i], al.Lex(), IsPostfix(i)))
      && forall i :: 0 <= i < |cfg.posts| ==> KindOf(cfg, User(cfg.posts[i].id)) == PostOp
  {
    hide ReadsClass, LeavesOk, Consumes, KindOf, WordLeaf, ValLeaf, Alphabet.Distinct, Alphabet.Lex, Alphabet.Table;
    hide Alphabet.Build;
    Sizes(al);
    BuildTables(al);
    TableFacts(al, al.bins + al.pres, al.posts);
  }

  lemma OpensFacts(al: Alphabet)
    requires al.Distinct()
    ensures
      var cfg := al.Build();
      && |cfg.opens| == al.parens && LeavesOk(cfg.opens)
      && (forall i :: 0 <= i < |cfg.opens| ==> Consumes(cfg.opens[i]))
      && (forall i :: 0 <= i < |cfg.opens| ==> ReadsClass(cfg.opens[i], al.Lex(), IsOpen(i)))
      && forall i :: 0 <= i < |cfg.opens| ==> KindOf(cfg, User(cfg.opens[i].id)) == ParenOpen
  {
    hide ReadsClass, LeavesOk, Consumes, KindOf, WordLeaf, ValLeaf, Alphabet.Distinct, Alphabet.Lex, Alphabet.Table;
    hide Alphabet.Build;
    Sizes(al);
    BuildTables(al);
    TableFacts(al, al.bins + al.pres + al.posts, al.parens);
  }

  lemma ClosesFacts(al: Alphabet)
    requires al.Distinct()
    ensures
      var cfg := al.Build();
      && |cfg.closes| == al.parens && LeavesOk(cfg.closes)
      && (forall i :: 0 <= i < |cfg.closes| ==> Consumes(cfg.closes[i]))
      && (forall i :: 0 <= i < |cfg.closes| ==> ReadsClass(cfg.closes[i], al.Lex(), IsClose(i)))
      && forall i :: 0 <= i < |cfg.closes| ==> KindOf(cfg, User(cfg.closes[i].id)) == ParenClose
  {
    hide ReadsClass, LeavesOk, Consumes, KindOf, WordLeaf, ValLeaf, Alphabet.Distinct, Alphabet.Lex, Alphabet.Table;
    hide Alphabet.Build;
    Sizes(al);
    BuildTables(al);
    TableFacts(al, al.bins + al.pres + al.posts + al.parens, al.parens);
  }

  lemma WordSealed(cfg: Config, id: nat, s: Token)
    ensures SealedLeaf(cfg, WordLeaf(id, s))
  {
  }

  lemma TableSealed(al: Alphabet, cfg: Config, first: nat, len: nat)
    requires first + len <= |al.words|
    ensures SealedLeaves(cfg, al.Table(first, len))
  {
    hide SealedLeaf, WordLeaf;
    forall i | 0 <= i < len
      ensures SealedLeaf(cfg, al.Table(first, len)[i])
    {
      WordSealed(cfg, first + i + 1, al.words[first + i]);
    }
  }

  lemma ValSealed(cfg: Config, isVal: Token -> bool)
    ensures SealedLeaf(cfg, ValLeaf(0, isVal))
  {
  }

  lemma BuildIsSealed(al: Alphabet)
    requires al.Distinct()
    ensures Sealed(al.Build())
  {
    hide SealedLeaf, SealedLeaves, ValLeaf, Alphabet.Distinct, Alphabet.Table;
    Sizes(al);
    var cfg := al.Build();
    var n2 := al.bins + al.pres;
    var n3 := n2 + al.posts;
    TableSealed(al, cfg, 0, al.bins);
    TableSealed(al, cfg, al.bins, al.pres);
    TableSealed(al, cfg, n2, al.posts);
    TableSealed(al, cfg, n3, al.parens);
    TableSealed(al, cfg, n3 + al.parens, al.parens);
    ValSealed(cfg, al.isVal);
  }

  /** Distinct words give a grammar of the kind the round trip is about. */
  lemma BuildIsOneWord(al: Alphabet)
    requires al.Distinct()
    ensures OneWord(al.Build(), al.Lex())
  {
    hide ReadsClass, LeavesOk, LeafOk, Consumes, KindOf, Sealed, Alphabet.Distinct, Alphabet.Build, Alphabet.Lex;
    Sizes(al);
    BinsFacts(al);
    PresFacts(al);
    PostsFacts(al);
    OpensFacts(al);
    ClosesFacts(al);
    ValReads(al);
    BuildIsSealed(al);
  }

  lemma ValReads(al: Alphabet)
    requires al.Distinct()
    ensures ReadsClass(al.Build().val, al.Lex(), IsValue) && LeafOk(al.Build().val)
  {
  }

  // ----- operator trees -----------------------------------------------------------------

  /** An expression without parentheses or layers. */
  datatype Exp =
    | EVal(leaf: Tree)
    | EPre(op: Tree, arg: Exp)
    | EPost(arg: Exp, op: Tree)
    | EBin(level: nat, left: Exp, op: Tree, right: Exp)

  ghost predicate ExpOk(cfg: Config, e: Exp) {
    match e
    case EVal(leaf) => From(cfg.val, leaf)
    case EPre(op, arg) => FromSome(cfg.pres, op) && ExpOk(cfg, arg)
    case EPost(arg, op) => FromSome(cfg.posts, op) && ExpOk(cfg, arg)
    case EBin(level, l, op, r) => level < |cfg.bins| && From(cfg.bins[level], op) && ExpOk(cfg, l) && ExpOk(cfg, r)
  }

  /** Every operand of every operator between parentheses. */
  function Parenthesise(e: Exp, open: Tree, close: Tree): Ast {
    match e
    case EVal(leaf) => Var(leaf)
    case EPre(op, arg) => Prefix(op, Paren(open, Parenthesise(arg, open, close), close))
    case EPost(arg, op) => Postfix(Paren(open, Parenthesise(arg, open, close), close), [op])
    case EBin(level, l, op, r) =>
      Chain(level, Paren(open, Parenthesise(l, open, close), close),
            [Step(op, Paren(open, Parenthesise(r, open, close), close))])
  }

  /** Callbacks that build the operator tree; a parenthesis is its content. */
  function BuildExp(cfg: Config): Ops<Exp> {
    Ops(
      leaf => Some(EVal(leaf)),
      (arg, op) => Some(EPre(op, arg)),
      (arg, op) => Some(EPost(arg, op)),
      (l, op, r) => Some(EBin(LevelOf(cfg.bins, op), l, op, r)),
      (open, close, e) => Some(e))
  }

  /** The binary operator whose node built the tree. */
  function LevelOf(bins: seq<Leaf>, op: Tree): (level: nat) {
    if bins == [] || User(bins[0].id) == op.node then 0 else 1 + LevelOf(bins[1..], op)
  }

  lemma {:induction false} LevelOfFinds(bins: seq<Leaf>, level: nat, op: Tree)
    requires level < |bins| && op.node == User(bins[level].id)
    requires forall i, j :: 0 <= i < j < |bins| ==> bins[i].id != bins[j].id
    ensures LevelOf(bins, op) == level
  {
    if level > 0 {
      LevelOfFinds(bins[1..], level - 1, op);
    }
  }

  lemma {:induction false} ParenthesisedIsWellFormed(cfg: Config, e: Exp, open: Tree, close: Tree, level: nat)
    requires |cfg.opens| == |cfg.closes| && ExpOk(cfg, e)
    requires 0 < |cfg.opens| && From(cfg.opens[0], open) && From(cfg.closes[0], close)
    requires level <= |cfg.bins| && (e.EBin? ==> e.level < level)
    ensures InLevel(cfg, level, Parenthesise(e, open, close))
    decreases e, level
  {
    if level > 0 && !(e.EBin? && e.level == level - 1) {
      ParenthesisedIsWellFormed(cfg, e, open, close, level - 1);
    } else {
      match e
      case EVal(_) =>
      case EPre(op, arg) => ParenOperand(cfg, arg, open, close, 0);
      case EPost(arg, op) => ParenOperand(cfg, arg, open, close, 0);
      case EBin(_, l, op, r) =>
        ParenOperand(cfg, l, open, close, level - 1);
        ParenOperand(cfg, r, open, close, level - 1);
    }
  }

  lemma {:induction false} ParenOperand(cfg: Config, e: Exp, open: Tree, close: Tree, level: nat)
    requires |cfg.opens| == |cfg.closes| && ExpOk(cfg, e)
    requires 0 < |cfg.opens| && From(cfg.opens[0], open) && From(cfg.closes[0], close)
    requires level <= |cfg.bins|
    ensures
      var a := Paren(open, Parenthesise(e, open, close), close);
      Operand(cfg, a) && InLevel(cfg, level, a) && InLevel(cfg, |cfg.bins|, a)
    decreases e, |cfg.bins| + 1
  {
    ParenthesisedIsWellFormed(cfg, e, open, close, |cfg.bins|);
    OperandInLevel(cfg, level, Paren(open, Parenthesise(e, open, close), close));
    OperandInLevel(cfg, |cfg.bins|, Paren(open, Parenthesise(e, open, close), close));
  }

  lemma {:induction false} OperandInLevel(cfg: Config, level: nat, a: Ast)
    requires |cfg.opens| == |cfg.closes| && level <= |cfg.bins| && a.Paren? && Operand(cfg, a)
    ensures InLevel(cfg, level, a)
  {
    if level > 0 {
      OperandInLevel(cfg, level - 1, a);
    }
  }

  lemma {:induction false} ParenthesisedDenotes(cfg: Config, lex: Lexicon, e: Exp, open: Tree, close: Tree)
    requires OneWord(cfg, lex) && ExpOk(cfg, e)
    requires forall i, j :: 0 <= i < j < |cfg.bins| ==> cfg.bins[i].id != cfg.bins[j].id
    ensures Denote(BuildExp(cfg), Parenthesise(e, open, close)) == Value(e)
  {
    hide OneWord, InLevel;
    match e
    case EVal(_) =>
    case EPre(_, arg) => ParenthesisedDenotes(cfg, lex, arg, open, close);
    case EPost(arg, _) => ParenthesisedDenotes(cfg, lex, arg, open, close);
    case EBin(level, l, op, r) =>
      ParenthesisedDenotes(cfg, lex, l, open, close);
      ParenthesisedDenotes(cfg, lex, r, open, close);
      BinNode(cfg, lex, level, op);
      LevelOfFinds(cfg.bins, level, op);
      var step := Step(op, Paren(open, Parenthesise(r, open, close), close));
      assert [step][1..] == [];
      assert Denote(BuildExp(cfg), step.arg) == Value(r);
      assert DenoteTail(BuildExp(cfg), [step]) == Value(r);
  }

  lemma BinNode(cfg: Config, lex: Lexicon, level: nat, op: Tree)
    requires OneWord(cfg, lex) && level < |cfg.bins| && From(cfg.bins[level], op)
    ensures op.node == User(cfg.bins[level].id)
  {
    assert LeafOk(cfg.bins[level]);
  }

  /**
   Print an operator tree with every operand between parentheses, parse the
   words, evaluate the parse tree with callbacks that rebuild the tree: the
   result is the tree, and every word is consumed.
   */
  lemma RoundTrip(cfg: Config, lex: Lexicon, e: Exp, open: Tree, close: Tree)
    requires OneWord(cfg, lex) && ExpOk(cfg, e)
    requires 0 < |cfg.opens| && From(cfg.opens[0], open) && From(cfg.closes[0], close)
    requires forall i, j :: 0 <= i < j < |cfg.bins| ==> cfg.bins[i].id != cfg.bins[j].id
    ensures
      var words := Print(Parenthesise(e, open, close));
      var t := Parse(cfg, words);
      && t.Some? && t.value.toks == words
      && Eval(cfg, BuildExp(cfg), t.value) == Ok(Partial(Some(e), None, NoKind))
  {
    ParenthesisedIsWellFormed(cfg, e, open, close, |cfg.bins|);
    PrintThenParse(cfg, lex, Parenthesise(e, open, close));
    EvalIsMeaning(cfg, BuildExp(cfg), Parse(cfg, Print(Parenthesise(e, open, close))).value);
    ParenthesisedDenotes(cfg, lex, e, open, close);
  }
}
