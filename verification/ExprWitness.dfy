/** Words on which the evaluator runs into its assertion. */
module ExprWitness {
  import opened Prelude
  import opened ExprGrammar
  import opened ExprEval
  import opened ExprRoundTrip
  import opened ExprAlphabet
  import opened ExprGuard

  /** One value, the letter a, and one postfix operator. */
  const CARET: Alphabet := Alphabet(w => w == Token("a"), [Token("^")], 0, 0, 1, 0)

  const TWICE: seq<Token> := [Token("a"), Token("^"), Token("^")]

  lemma CaretDistinct()
    ensures CARET.Distinct()
  {
  }

  lemma CaretTables()
    ensures
      var cfg := CARET.Build();
      && cfg.val == ValLeaf(0, CARET.isVal) && cfg.posts == [WordLeaf(1, Token("^"))]
      && cfg.bins == [] && cfg.opens == [] && cfg.closes == []
  {
    hide WordLeaf, ValLeaf;
  }

  lemma CaretTrees()
    ensures
      var cfg := CARET.Build();
      && From(cfg.val, Tree(User(0), [Token("a")], []))
      && FromSome(cfg.posts, Tree(User(1), [Token("^")], []))
  {
    hide Alphabet.Build;
    CaretTables();
    assert From(CARET.Build().posts[0], Tree(User(1), [Token("^")], []));
  }

  /** The expression node accepts a ^ ^, and evaluating it reaches the assertion. */
  lemma AssertionIsReached<V(!new)>(ops: Ops<V>)
    requires Total(ops)
    ensures OneWord(CARET.Build(), CARET.Lex()) && Adjacent(CARET.Lex(), TWICE)
    ensures
      var cfg := CARET.Build();
      var t := Parse(cfg, TWICE);
      t.Some? && t.value.toks == TWICE && Eval(cfg, ops, t.value).Asserted?
  {
    hide OneWord, Alphabet.Build, Alphabet.Distinct, Alphabet.Lex, From, FromSome, Total, Eval, Parse, Adjacent;
    var cfg, lex := CARET.Build(), CARET.Lex();
    CaretDistinct();
    CaretTables();
    CaretTrees();
    BuildIsOneWord(CARET);
    var a, op := Tree(User(0), [Token("a")], []), Tree(User(1), [Token("^")], []);
    var e := Postfix(Var(a), [op, op]);
    assert Toks([op, op]) == op.toks + Toks([op]) && Toks([op]) == op.toks + Toks([]) by {
      assert [op, op][1..] == [op] && [op][1..] == [];
    }
    assert Print(e) == TWICE;
    PrintThenParse(cfg, lex, e);
    AdjacentCarets();
    AssertionIffAdjacent(cfg, lex, ops, TWICE);
  }

  lemma AdjacentCarets()
    ensures Adjacent(CARET.Lex(), TWICE)
  {
    assert IsPostWord(CARET.Lex(), TWICE[1]) && IsPostWord(CARET.Lex(), TWICE[2]);
  }
}
