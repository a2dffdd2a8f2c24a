/**
 Operators that are never tried: what starts an operand is taken for a value
 first, then for a prefix operator, and last for an opening parenthesis.
 */
module ExprHidden {
  import opened Prelude
  import opened ExprGrammar

  datatype Table = Prefixes | Parens

  /** The node without the prefix operators or without the parentheses. */
  function Less(cfg: Config, table: Table): Config {
    match table
    case Prefixes => cfg.(pres := [])
    case Parens => cfg.(opens := [], closes := [])
  }

  /** The value matches wherever an operator of the table does. */
  ghost predicate ValueFirst(cfg: Config, leaves: seq<Leaf>) {
    forall i, input :: 0 <= i < |leaves| && leaves[i].parse(input).Some? ==> cfg.val.parse(input).Some?
  }

  /** Wherever an opening parenthesis matches, the value does, or a prefix operator takes the same words. */
  ghost predicate PrefixFirst(cfg: Config)
    requires LeavesOk(cfg.pres)
  {
    forall i, input :: 0 <= i < |cfg.opens| && cfg.opens[i].parse(input).Some? ==>
      || cfg.val.parse(input).Some?
      || (&& ParseFirst(cfg.pres, input).Some?
          && ParseFirst(cfg.pres, input).value.toks == cfg.opens[i].parse(input).value.toks)
  }

  ghost predicate Hidden(cfg: Config, table: Table)
    requires LeavesOk(cfg.pres)
  {
    match table
    case Prefixes => ValueFirst(cfg, cfg.pres)
    case Parens => PrefixFirst(cfg)
  }

  lemma NoneFirst(leaves: seq<Leaf>, input: seq<Token>)
    requires LeavesOk(leaves) && forall i :: 0 <= i < |leaves| ==> leaves[i].parse(input).None?
    ensures ParseFirst(leaves, input).None?
  {
  }

  /** What a hidden table would match is not reached. */
  lemma {:induction false} ParensFail(cfg: Config, i: nat, input: seq<Token>)
    requires Guarded(cfg) && PrefixFirst(cfg) && i <= |cfg.opens|
    requires cfg.val.parse(input).None? && ParsePreSeq(cfg, input).None?
    ensures ParseParens(cfg, i, input).None?
    decreases |cfg.opens| - i
  {
    hide ParseRef;
    if i < |cfg.opens| {
      if cfg.opens[i].parse(input).Some? {
        assert cfg.val.parse(input).Some? || ParsePreOr(cfg, input).Some?;
      }
      ParensFail(cfg, i + 1, input);
    }
  }

  lemma LessGuarded(cfg: Config, table: Table)
    requires Guarded(cfg)
    ensures Guarded(Less(cfg, table))
    ensures Less(cfg, table).val == cfg.val && Less(cfg, table).bins == cfg.bins && Less(cfg, table).posts == cfg.posts
  {
  }

  lemma {:induction false} PostSame(cfg: Config, table: Table, input: seq<Token>)
    requires Guarded(cfg) && Guarded(Less(cfg, table)) && Hidden(cfg, table)
    ensures ParsePost(Less(cfg, table), input) == ParsePost(cfg, input)
    decreases |input|, 0, 1
  {
    var small := Less(cfg, table);
    if cfg.val.parse(input).None? {
      PreSeqSame(cfg, table, input);
      if ParsePreSeq(cfg, input).None? {
        ParensSame(cfg, table, 0, input);
      }
    }
  }

  lemma {:induction false} PreSeqSame(cfg: Config, table: Table, input: seq<Token>)
    requires Guarded(cfg) && Guarded(Less(cfg, table)) && Hidden(cfg, table) && cfg.val.parse(input).None?
    ensures ParsePreSeq(Less(cfg, table), input) == ParsePreSeq(cfg, input)
    decreases |input|, 0, 0
  {
    hide ParseRef;
    if table == Prefixes {
      NoneFirst(cfg.pres, input);
    } else {
      var op := ParsePreOr(cfg, input);
      if op.Some? {
        RefSame(cfg, table, input[|op.value.toks|..]);
      }
    }
  }

  lemma {:induction false} ParensSame(cfg: Config, table: Table, i: nat, input: seq<Token>)
    requires Guarded(cfg) && Guarded(Less(cfg, table)) && Hidden(cfg, table)
    requires cfg.val.parse(input).None? && ParsePreSeq(cfg, input).None? && i <= |cfg.opens|
    ensures ParseParens(Less(cfg, table), if table == Parens then 0 else i, input) == ParseParens(cfg, i, input)
    decreases |input|, 0, 0, |cfg.opens| - i
  {
    hide ParseRef, ParsePreSeq;
    if table == Parens {
      ParensFail(cfg, i, input);
    } else if i < |cfg.opens| {
      ParensSame(cfg, table, i + 1, input);
      var open := cfg.opens[i].parse(input);
      if open.Some? {
        RefSame(cfg, table, input[|open.value.toks|..]);
      }
    }
  }

  lemma {:induction false} RefSame(cfg: Config, table: Table, input: seq<Token>)
    requires Guarded(cfg) && Guarded(Less(cfg, table)) && Hidden(cfg, table)
    ensures ParseRef(Less(cfg, table), input) == ParseRef(cfg, input)
    decreases |input|, 2 * |cfg.bins| + 2
  {
    LevelSame(cfg, table, |cfg.bins|, input);
  }

  lemma {:induction false} PostsSame(cfg: Config, table: Table, input: seq<Token>)
    requires Guarded(cfg) && Guarded(Less(cfg, table))
    ensures ParsePosts(Less(cfg, table), input) == ParsePosts(cfg, input)
    decreases |input|
  {
    var op := ParsePostOr(cfg, input);
    if op.Some? && op.value.toks != [] {
      PostsSame(cfg, table, input[|op.value.toks|..]);
    }
  }

  lemma {:induction false} LevelSame(cfg: Config, table: Table, level: nat, input: seq<Token>)
    requires Guarded(cfg) && Guarded(Less(cfg, table)) && Hidden(cfg, table) && level <= |cfg.bins|
    ensures ParseLevel(Less(cfg, table), level, input) == ParseLevel(cfg, level, input)
    decreases |input|, 2 * level + 1
  {
    hide Hidden, Guarded, ParsePost, ParsePosts, ParseSteps;
    if level == 0 {
      PostSame(cfg, table, input);
      var post := ParsePost(cfg, input);
      if post.Some? {
        PostsSame(cfg, table, input[|post.value.toks|..]);
      }
    } else {
      LevelSame(cfg, table, level - 1, input);
      var first := ParseLevel(cfg, level - 1, input);
      if first.Some? {
        StepsSame(cfg, table, level - 1, input[|first.value.toks|..]);
      }
    }
  }

  lemma {:induction false} StepsSame(cfg: Config, table: Table, level: nat, input: seq<Token>)
    requires Guarded(cfg) && Guarded(Less(cfg, table)) && Hidden(cfg, table) && level < |cfg.bins|
    ensures ParseSteps(Less(cfg, table), level, input) == ParseSteps(cfg, level, input)
    decreases |input|, 2 * level + 2, 1
  {
    hide Hidden, Guarded, ParseLevel;
    StepSame(cfg, table, level, input);
    var step := ParseStep(cfg, level, input);
    if step.Some? && step.value.toks != [] {
      StepsSame(cfg, table, level, input[|step.value.toks|..]);
    }
  }

  lemma {:induction false} StepSame(cfg: Config, table: Table, level: nat, input: seq<Token>)
    requires Guarded(cfg) && Guarded(Less(cfg, table)) && Hidden(cfg, table) && level < |cfg.bins|
    ensures ParseStep(Less(cfg, table), level, input) == ParseStep(cfg, level, input)
    decreases |input|, 2 * level + 2, 0
  {
    hide Hidden, ParseLevel;
    var op := cfg.bins[level].parse(input);
    if op.Some? {
      LevelSame(cfg, table, level, input[|op.value.toks|..]);
    }
  }

  /** When the value matches whatever a prefix operator matches, the prefix operators might as well not be there. */
  lemma ValueHidesPrefixes(cfg: Config, input: seq<Token>)
    requires Guarded(cfg) && ValueFirst(cfg, cfg.pres)
    ensures Guarded(cfg.(pres := []))
    ensures Parse(cfg.(pres := []), input) == Parse(cfg, input)
  {
    LessGuarded(cfg, Prefixes);
    hide Guarded;
    LevelSame(cfg, Prefixes, |cfg.bins|, input);
  }

  /** And so for parentheses that open with the words of a value or of a prefix operator. */
  lemma PrefixHidesParens(cfg: Config, input: seq<Token>)
    requires Guarded(cfg) && PrefixFirst(cfg)
    ensures Guarded(cfg.(opens := [], closes := []))
    ensures Parse(cfg.(opens := [], closes := []), input) == Parse(cfg, input)
  {
    LessGuarded(cfg, Parens);
    hide Guarded;
    LevelSame(cfg, Parens, |cfg.bins|, input);
  }
}
