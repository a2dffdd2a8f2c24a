/**
 The cyclic graph of the expression node has one meaning: whatever computes at
 every node what its combinator computes from its children is the layered parser.
 */
module ExprUnique {
  import opened Prelude
  import opened ExprGrammar
  import opened ExprBuild

  function DefOf(cfg: Config, role: Role): NodeDef
    requires InGraph(|cfg.bins|, |cfg.opens|, role)
  {
    Def(|cfg.bins|, |cfg.pres|, |cfg.posts|, |cfg.opens|, role)
  }

  /** The equations of the graph: the user's nodes match what they match, the built ones what their children make. */
  ghost predicate Solves(cfg: Config, p: Parser)
    requires Guarded(cfg)
  {
    && (forall kind, i, input :: RefOk(cfg, Slot(kind, i)) ==>
          p(Slot(kind, i), input) == ParseAt(cfg, Slot(kind, i), input))
    && (forall role, input :: InGraph(|cfg.bins|, |cfg.opens|, role) ==>
          p(Inner(role), input) == Run(p, role, DefOf(cfg, role), input))
  }

  /** Children on the same input are lower, but for the reference, which comes after a word. */
  function Rank(cfg: Config, r: NodeRef): nat {
    match r
    case Slot(_, _) => 0
    case Inner(role) =>
      match role
      case PreOr => 1
      case PostOr => 1
      case PostMany => 2
      case PreSeq => 2
      case ParenSeq(_) => 2
      case Post => 3
      case Term => 4
      case BinSeq(i) => 5 + 3 * i
      case BinMany(i) => 6 + 3 * i
      case Next(i) => 7 + 3 * i
      case Ref => 5 + 3 * |cfg.bins|
      case Top => 0
  }

  /** Both agree on shorter inputs, and on inputs of this length at lower nodes. */
  ghost predicate Same(cfg: Config, p: Parser, n: nat, rank: nat)
    requires Guarded(cfg)
  {
    forall r, input :: RefOk(cfg, r) && (|input| < n || (|input| == n && Rank(cfg, r) < rank)) ==>
      p(r, input) == ParseAt(cfg, r, input)
  }

  lemma SameAt(cfg: Config, p: Parser, n: nat, rank: nat, r: NodeRef, input: seq<Token>)
    requires Guarded(cfg) && Same(cfg, p, n, rank) && RefOk(cfg, r)
    requires |input| < n || (|input| == n && Rank(cfg, r) < rank)
    ensures p(r, input) == ParseAt(cfg, r, input) == At(cfg)(r, input)
  {
    hide Guarded, RefOk, ParseAt, Rank;
  }

  lemma {:induction false} SeqSame(cfg: Config, p: Parser, n: nat, rank: nat, kids: seq<NodeRef>, input: seq<Token>)
    requires Guarded(cfg) && Same(cfg, p, n, rank) && RefsOk(cfg, kids) && |input| <= n
    requires |input| < n || forall i :: 0 <= i < |kids| ==> Rank(cfg, kids[i]) < rank
    ensures RunSeq(p, kids, input) == RunSeq(At(cfg), kids, input)
    decreases kids
  {
    hide Guarded, RefOk, ParseAt, Rank, Same, At;
    if kids != [] {
      SameAt(cfg, p, n, rank, kids[0], input);
      var t := p(kids[0], input);
      if t.Some? {
        SeqSame(cfg, p, n, rank, kids[1..], After(t.value, input));
      }
    }
  }

  lemma {:induction false} OrSame(cfg: Config, p: Parser, n: nat, rank: nat, kids: seq<NodeRef>, input: seq<Token>)
    requires Guarded(cfg) && Same(cfg, p, n, rank) && RefsOk(cfg, kids) && |input| == n
    requires forall i :: 0 <= i < |kids| ==> Rank(cfg, kids[i]) < rank
    ensures RunOr(p, kids, input) == RunOr(At(cfg), kids, input)
    decreases kids
  {
    hide Guarded, RefOk, ParseAt, Rank, Same, At;
    if kids != [] {
      SameAt(cfg, p, n, rank, kids[0], input);
      OrSame(cfg, p, n, rank, kids[1..], input);
    }
  }

  lemma {:induction false} ManySame(cfg: Config, p: Parser, n: nat, rank: nat, kid: NodeRef, input: seq<Token>)
    requires Guarded(cfg) && Same(cfg, p, n, rank) && RefOk(cfg, kid) && |input| <= n && Rank(cfg, kid) < rank
    ensures RunMany(p, kid, input) == RunMany(At(cfg), kid, input)
    decreases |input|
  {
    hide Guarded, RefOk, ParseAt, Rank, Same, At;
    SameAt(cfg, p, n, rank, kid, input);
    var t := p(kid, input);
    if t.Some? && t.value.toks != [] && input != [] {
      ManySame(cfg, p, n, rank, kid, After(t.value, input));
    }
  }

  /** The two sequences with the reference in them: the first child takes a word. */
  lemma GuardedSame(cfg: Config, p: Parser, n: nat, rank: nat, kids: seq<NodeRef>, input: seq<Token>)
    requires Guarded(cfg) && Same(cfg, p, n, rank) && RefsOk(cfg, kids) && |input| == n && kids != []
    requires Rank(cfg, kids[0]) < rank
    requires var t := ParseAt(cfg, kids[0], input); t.Some? ==> 0 < |t.value.toks|
    ensures RunSeq(p, kids, input) == RunSeq(At(cfg), kids, input)
  {
    hide Guarded, RefOk, ParseAt, Rank, Same, At;
    SameAt(cfg, p, n, rank, kids[0], input);
    var t := p(kids[0], input);
    if t.Some? {
      AtTakes(cfg, kids[0], input);
      SeqSame(cfg, p, n, rank, kids[1..], After(t.value, input));
    }
  }

  lemma AtTakes(cfg: Config, r: NodeRef, input: seq<Token>)
    requires Guarded(cfg) && RefOk(cfg, r) && ParseAt(cfg, r, input).Some?
    ensures |ParseAt(cfg, r, input).value.toks| <= |input|
  {
    hide Guarded, RefOk;
  }

  /** Every child is lower than its node, but for the reference after a first child. */
  predicate Lower(cfg: Config, role: Role, kids: seq<NodeRef>) {
    if role.PreSeq? || role.ParenSeq? then kids != [] && Rank(cfg, kids[0]) < 2
    else forall i :: 0 <= i < |kids| ==> Rank(cfg, kids[i]) < Rank(cfg, Inner(role))
  }

  lemma DefRanks(cfg: Config, role: Role)
    requires InGraph(|cfg.bins|, |cfg.opens|, role)
    ensures
      match DefOf(cfg, role)
      case SeqDef(kids) => Lower(cfg, role, kids)
      case OrDef(kids) => Lower(cfg, role, kids) && !role.PreSeq? && !role.ParenSeq?
      case ManyDef(kid) => Rank(cfg, kid) < Rank(cfg, Inner(role))
  {
    if role.Post? {
      PostRanks(cfg);
    } else if role.PreOr? || role.PostOr? {
      hide Parens;
    } else {
      hide Parens, Slots;
    }
  }

  lemma PostRanks(cfg: Config)
    ensures Lower(cfg, Post, [Slot(Val, 0), Inner(PreSeq)] + Parens(|cfg.opens|))
  {
    var parens := Parens(|cfg.opens|);
    var kids := [Slot(Val, 0), Inner(PreSeq)] + parens;
    forall i | 0 <= i < |kids|
      ensures Rank(cfg, kids[i]) < 3
    {
      assert i >= 2 ==> kids[i] == parens[i - 2];
    }
  }

  lemma FirstTakes(cfg: Config, role: Role, input: seq<Token>)
    requires Guarded(cfg) && InGraph(|cfg.bins|, |cfg.opens|, role) && (role.PreSeq? || role.ParenSeq?)
    ensures
      var kids := DefOf(cfg, role).kids;
      RefOk(cfg, kids[0]) && (ParseAt(cfg, kids[0], input).Some? ==> 0 < |ParseAt(cfg, kids[0], input).value.toks|)
  {
    if role.ParenSeq? {
      assert Consumes(cfg.opens[role.paren]);
    }
  }

  lemma RunSame(cfg: Config, p: Parser, role: Role, input: seq<Token>)
    requires Guarded(cfg) && InGraph(|cfg.bins|, |cfg.opens|, role)
    requires Same(cfg, p, |input|, Rank(cfg, Inner(role)))
    ensures Run(p, role, DefOf(cfg, role), input) == Run(At(cfg), role, DefOf(cfg, role), input)
  {
    DefRanks(cfg, role);
    ParserSolvesGraph(cfg, role, input);
    var n, rank := |input|, Rank(cfg, Inner(role));
    if role.PreSeq? || role.ParenSeq? {
      FirstTakes(cfg, role, input);
      assert rank == 2;
    }
    hide Guarded, RefOk, ParseAt, Rank, Same, At, RunSeq, RunOr, RunMany, DefOf;
    match DefOf(cfg, role)
    case SeqDef(kids) =>
      if role.PreSeq? || role.ParenSeq? {
        GuardedSame(cfg, p, n, rank, kids, input);
      } else {
        SeqSame(cfg, p, n, rank, kids, input);
      }
    case OrDef(kids) => OrSame(cfg, p, n, rank, kids, input);
    case ManyDef(kid) => ManySame(cfg, p, n, rank, kid, input);
  }

  lemma {:induction false} SameBelow(cfg: Config, p: Parser, n: nat, rank: nat)
    requires Guarded(cfg) && Solves(cfg, p)
    ensures Same(cfg, p, n, rank)
    decreases n, rank, 0
  {
    hide Guarded, Solves, RefOk, ParseAt;
    forall r, input | RefOk(cfg, r) && (|input| < n || (|input| == n && Rank(cfg, r) < rank))
      ensures p(r, input) == ParseAt(cfg, r, input)
    {
      OnlySolution(cfg, p, r, input);
    }
  }

  /** The layered parser is the only solution of the equations of the graph. */
  lemma {:induction false} OnlySolution(cfg: Config, p: Parser, r: NodeRef, input: seq<Token>)
    requires Guarded(cfg) && Solves(cfg, p) && RefOk(cfg, r)
    ensures p(r, input) == ParseAt(cfg, r, input)
    decreases |input|, Rank(cfg, r), 1
  {
    match r
    case Slot(kind, i) => assert RefOk(cfg, Slot(kind, i));
    case Inner(role) =>
      assert InGraph(|cfg.bins|, |cfg.opens|, role);
      assert p(r, input) == Run(p, role, DefOf(cfg, role), input);
      hide Guarded, Solves, RefOk, ParseAt, Same, At, Run;
      SameBelow(cfg, p, |input|, Rank(cfg, r));
      RunSame(cfg, p, role, input);
      ParserSolvesGraph(cfg, role, input);
  }

  /** It is one. */
  lemma AtSolves(cfg: Config)
    requires Guarded(cfg)
    ensures Solves(cfg, At(cfg))
  {
    hide Guarded, ParseAt, Run;
    forall role, input | InGraph(|cfg.bins|, |cfg.opens|, role)
      ensures At(cfg)(Inner(role), input) == Run(At(cfg), role, DefOf(cfg, role), input)
    {
      ParserSolvesGraph(cfg, role, input);
    }
  }
}
