/**
 Parsing an expression when nodes of the user may report errors: an error of a
 node that is tried is the result of the whole, and otherwise nothing changes.
 */
module ExprErrors {
  import opened Prelude
  import opened ExprGrammar
  import opened ExprBuild
  import opened ExprCombinators
  import opened ExprUnique
  import G = Grammar

  /** Which of the user's nodes report an error, and on which input. */
  type Faults = (NodeRef, seq<Token>) -> bool

  /** What the layered parser makes of a node, as the result of a child. */
  ghost function Clean(cfg: Config, num: NodeId -> nat, r: NodeRef, input: seq<Token>): G.ChildResult {
    RefChild(num, At(cfg))([], r, input)
  }

  /** What a callback of a node returns to its parent. */
  function Finished(id: nat, b: G.BodyResult, input: seq<Token>): G.ChildResult {
    match b.ret
    case Error => G.ChildError
    case NoMatch => G.ChildNoMatch
    case Match(n) => G.Matched(G.PTree(id, b.kids, if n <= |input| then input[..n] else input))
  }

  /** Above all ranks. */
  function Highest(cfg: Config): nat { 8 + 3 * |cfg.bins| }

  ghost predicate Takes(cfg: Config, r: NodeRef)
    requires Guarded(cfg) && RefOk(cfg, r)
  {
    forall input :: ParseAt(cfg, r, input).Some? ==> ParseAt(cfg, r, input).value.toks != []
  }

  /** The first child is lower than the node, and the others are too unless it takes a word. */
  ghost predicate Descends(cfg: Config, kids: seq<NodeRef>, rank: nat)
    requires Guarded(cfg) && RefsOk(cfg, kids)
  {
    kids != [] ==>
      && Rank(cfg, kids[0]) < rank
      && (Takes(cfg, kids[0]) || forall i :: 0 <= i < |kids| ==> Rank(cfg, kids[i]) < rank)
  }

  lemma RankHigh(cfg: Config, r: NodeRef)
    requires RefOk(cfg, r)
    ensures Rank(cfg, r) < Highest(cfg)
  {
  }

  lemma DescendsAll(cfg: Config, kids: seq<NodeRef>)
    requires Guarded(cfg) && RefsOk(cfg, kids)
    ensures Descends(cfg, kids, Highest(cfg))
  {
    hide Guarded, RefOk, Rank, Takes;
    forall i | 0 <= i < |kids|
      ensures Rank(cfg, kids[i]) < Highest(cfg)
    {
      RankHigh(cfg, kids[i]);
    }
  }

  lemma DescendsRest(cfg: Config, kids: seq<NodeRef>, rank: nat, input: seq<Token>)
    requires Guarded(cfg) && RefsOk(cfg, kids) && kids != [] && Descends(cfg, kids, rank)
    requires ParseAt(cfg, kids[0], input).Some? && ParseAt(cfg, kids[0], input).value.toks == []
    ensures Descends(cfg, kids[1..], rank)
  {
    hide Guarded, RefOk, Rank, ParseAt;
  }

  lemma CleanIs(cfg: Config, num: NodeId -> nat, r: NodeRef, input: seq<Token>)
    requires Guarded(cfg) && RefOk(cfg, r)
    ensures
      var t := ParseAt(cfg, r, input);
      Clean(cfg, num, r, input) == if t.None? then G.ChildNoMatch else G.Matched(Plain(num, t.value))
    ensures
      var c := Clean(cfg, num, r, input);
      c.Matched? ==> c.t.words <= input && c.t.words == ParseAt(cfg, r, input).value.toks
  {
    hide Guarded, RefOk, ParseAt;
  }

  /** At a built node: the layered parser is the parser's loop over the layered parser. */
  lemma CleanLoop(cfg: Config, num: NodeId -> nat, role: Role, input: seq<Token>)
    requires Guarded(cfg) && InGraph(|cfg.bins|, |cfg.opens|, role)
    ensures
      var id := num(Built(role));
      Clean(cfg, num, Inner(role), input)
      == Finished(id, BodyOf(RefChild(num, At(cfg)), [], id, DefOf(cfg, role), input), input)
  {
    CleanIs(cfg, num, Inner(role), input);
    NodeAgrees(cfg, num, [], num(Built(role)), role, input);
    var t := ParseAt(cfg, Inner(role), input);
    assert t.Some? ==> t.value.node == Built(role) by { NodeOfRole(cfg, role, input); }
    hide Guarded, BodyOf, At, ParseAt, RefChild, DefOf;
  }

  lemma NodeOfRole(cfg: Config, role: Role, input: seq<Token>)
    requires Guarded(cfg) && InGraph(|cfg.bins|, |cfg.opens|, role)
    ensures ParseAt(cfg, Inner(role), input).Some? ==> ParseAt(cfg, Inner(role), input).value.node == Built(role)
  {
    ParserSolvesGraph(cfg, role, input);
  }

  // ----- parsing with errors ------------------------------------------------------------------------

  lemma RoleDescends(cfg: Config, role: Role)
    requires Guarded(cfg) && InGraph(|cfg.bins|, |cfg.opens|, role)
    ensures
      var rank := Rank(cfg, Inner(role));
      match DefOf(cfg, role)
      case SeqDef(kids) => RefsOk(cfg, kids) && Descends(cfg, kids, rank)
      case OrDef(kids) => RefsOk(cfg, kids) && forall i :: 0 <= i < |kids| ==> Rank(cfg, kids[i]) < rank
      case ManyDef(kid) => RefOk(cfg, kid) && Rank(cfg, kid) < rank
  {
    DefRanks(cfg, role);
    ParserSolvesGraph(cfg, role, []);
    if role.PreSeq? || role.ParenSeq? {
      forall input
        ensures
          var kids := DefOf(cfg, role).kids;
          ParseAt(cfg, kids[0], input).Some? ==> ParseAt(cfg, kids[0], input).value.toks != []
      {
        FirstTakes(cfg, role, input);
      }
    }
    hide Guarded, RefOk, ParseAt, Run, DefOf;
  }

  /** The child does not depend on the pnodes above it. */
  lemma CleanChild(cfg: Config, num: NodeId -> nat, r: NodeRef, input: seq<Token>)
    ensures forall path :: RefChild(num, At(cfg))(path, r, input) == Clean(cfg, num, r, input)
  {
  }

  ghost function CleanSeq(cfg: Config, num: NodeId -> nat, id: nat, kids: seq<NodeRef>, done: seq<G.PTree>, len: nat,
                          input: seq<Token>): G.BodyResult
  {
    SeqOf(RefChild(num, At(cfg)), [], id, kids, done, len, input)
  }

  lemma {:induction false} CleanSeqIs(cfg: Config, num: NodeId -> nat, id: nat, kids: seq<NodeRef>,
                                      done: seq<G.PTree>, len: nat, input: seq<Token>)
    ensures
      CleanSeq(cfg, num, id, kids, done, len, input)
      == if kids == [] then G.Body(G.Match(len), done)
         else
           match Clean(cfg, num, kids[0], Drop(input, len))
           case ChildError => G.Body(G.Error, done)
           case ChildNoMatch => G.Body(G.NoMatch, [])
           case Matched(t) => CleanSeq(cfg, num, id, kids[1..], done + [t], len + |t.words|, input)
  {
    hide At, Drop;
    if kids != [] {
      CleanChild(cfg, num, kids[0], Drop(input, len));
    }
  }

  lemma LeftOver(input: seq<Token>, len: nat)
    requires len <= |input|
    ensures |Drop(input, len)| == |input| - len
  {
  }

  lemma StartsLower(cfg: Config, kids: seq<NodeRef>, rank: nat)
    requires Guarded(cfg) && RefsOk(cfg, kids) && kids != [] && Descends(cfg, kids, rank)
    ensures RefOk(cfg, kids[0]) && Rank(cfg, kids[0]) < rank
  {
  }

  /** What a node returns when nodes of the user may report errors: the recursion of the parser over the graph. */
  ghost function Attempt(cfg: Config, num: NodeId -> nat, faults: Faults, r: NodeRef, input: seq<Token>):
    (c: G.ChildResult)
    requires Guarded(cfg) && RefOk(cfg, r)
    ensures c.ChildError? || c == Clean(cfg, num, r, input)
    decreases |input|, Rank(cfg, r), 1, 0
  {
    match r
    case Slot(_, _) => if faults(r, input) then G.ChildError else Clean(cfg, num, r, input)
    case Inner(role) =>
      var id, rank := num(Built(role)), Rank(cfg, r);
      RoleDescends(cfg, role);
      CleanLoop(cfg, num, role, input);
      var b := match DefOf(cfg, role)
        case SeqDef(kids) => AttemptSeq(cfg, num, faults, id, kids, [], 0, input, rank)
        case OrDef(kids) => AttemptOr(cfg, num, faults, id, kids, input, rank)
        case ManyDef(kid) => AttemptMany(cfg, num, faults, id, kid, 0, [], input, rank);
      Finished(id, b, input)
  }

  ghost function AttemptSeq(cfg: Config, num: NodeId -> nat, faults: Faults, id: nat, kids: seq<NodeRef>,
                            done: seq<G.PTree>, len: nat, input: seq<Token>, rank: nat): (b: G.BodyResult)
    requires Guarded(cfg) && RefsOk(cfg, kids) && Descends(cfg, kids, rank) && len <= |input|
    ensures b.ret.Error? || b == CleanSeq(cfg, num, id, kids, done, len, input)
    decreases |input| - len, rank, 0, |kids|
  {
    hide Guarded, RefOk, Clean, Rank, Drop, Descends, Highest, CleanSeq;
    CleanSeqIs(cfg, num, id, kids, done, len, input);
    if kids == [] then G.Body(G.Match(len), done)
    else
      LeftOver(input, len);
      StartsLower(cfg, kids, rank);
      var c := Attempt(cfg, num, faults, kids[0], Drop(input, len));
      match c
      case ChildError => G.Body(G.Error, done)
      case ChildNoMatch => G.Body(G.NoMatch, [])
      case Matched(t) =>
        SeqDescends(cfg, num, kids, len, input, rank, t);
        var next := if t.words == [] then rank else Highest(cfg);
        AttemptSeq(cfg, num, faults, id, kids[1..], done + [t], len + |t.words|, input, next)
  }

  lemma SeqDescends(cfg: Config, num: NodeId -> nat, kids: seq<NodeRef>, len: nat, input: seq<Token>, rank: nat,
                    t: G.PTree)
    requires Guarded(cfg) && RefsOk(cfg, kids) && kids != [] && Descends(cfg, kids, rank) && len <= |input|
    requires Clean(cfg, num, kids[0], Drop(input, len)) == G.Matched(t)
    ensures RefsOk(cfg, kids[1..]) && len + |t.words| <= |input|
    ensures Descends(cfg, kids[1..], if t.words == [] then rank else Highest(cfg))
  {
    hide Guarded, RefOk, Rank, ParseAt, Clean, Descends;
    CleanIs(cfg, num, kids[0], Drop(input, len));
    if t.words == [] {
      DescendsRest(cfg, kids, rank, Drop(input, len));
    } else {
      DescendsAll(cfg, kids[1..]);
    }
  }

  ghost function AttemptOr(cfg: Config, num: NodeId -> nat, faults: Faults, id: nat, kids: seq<NodeRef>,
                           input: seq<Token>, rank: nat): (b: G.BodyResult)
    requires Guarded(cfg) && RefsOk(cfg, kids) && forall i :: 0 <= i < |kids| ==> Rank(cfg, kids[i]) < rank
    ensures b.ret.Error? || b == OrOf(RefChild(num, At(cfg)), [], id, kids, input)
    decreases |input|, rank, 0, |kids|
  {
    if kids == [] then G.Body(G.NoMatch, [])
    else
      var c := Attempt(cfg, num, faults, kids[0], input);
      if c.ChildNoMatch? then AttemptOr(cfg, num, faults, id, kids[1..], input, rank) else G.Forward(c)
  }

  ghost function AttemptMany(cfg: Config, num: NodeId -> nat, faults: Faults, id: nat, kid: NodeRef,
                             off: nat, done: seq<G.PTree>, input: seq<Token>, rank: nat): (b: G.BodyResult)
    requires Guarded(cfg) && RefOk(cfg, kid) && Rank(cfg, kid) < rank && off <= |input|
    ensures b.ret.Error? || b == ManyOf(RefChild(num, At(cfg)), [], id, kid, off, done, input)
    decreases |input| - off, rank, 0, 0
  {
    hide Guarded, RefOk, Clean, Rank, Drop;
    LeftOver(input, off);
    CleanChild(cfg, num, kid, Drop(input, off));
    var c := Attempt(cfg, num, faults, kid, Drop(input, off));
    match c
    case ChildError => G.Body(G.Error, done)
    case ChildNoMatch => G.Body(G.Match(off), done)
    case Matched(t) =>
      WordsLeft(cfg, num, kid, off, input, t);
      if t.words == [] || Drop(input, off) == [] then G.Body(G.Match(off), done)
      else AttemptMany(cfg, num, faults, id, kid, off + |t.words|, done + [t], input, rank)
  }

  lemma WordsLeft(cfg: Config, num: NodeId -> nat, r: NodeRef, len: nat, input: seq<Token>, t: G.PTree)
    requires Guarded(cfg) && RefOk(cfg, r) && len <= |input| && Clean(cfg, num, r, Drop(input, len)) == G.Matched(t)
    ensures len + |t.words| <= |input|
  {
    hide Guarded, RefOk, Clean;
    CleanIs(cfg, num, r, Drop(input, len));
  }

  /** One turn of the repetition. */
  lemma {:induction false} ManyTurn(cfg: Config, num: NodeId -> nat, faults: Faults, id: nat, kid: NodeRef, off: nat,
                                    done: seq<G.PTree>, input: seq<Token>, rank: nat)
    requires Guarded(cfg) && RefOk(cfg, kid) && Rank(cfg, kid) < rank && off <= |input|
    ensures
      var c := Attempt(cfg, num, faults, kid, Drop(input, off));
      && |Drop(input, off)| == |input| - off && (c.Matched? ==> off + |c.t.words| <= |input|)
      && AttemptMany(cfg, num, faults, id, kid, off, done, input, rank)
      == match c
         case ChildError => G.Body(G.Error, done)
         case ChildNoMatch => G.Body(G.Match(off), done)
         case Matched(t) =>
           if t.words == [] || Drop(input, off) == [] then G.Body(G.Match(off), done)
           else AttemptMany(cfg, num, faults, id, kid, off + |t.words|, done + [t], input, rank)
  {
    hide Guarded, RefOk, Attempt, Clean, Rank, Drop, ManyOf, RefChild;
    LeftOver(input, off);
    var c := Attempt(cfg, num, faults, kid, Drop(input, off));
    if c.Matched? {
      WordsLeft(cfg, num, kid, off, input, c.t);
    }
  }

  /** One child of the sequence. */
  lemma {:induction false} SeqTurn(cfg: Config, num: NodeId -> nat, faults: Faults, id: nat, kids: seq<NodeRef>,
                                   done: seq<G.PTree>, len: nat, input: seq<Token>, rank: nat)
    requires Guarded(cfg) && RefsOk(cfg, kids) && Descends(cfg, kids, rank) && len <= |input| && kids != []
    ensures
      var c := Attempt(cfg, num, faults, kids[0], Drop(input, len));
      && RefOk(cfg, kids[0]) && Rank(cfg, kids[0]) < rank && |Drop(input, len)| == |input| - len
      && (!c.ChildError? ==> c == Clean(cfg, num, kids[0], Drop(input, len)))
      && (c.Matched? ==>
            && len + |c.t.words| <= |input|
            && Descends(cfg, kids[1..], if c.t.words == [] then rank else Highest(cfg)))
      && AttemptSeq(cfg, num, faults, id, kids, done, len, input, rank)
      == match c
         case ChildError => G.Body(G.Error, done)
         case ChildNoMatch => G.Body(G.NoMatch, [])
         case Matched(t) =>
           var next := if t.words == [] then rank else Highest(cfg);
           AttemptSeq(cfg, num, faults, id, kids[1..], done + [t], len + |t.words|, input, next)
  {
    hide Guarded, RefOk, Attempt, Clean, Rank, Drop, Descends, Highest, CleanSeq;
    LeftOver(input, len);
    StartsLower(cfg, kids, rank);
    var c := Attempt(cfg, num, faults, kids[0], Drop(input, len));
    if c.Matched? {
      SeqDescends(cfg, num, kids, len, input, rank, c.t);
    }
  }

  // ----- these are the parser's loops -----------------------------------------------------------------

  ghost function Attempts(cfg: Config, num: NodeId -> nat, faults: Faults): Child<NodeRef> {
    (path: G.Path, r: NodeRef, input: seq<Token>) =>
      if Guarded(cfg) && RefOk(cfg, r) then Attempt(cfg, num, faults, r, input) else G.ChildNoMatch
  }

  lemma {:induction false} SeqAttempts(cfg: Config, num: NodeId -> nat, faults: Faults, id: nat, kids: seq<NodeRef>,
                                       done: seq<G.PTree>, len: nat, input: seq<Token>, rank: nat)
    requires Guarded(cfg) && RefsOk(cfg, kids) && Descends(cfg, kids, rank) && len <= |input|
    ensures AttemptSeq(cfg, num, faults, id, kids, done, len, input, rank)
         == SeqOf(Attempts(cfg, num, faults), [], id, kids, done, len, input)
    decreases kids
  {
    hide Guarded, RefOk, Descends, Attempt, Clean, Rank, Drop, Highest;
    if kids != [] {
      SeqTurn(cfg, num, faults, id, kids, done, len, input, rank);
      hide AttemptSeq;
      var c := Attempt(cfg, num, faults, kids[0], Drop(input, len));
      if c.Matched? {
        var next := if c.t.words == [] then rank else Highest(cfg);
        SeqAttempts(cfg, num, faults, id, kids[1..], done + [c.t], len + |c.t.words|, input, next);
      }
    }
  }

  lemma {:induction false} OrAttempts(cfg: Config, num: NodeId -> nat, faults: Faults, id: nat, kids: seq<NodeRef>,
                                      input: seq<Token>, rank: nat)
    requires Guarded(cfg) && RefsOk(cfg, kids) && forall i :: 0 <= i < |kids| ==> Rank(cfg, kids[i]) < rank
    ensures AttemptOr(cfg, num, faults, id, kids, input, rank)
         == OrOf(Attempts(cfg, num, faults), [], id, kids, input)
    decreases kids
  {
    hide Guarded, RefOk, Attempt, Clean, Rank;
    if kids != [] {
      OrAttempts(cfg, num, faults, id, kids[1..], input, rank);
    }
  }

  lemma {:induction false} ManyAttempts(cfg: Config, num: NodeId -> nat, faults: Faults, id: nat, kid: NodeRef,
                                        off: nat, done: seq<G.PTree>, input: seq<Token>, rank: nat)
    requires Guarded(cfg) && RefOk(cfg, kid) && Rank(cfg, kid) < rank && off <= |input|
    ensures AttemptMany(cfg, num, faults, id, kid, off, done, input, rank)
         == ManyOf(Attempts(cfg, num, faults), [], id, kid, off, done, input)
    decreases |input| - off
  {
    hide Guarded, RefOk, Attempt, Clean, Rank, AttemptMany;
    ManyTurn(cfg, num, faults, id, kid, off, done, input, rank);
    var c := Attempt(cfg, num, faults, kid, Drop(input, off));
    if c.Matched? && c.t.words != [] && Drop(input, off) != [] {
      ManyAttempts(cfg, num, faults, id, kid, off + |c.t.words|, done + [c.t], input, rank);
    }
  }

  /** At every node of the cyclic graph: the parser's loop, errors included, over what the children return. */
  lemma AttemptSolves(cfg: Config, num: NodeId -> nat, faults: Faults, role: Role, input: seq<Token>)
    requires Guarded(cfg) && InGraph(|cfg.bins|, |cfg.opens|, role)
    ensures
      var id := num(Built(role));
      Attempt(cfg, num, faults, Inner(role), input)
      == Finished(id, BodyOf(Attempts(cfg, num, faults), [], id, DefOf(cfg, role), input), input)
  {
    RoleDescends(cfg, role);
    hide Guarded, RefOk, Attempts, DefOf, SeqOf, OrOf, ManyOf, Descends, Rank;
    var id, rank := num(Built(role)), Rank(cfg, Inner(role));
    match DefOf(cfg, role)
    case SeqDef(kids) => SeqAttempts(cfg, num, faults, id, kids, [], 0, input, rank);
    case OrDef(kids) => OrAttempts(cfg, num, faults, id, kids, input, rank);
    case ManyDef(kid) => ManyAttempts(cfg, num, faults, id, kid, 0, [], input, rank);
  }

  // ----- which errors are reported --------------------------------------------------------------------

  /** A node of the user and an input on which it is tried. */
  datatype Trial = Trial(node: NodeRef, input: seq<Token>)

  ghost function Only(x: Trial): Faults { (r: NodeRef, input: seq<Token>) => Trial(r, input) == x }

  /** The parse tries this: if that were the only fault, it would be reported. */
  ghost predicate Tried(cfg: Config, num: NodeId -> nat, r: NodeRef, input: seq<Token>, x: Trial)
    requires Guarded(cfg) && RefOk(cfg, r)
  {
    Attempt(cfg, num, Only(x), r, input).ChildError?
  }

  ghost predicate Fewer(f: Faults, g: Faults) { forall r, input :: f(r, input) ==> g(r, input) }

  /** More faults, no fewer errors. */
  lemma {:induction false} MoreFaults(cfg: Config, num: NodeId -> nat, f: Faults, g: Faults, r: NodeRef,
                                      input: seq<Token>)
    requires Guarded(cfg) && RefOk(cfg, r) && Fewer(f, g)
    ensures Attempt(cfg, num, f, r, input).ChildError? ==> Attempt(cfg, num, g, r, input).ChildError?
    decreases |input|, Rank(cfg, r), 1, 0
  {
    if r.Inner? {
      RoleDescends(cfg, r.role);
      hide Guarded, RefOk, DefOf, Clean, Descends, Rank;
      var id, rank := num(Built(r.role)), Rank(cfg, r);
      match DefOf(cfg, r.role)
      case SeqDef(kids) => MoreInSeq(cfg, num, f, g, id, kids, [], 0, input, rank);
      case OrDef(kids) => MoreInOr(cfg, num, f, g, id, kids, input, rank);
      case ManyDef(kid) => MoreInMany(cfg, num, f, g, id, kid, 0, [], input, rank);
    }
  }

  lemma {:induction false} MoreInSeq(cfg: Config, num: NodeId -> nat, f: Faults, g: Faults, id: nat,
                                     kids: seq<NodeRef>, done: seq<G.PTree>, len: nat, input: seq<Token>, rank: nat)
    requires Guarded(cfg) && RefsOk(cfg, kids) && Descends(cfg, kids, rank) && len <= |input| && Fewer(f, g)
    ensures AttemptSeq(cfg, num, f, id, kids, done, len, input, rank).ret.Error?
        ==> AttemptSeq(cfg, num, g, id, kids, done, len, input, rank).ret.Error?
    decreases |input| - len, rank, 0, |kids|
  {
    hide Guarded, RefOk, Attempt, Clean, Fewer, Drop, Highest, Descends, Rank;
    if kids != [] {
      SeqTurn(cfg, num, f, id, kids, done, len, input, rank);
      SeqTurn(cfg, num, g, id, kids, done, len, input, rank);
      hide AttemptSeq;
      MoreFaults(cfg, num, f, g, kids[0], Drop(input, len));
      var c := Attempt(cfg, num, f, kids[0], Drop(input, len));
      if c.Matched? {
        var next := if c.t.words == [] then rank else Highest(cfg);
        MoreInSeq(cfg, num, f, g, id, kids[1..], done + [c.t], len + |c.t.words|, input, next);
      }
    }
  }

  lemma {:induction false} MoreInOr(cfg: Config, num: NodeId -> nat, f: Faults, g: Faults, id: nat,
                                    kids: seq<NodeRef>, input: seq<Token>, rank: nat)
    requires Guarded(cfg) && RefsOk(cfg, kids) && Fewer(f, g)
    requires forall i :: 0 <= i < |kids| ==> Rank(cfg, kids[i]) < rank
    ensures AttemptOr(cfg, num, f, id, kids, input, rank).ret.Error?
        ==> AttemptOr(cfg, num, g, id, kids, input, rank).ret.Error?
    decreases |input|, rank, 0, |kids|
  {
    hide Guarded, RefOk, Attempt, Clean, Fewer, Rank;
    if kids != [] {
      MoreFaults(cfg, num, f, g, kids[0], input);
      MoreInOr(cfg, num, f, g, id, kids[1..], input, rank);
    }
  }

  lemma {:induction false} MoreInMany(cfg: Config, num: NodeId -> nat, f: Faults, g: Faults, id: nat, kid: NodeRef,
                                      off: nat, done: seq<G.PTree>, input: seq<Token>, rank: nat)
    requires Guarded(cfg) && RefOk(cfg, kid) && Rank(cfg, kid) < rank && off <= |input| && Fewer(f, g)
    ensures AttemptMany(cfg, num, f, id, kid, off, done, input, rank).ret.Error?
        ==> AttemptMany(cfg, num, g, id, kid, off, done, input, rank).ret.Error?
    decreases |input| - off, rank, 0, 0
  {
    hide Guarded, RefOk, Attempt, Clean, Fewer, Rank, Drop, AttemptMany;
    ManyTurn(cfg, num, f, id, kid, off, done, input, rank);
    ManyTurn(cfg, num, g, id, kid, off, done, input, rank);
    MoreFaults(cfg, num, f, g, kid, Drop(input, off));
    var c := Attempt(cfg, num, f, kid, Drop(input, off));
    if c.Matched? && c.t.words != [] && Drop(input, off) != [] {
      MoreInMany(cfg, num, f, g, id, kid, off + |c.t.words|, done + [c.t], input, rank);
    }
  }

  /** An error comes from one fault, which would have been reported alone. */
  lemma {:induction false} Cause(cfg: Config, num: NodeId -> nat, f: Faults, r: NodeRef, input: seq<Token>)
    returns (x: Trial)
    requires Guarded(cfg) && RefOk(cfg, r) && Attempt(cfg, num, f, r, input).ChildError?
    ensures f(x.node, x.input) && x.node.Slot? && Tried(cfg, num, r, input, x)
    decreases |input|, Rank(cfg, r), 1, 0
  {
    if r.Slot? {
      x := Trial(r, input);
    } else {
      RoleDescends(cfg, r.role);
      hide Guarded, RefOk, DefOf, Clean, Descends, Rank;
      var id, rank := num(Built(r.role)), Rank(cfg, r);
      match DefOf(cfg, r.role)
      case SeqDef(kids) => x := CauseInSeq(cfg, num, f, id, kids, [], 0, input, rank);
      case OrDef(kids) => x := CauseInOr(cfg, num, f, id, kids, input, rank);
      case ManyDef(kid) => x := CauseInMany(cfg, num, f, id, kid, 0, [], input, rank);
    }
  }

  lemma {:induction false} SeqSome(cfg: Config, num: NodeId -> nat, f: Faults, id: nat, kids: seq<NodeRef>,
                                   done: seq<G.PTree>, len: nat, input: seq<Token>, rank: nat)
    requires Guarded(cfg) && RefsOk(cfg, kids) && Descends(cfg, kids, rank) && len <= |input|
    requires AttemptSeq(cfg, num, f, id, kids, done, len, input, rank).ret.Error?
    ensures kids != []
  {
    hide Guarded, RefOk, Attempt, Clean;
  }

  lemma {:induction false} CauseInSeq(cfg: Config, num: NodeId -> nat, f: Faults, id: nat, kids: seq<NodeRef>,
                                      done: seq<G.PTree>, len: nat, input: seq<Token>, rank: nat) returns (x: Trial)
    requires Guarded(cfg) && RefsOk(cfg, kids) && Descends(cfg, kids, rank) && len <= |input|
    requires AttemptSeq(cfg, num, f, id, kids, done, len, input, rank).ret.Error?
    ensures f(x.node, x.input) && x.node.Slot?
    ensures AttemptSeq(cfg, num, Only(x), id, kids, done, len, input, rank).ret.Error?
    decreases |input| - len, rank, 0, |kids|
  {
    hide Guarded, RefOk, Attempt, Clean, Only, Drop, Highest, Descends, Rank, CleanSeq;
    SeqSome(cfg, num, f, id, kids, done, len, input, rank);
    hide AttemptSeq;
    SeqTurn(cfg, num, f, id, kids, done, len, input, rank);
    var c := Attempt(cfg, num, f, kids[0], Drop(input, len));
    if c.ChildError? {
      x := Cause(cfg, num, f, kids[0], Drop(input, len));
      SeqTurn(cfg, num, Only(x), id, kids, done, len, input, rank);
    } else {
      var next := if c.t.words == [] then rank else Highest(cfg);
      x := CauseInSeq(cfg, num, f, id, kids[1..], done + [c.t], len + |c.t.words|, input, next);
      SeqTurn(cfg, num, Only(x), id, kids, done, len, input, rank);
    }
  }

  lemma {:induction false} CauseInOr(cfg: Config, num: NodeId -> nat, f: Faults, id: nat, kids: seq<NodeRef>,
                                     input: seq<Token>, rank: nat) returns (x: Trial)
    requires Guarded(cfg) && RefsOk(cfg, kids) && forall i :: 0 <= i < |kids| ==> Rank(cfg, kids[i]) < rank
    requires AttemptOr(cfg, num, f, id, kids, input, rank).ret.Error?
    ensures f(x.node, x.input) && x.node.Slot?
    ensures AttemptOr(cfg, num, Only(x), id, kids, input, rank).ret.Error?
    decreases |input|, rank, 0, |kids|
  {
    hide Guarded, RefOk, Attempt, Clean, Only, Rank;
    if Attempt(cfg, num, f, kids[0], input).ChildError? {
      x := Cause(cfg, num, f, kids[0], input);
    } else {
      x := CauseInOr(cfg, num, f, id, kids[1..], input, rank);
    }
  }

  lemma {:induction false} CauseInMany(cfg: Config, num: NodeId -> nat, f: Faults, id: nat, kid: NodeRef, off: nat,
                                       done: seq<G.PTree>, input: seq<Token>, rank: nat) returns (x: Trial)
    requires Guarded(cfg) && RefOk(cfg, kid) && Rank(cfg, kid) < rank && off <= |input|
    requires AttemptMany(cfg, num, f, id, kid, off, done, input, rank).ret.Error?
    ensures f(x.node, x.input) && x.node.Slot?
    ensures AttemptMany(cfg, num, Only(x), id, kid, off, done, input, rank).ret.Error?
    decreases |input| - off, rank, 0, 0
  {
    hide Guarded, RefOk, Attempt, Clean, Only, Rank, Drop, AttemptMany;
    ManyTurn(cfg, num, f, id, kid, off, done, input, rank);
    var c := Attempt(cfg, num, f, kid, Drop(input, off));
    if c.ChildError? {
      x := Cause(cfg, num, f, kid, Drop(input, off));
    } else {
      x := CauseInMany(cfg, num, f, id, kid, off + |c.t.words|, done + [c.t], input, rank);
    }
    ManyTurn(cfg, num, Only(x), id, kid, off, done, input, rank);
  }

  /**
   An error is the result if and only if a node of the user reports one where it
   is tried; otherwise the result is what it is without errors.
   */
  lemma ErrorIffTried(cfg: Config, num: NodeId -> nat, faults: Faults, r: NodeRef, input: seq<Token>)
    requires Guarded(cfg) && RefOk(cfg, r)
    ensures
      var c := Attempt(cfg, num, faults, r, input);
      && (c.ChildError? <==> exists x: Trial :: faults(x.node, x.input) && Tried(cfg, num, r, input, x))
      && (!c.ChildError? ==> c == Clean(cfg, num, r, input))
  {
    hide Guarded, RefOk, Attempt, Clean;
    if Attempt(cfg, num, faults, r, input).ChildError? {
      var x := Cause(cfg, num, faults, r, input);
    }
    if x: Trial :| faults(x.node, x.input) && Tried(cfg, num, r, input, x) {
      MoreFaults(cfg, num, Only(x), faults, r, input);
    }
  }
}
