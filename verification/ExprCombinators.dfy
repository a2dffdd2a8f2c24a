/**
 The combinators that the expression node runs on its cyclic graph are those of
 the parser: both are the same loops, over whatever their children compute.
 */
module ExprCombinators {
  import opened Prelude
  import opened ExprGrammar
  import opened ExprBuild
  import G = Grammar

  // ----- the loops over any children -------------------------------------------------------------------

  /** What a child computes under the pnodes open so far. */
  type Child<!K> = (G.Path, K, seq<Token>) -> G.ChildResult

  function Drop(input: seq<Token>, n: nat): seq<Token> { if n <= |input| then input[n..] else [] }

  function SeqOf<K>(child: Child<K>, path: G.Path, id: nat, kids: seq<K>, done: seq<G.PTree>, len: nat,
                    input: seq<Token>): G.BodyResult
  {
    if kids == [] then G.Body(G.Match(len), done)
    else
      match child(path + [G.Frame(id, done)], kids[0], Drop(input, len))
      case ChildError => G.Body(G.Error, done)
      case ChildNoMatch => G.Body(G.NoMatch, [])
      case Matched(t) => SeqOf(child, path, id, kids[1..], done + [t], len + |t.words|, input)
  }

  function OrOf<K>(child: Child<K>, path: G.Path, id: nat, kids: seq<K>, input: seq<Token>): G.BodyResult {
    if kids == [] then G.Body(G.NoMatch, [])
    else
      var r := child(path + [G.Frame(id, [])], kids[0], input);
      if r.ChildNoMatch? then OrOf(child, path, id, kids[1..], input) else G.Forward(r)
  }

  /** The repetition without bounds. */
  function ManyOf<K>(child: Child<K>, path: G.Path, id: nat, kid: K, off: nat, done: seq<G.PTree>,
                     input: seq<Token>): G.BodyResult
    decreases |Drop(input, off)|
  {
    match child(path + [G.Frame(id, done)], kid, Drop(input, off))
    case ChildError => G.Body(G.Error, done)
    case ChildNoMatch => G.Body(G.Match(off), done)
    case Matched(t) =>
      if t.words == [] || Drop(input, off) == [] then G.Body(G.Match(off), done)
      else ManyOf(child, path, id, kid, off + |t.words|, done + [t], input)
  }

  // ----- the parser's loops are these ------------------------------------------------------------------

  function NodeChild(): Child<G.Node> { (path: G.Path, g: G.Node, input: seq<Token>) => G.ParseChild(path, g, input) }

  lemma {:induction false} SeqLoopIs(path: G.Path, id: nat, kids: seq<G.Node>, done: seq<G.PTree>, len: nat,
                                     input: seq<Token>)
    requires len <= |input|
    ensures G.SeqLoop(path, id, kids, done, len, input) == SeqOf(NodeChild(), path, id, kids, done, len, input)
    decreases kids
  {
    hide G.ParseChild;
    if kids != [] {
      var c := G.ParseChild(path + [G.Frame(id, done)], kids[0], input[len..]);
      if c.Matched? {
        SeqLoopIs(path, id, kids[1..], done + [c.t], len + |c.t.words|, input);
      }
    }
  }

  lemma {:induction false} OrLoopIs(path: G.Path, id: nat, kids: seq<G.Node>, input: seq<Token>)
    ensures G.OrLoop(path, id, kids, input) == OrOf(NodeChild(), path, id, kids, input)
    decreases kids
  {
    hide G.ParseChild;
    if kids != [] {
      OrLoopIs(path, id, kids[1..], input);
    }
  }

  lemma {:induction false} ManyLoopIs(path: G.Path, id: nat, kid: G.Node, count: nat, off: nat, done: seq<G.PTree>,
                                      input: seq<Token>)
    requires off <= |input|
    ensures
      G.ManyLoop(path, id, 0, 0, kid, count, off, done, input)
      == ManyOf(NodeChild(), path, id, kid, off, done, input)
    decreases |input| - off
  {
    hide G.ParseChild;
    var c := G.ParseChild(path + [G.Frame(id, done)], kid, input[off..]);
    if c.Matched? && c.t.words != [] {
      ManyLoopIs(path, id, kid, count + 1, off + |c.t.words|, done + [c.t], input);
    }
  }

  // ----- and so are those on the graph -----------------------------------------------------------------

  /** A tree of the expression node as a finished pnode. */
  function Plain(num: NodeId -> nat, t: Tree): G.PTree {
    G.PTree(num(t.node), PlainAll(num, t.kids), t.toks)
  }

  function PlainAll(num: NodeId -> nat, ts: seq<Tree>): seq<G.PTree> {
    if ts == [] then [] else [Plain(num, ts[0])] + PlainAll(num, ts[1..])
  }

  function RefChild(num: NodeId -> nat, p: Parser): Child<NodeRef> {
    (path: G.Path, r: NodeRef, input: seq<Token>) =>
      var t := p(r, input);
      if t.None? then G.ChildNoMatch else G.Matched(Plain(num, t.value))
  }

  /** What is matched starts the input. */
  ghost predicate Prefixes(p: Parser) {
    forall r, input :: p(r, input).Some? ==> p(r, input).value.toks <= input
  }

  /** A callback matched the words of these trees, which it adds to its children. */
  predicate Gives(num: NodeId -> nat, b: G.BodyResult, done: seq<G.PTree>, len: nat, ts: seq<Tree>) {
    b == G.Body(G.Match(len + |Toks(ts)|), done + PlainAll(num, ts))
  }

  lemma {:induction false} GivesMore(num: NodeId -> nat, b: G.BodyResult, done: seq<G.PTree>, len: nat, t: Tree,
                                     ts: seq<Tree>)
    requires Gives(num, b, done + [Plain(num, t)], len + |t.toks|, ts)
    ensures Gives(num, b, done, len, [t] + ts)
  {
    ToksCons(t, ts);
    assert ([t] + ts)[1..] == ts;
    assert done + [Plain(num, t)] + PlainAll(num, ts) == done + ([Plain(num, t)] + PlainAll(num, ts));
  }

  lemma {:induction false} GivesNone(num: NodeId -> nat, b: G.BodyResult, done: seq<G.PTree>, len: nat)
    requires b == G.Body(G.Match(len), done)
    ensures Gives(num, b, done, len, [])
  {
    assert done + [] == done;
  }

  lemma {:induction false} DropAfter(t: Tree, input: seq<Token>, len: nat)
    requires t.toks <= Drop(input, len)
    ensures After(t, Drop(input, len)) == Drop(input, len + |t.toks|)
  {
  }

  lemma {:induction false} SeqRuns(num: NodeId -> nat, p: Parser, kids: seq<NodeRef>, path: G.Path, id: nat,
                                   done: seq<G.PTree>, len: nat, input: seq<Token>)
    requires Prefixes(p)
    ensures
      var b, r := SeqOf(RefChild(num, p), path, id, kids, done, len, input), RunSeq(p, kids, Drop(input, len));
      if r.None? then b == G.Body(G.NoMatch, []) else Gives(num, b, done, len, r.value)
    decreases kids
  {
    hide Gives, Plain, Drop, After;
    var b := SeqOf(RefChild(num, p), path, id, kids, done, len, input);
    if kids == [] {
      GivesNone(num, b, done, len);
    } else {
      var t := p(kids[0], Drop(input, len));
      if t.Some? {
        PlainWords(num, t.value);
        DropAfter(t.value, input, len);
        SeqRuns(num, p, kids[1..], path, id, done + [Plain(num, t.value)], len + |t.value.toks|, input);
        var rest := RunSeq(p, kids[1..], After(t.value, Drop(input, len)));
        if rest.Some? {
          GivesMore(num, b, done, len, t.value, rest.value);
        }
      }
    }
  }

  lemma {:induction false} PlainWords(num: NodeId -> nat, t: Tree)
    ensures Plain(num, t).words == t.toks
  {
  }

  lemma {:induction false} OrRuns(num: NodeId -> nat, p: Parser, kids: seq<NodeRef>, path: G.Path, id: nat,
                                  input: seq<Token>)
    ensures
      var b, r := OrOf(RefChild(num, p), path, id, kids, input), RunOr(p, kids, input);
      if r.None? then b == G.Body(G.NoMatch, []) else Gives(num, b, [], 0, [r.value])
    decreases kids
  {
    hide Gives, Plain;
    if kids != [] {
      var t := p(kids[0], input);
      if t.Some? {
        PlainWords(num, t.value);
        var b := G.Body(G.Match(|t.value.toks|), [Plain(num, t.value)]);
        GivesNone(num, b, [Plain(num, t.value)], |t.value.toks|);
        assert [] + [Plain(num, t.value)] == [Plain(num, t.value)] && [t.value] + [] == [t.value];
        GivesMore(num, b, [], 0, t.value, []);
      } else {
        OrRuns(num, p, kids[1..], path, id, input);
      }
    }
  }

  lemma {:induction false} ManyRuns(num: NodeId -> nat, p: Parser, kid: NodeRef, path: G.Path, id: nat,
                                    done: seq<G.PTree>, off: nat, input: seq<Token>)
    requires Prefixes(p)
    ensures
      Gives(num, ManyOf(RefChild(num, p), path, id, kid, off, done, input), done, off,
            RunMany(p, kid, Drop(input, off)))
    decreases |Drop(input, off)|
  {
    hide Gives, Plain, After;
    var b := ManyOf(RefChild(num, p), path, id, kid, off, done, input);
    var t := p(kid, Drop(input, off));
    if t.Some? && t.value.toks != [] && Drop(input, off) != [] {
      PlainWords(num, t.value);
      DropAfter(t.value, input, off);
      ManyRuns(num, p, kid, path, id, done + [Plain(num, t.value)], off + |t.value.toks|, input);
      GivesMore(num, b, done, off, t.value, RunMany(p, kid, After(t.value, Drop(input, off))));
    } else {
      if t.Some? {
        PlainWords(num, t.value);
      }
      GivesNone(num, b, done, off);
    }
  }

  /** The loop of the parser for a node of the graph. */
  function BodyOf(child: Child<NodeRef>, path: G.Path, id: nat, def: NodeDef, input: seq<Token>): G.BodyResult {
    match def
    case SeqDef(kids) => SeqOf(child, path, id, kids, [], 0, input)
    case OrDef(kids) => OrOf(child, path, id, kids, input)
    case ManyDef(kid) => ManyOf(child, path, id, kid, 0, [], input)
  }

  /** A tree as the result of a callback. */
  ghost predicate Yields(num: NodeId -> nat, b: G.BodyResult, r: Option<Tree>) {
    b == if r.None? then G.Body(G.NoMatch, []) else G.Body(G.Match(|r.value.toks|), PlainAll(num, r.value.kids))
  }

  /** Whatever the children compute, the node's combinator is the parser's loop over them. */
  lemma BodyRuns(num: NodeId -> nat, p: Parser, path: G.Path, id: nat, role: Role, def: NodeDef, input: seq<Token>)
    requires Prefixes(p)
    ensures Yields(num, BodyOf(RefChild(num, p), path, id, def, input), Run(p, role, def, input))
  {
    hide RunSeq, RunOr, RunMany, SeqOf, OrOf, ManyOf, Prefixes;
    assert Drop(input, 0) == input;
    match def
    case SeqDef(kids) =>
      SeqRuns(num, p, kids, path, id, [], 0, input);
      var r := RunSeq(p, kids, input);
      assert r.Some? ==> [] + PlainAll(num, r.value) == PlainAll(num, r.value);
    case OrDef(kids) =>
      OrRuns(num, p, kids, path, id, input);
      var r := RunOr(p, kids, input);
      if r.Some? {
        ToksCons(r.value, []);
        assert [r.value] + [] == [r.value];
        assert [] + PlainAll(num, [r.value]) == PlainAll(num, [r.value]);
      }
    case ManyDef(kid) =>
      ManyRuns(num, p, kid, path, id, [], 0, input);
      var r := RunMany(p, kid, input);
      assert [] + PlainAll(num, r) == PlainAll(num, r);
  }

  lemma AtPrefixes(cfg: Config)
    ensures Prefixes(At(cfg))
  {
    hide Guarded, RefOk;
    forall r, input | At(cfg)(r, input).Some?
      ensures At(cfg)(r, input).value.toks <= input
    {
      assert Guarded(cfg) && RefOk(cfg, r) && At(cfg)(r, input) == ParseAt(cfg, r, input);
    }
  }

  /**
   At every node of the cyclic graph the parser's loop over the layered parser
   of its children gives what the layered parser gives at the node.
   */
  lemma NodeAgrees(cfg: Config, num: NodeId -> nat, path: G.Path, id: nat, role: Role, input: seq<Token>)
    requires Guarded(cfg) && InGraph(|cfg.bins|, |cfg.opens|, role)
    ensures
      var def := Def(|cfg.bins|, |cfg.pres|, |cfg.posts|, |cfg.opens|, role);
      Yields(num, BodyOf(RefChild(num, At(cfg)), path, id, def, input), ParseAt(cfg, Inner(role), input))
  {
    hide Guarded, Run, BodyOf, ParseAt, At, Yields;
    AtPrefixes(cfg);
    ParserSolvesGraph(cfg, role, input);
    BodyRuns(num, At(cfg), path, id, role, Def(|cfg.bins|, |cfg.pres|, |cfg.posts|, |cfg.opens|, role), input);
  }
}
