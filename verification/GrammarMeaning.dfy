/**
 What a node matches, told without loops: the tree that it takes, if any, and
 when it reports an error. Parsing returns exactly that.
 */
module GrammarMeaning {
  import opened Prelude
  import opened Grammar
  import opened GrammarFacts
  import Parser

  // ----- the tree a node takes ------------------------------------------------------------------------

  /** What a matched tree leaves of the input. */
  function Left(input: seq<Token>, t: PTree): seq<Token> {
    if t.words <= input then input[|t.words|..] else []
  }

  function LeftAll(input: seq<Token>, ts: seq<PTree>): seq<Token>
    decreases ts
  {
    if ts == [] then input else LeftAll(Left(input, ts[0]), ts[1..])
  }

  /** The tree is what the node takes from the start of the input. */
  ghost predicate Fits(g: Node, t: PTree, input: seq<Token>)
    decreases g, 0
  {
    && t.node == g.id && t.words <= input
    && match g
       case Str(_, word) => t.kids == [] && t.words == [word]
       case AnyWord(_) => t.kids == [] && |t.words| == 1
       case Empty(_) => t.kids == [] && t.words == []
       case Seq(_, kids) => t.words == Words(t.kids) && InTurn(kids, t.kids, input)
       case Or(_, kids) =>
         && t.words == Words(t.kids) && |t.kids| == 1
         && exists i :: 0 <= i < |kids| && FirstOf(kids, i, input) && Fits(kids[i], t.kids[0], input)
       case Many(_, min, max, kid) =>
         && t.words == Words(t.kids) && Repeats(kid, t.kids, max == 0, input)
         && min <= |t.kids| && (max != 0 ==> |t.kids| <= max)
         && ((max != 0 && |t.kids| == max) || NoMore(kid, max == 0, LeftAll(input, t.kids)))
       case Opt(_, kid) =>
         && t.words == Words(t.kids)
         && if t.kids == [] then Refuses(kid, input) else |t.kids| == 1 && Fits(kid, t.kids[0], input)
       case Bypass(_, kid) => t.words == Words(t.kids) && |t.kids| == 1 && Fits(kid, t.kids[0], input)
       case _ => false
  }

  /** Each child takes what the previous ones left. */
  ghost predicate InTurn(kids: seq<Node>, ts: seq<PTree>, input: seq<Token>)
    decreases kids, 0
  {
    if kids == [] || ts == [] then kids == [] && ts == []
    else Fits(kids[0], ts[0], input) && InTurn(kids[1..], ts[1..], Left(input, ts[0]))
  }

  /** The children before this one do not match. */
  ghost predicate FirstOf(kids: seq<Node>, i: nat, input: seq<Token>)
    requires i < |kids|
    decreases kids, 0
  {
    forall j :: 0 <= j < i ==> Refuses(kids[j], input)
  }

  /** One match after the other, each of at least a word when there is no maximum. */
  ghost predicate Repeats(kid: Node, ts: seq<PTree>, words: bool, input: seq<Token>)
    decreases kid, 2, |ts|
  {
    ts != [] ==>
      && Fits(kid, ts[0], input) && (words ==> ts[0].words != [])
      && Repeats(kid, ts[1..], words, Left(input, ts[0]))
  }

  /** There is no next match, or, without a maximum, none of a word. */
  ghost predicate NoMore(kid: Node, words: bool, input: seq<Token>)
    decreases kid, 2
  {
    Refuses(kid, input) || (words && exists t :: Fits(kid, t, input) && t.words == [])
  }

  /** No match, and no error. */
  ghost predicate Refuses(g: Node, input: seq<Token>)
    decreases g, 1
  {
    !Errs(g, input) && forall t :: !Fits(g, t, input)
  }

  /** The node reports an error: one of its children does, where it is tried. */
  ghost predicate Errs(g: Node, input: seq<Token>)
    decreases g, 0
  {
    match g
    case Broken(_) => true
    case Seq(_, kids) => ErrsInTurn(kids, input)
    case Or(_, kids) => exists i :: 0 <= i < |kids| && FirstOf(kids, i, input) && Errs(kids[i], input)
    case Many(_, _, max, kid) =>
      exists ts :: Repeats(kid, ts, max == 0, input) && (max != 0 ==> |ts| < max) && Errs(kid, LeftAll(input, ts))
    case Opt(_, kid) => Errs(kid, input)
    case Bypass(_, kid) => Errs(kid, input)
    case _ => false
  }

  ghost predicate ErrsInTurn(kids: seq<Node>, input: seq<Token>)
    decreases kids, 0
  {
    kids != [] &&
    (Errs(kids[0], input) || exists t :: Fits(kids[0], t, input) && ErrsInTurn(kids[1..], Left(input, t)))
  }

  // ----- parsing returns it ---------------------------------------------------------------------------

  /** No once and no subset nodes. */
  predicate Plain(g: Node) {
    match g
    case Seq(_, kids) => forall k :: k in kids ==> Plain(k)
    case Or(_, kids) => forall k :: k in kids ==> Plain(k)
    case Many(_, _, _, kid) => Plain(kid)
    case Opt(_, kid) => Plain(kid)
    case Bypass(_, kid) => Plain(kid)
    case Once(_, _) => false
    case Subset(_, _, _) => false
    case _ => true
  }

  /** What parsing a node returns, for every tree. */
  ghost predicate Agrees(r: ChildResult, g: Node, input: seq<Token>) {
    && (forall t :: r == Matched(t) <==> Fits(g, t, input))
    && (r == ChildError <==> Errs(g, input))
  }

  lemma AgreesRefuses(r: ChildResult, g: Node, input: seq<Token>)
    requires Agrees(r, g, input)
    ensures r == ChildNoMatch <==> Refuses(g, input)
  {
    hide Fits, Errs;
    if r.Matched? {
      assert Fits(g, r.t, input);
    }
  }

  /** Parsing a node matches exactly the tree it takes, and reports exactly its errors. */
  lemma {:induction false} ParseMeans(path: Path, g: Node, input: seq<Token>)
    requires Plain(g)
    ensures Agrees(ParseChild(path, g, input), g, input)
    decreases g, 2
  {
    hide SeqLoop, OrLoop, ManyLoop, CountPath, InTurn, FirstOf, Repeats, NoMore, Refuses, ErrsInTurn, Words;
    WordsNone();
    match g
    case Seq(id, kids) => SeqMeans(path, id, kids, input);
    case Or(id, kids) => OrMeans(path, id, kids, input);
    case Many(id, min, max, kid) => ManyMeans(path, id, min, max, kid, input);
    case Opt(id, kid) => OptMeans(path, id, kid, input);
    case Bypass(id, kid) => BypassMeans(path, id, kid, input);
    case Str(_, word) => assert input != [] ==> input[..1] == [input[0]];
    case _ =>
  }

  lemma WordsNone()
    ensures Words([]) == []
  {
  }

  /** Trees taken one after the other: their words start the input. */
  lemma {:induction false} WordsSplit(t: PTree, ts: seq<PTree>, input: seq<Token>)
    requires t.words <= input && Words(ts) <= Left(input, t)
    ensures Words([t] + ts) == t.words + Words(ts) && Words([t] + ts) <= input
  {
    assert ([t] + ts)[1..] == ts;
  }

  lemma {:induction false} InTurnWords(kids: seq<Node>, ts: seq<PTree>, input: seq<Token>)
    requires InTurn(kids, ts, input)
    ensures Words(ts) <= input
    decreases kids
  {
    hide Fits, Words;
    WordsNone();
    if kids != [] {
      FitsStarts(kids[0], ts[0], input);
      InTurnWords(kids[1..], ts[1..], Left(input, ts[0]));
      WordsSplit(ts[0], ts[1..], input);
      assert ts == [ts[0]] + ts[1..];
    }
  }

  lemma {:induction false} FitsStarts(g: Node, t: PTree, input: seq<Token>)
    requires Fits(g, t, input)
    ensures t.words <= input && t.node == g.id
  {
  }

  // ----- sequences --------------------------------------------------------------------------------------

  /** The loop of a sequence from here on, with the trees it adds to those before. */
  ghost predicate SeqAgrees(b: BodyResult, kids: seq<Node>, done: seq<PTree>, len: nat, input: seq<Token>)
    requires len <= |input|
  {
    && (b.ret.Match? ==>
          && done <= b.kids && InTurn(kids, b.kids[|done|..], input[len..])
          && b.ret.n == len + |Words(b.kids[|done|..])|)
    && (forall ts :: InTurn(kids, ts, input[len..]) ==> b.ret.Match? && b.kids == done + ts)
    && (b.ret.Error? <==> ErrsInTurn(kids, input[len..]))
  }

  /** The first child decides whether an error comes from it or from the rest. */
  lemma {:induction false} ErrsFirst(kids: seq<Node>, r: ChildResult, input: seq<Token>)
    requires kids != [] && Agrees(r, kids[0], input)
    ensures ErrsInTurn(kids, input) <==>
      r.ChildError? || (r.Matched? && ErrsInTurn(kids[1..], Left(input, r.t)))
  {
    hide Fits, Errs;
    if r.Matched? {
      assert Fits(kids[0], r.t, input);
    }
  }

  lemma {:induction false} SeqSteps(path: Path, id: nat, kids: seq<Node>, done: seq<PTree>, len: nat, input: seq<Token>)
    requires len <= |input| && forall k :: k in kids ==> Plain(k)
    ensures SeqAgrees(SeqLoop(path, id, kids, done, len, input), kids, done, len, input)
    decreases kids, 0
  {
    hide ParseChild, Fits, Errs, Words, Plain;
    WordsNone();
    var rest := input[len..];
    var b := SeqLoop(path, id, kids, done, len, input);
    if kids == [] {
      assert b.kids[|done|..] == [];
    } else {
      assert kids[0] in kids;
      ParseMeans(path + [Frame(id, done)], kids[0], rest);
      var r := ParseChild(path + [Frame(id, done)], kids[0], rest);
      if r.Matched? {
        FitsStarts(kids[0], r.t, rest);
        SeqSteps(path, id, kids[1..], done + [r.t], len + |r.t.words|, input);
        SeqTaken(b, kids, done, len, input, r.t);
      } else {
        SeqStuck(b, r, kids, done, len, input);
      }
    }
  }

  lemma {:induction false} SeqStuck(b: BodyResult, r: ChildResult, kids: seq<Node>, done: seq<PTree>, len: nat,
                                    input: seq<Token>)
    requires len <= |input| && kids != [] && !r.Matched? && Agrees(r, kids[0], input[len..])
    requires b.ret == if r.ChildError? then Error else NoMatch
    ensures SeqAgrees(b, kids, done, len, input)
  {
    var rest := input[len..];
    ErrsFirst(kids, r, rest);
    hide Fits, Errs, Words, ErrsInTurn;
    forall ts
      ensures !InTurn(kids, ts, rest)
    {
      if ts != [] {
        assert !Fits(kids[0], ts[0], rest);
      }
    }
  }

  lemma {:induction false} SeqTaken(b: BodyResult, kids: seq<Node>, done: seq<PTree>, len: nat, input: seq<Token>,
                                    t: PTree)
    requires len <= |input| && kids != [] && t.words <= input[len..]
    requires Agrees(Matched(t), kids[0], input[len..])
    requires SeqAgrees(b, kids[1..], done + [t], len + |t.words|, input)
    ensures SeqAgrees(b, kids, done, len, input)
  {
    var rest := input[len..];
    ErrsFirst(kids, Matched(t), rest);
    hide Fits, Errs, Words, ErrsInTurn;
    assert input[len + |t.words|..] == Left(rest, t);
    assert Fits(kids[0], t, rest);
    if b.ret.Match? {
      var ts := b.kids[|done| + 1..];
      assert b.kids[|done + [t]|..] == ts;
      assert b.kids[|done|..] == [t] + ts && ([t] + ts)[1..] == ts;
      InTurnWords(kids[1..], ts, Left(rest, t));
      WordsSplit(t, ts, rest);
    }
    forall ts | InTurn(kids, ts, rest)
      ensures b.ret.Match? && b.kids == done + ts
    {
      assert Fits(kids[0], ts[0], rest);
      assert ts == [t] + ts[1..] && done + [t] + ts[1..] == done + ts;
    }
  }

  lemma {:induction false} SeqMeans(path: Path, id: nat, kids: seq<Node>, input: seq<Token>)
    requires forall k :: k in kids ==> Plain(k)
    ensures Agrees(ParseChild(path, Seq(id, kids), input), Seq(id, kids), input)
    decreases kids, 1
  {
    hide InTurn, ErrsInTurn, Words, Plain, SeqLoop;
    SeqSteps(path, id, kids, [], 0, input);
    assert input[0..] == input;
    var b := SeqLoop(path, id, kids, [], 0, input);
    if b.ret.Match? {
      assert b.kids[0..] == b.kids;
      InTurnWords(kids, b.kids, input);
      assert Words(b.kids) == input[..b.ret.n];
    }
    forall t | Fits(Seq(id, kids), t, input)
      ensures ParseChild(path, Seq(id, kids), input) == Matched(t)
    {
      assert [] + t.kids == t.kids;
      InTurnWords(kids, t.kids, input);
    }
  }

  // ----- choices ------------------------------------------------------------------------------------------

  lemma {:induction false} OrSteps(path: Path, id: nat, kids: seq<Node>, i: nat, input: seq<Token>)
    requires i <= |kids| && forall k :: k in kids ==> Plain(k)
    requires forall j :: 0 <= j < i ==> Refuses(kids[j], input)
    ensures
      var b := OrLoop(path, id, kids[i..], input);
      && (b.ret.Match? ==>
            exists k, t :: i <= k < |kids| && FirstOf(kids, k, input) && Fits(kids[k], t, input)
              && b == Body(Match(|t.words|), [t]))
      && (b.ret.Error? ==> exists k :: i <= k < |kids| && FirstOf(kids, k, input) && Errs(kids[k], input))
      && (b.ret.NoMatch? ==> forall j :: 0 <= j < |kids| ==> Refuses(kids[j], input))
    decreases kids, 0, |kids| - i
  {
    hide ParseChild, Fits, Errs, Refuses, Plain;
    if i < |kids| {
      assert kids[i] in kids && kids[i..][0] == kids[i] && kids[i..][1..] == kids[i + 1..];
      ParseMeans(path + [Frame(id, [])], kids[i], input);
      var r := ParseChild(path + [Frame(id, [])], kids[i], input);
      AgreesRefuses(r, kids[i], input);
      assert FirstOf(kids, i, input);
      if r.ChildNoMatch? {
        OrSteps(path, id, kids, i + 1, input);
      } else if r.Matched? {
        assert Fits(kids[i], r.t, input);
      }
    }
  }

  /** A node takes at most one tree, and not when it reports an error. */
  lemma {:induction false} OneResult(g: Node, input: seq<Token>)
    requires Plain(g)
    ensures forall t, u :: Fits(g, t, input) && Fits(g, u, input) ==> t == u
    ensures forall t :: Fits(g, t, input) ==> !Errs(g, input)
    decreases g, 3
  {
    hide Fits, Errs, ParseChild;
    ParseMeans([], g, input);
  }

  /** Only one child can be the first that does not refuse. */
  lemma {:induction false} OneFirst(kids: seq<Node>, i: nat, k: nat, input: seq<Token>)
    requires i < |kids| && k < |kids| && FirstOf(kids, i, input) && FirstOf(kids, k, input)
    requires !Refuses(kids[i], input) && !Refuses(kids[k], input)
    ensures i == k
  {
  }

  lemma {:induction false} OrTakes(id: nat, kids: seq<Node>, k: nat, input: seq<Token>, t: PTree)
    requires k < |kids| && Plain(kids[k]) && FirstOf(kids, k, input) && Fits(kids[k], t, input)
    ensures Agrees(Matched(PTree(id, [t], t.words)), Or(id, kids), input)
    decreases kids, 0
  {
    hide Words, FirstOf;
    WordsOne(t);
    FitsStarts(kids[k], t, input);
    OneResult(kids[k], input);
    forall u | Fits(Or(id, kids), u, input)
      ensures u == PTree(id, [t], t.words)
    {
      var i :| 0 <= i < |kids| && FirstOf(kids, i, input) && Fits(kids[i], u.kids[0], input);
      OneFirst(kids, i, k, input);
      assert u.kids == [t];
    }
    if i :| 0 <= i < |kids| && FirstOf(kids, i, input) && Errs(kids[i], input) {
      OneFirst(kids, i, k, input);
      assert false;
    }
  }

  lemma {:induction false} OrFails(id: nat, kids: seq<Node>, k: nat, input: seq<Token>)
    requires k < |kids| && Plain(kids[k]) && FirstOf(kids, k, input) && Errs(kids[k], input)
    ensures Agrees(ChildError, Or(id, kids), input)
    decreases kids, 0
  {
    hide Words, FirstOf;
    OneResult(kids[k], input);
    forall u | Fits(Or(id, kids), u, input)
      ensures false
    {
      var i :| 0 <= i < |kids| && FirstOf(kids, i, input) && Fits(kids[i], u.kids[0], input);
      OneFirst(kids, i, k, input);
    }
  }

  lemma {:induction false} OrRefuses(id: nat, kids: seq<Node>, input: seq<Token>)
    requires forall j :: 0 <= j < |kids| ==> Refuses(kids[j], input)
    ensures Agrees(ChildNoMatch, Or(id, kids), input)
  {
    hide Words, FirstOf;
  }

  lemma {:induction false} OrMeans(path: Path, id: nat, kids: seq<Node>, input: seq<Token>)
    requires forall k :: k in kids ==> Plain(k)
    ensures Agrees(ParseChild(path, Or(id, kids), input), Or(id, kids), input)
    decreases kids, 1
  {
    hide Words, Plain, OrLoop, Refuses, FirstOf, Fits, Errs, Agrees;
    OrSteps(path, id, kids, 0, input);
    assert kids[0..] == kids;
    var b := OrLoop(path, id, kids, input);
    assert ParseBody(path, Or(id, kids), input) == b;
    if b.ret.Match? {
      var k, t :|
        0 <= k < |kids| && FirstOf(kids, k, input) && Fits(kids[k], t, input) && b == Body(Match(|t.words|), [t]);
      FitsStarts(kids[k], t, input);
      assert input[..|t.words|] == t.words;
      OrTakes(id, kids, k, input, t);
    } else if b.ret.Error? {
      var k :| 0 <= k < |kids| && FirstOf(kids, k, input) && Errs(kids[k], input);
      OrFails(id, kids, k, input);
    } else {
      OrRefuses(id, kids, input);
    }
  }

  // ----- repetitions --------------------------------------------------------------------------------------

  /** A run of matches that nothing follows: for its number, for want of another match, or for an error. */
  ghost predicate RunEnds(kid: Node, max: nat, count: nat, ts: seq<PTree>, input: seq<Token>) {
    && Repeats(kid, ts, max == 0, input) && (max != 0 ==> count + |ts| <= max)
    && ((max != 0 && count + |ts| == max) || NoMore(kid, max == 0, LeftAll(input, ts)) || Errs(kid, LeftAll(input, ts)))
  }

  lemma {:induction false} RunStep(kid: Node, max: nat, count: nat, ts: seq<PTree>, input: seq<Token>)
    requires ts != []
    ensures RunEnds(kid, max, count, ts, input) <==>
      && Fits(kid, ts[0], input) && (max == 0 ==> ts[0].words != [])
      && RunEnds(kid, max, count + 1, ts[1..], Left(input, ts[0]))
  {
    hide Fits, Errs, NoMore;
  }

  lemma {:induction false} RunStops(kid: Node, max: nat, count: nat, input: seq<Token>)
    requires Plain(kid) && RunEnds(kid, max, count, [], input)
    ensures (max != 0 && count == max) || forall t :: Fits(kid, t, input) ==> max == 0 && t.words == []
    decreases kid, 4
  {
    OneResult(kid, input);
    assert LeftAll(input, []) == input;
    hide Fits, Errs;
    if (max == 0 || count != max) && !Errs(kid, input) && !Refuses(kid, input) {
      var t :| Fits(kid, t, input) && t.words == [];
    }
  }

  /** There is only one such run. */
  lemma {:induction false} OneRun(kid: Node, max: nat, count: nat, ts: seq<PTree>, us: seq<PTree>, input: seq<Token>)
    requires Plain(kid) && RunEnds(kid, max, count, ts, input) && RunEnds(kid, max, count, us, input)
    ensures ts == us
    decreases kid, 5, |ts|
  {
    hide Fits, Errs, RunEnds;
    OneResult(kid, input);
    if ts == [] {
      RunStops(kid, max, count, input);
      if us != [] {
        RunStep(kid, max, count, us, input);
        RunCount(kid, max, count + 1, us[1..], Left(input, us[0]));
      }
    } else if us == [] {
      RunStops(kid, max, count, input);
      RunStep(kid, max, count, ts, input);
      RunCount(kid, max, count + 1, ts[1..], Left(input, ts[0]));
    } else {
      RunStep(kid, max, count, ts, input);
      RunStep(kid, max, count, us, input);
      OneRun(kid, max, count + 1, ts[1..], us[1..], Left(input, ts[0]));
      assert ts == [ts[0]] + ts[1..] && us == [us[0]] + us[1..];
    }
  }

  lemma {:induction false} RunCount(kid: Node, max: nat, count: nat, ts: seq<PTree>, input: seq<Token>)
    requires RunEnds(kid, max, count, ts, input)
    ensures max != 0 ==> count + |ts| <= max
  {
  }

  lemma {:induction false} RepeatsWords(kid: Node, ts: seq<PTree>, words: bool, input: seq<Token>)
    requires Repeats(kid, ts, words, input)
    ensures Words(ts) <= input
    decreases ts
  {
    hide Fits, Words;
    WordsNone();
    if ts != [] {
      FitsStarts(kid, ts[0], input);
      RepeatsWords(kid, ts[1..], words, Left(input, ts[0]));
      WordsSplit(ts[0], ts[1..], input);
      assert ts == [ts[0]] + ts[1..];
    }
  }

  /** The loop makes this run, and ends as it does. */
  ghost predicate Makes(b: BodyResult, kid: Node, min: nat, max: nat, count: nat, off: nat, done: seq<PTree>,
                        ts: seq<PTree>, input: seq<Token>)
  {
    && RunEnds(kid, max, count, ts, input)
    && var err := Errs(kid, LeftAll(input, ts)) && (max != 0 ==> count + |ts| < max);
    && (b.ret.Error? <==> err)
    && (!err ==> b == ManyEnd(min, count + |ts|, off + |Words(ts)|, done + ts))
  }

  /** The loop from here on: the run that it makes. */
  lemma {:induction false} ManySteps(path: Path, id: nat, min: nat, max: nat, kid: Node, count: nat, off: nat,
                                     done: seq<PTree>, input: seq<Token>) returns (ts: seq<PTree>)
    requires Plain(kid) && off <= |input| && (max != 0 ==> count <= max)
    ensures
      var b := ManyLoop(path, id, min, max, kid, count, off, done, input);
      Makes(b, kid, min, max, count, off, done, ts, input[off..])
    decreases kid, 3, if max == 0 then |input| - off else max - count
  {
    hide ParseChild, Fits, Errs, Words, Plain, Makes, ManyLoop;
    Parser.ManyStep(path, id, min, max, kid, count, off, done, input);
    var rest := input[off..];
    var b := ManyLoop(path, id, min, max, kid, count, off, done, input);
    ts := [];
    if max != 0 && count == max {
      MakesFull(b, kid, min, max, off, done, rest);
    } else {
      ParseMeans(path + [Frame(id, done)], kid, rest);
      var r := ParseChild(path + [Frame(id, done)], kid, rest);
      if !r.Matched? || (r.t.words == [] && max == 0) {
        MakesOver(b, r, kid, min, max, count, off, done, rest);
      } else {
        TakenStarts(r, kid, rest);
        assert input[off + |r.t.words|..] == Left(rest, r.t);
        var us := ManySteps(path, id, min, max, kid, count + 1, off + |r.t.words|, done + [r.t], input);
        ts := [r.t] + us;
        MakesMore(b, kid, min, max, count, off, done, r.t, us, rest);
      }
    }
  }

  lemma {:induction false} MakesFull(b: BodyResult, kid: Node, min: nat, max: nat, off: nat, done: seq<PTree>,
                                     input: seq<Token>)
    requires max != 0 && b == ManyEnd(min, max, off, done)
    ensures Makes(b, kid, min, max, max, off, done, [], input)
  {
    hide Fits, Errs, Words, RunEnds;
    RunFull(kid, max, input);
    WordsNone();
    assert done + [] == done;
  }

  lemma {:induction false} MakesOver(b: BodyResult, r: ChildResult, kid: Node, min: nat, max: nat, count: nat, off: nat,
                                     done: seq<PTree>, input: seq<Token>)
    requires Agrees(r, kid, input) && (max != 0 ==> count < max)
    requires !r.Matched? || (r.t.words == [] && max == 0)
    requires if r.ChildError? then b.ret.Error? else b == ManyEnd(min, count, off, done)
    ensures Makes(b, kid, min, max, count, off, done, [], input)
  {
    hide Fits, Errs, Words, RunEnds;
    RunOver(r, kid, max, count, input);
    WordsNone();
    assert done + [] == done;
  }

  lemma {:induction false} MakesMore(b: BodyResult, kid: Node, min: nat, max: nat, count: nat, off: nat,
                                     done: seq<PTree>, t: PTree, us: seq<PTree>, input: seq<Token>)
    requires Fits(kid, t, input) && (max == 0 ==> t.words != [])
    requires Makes(b, kid, min, max, count + 1, off + |t.words|, done + [t], us, Left(input, t))
    ensures Makes(b, kid, min, max, count, off, done, [t] + us, input)
  {
    hide Fits, Errs, Words, RunEnds;
    RunMore(kid, max, count, t, us, input);
    assert done + [t] + us == done + ([t] + us);
  }

  lemma RunFull(kid: Node, max: nat, input: seq<Token>)
    requires max != 0
    ensures RunEnds(kid, max, max, [], input)
  {
  }

  lemma TakenStarts(r: ChildResult, g: Node, input: seq<Token>)
    requires r.Matched? && Agrees(r, g, input)
    ensures Fits(g, r.t, input) && r.t.words <= input
  {
    FitsStarts(g, r.t, input) by { assert Fits(g, r.t, input); }
  }

  lemma {:induction false} RunOver(r: ChildResult, kid: Node, max: nat, count: nat, input: seq<Token>)
    requires Agrees(r, kid, input) && (max != 0 ==> count < max)
    requires !r.Matched? || (r.t.words == [] && max == 0)
    ensures RunEnds(kid, max, count, [], input) && LeftAll(input, []) == input
  {
    hide Fits, Errs;
    AgreesRefuses(r, kid, input);
    if r.Matched? {
      assert Fits(kid, r.t, input);
    }
  }

  lemma {:induction false} RunMore(kid: Node, max: nat, count: nat, t: PTree, us: seq<PTree>, input: seq<Token>)
    requires Fits(kid, t, input) && (max == 0 ==> t.words != []) && RunEnds(kid, max, count + 1, us, Left(input, t))
    ensures
      var ts := [t] + us;
      && RunEnds(kid, max, count, ts, input) && LeftAll(input, ts) == LeftAll(Left(input, t), us)
      && |Words(ts)| == |t.words| + |Words(us)|
  {
    hide Fits, Errs, Words, RunEnds;
    var ts := [t] + us;
    assert ts[1..] == us && ts[0] == t;
    RunStep(kid, max, count, ts, input);
    FitsStarts(kid, t, input);
    RunWords(kid, max, count + 1, us, Left(input, t));
    WordsSplit(t, us, input);
  }

  lemma {:induction false} RunWords(kid: Node, max: nat, count: nat, ts: seq<PTree>, input: seq<Token>)
    requires RunEnds(kid, max, count, ts, input)
    ensures Words(ts) <= input
  {
    RepeatsWords(kid, ts, max == 0, input);
  }

  lemma {:induction false} ManyMeans(path: Path, id: nat, min: nat, max: nat, kid: Node, input: seq<Token>)
    requires Plain(kid)
    ensures Agrees(ParseChild(path, Many(id, min, max, kid), input), Many(id, min, max, kid), input)
    decreases kid, 8
  {
    hide ManyLoop, Words, Plain, Repeats, NoMore;
    hide RunEnds;
    var ts := ManySteps(path, id, min, max, kid, 0, 0, [], input);
    assert input[0..] == input && [] + ts == ts;
    RunWords(kid, max, 0, ts, input);
    ManyAgrees(id, min, max, kid, ts, input);
    var b := ManyLoop(path, id, min, max, kid, 0, 0, [], input);
    assert ParseBody(path, Many(id, min, max, kid), input) == b;
    if b.ret.Match? {
      assert input[..b.ret.n] == Words(ts);
    }
  }

  /** The run decides what the repetition takes. */
  lemma {:induction false} ManyAgrees(id: nat, min: nat, max: nat, kid: Node, ts: seq<PTree>, input: seq<Token>)
    requires Plain(kid) && RunEnds(kid, max, 0, ts, input)
    ensures
      var g := Many(id, min, max, kid);
      Agrees(if Errs(kid, LeftAll(input, ts)) && (max != 0 ==> |ts| < max) then ChildError
             else if |ts| < min then ChildNoMatch else Matched(PTree(id, ts, Words(ts))), g, input)
    decreases kid, 7
  {
    hide Words, Plain, RunEnds, Repeats, NoMore, Refuses;
    RunWords(kid, max, 0, ts, input);
    RunParts(kid, max, ts, input);
    var g := Many(id, min, max, kid);
    var err := Errs(kid, LeftAll(input, ts)) && (max != 0 ==> |ts| < max);
    forall t | Fits(g, t, input)
      ensures t == PTree(id, ts, Words(ts)) && |ts| >= min && !err
    {
      RunTaken(kid, min, max, ts, t, input);
    }
    if Errs(g, input) {
      var us :| Repeats(kid, us, max == 0, input) && (max != 0 ==> |us| < max) && Errs(kid, LeftAll(input, us));
      RunFails(kid, max, ts, us, input);
    }
    if !err && |ts| >= min {
      assert Fits(g, PTree(id, ts, Words(ts)), input);
    }
  }

  lemma {:induction false} RunParts(kid: Node, max: nat, ts: seq<PTree>, input: seq<Token>)
    requires RunEnds(kid, max, 0, ts, input)
    ensures Repeats(kid, ts, max == 0, input) && (max != 0 ==> |ts| <= max)
    ensures
      (max != 0 && |ts| == max) || NoMore(kid, max == 0, LeftAll(input, ts)) || Errs(kid, LeftAll(input, ts))
  {
  }

  lemma {:induction false} RunTaken(kid: Node, min: nat, max: nat, ts: seq<PTree>, t: PTree, input: seq<Token>)
    requires Plain(kid) && RunEnds(kid, max, 0, ts, input) && Fits(Many(t.node, min, max, kid), t, input)
    ensures t == PTree(t.node, ts, Words(ts)) && |ts| >= min
    ensures Errs(kid, LeftAll(input, ts)) ==> max != 0 && |ts| == max
    decreases kid, 6
  {
    hide Words, Plain;
    assert RunEnds(kid, max, 0, t.kids, input);
    OneRun(kid, max, 0, ts, t.kids, input);
    if Errs(kid, LeftAll(input, ts)) {
      ErrsIsMore(kid, max == 0, LeftAll(input, ts));
    }
  }

  lemma {:induction false} ErrsIsMore(kid: Node, words: bool, input: seq<Token>)
    requires Plain(kid) && Errs(kid, input)
    ensures !NoMore(kid, words, input)
    decreases kid, 5
  {
    OneResult(kid, input);
    hide Fits, Errs;
  }

  lemma {:induction false} RunFails(kid: Node, max: nat, ts: seq<PTree>, us: seq<PTree>, input: seq<Token>)
    requires Plain(kid) && RunEnds(kid, max, 0, ts, input)
    requires Repeats(kid, us, max == 0, input) && (max != 0 ==> |us| < max) && Errs(kid, LeftAll(input, us))
    ensures ts == us
    decreases kid, 6
  {
    hide Words, Plain;
    assert RunEnds(kid, max, 0, us, input);
    OneRun(kid, max, 0, ts, us, input);
  }

  // ----- one child ----------------------------------------------------------------------------------------

  lemma {:induction false} OptMeans(path: Path, id: nat, kid: Node, input: seq<Token>)
    requires Plain(kid)
    ensures Agrees(ParseChild(path, Opt(id, kid), input), Opt(id, kid), input)
    decreases kid, 6
  {
    hide Words, Plain, Refuses;
    WordsNone();
    ParseMeans(path + [Frame(id, [])], kid, input);
    var r := ParseChild(path + [Frame(id, [])], kid, input);
    AgreesRefuses(r, kid, input);
    if r.Matched? {
      WordsOne(r.t);
      FitsStarts(kid, r.t, input);
    }
    forall t | Fits(Opt(id, kid), t, input)
      ensures ParseChild(path, Opt(id, kid), input) == Matched(t)
    {
      assert input[..|t.words|] == t.words;
      if t.kids != [] {
        assert Fits(kid, t.kids[0], input);
        assert t.kids == [t.kids[0]];
        WordsOne(t.kids[0]);
      }
    }
  }

  lemma {:induction false} BypassMeans(path: Path, id: nat, kid: Node, input: seq<Token>)
    requires Plain(kid)
    ensures Agrees(ParseChild(path, Bypass(id, kid), input), Bypass(id, kid), input)
    decreases kid, 6
  {
    hide Words, Plain;
    ParseMeans(path + [Frame(id, [])], kid, input);
    var r := ParseChild(path + [Frame(id, [])], kid, input);
    if r.Matched? {
      WordsOne(r.t);
      FitsStarts(kid, r.t, input);
    }
    forall t | Fits(Bypass(id, kid), t, input)
      ensures ParseChild(path, Bypass(id, kid), input) == Matched(t)
    {
      assert Fits(kid, t.kids[0], input);
      assert t.kids == [t.kids[0]] && input[..|t.words|] == t.words;
      WordsOne(t.kids[0]);
    }
  }

  // ----- nodes without a choice: the derivations decide -------------------------------------------------------

  /** Words, any and empty nodes, and sequences of such. */
  predicate Fixed(g: Node) {
    match g
    case Str(_, _) => true
    case AnyWord(_) => true
    case Empty(_) => true
    case Seq(_, kids) => forall k :: k in kids ==> Fixed(k)
    case Bypass(_, kid) => Fixed(kid)
    case _ => false
  }

  ghost predicate Starts(g: Node, t: PTree, input: seq<Token>) { Derives(g, t) && t.words <= input }

  lemma {:induction false} FixedIsPlain(g: Node)
    requires Fixed(g)
    ensures Plain(g) && forall input :: !Errs(g, input)
    decreases g, 1
  {
    match g
    case Seq(_, kids) =>
      forall k | k in kids
        ensures Plain(k) && forall input :: !Errs(k, input)
      {
        FixedIsPlain(k);
      }
      forall input
        ensures !ErrsInTurn(kids, input)
      {
        NoErrsInTurn(kids, input);
      }
    case Bypass(_, kid) => FixedIsPlain(kid);
    case _ =>
  }

  lemma {:induction false} NoErrsInTurn(kids: seq<Node>, input: seq<Token>)
    requires forall k, i :: k in kids ==> !Errs(k, i)
    ensures !ErrsInTurn(kids, input)
    decreases kids
  {
    hide Fits, Errs;
    if kids != [] {
      assert kids[0] in kids;
      forall t
        ensures !ErrsInTurn(kids[1..], Left(input, t))
      {
        NoErrsInTurn(kids[1..], Left(input, t));
      }
    }
  }

  /** The tree such a node takes is the derivation whose words start the input. */
  lemma {:induction false} FixedTakes(g: Node, t: PTree, input: seq<Token>)
    requires Fixed(g)
    ensures Fits(g, t, input) <==> Starts(g, t, input)
    decreases g, 1
  {
    match g
    case Seq(_, kids) => SeqTakes(kids, t.kids, input);
    case Bypass(_, kid) =>
      if |t.kids| == 1 {
        assert t.kids == [t.kids[0]];
        WordsOne(t.kids[0]);
        FixedTakes(kid, t.kids[0], input);
      }
    case _ =>
  }

  lemma {:induction false} SeqTakes(kids: seq<Node>, ts: seq<PTree>, input: seq<Token>)
    requires forall k :: k in kids ==> Fixed(k)
    ensures InTurn(kids, ts, input) <==>
      |ts| == |kids| && Words(ts) <= input && forall i :: 0 <= i < |kids| ==> Derives(kids[i], ts[i])
    decreases kids, 0
  {
    hide Fits, Derives, Words, Fixed;
    WordsNone();
    if kids != [] && ts != [] {
      assert kids[0] in kids;
      FixedTakes(kids[0], ts[0], input);
      SeqTakes(kids[1..], ts[1..], Left(input, ts[0]));
      FirstAndRest(kids, ts);
      assert ts == [ts[0]] + ts[1..];
      WordsOf(ts[0], ts[1..], input);
    }
  }

  lemma WordsOf(t: PTree, ts: seq<PTree>, input: seq<Token>)
    ensures Words([t] + ts) <= input <==> t.words <= input && Words(ts) <= Left(input, t)
  {
    hide Words;
    assert ([t] + ts)[1..] == ts;
    assert Words([t] + ts) == t.words + Words(ts) by { WordsCons(t, ts); }
    if t.words <= input {
      assert input == t.words + Left(input, t);
    }
  }

  lemma WordsCons(t: PTree, ts: seq<PTree>)
    ensures Words([t] + ts) == t.words + Words(ts)
  {
    assert ([t] + ts)[1..] == ts;
  }

  lemma FirstAndRest(kids: seq<Node>, ts: seq<PTree>)
    requires kids != [] && ts != []
    ensures
      (|ts| == |kids| && forall i :: 0 <= i < |kids| ==> Derives(kids[i], ts[i])) <==>
      |ts[1..]| == |kids[1..]| && Derives(kids[0], ts[0])
      && forall i :: 0 <= i < |kids[1..]| ==> Derives(kids[1..][i], ts[1..][i])
  {
    hide Derives;
    if |ts| == |kids| && Derives(kids[0], ts[0])
       && forall i :: 0 <= i < |kids[1..]| ==> Derives(kids[1..][i], ts[1..][i]) {
      forall i | 0 <= i < |kids|
        ensures Derives(kids[i], ts[i])
      {
        if i > 0 {
          assert kids[i] == kids[1..][i - 1] && ts[i] == ts[1..][i - 1];
        }
      }
    }
  }

  /** A node without a choice matches if and only if some derivation from it starts the input: that one. */
  lemma FixedMatches(path: Path, g: Node, input: seq<Token>)
    requires Fixed(g)
    ensures ParseChild(path, g, input).Matched? <==> exists t :: Starts(g, t, input)
    ensures forall t :: ParseChild(path, g, input) == Matched(t) <==> Starts(g, t, input)
    ensures !ParseChild(path, g, input).ChildError?
  {
    FixedIsPlain(g);
    ParseMeans(path, g, input);
    hide ParseChild, Fits, Errs, Derives;
    var r := ParseChild(path, g, input);
    forall t
      ensures r == Matched(t) <==> Starts(g, t, input)
    {
      FixedTakes(g, t, input);
    }
    if r.Matched? {
      assert Starts(g, r.t, input);
    }
  }

  /** Nothing derived from the node starts the input. */
  ghost predicate NoStart(g: Node, input: seq<Token>) { forall t :: !Starts(g, t, input) }

  /** A choice takes the first of its nodes from which a derivation starts the input. */
  lemma ChoiceMatches(path: Path, id: nat, kids: seq<Node>, input: seq<Token>, t: PTree)
    requires forall k :: k in kids ==> Fixed(k)
    ensures
      ParseChild(path, Or(id, kids), input) == Matched(PTree(id, [t], t.words)) <==>
      exists i :: 0 <= i < |kids| && Starts(kids[i], t, input) && forall j :: 0 <= j < i ==> NoStart(kids[j], input)
  {
    forall k | k in kids
      ensures Plain(k)
    {
      FixedIsPlain(k);
    }
    var g, u := Or(id, kids), PTree(id, [t], t.words);
    ParseMeans(path, g, input);
    WordsOne(t);
    hide ParseChild, Errs, Derives, Words, Starts;
    forall i | 0 <= i < |kids|
      ensures Refuses(kids[i], input) <==> NoStart(kids[i], input)
      ensures Fits(kids[i], t, input) <==> Starts(kids[i], t, input)
    {
      FixedRefuses(kids[i], input);
      FixedTakes(kids[i], t, input);
    }
    hide Refuses, NoStart;
    if i :| 0 <= i < |kids| && Starts(kids[i], t, input) && forall j :: 0 <= j < i ==> NoStart(kids[j], input) {
      FitsStarts(kids[i], t, input);
      assert FirstOf(kids, i, input);
      assert Fits(g, u, input);
    }
    if Fits(g, u, input) {
      var i :| 0 <= i < |kids| && FirstOf(kids, i, input) && Fits(kids[i], t, input);
      assert Starts(kids[i], t, input);
      assert forall j :: 0 <= j < i ==> NoStart(kids[j], input);
    }
  }

  lemma FixedRefuses(g: Node, input: seq<Token>)
    requires Fixed(g)
    ensures Refuses(g, input) <==> NoStart(g, input)
  {
    FixedIsPlain(g);
    hide Fits, Errs, Starts;
    forall t
      ensures Fits(g, t, input) <==> Starts(g, t, input)
    {
      FixedTakes(g, t, input);
    }
  }

  /** An option takes what its node derives, and nothing if and only if that derives nothing that starts the input. */
  lemma OptionMatches(path: Path, id: nat, kid: Node, input: seq<Token>)
    requires Fixed(kid)
    ensures ParseChild(path, Opt(id, kid), input) == Matched(PTree(id, [], [])) <==> NoStart(kid, input)
    ensures forall t: PTree ::
      ParseChild(path, Opt(id, kid), input) == Matched(PTree(id, [t], t.words)) <==> Starts(kid, t, input)
  {
    FixedIsPlain(kid);
    var g := Opt(id, kid);
    ParseMeans(path, g, input);
    FixedRefuses(kid, input);
    WordsNone();
    hide ParseChild, Errs, Derives, Words, Starts, Refuses, NoStart;
    assert Fits(g, PTree(id, [], []), input) <==> Refuses(kid, input);
    forall t: PTree
      ensures Fits(g, PTree(id, [t], t.words), input) <==> Starts(kid, t, input)
    {
      WordsOne(t);
      FixedTakes(kid, t, input);
    }
  }

  /** A repetition with a maximum that stops below it has left words that nothing derived from its node starts. */
  lemma RepetitionIsGreedy(path: Path, id: nat, min: nat, max: nat, kid: Node, input: seq<Token>)
    requires Fixed(kid) && max != 0 && ParseChild(path, Many(id, min, max, kid), input).Matched?
    ensures
      var t := ParseChild(path, Many(id, min, max, kid), input).t;
      && min <= |t.kids| <= max && (forall k :: k in t.kids ==> Derives(kid, k))
      && t.words == Words(t.kids) && t.words <= input
      && (|t.kids| == max || NoStart(kid, input[|t.words|..]))
  {
    FixedIsPlain(kid);
    ParseMeans(path, Many(id, min, max, kid), input);
    var t := ParseChild(path, Many(id, min, max, kid), input).t;
    assert Fits(Many(id, min, max, kid), t, input);
    RepeatsDerives(kid, t.kids, false, input);
    FixedRefuses(kid, LeftAll(input, t.kids));
    hide ParseChild, Errs, Derives, Words, Starts, Refuses, NoStart;
  }

  lemma {:induction false} RepeatsDerives(kid: Node, ts: seq<PTree>, words: bool, input: seq<Token>)
    requires Fixed(kid) && Repeats(kid, ts, words, input)
    ensures forall k :: k in ts ==> Derives(kid, k)
    ensures Words(ts) <= input && LeftAll(input, ts) == input[|Words(ts)|..]
    decreases ts
  {
    hide Fits, Derives, Words;
    WordsNone();
    if ts != [] {
      FixedTakes(kid, ts[0], input);
      var left := Left(input, ts[0]);
      RepeatsDerives(kid, ts[1..], words, left);
      assert ts == [ts[0]] + ts[1..];
      WordsOf(ts[0], ts[1..], input);
      WordsCons(ts[0], ts[1..]);
      assert left[|Words(ts[1..])|..] == input[|Words(ts)|..];
    }
  }
}
