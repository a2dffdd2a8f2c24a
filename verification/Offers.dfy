/**
 What completion must offer, told without loops: the leaves that it reaches, and
 with which words. Completing a node offers exactly what they offer.
 */
module Offers {
  import opened Prelude
  import opened Grammar
  import opened GrammarFacts
  import opened GrammarMeaning
  import opened Completion

  // ----- what is reached ------------------------------------------------------------------------------

  /** An item is added for a node, or an error stops the completion. */
  datatype Event = Adds(node: nat, item: Item) | Stops

  type Want = Event -> bool

  /** A leaf is completed with these words. */
  predicate AtLeaf(leaf: Node, input: seq<Token>, want: Want) {
    match leaf
    case Str(id, word) =>
      && |input| == 1 && input[0].text <= word.text
      && var typed := input[0].text;
         want(Adds(id, Item(FullItem, Some(typed), Some(word.text), Some(word.text[|typed|..]))))
    case AnyWord(id) => |input| == 1 && want(Adds(id, Item(UnknownItem, None, None, None)))
    case Empty(id) => |input| == 1 && want(Adds(id, Item(UnknownItem, None, None, None)))
    case Broken(_) => want(Stops)
    case _ => false
  }

  /** The node takes all of these words. */
  predicate TakesAll(g: Node, words: seq<Token>) {
    var r := ParseChild([], g, words);
    r.Matched? && r.t.words == words
  }

  /** Parsing the node reports an error. */
  predicate ParseStops(g: Node, input: seq<Token>, want: Want) {
    ParseChild([], g, input).ChildError? && want(Stops)
  }

  function Indices(n: nat): (r: set<nat>)
    ensures forall i: nat :: i in r <==> i < n
  {
    if n == 0 then {} else Indices(n - 1) + {n - 1}
  }

  /** Completing the node with these words does what is wanted. */
  ghost predicate Reaches(g: Node, input: seq<Token>, want: Want)
    decreases g, 1, 0
  {
    match g
    case Seq(_, kids) => ReachesInTurn(kids, input, want)
    case Or(_, kids) => exists i :: 0 <= i < |kids| && Reaches(kids[i], input, want)
    case Many(_, _, max, kid) =>
      exists ts :: Taken(kid, ts, max == 0, input) && (max != 0 ==> |ts| < max)
        && (Reaches(kid, LeftAll(input, ts), want) || (|ts| + 1 != max && ParseStops(kid, LeftAll(input, ts), want)))
    case Opt(_, kid) => Reaches(kid, input, want)
    case Bypass(_, kid) => Reaches(kid, input, want)
    case Once(_, _) => false
    case Subset(_, _, kids) => ReachesAmong(kids, Indices(|kids|), input, want)
    case _ => AtLeaf(g, input, want)
  }

  /** The first node with all words, or the others with what is left when it takes a slice from the start, not all. */
  ghost predicate ReachesInTurn(kids: seq<Node>, input: seq<Token>, want: Want)
    decreases kids, 0, 0
  {
    kids != [] &&
    (|| Reaches(kids[0], input, want)
     || exists i :: 0 <= i < |input|
          && (ParseStops(kids[0], input[..i], want)
              || (TakesAll(kids[0], input[..i]) && ReachesInTurn(kids[1..], input[i..], want))))
  }

  /** Matches of a node one after the other, each of at least a word when there is no maximum. */
  predicate Taken(kid: Node, ts: seq<PTree>, words: bool, input: seq<Token>)
    decreases ts
  {
    ts != [] ==>
      && ParseChild([], kid, input) == Matched(ts[0]) && (words ==> ts[0].words != [])
      && Taken(kid, ts[1..], words, Left(input, ts[0]))
  }

  /** One of the entries that are left, or another one after an entry that matches. */
  ghost predicate ReachesAmong(table: seq<Node>, rest: set<nat>, input: seq<Token>, want: Want)
    decreases table, 0, |rest|
  {
    || (exists i :: i in rest && i < |table| && Reaches(table[i], input, want))
    || (exists i :: i in rest && i < |table|
          && (|| ParseStops(table[i], input, want)
              || (var r := ParseChild([], table[i], input);
                  r.Matched? && ReachesAmong(table, rest - {i}, Left(input, r.t), want))))
  }

  // ----- completing offers it ---------------------------------------------------------------------------

  predicate IsStop(e: Event) { e.Stops? }

  type ItemWant = (nat, Item) -> bool

  function Added(p: ItemWant): Want { (e: Event) => e.Adds? && p(e.node, e.item) }

  /** Some item of the groups is wanted. */
  ghost predicate Has(groups: seq<Group>, p: ItemWant) {
    exists g, item :: g in groups && item in g.items && p(g.node, item)
  }

  /** It fails when an error is reached, and otherwise offers what is reached. */
  ghost predicate Offered(o: Offer, stops: bool, adds: bool, p: ItemWant) {
    && (o.ok <==> !stops)
    && (o.ok ==> (Has(o.groups, p) <==> adds))
  }

  lemma HasBoth(a: seq<Group>, b: seq<Group>, p: ItemWant)
    ensures Has(a + b, p) <==> Has(a, p) || Has(b, p)
  {
    if g, item :| g in a && item in g.items && p(g.node, item) {
      assert g in a + b;
    }
    if g, item :| g in b && item in g.items && p(g.node, item) {
      assert g in a + b;
    }
  }

  /** One offer after another: what is wanted of either. */
  lemma OfferedBoth(first: Offer, second: Offer, s1: bool, a1: bool, s2: bool, a2: bool, p: ItemWant)
    requires Offered(first, s1, a1, p) && Offered(second, s2, a2, p)
    ensures
      var o := if !first.ok then first else if !second.ok then second else Then(first, second);
      Offered(o, s1 || s2, a1 || a2, p)
    ensures first.ok ==> Offered(Then(first, second), s1 || s2, a1 || a2, p)
  {
    hide Has;
    HasBoth(first.groups, second.groups, p);
  }

  lemma OfferedNothing(p: ItemWant)
    ensures Offered(NOTHING, false, false, p)
  {
  }

  /** Completing a node fails exactly when it reaches an error, and otherwise offers exactly what it reaches. */
  lemma {:induction false} CompleteReaches(path: Path, g: Node, input: seq<Token>, p: ItemWant)
    requires NoOnce(g)
    ensures Offered(Complete(path, g, input), Reaches(g, input, IsStop), Reaches(g, input, Added(p)), p)
    decreases g, 1, 0
  {
    hide ReachesInTurn, ReachesAmong, Taken, SeqOffer, OrOffer, ManyOffer, SubsetOffer, Offered, ParseChild, Has;
    match g
    case Seq(id, kids) => SeqReaches(path, id, kids, [], input, p);
    case Or(id, kids) => OrReaches(path + [Frame(id, [])], kids, 0, input, p);
    case Many(id, min, max, kid) =>
      ManyReaches(path, id, max, kid, 0, [], input, p);
      ManyIs(id, min, max, kid, input, IsStop);
      ManyIs(id, min, max, kid, input, Added(p));
    case Opt(id, kid) => CompleteReaches(path + [Frame(id, [])], kid, input, p);
    case Bypass(id, kid) => CompleteReaches(path + [Frame(id, [])], kid, input, p);
    case Subset(id, _, kids) =>
      SubsetReaches(path, id, kids, AllLive(kids), [], input, p);
      assert LiveSet(AllLive(kids)) == Indices(|kids|);
    case _ => LeafReaches(path, g, input, p);
  }

  lemma LeafReaches(path: Path, g: Node, input: seq<Token>, p: ItemWant)
    requires g.Str? || g.AnyWord? || g.Empty? || g.Broken?
    ensures Offered(Complete(path, g, input), AtLeaf(g, input, IsStop), AtLeaf(g, input, Added(p)), p)
  {
    if g.Str? && |input| == 1 {
      StartsWithIsPrefix(g.word.text, input[0].text);
    }
    var o := Complete(path, g, input);
    if o.ok && o.groups != [] {
      assert o.groups == [o.groups[0]] && o.groups[0].items == [o.groups[0].items[0]];
      assert Has(o.groups, p) <==> p(o.groups[0].node, o.groups[0].items[0]) by {
        assert o.groups[0] in o.groups && o.groups[0].items[0] in o.groups[0].items;
      }
    }
  }

  // ----- sequences ----------------------------------------------------------------------------------------

  /** The slices of length i and more. */
  ghost predicate InSplits(kids: seq<Node>, i: nat, input: seq<Token>, want: Want)
    requires kids != []
  {
    exists j :: i <= j < |input| && SplitAt(kids, j, input, want)
  }

  ghost predicate SplitAt(kids: seq<Node>, j: nat, input: seq<Token>, want: Want)
    requires kids != [] && j <= |input|
  {
    ParseStops(kids[0], input[..j], want)
    || (TakesAll(kids[0], input[..j]) && ReachesInTurn(kids[1..], input[j..], want))
  }

  lemma InTurnIs(kids: seq<Node>, input: seq<Token>, want: Want)
    requires kids != []
    ensures ReachesInTurn(kids, input, want) <==> Reaches(kids[0], input, want) || InSplits(kids, 0, input, want)
  {
    hide Reaches, ParseStops, TakesAll;
    if ReachesInTurn(kids, input, want) && !Reaches(kids[0], input, want) {
      var i :| 0 <= i < |input|
        && (ParseStops(kids[0], input[..i], want)
            || (TakesAll(kids[0], input[..i]) && ReachesInTurn(kids[1..], input[i..], want)));
      assert SplitAt(kids, i, input, want);
    }
    if j :| 0 <= j < |input| && SplitAt(kids, j, input, want) {
      assert ParseStops(kids[0], input[..j], want)
        || (TakesAll(kids[0], input[..j]) && ReachesInTurn(kids[1..], input[j..], want));
    }
  }

  lemma SplitsStep(kids: seq<Node>, i: nat, input: seq<Token>, want: Want)
    requires kids != [] && i < |input|
    ensures InSplits(kids, i, input, want) <==> SplitAt(kids, i, input, want) || InSplits(kids, i + 1, input, want)
  {
    hide SplitAt;
  }

  lemma {:induction false} SeqReaches(path: Path, id: nat, kids: seq<Node>, done: seq<PTree>, input: seq<Token>,
                                      p: ItemWant)
    requires forall k :: k in kids ==> NoOnce(k)
    ensures
      Offered(SeqOffer(path, id, kids, done, input), ReachesInTurn(kids, input, IsStop),
              ReachesInTurn(kids, input, Added(p)), p)
    decreases kids, 1, 0
  {
    hide Offered, Reaches, Complete, SeqSplits, InSplits, NoOnce;
    if kids == [] {
      OfferedNothing(p);
    } else {
      assert kids[0] in kids;
      CompleteReaches(path + [Frame(id, done)], kids[0], input, p);
      SplitsReach(path, id, kids, done, 0, input, p);
      InTurnIs(kids, input, IsStop);
      InTurnIs(kids, input, Added(p));
      OfferedBoth(Complete(path + [Frame(id, done)], kids[0], input), SeqSplits(path, id, kids, done, 0, input),
                  Reaches(kids[0], input, IsStop), Reaches(kids[0], input, Added(p)),
                  InSplits(kids, 0, input, IsStop), InSplits(kids, 0, input, Added(p)), p);
      OfferedFails(Complete(path + [Frame(id, done)], kids[0], input), Reaches(kids[0], input, IsStop),
                   Reaches(kids[0], input, Added(p)), ReachesInTurn(kids, input, IsStop),
                   ReachesInTurn(kids, input, Added(p)), p);
    }
  }

  /** A failed offer stays one, whatever was still to come. */
  lemma OfferedFails(o: Offer, s: bool, a: bool, more: bool, b: bool, p: ItemWant)
    requires Offered(o, s, a, p) && (s ==> more)
    ensures !o.ok ==> Offered(o, more, b, p)
  {
  }

  lemma {:induction false} SplitsReach(path: Path, id: nat, kids: seq<Node>, done: seq<PTree>, i: nat,
                                       input: seq<Token>, p: ItemWant)
    requires kids != [] && i <= |input| && forall k :: k in kids ==> NoOnce(k)
    ensures
      Offered(SeqSplits(path, id, kids, done, i, input), InSplits(kids, i, input, IsStop),
              InSplits(kids, i, input, Added(p)), p)
    decreases kids, 0, |input| - i
  {
    hide Offered, Reaches, ReachesInTurn, Complete, SeqOffer, NoOnce, ParseChild;
    if i == |input| {
      OfferedNothing(p);
    } else {
      assert kids[0] in kids;
      PathIrrelevant(path + [Frame(id, done)], [], kids[0], input[..i]);
      SplitsReach(path, id, kids, done, i + 1, input, p);
      SplitsStep(kids, i, input, IsStop);
      SplitsStep(kids, i, input, Added(p));
      var next := SeqSplits(path, id, kids, done, i + 1, input);
      var r := ParseChild([], kids[0], input[..i]);
      if r.ChildError? {
        OfferedError(InSplits(kids, i, input, Added(p)), p);
      } else if r.Matched? && |r.t.words| == i {
        assert r.t.words == input[..i];
        SeqReaches(path, id, kids[1..], done + [r.t], input[i..], p);
        OfferedBoth(SeqOffer(path, id, kids[1..], done + [r.t], input[i..]), next,
                    ReachesInTurn(kids[1..], input[i..], IsStop), ReachesInTurn(kids[1..], input[i..], Added(p)),
                    InSplits(kids, i + 1, input, IsStop), InSplits(kids, i + 1, input, Added(p)), p);
        OfferedFails(SeqOffer(path, id, kids[1..], done + [r.t], input[i..]),
                     ReachesInTurn(kids[1..], input[i..], IsStop), ReachesInTurn(kids[1..], input[i..], Added(p)),
                     InSplits(kids, i, input, IsStop), InSplits(kids, i, input, Added(p)), p);
      }
    }
  }

  lemma OfferedError(a: bool, p: ItemWant)
    ensures forall groups :: Offered(Offer(false, groups), true, a, p)
  {
  }

  // ----- choices ------------------------------------------------------------------------------------------

  ghost predicate InChoice(kids: seq<Node>, i: nat, input: seq<Token>, want: Want) {
    exists j :: i <= j < |kids| && Reaches(kids[j], input, want)
  }

  lemma {:induction false} OrReaches(path: Path, kids: seq<Node>, i: nat, input: seq<Token>, p: ItemWant)
    requires i <= |kids| && forall k :: k in kids ==> NoOnce(k)
    ensures
      Offered(OrOffer(path, kids[i..], input), InChoice(kids, i, input, IsStop), InChoice(kids, i, input, Added(p)), p)
    ensures i == 0 ==> kids[i..] == kids
    decreases kids, 0, |kids| - i
  {
    hide Offered, Reaches, Complete, NoOnce;
    if i == |kids| {
      OfferedNothing(p);
    } else {
      assert kids[i] in kids && kids[i..][0] == kids[i] && kids[i..][1..] == kids[i + 1..];
      CompleteReaches(path, kids[i], input, p);
      OrReaches(path, kids, i + 1, input, p);
      OfferedBoth(Complete(path, kids[i], input), OrOffer(path, kids[i + 1..], input),
                  Reaches(kids[i], input, IsStop), Reaches(kids[i], input, Added(p)),
                  InChoice(kids, i + 1, input, IsStop), InChoice(kids, i + 1, input, Added(p)), p);
      ChoiceStep(kids, i, input, IsStop);
      ChoiceStep(kids, i, input, Added(p));
      OfferedFails(Complete(path, kids[i], input), Reaches(kids[i], input, IsStop), Reaches(kids[i], input, Added(p)),
                   InChoice(kids, i, input, IsStop), InChoice(kids, i, input, Added(p)), p);
    }
  }

  lemma ChoiceStep(kids: seq<Node>, i: nat, input: seq<Token>, want: Want)
    requires i < |kids|
    ensures InChoice(kids, i, input, want) <==> Reaches(kids[i], input, want) || InChoice(kids, i + 1, input, want)
  {
    hide Reaches;
  }

  // ----- repetitions --------------------------------------------------------------------------------------

  /** After some matches, when count of them came before. */
  ghost predicate InRun(kid: Node, max: nat, count: nat, input: seq<Token>, want: Want) {
    exists ts :: RunTo(kid, max, count, ts, input, want)
  }

  ghost predicate RunTo(kid: Node, max: nat, count: nat, ts: seq<PTree>, input: seq<Token>, want: Want) {
    Taken(kid, ts, max == 0, input) && (max != 0 ==> count + |ts| < max)
    && (Reaches(kid, LeftAll(input, ts), want)
        || (count + |ts| + 1 != max && ParseStops(kid, LeftAll(input, ts), want)))
  }

  lemma ManyIs(id: nat, min: nat, max: nat, kid: Node, input: seq<Token>, want: Want)
    ensures Reaches(Many(id, min, max, kid), input, want) <==> InRun(kid, max, 0, input, want)
  {
    hide ParseStops, Taken;
    if ts :| RunTo(kid, max, 0, ts, input, want) {
      assert Taken(kid, ts, max == 0, input);
    }
    if Reaches(Many(id, min, max, kid), input, want) {
      var ts :| Taken(kid, ts, max == 0, input) && (max != 0 ==> |ts| < max)
        && (Reaches(kid, LeftAll(input, ts), want) || (|ts| + 1 != max && ParseStops(kid, LeftAll(input, ts), want)));
      assert RunTo(kid, max, 0, ts, input, want);
    }
  }

  /** The parse goes on after this match. */
  predicate GoesOn(r: ChildResult, max: nat, count: nat) {
    r.Matched? && count + 1 != max && (max == 0 ==> r.t.words != [])
  }

  lemma {:induction false} RunSplits(kid: Node, max: nat, count: nat, ts: seq<PTree>, input: seq<Token>, want: Want)
    requires max != 0 ==> count < max
    ensures ts == [] ==>
      (RunTo(kid, max, count, ts, input, want) <==>
       Reaches(kid, input, want) || (count + 1 != max && ParseStops(kid, input, want)))
    ensures ts != [] ==>
      (RunTo(kid, max, count, ts, input, want) <==>
       var r := ParseChild([], kid, input);
       GoesOn(r, max, count) && r.t == ts[0] && RunTo(kid, max, count + 1, ts[1..], Left(input, ts[0]), want))
  {
    hide Reaches, ParseStops, ParseChild;
    if ts != [] {
      assert LeftAll(input, ts) == LeftAll(Left(input, ts[0]), ts[1..]);
    }
  }

  lemma {:induction false} RunStep(kid: Node, max: nat, count: nat, input: seq<Token>, want: Want)
    requires max != 0 ==> count < max
    ensures
      var r := ParseChild([], kid, input);
      InRun(kid, max, count, input, want) <==>
      || Reaches(kid, input, want)
      || (count + 1 != max && ParseStops(kid, input, want))
      || (GoesOn(r, max, count) && InRun(kid, max, count + 1, Left(input, r.t), want))
  {
    hide Reaches, ParseStops, ParseChild, RunTo;
    var r := ParseChild([], kid, input);
    if ts :| RunTo(kid, max, count, ts, input, want) {
      RunSplits(kid, max, count, ts, input, want);
    }
    RunSplits(kid, max, count, [], input, want);
    if GoesOn(r, max, count) && InRun(kid, max, count + 1, Left(input, r.t), want) {
      var us :| RunTo(kid, max, count + 1, us, Left(input, r.t), want);
      assert ([r.t] + us)[1..] == us;
      RunSplits(kid, max, count, [r.t] + us, input, want);
    }
  }

  lemma {:induction false} ManyReaches(path: Path, id: nat, max: nat, kid: Node, count: nat, done: seq<PTree>,
                                       input: seq<Token>, p: ItemWant)
    requires NoOnce(kid) && (max != 0 ==> count < max)
    ensures
      Offered(ManyOffer(path, id, max, kid, count, done, input), InRun(kid, max, count, input, IsStop),
              InRun(kid, max, count, input, Added(p)), p)
    decreases kid, 3, if max == 0 then |input| else max - count
  {
    hide Offered, Reaches, Complete, ParseChild, InRun;
    CompleteReaches(path + [Frame(id, done)], kid, input, p);
    PathIrrelevant(path + [Frame(id, done)], [], kid, input);
    RunStep(kid, max, count, input, IsStop);
    RunStep(kid, max, count, input, Added(p));
    var first := Complete(path + [Frame(id, done)], kid, input);
    var s, a := Reaches(kid, input, IsStop), Reaches(kid, input, Added(p));
    OfferedFails(first, s, a, InRun(kid, max, count, input, IsStop), InRun(kid, max, count, input, Added(p)), p);
    OfferedError(InRun(kid, max, count, input, Added(p)), p);
    var r := ParseChild([], kid, input);
    if first.ok && GoesOn(r, max, count) {
      var left := input[|r.t.words|..];
      assert left == Left(input, r.t);
      ManyReaches(path, id, max, kid, count + 1, done + [r.t], left, p);
      OfferedBoth(first, ManyOffer(path, id, max, kid, count + 1, done + [r.t], left), s, a,
                  InRun(kid, max, count + 1, left, IsStop), InRun(kid, max, count + 1, left, Added(p)), p);
    }
  }

  // ----- subsets ------------------------------------------------------------------------------------------

  function LiveSet(live: seq<bool>): set<nat> { set i: nat | i < |live| && live[i] }

  ghost predicate EachFrom(table: seq<Node>, live: seq<bool>, i: nat, input: seq<Token>, want: Want)
    requires |live| == |table|
  {
    exists j :: i <= j < |table| && live[j] && Reaches(table[j], input, want)
  }

  ghost predicate AfterEntry(table: seq<Node>, live: seq<bool>, j: nat, input: seq<Token>, want: Want)
    requires |live| == |table| && j < |table|
  {
    ParseStops(table[j], input, want)
    || (var r := ParseChild([], table[j], input);
        r.Matched? && ReachesAmong(table, LiveSet(live) - {j}, Left(input, r.t), want))
  }

  ghost predicate NextFrom(table: seq<Node>, live: seq<bool>, i: nat, input: seq<Token>, want: Want)
    requires |live| == |table|
  {
    exists j :: i <= j < |table| && live[j] && AfterEntry(table, live, j, input, want)
  }

  lemma AmongIs(table: seq<Node>, live: seq<bool>, input: seq<Token>, want: Want)
    requires |live| == |table|
    ensures ReachesAmong(table, LiveSet(live), input, want) <==>
      EachFrom(table, live, 0, input, want) || NextFrom(table, live, 0, input, want)
  {
    hide Reaches, ParseStops, ParseChild;
    if j :| 0 <= j < |table| && live[j] && Reaches(table[j], input, want) {
      assert j in LiveSet(live);
    }
    if j :| 0 <= j < |table| && live[j] && AfterEntry(table, live, j, input, want) {
      assert j in LiveSet(live);
    }
  }

  lemma {:induction false} SubsetReaches(path: Path, id: nat, table: seq<Node>, live: seq<bool>, done: seq<PTree>,
                                         input: seq<Token>, p: ItemWant)
    requires |live| == |table| && forall k :: k in table ==> NoOnce(k)
    ensures
      Offered(SubsetOffer(path, id, table, live, done, input), ReachesAmong(table, LiveSet(live), input, IsStop),
              ReachesAmong(table, LiveSet(live), input, Added(p)), p)
    decreases table, 1, LiveCount(live), 1, 0
  {
    hide Offered, Reaches, ReachesAmong, NoOnce, EachFrom, NextFrom, SubsetEach, SubsetNext;
    EachReaches(path + [Frame(id, done)], table, live, 0, input, p);
    NextReaches(path, id, table, live, 0, done, input, p);
    AmongIs(table, live, input, IsStop);
    AmongIs(table, live, input, Added(p));
    var first := SubsetEach(path + [Frame(id, done)], table, live, 0, input);
    OfferedBoth(first, SubsetNext(path, id, table, live, 0, done, input),
                EachFrom(table, live, 0, input, IsStop), EachFrom(table, live, 0, input, Added(p)),
                NextFrom(table, live, 0, input, IsStop), NextFrom(table, live, 0, input, Added(p)), p);
    OfferedFails(first, EachFrom(table, live, 0, input, IsStop), EachFrom(table, live, 0, input, Added(p)),
                 ReachesAmong(table, LiveSet(live), input, IsStop),
                 ReachesAmong(table, LiveSet(live), input, Added(p)), p);
  }

  lemma EachStep(table: seq<Node>, live: seq<bool>, i: nat, input: seq<Token>, want: Want)
    requires |live| == |table| && i < |table|
    ensures EachFrom(table, live, i, input, want) <==>
      (live[i] && Reaches(table[i], input, want)) || EachFrom(table, live, i + 1, input, want)
  {
    hide Reaches;
  }

  lemma NextStep(table: seq<Node>, live: seq<bool>, i: nat, input: seq<Token>, want: Want)
    requires |live| == |table| && i < |table|
    ensures NextFrom(table, live, i, input, want) <==>
      (live[i] && AfterEntry(table, live, i, input, want)) || NextFrom(table, live, i + 1, input, want)
  {
    hide AfterEntry;
  }

  lemma {:induction false} EachReaches(path: Path, table: seq<Node>, live: seq<bool>, i: nat, input: seq<Token>,
                                       p: ItemWant)
    requires |live| == |table| && i <= |table| && forall k :: k in table ==> NoOnce(k)
    ensures
      Offered(SubsetEach(path, table, live, i, input), EachFrom(table, live, i, input, IsStop),
              EachFrom(table, live, i, input, Added(p)), p)
    decreases table, 0, |table| - i
  {
    hide Offered, Reaches, Complete, NoOnce;
    if i == |table| {
      OfferedNothing(p);
    } else {
      EachReaches(path, table, live, i + 1, input, p);
      EachStep(table, live, i, input, IsStop);
      EachStep(table, live, i, input, Added(p));
      hide EachFrom;
      if live[i] {
        assert table[i] in table;
        CompleteReaches(path, table[i], input, p);
        var first := Complete(path, table[i], input);
        OfferedBoth(first, SubsetEach(path, table, live, i + 1, input),
                    Reaches(table[i], input, IsStop), Reaches(table[i], input, Added(p)),
                    EachFrom(table, live, i + 1, input, IsStop), EachFrom(table, live, i + 1, input, Added(p)), p);
        OfferedFails(first, Reaches(table[i], input, IsStop), Reaches(table[i], input, Added(p)),
                     EachFrom(table, live, i, input, IsStop), EachFrom(table, live, i, input, Added(p)), p);
      }
    }
  }

  lemma LiveWithout(live: seq<bool>, i: nat)
    requires i < |live|
    ensures LiveSet(live[i := false]) == LiveSet(live) - {i}
  {
  }

  lemma {:induction false} NextReaches(path: Path, id: nat, table: seq<Node>, live: seq<bool>, i: nat,
                                       done: seq<PTree>, input: seq<Token>, p: ItemWant)
    requires |live| == |table| && i <= |table| && forall k :: k in table ==> NoOnce(k)
    ensures
      Offered(SubsetNext(path, id, table, live, i, done, input), NextFrom(table, live, i, input, IsStop),
              NextFrom(table, live, i, input, Added(p)), p)
    decreases table, 1, LiveCount(live), 0, |table| - i
  {
    hide Offered, Reaches, ReachesAmong, Complete, NoOnce, ParseChild, SubsetOffer, SubsetNext;
    if i == |table| {
      OfferedNothing(p);
      NextEnd(path, id, table, live, done, input);
    } else {
      NextReaches(path, id, table, live, i + 1, done, input, p);
      NextStep(table, live, i, input, IsStop);
      NextStep(table, live, i, input, Added(p));
      NextTurn(path, id, table, live, i, done, input);
      hide NextFrom;
      if live[i] {
        assert table[i] in table;
        PathIrrelevant(path + [Frame(id, done)], [], table[i], input);
        var r := ParseChild([], table[i], input);
        if r.ChildError? {
          OfferedError(NextFrom(table, live, i, input, Added(p)), p);
        } else if r.Matched? {
          var left := input[|r.t.words|..];
          assert left == Left(input, r.t);
          MaskingDecreases(live, i);
          LiveWithout(live, i);
          SubsetReaches(path, id, table, live[i := false], done + [r.t], left, p);
          var rest := SubsetOffer(path, id, table, live[i := false], done + [r.t], left);
          var s := ReachesAmong(table, LiveSet(live) - {i}, left, IsStop);
          var a := ReachesAmong(table, LiveSet(live) - {i}, left, Added(p));
          OfferedBoth(rest, SubsetNext(path, id, table, live, i + 1, done, input), s, a,
                      NextFrom(table, live, i + 1, input, IsStop), NextFrom(table, live, i + 1, input, Added(p)), p);
          OfferedFails(rest, s, a, NextFrom(table, live, i, input, IsStop),
                       NextFrom(table, live, i, input, Added(p)), p);
        }
      }
    }
  }

  // ----- the words offered --------------------------------------------------------------------------------

  /** An item that offers this word. */
  predicate OffersWord(item: Item, word: string) { item.kind == FullItem && item.full == Some(word) }

  function WordWant(word: string): ItemWant { (id: nat, item: Item) => OffersWord(item, word) }

  /** At a leaf: a string node of that word, of which the only word left is a prefix. */
  lemma WordAtLeaf(leaf: Node, input: seq<Token>, word: string)
    ensures AtLeaf(leaf, input, Added(WordWant(word))) <==>
      leaf.Str? && leaf.word.text == word && |input| == 1 && input[0].text <= word
  {
  }

  lemma {:induction false} SafeParse(g: Node, input: seq<Token>)
    requires Safe(g)
    ensures !ParseStops(g, input, IsStop)
  {
    hide ParseChild, Safe;
    NoError([], g, input);
  }

  /** Without nodes that report errors no error is reached. */
  lemma {:induction false} SafeReaches(g: Node, input: seq<Token>)
    requires Safe(g)
    ensures !Reaches(g, input, IsStop)
    decreases g, 1, 0
  {
    hide ParseStops, Taken, ReachesInTurn, ReachesAmong;
    match g
    case Seq(_, kids) => SafeInTurn(kids, input);
    case Or(_, kids) =>
      forall i | 0 <= i < |kids|
        ensures !Reaches(kids[i], input, IsStop)
      {
        SafeReaches(kids[i], input);
      }
    case Many(_, _, max, kid) =>
      forall i
        ensures !Reaches(kid, i, IsStop) && !ParseStops(kid, i, IsStop)
      {
        SafeReaches(kid, i);
        SafeParse(kid, i);
      }
    case Opt(_, kid) => SafeReaches(kid, input);
    case Bypass(_, kid) => SafeReaches(kid, input);
    case Subset(_, _, kids) => SafeAmong(kids, Indices(|kids|), input);
    case _ =>
  }

  lemma {:induction false} SafeInTurn(kids: seq<Node>, input: seq<Token>)
    requires forall k :: k in kids ==> Safe(k)
    ensures !ReachesInTurn(kids, input, IsStop)
    decreases kids, 0, 0
  {
    hide ParseStops, TakesAll, Reaches, Safe;
    if kids != [] {
      assert kids[0] in kids;
      SafeReaches(kids[0], input);
      forall i | 0 <= i < |input|
        ensures !ParseStops(kids[0], input[..i], IsStop) && !ReachesInTurn(kids[1..], input[i..], IsStop)
      {
        SafeParse(kids[0], input[..i]);
        SafeInTurn(kids[1..], input[i..]);
      }
    }
  }

  lemma {:induction false} SafeAmong(table: seq<Node>, rest: set<nat>, input: seq<Token>)
    requires forall k :: k in table ==> Safe(k)
    ensures !ReachesAmong(table, rest, input, IsStop)
    decreases table, 0, |rest|
  {
    hide ParseStops, ParseChild, Reaches, Safe;
    forall i | i in rest && i < |table|
      ensures !Reaches(table[i], input, IsStop) && !ParseStops(table[i], input, IsStop)
    {
      assert table[i] in table;
      SafeReaches(table[i], input);
      SafeParse(table[i], input);
    }
    forall i | i in rest && i < |table| && ParseChild([], table[i], input).Matched?
      ensures !ReachesAmong(table, rest - {i}, Left(input, ParseChild([], table[i], input).t), IsStop)
    {
      SafeAmong(table, rest - {i}, Left(input, ParseChild([], table[i], input).t));
    }
  }

  /** Without once nodes and errors, a word is offered exactly when its string node is reached with a prefix of it. */
  lemma WordOffered(path: Path, g: Node, input: seq<Token>, word: string)
    requires Safe(g)
    ensures
      var o := Complete(path, g, input);
      && o.ok
      && ((exists group, item :: group in o.groups && item in group.items && OffersWord(item, word)) <==>
          Reaches(g, input, Added(WordWant(word))))
  {
    hide Reaches, Complete, OffersWord;
    SafeNoOnce(g);
    SafeReaches(g, input);
    CompleteReaches(path, g, input, WordWant(word));
    var o := Complete(path, g, input);
    assert Has(o.groups, WordWant(word)) <==>
      exists group, item :: group in o.groups && item in group.items && OffersWord(item, word);
  }

  // ----- their order --------------------------------------------------------------------------------------

  /** A choice offers what its first nodes offer, and then what the others do. */
  lemma {:induction false} ChoiceInOrder(path: Path, id: nat, a: seq<Node>, b: seq<Node>, input: seq<Token>)
    ensures
      var first, second := Complete(path, Or(id, a), input), Complete(path, Or(id, b), input);
      Complete(path, Or(id, a + b), input) == if !first.ok then first else Then(first, second)
  {
    OrBoth(path + [Frame(id, [])], a, b, input);
  }

  lemma ThenTwice(x: Offer, y: Offer, z: Offer)
    ensures Then(x, Then(y, z)) == Then(Then(x, y), z) && Then(NOTHING, z) == z
    ensures Then(x, y).ok == y.ok
  {
  }

  lemma {:induction false} OrBoth(path: Path, a: seq<Node>, b: seq<Node>, input: seq<Token>)
    ensures
      var first := OrOffer(path, a, input);
      OrOffer(path, a + b, input) == if !first.ok then first else Then(first, OrOffer(path, b, input))
    decreases a
  {
    hide Complete, Then;
    var second := OrOffer(path, b, input);
    if a == [] {
      assert a + b == b;
      ThenTwice(NOTHING, NOTHING, second);
    } else {
      assert (a + b)[1..] == a[1..] + b && (a + b)[0] == a[0];
      OrBoth(path, a[1..], b, input);
      ThenTwice(Complete(path, a[0], input), OrOffer(path, a[1..], input), second);
    }
  }
}
