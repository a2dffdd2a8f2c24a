/** What completing a node offers: the groups of items it adds, in order. */
module Completion {
  import opened Prelude
  import opened Grammar

  // ----- items -----------------------------------------------------------------------------

  datatype ItemKind = UnknownItem | FullItem | PartialItem

  datatype Item = Item(
    kind: ItemKind,
    current: Option<string>,
    full: Option<string>,
    completion: Option<string>
  )

  datatype Group = Group(node: nat, items: seq<Item>)

  /** The length of the longest common prefix. */
  function CommonLen(s: string, t: string): (n: nat)
    ensures n <= |s| && n <= |t| && s[..n] == t[..n]
    ensures n < |s| && n < |t| ==> s[n] != t[n]
  {
    if s == [] || t == [] || s[0] != t[0] then 0 else 1 + CommonLen(s[1..], t[1..])
  }

  /** Scanning two strings for the length of their common prefix. */
  method StrcmpCount(s1: string, s2: string) returns (i: nat)
    ensures i == CommonLen(s1, s2)
    ensures s1[..i] == s2[..i] && (i < |s1| && i < |s2| ==> s1[i] != s2[i])
  {
    i := 0;
    while i < |s1| && i < |s2| && s1[i] == s2[i]
      invariant i <= |s1| && i <= |s2| && s1[..i] == s2[..i]
      invariant CommonLen(s1, s2) == i + CommonLen(s1[i..], s2[i..])
    {
      assert s1[i..][1..] == s1[i + 1..] && s2[i..][1..] == s2[i + 1..];
      i := i + 1;
    }
  }

  predicate StartsWith(s: string, beginning: string) {
    CommonLen(s, beginning) == |beginning|
  }

  lemma StartsWithIsPrefix(s: string, beginning: string)
    ensures StartsWith(s, beginning) <==> beginning <= s
  {
  }

  /** Building an item: the text offered must extend the text typed. */
  function MakeItem(kind: ItemKind, current: Option<string>, full: Option<string>): Option<Item> {
    if kind == UnknownItem && full.Some? then None
    else if kind != UnknownItem && full.None? then None
    else if current.None? != full.None? then None
    else if current.None? then Some(Item(kind, None, None, None))
    else if !StartsWith(full.value, current.value) then None
    else
      assert current.value <= full.value by { StartsWithIsPrefix(full.value, current.value); }
      Some(Item(kind, current, full, Some(full.value[|current.value|..])))
  }

  // ----- completing ------------------------------------------------------------------------

  datatype Offer = Offer(ok: bool, groups: seq<Group>)

  const NOTHING: Offer := Offer(true, [])

  function Then(first: Offer, second: Offer): Offer {
    Offer(second.ok, first.groups + second.groups)
  }

  /** Completing g under the pnodes of `path`. */
  function Complete(path: Path, g: Node, input: seq<Token>): Offer
    decreases g, 1, 0
  {
    match g
    case Str(id, word) =>
      if |input| != 1 || !StartsWith(word.text, input[0].text) then NOTHING
      else One(id, MakeItem(FullItem, Some(input[0].text), Some(word.text)))
    case AnyWord(id) => if |input| != 1 then NOTHING else One(id, MakeItem(UnknownItem, None, None))
    case Empty(id) => if |input| != 1 then NOTHING else One(id, MakeItem(UnknownItem, None, None))
    case Broken(_) => Offer(false, [])
    case Seq(id, kids) => SeqOffer(path, id, kids, [], input)
    case Or(id, kids) => OrOffer(path + [Frame(id, [])], kids, input)
    case Many(id, _, max, kid) => ManyOffer(path, id, max, kid, 0, [], input)
    case Opt(id, kid) => Complete(path + [Frame(id, [])], kid, input)
    case Bypass(id, kid) => Complete(path + [Frame(id, [])], kid, input)
    case Once(id, kid) =>
      if CountPath(path + [Frame(id, [])], kid.id) > 0 then NOTHING else Complete(path + [Frame(id, [])], kid, input)
    case Subset(id, _, kids) => SubsetOffer(path, id, kids, AllLive(kids), [], input)
  }

  function One(id: nat, item: Option<Item>): Offer {
    if item.None? then Offer(false, []) else Offer(true, [Group(id, [item.value])])
  }

  /** Complete the first node, then the rest after every prefix the first node matches exactly. */
  function SeqOffer(path: Path, id: nat, kids: seq<Node>, done: seq<PTree>, input: seq<Token>): Offer
    decreases kids, 1, 0
  {
    if kids == [] then NOTHING
    else
      var first := Complete(path + [Frame(id, done)], kids[0], input);
      if !first.ok then first else Then(first, SeqSplits(path, id, kids, done, 0, input))
  }

  /** The prefixes of length i and more; the whole vector is not tried. */
  function SeqSplits(path: Path, id: nat, kids: seq<Node>, done: seq<PTree>, i: nat, input: seq<Token>): Offer
    requires kids != [] && i <= |input|
    decreases kids, 0, |input| - i
  {
    if i == |input| then NOTHING
    else
      match ParseChild(path + [Frame(id, done)], kids[0], input[..i])
      case ChildError => Offer(false, [])
      case ChildNoMatch => SeqSplits(path, id, kids, done, i + 1, input)
      case Matched(t) =>
        if |t.words| != i then SeqSplits(path, id, kids, done, i + 1, input)
        else
          var rest := SeqOffer(path, id, kids[1..], done + [t], input[i..]);
          if !rest.ok then rest else Then(rest, SeqSplits(path, id, kids, done, i + 1, input))
  }

  function OrOffer(path: Path, kids: seq<Node>, input: seq<Token>): Offer
    decreases kids, 0, 0
  {
    if kids == [] then NOTHING
    else
      var first := Complete(path, kids[0], input);
      if !first.ok then first else Then(first, OrOffer(path, kids[1..], input))
  }

  function ManyOffer(path: Path, id: nat, max: nat, kid: Node, count: nat, done: seq<PTree>, input: seq<Token>): Offer
    requires max != 0 ==> count < max
    decreases kid, 3, if max == 0 then |input| else max - count
  {
    var first := Complete(path + [Frame(id, done)], kid, input);
    if !first.ok || count + 1 == max then first
    else
      match ParseChild(path + [Frame(id, done)], kid, input)
      case ChildError => Offer(false, first.groups)
      case ChildNoMatch => first
      case Matched(t) =>
        if max == 0 && t.words == [] then first
        else Then(first, ManyOffer(path, id, max, kid, count + 1, done + [t], input[|t.words|..]))
  }

  function AllLive(table: seq<Node>): (live: seq<bool>)
    ensures |live| == |table| && forall i :: 0 <= i < |live| ==> live[i]
  {
    seq(|table|, _ => true)
  }

  function LiveCount(live: seq<bool>): nat {
    if live == [] then 0 else (if live[0] then 1 else 0) + LiveCount(live[1..])
  }

  lemma {:induction false} MaskingDecreases(live: seq<bool>, i: nat)
    requires i < |live| && live[i]
    ensures LiveCount(live[i := false]) < LiveCount(live)
  {
    if i == 0 {
      assert live[0 := false][1..] == live[1..];
    } else {
      assert live[i := false][1..] == live[1..][i - 1 := false];
      MaskingDecreases(live[1..], i - 1);
    }
  }

  /** Every live node of the table, then the others after each one that matches. */
  function SubsetOffer(path: Path, id: nat, table: seq<Node>, live: seq<bool>, done: seq<PTree>,
                       input: seq<Token>): Offer
    requires |live| == |table|
    decreases table, 1, LiveCount(live), 1, 0
  {
    var first := SubsetEach(path + [Frame(id, done)], table, live, 0, input);
    if !first.ok then first else Then(first, SubsetNext(path, id, table, live, 0, done, input))
  }

  function SubsetEach(path: Path, table: seq<Node>, live: seq<bool>, i: nat, input: seq<Token>): Offer
    requires |live| == |table| && i <= |table|
    decreases table, 0, |table| - i
  {
    if i == |table| then NOTHING
    else if !live[i] then SubsetEach(path, table, live, i + 1, input)
    else
      var first := Complete(path, table[i], input);
      if !first.ok then first else Then(first, SubsetEach(path, table, live, i + 1, input))
  }

  function SubsetNext(path: Path, id: nat, table: seq<Node>, live: seq<bool>, i: nat, done: seq<PTree>,
                      input: seq<Token>): Offer
    requires |live| == |table| && i <= |table|
    decreases table, 1, LiveCount(live), 0, |table| - i
  {
    if i == |table| then NOTHING
    else if !live[i] then SubsetNext(path, id, table, live, i + 1, done, input)
    else
      match ParseChild(path + [Frame(id, done)], table[i], input)
      case ChildError => Offer(false, [])
      case ChildNoMatch => SubsetNext(path, id, table, live, i + 1, done, input)
      case Matched(t) =>
        MaskingDecreases(live, i);
        var rest := SubsetOffer(path, id, table, live[i := false], done + [t], input[|t.words|..]);
        if !rest.ok then rest else Then(rest, SubsetNext(path, id, table, live, i + 1, done, input))
  }

  lemma NextEnd(path: Path, id: nat, table: seq<Node>, live: seq<bool>, done: seq<PTree>, input: seq<Token>)
    requires |live| == |table|
    ensures SubsetNext(path, id, table, live, |table|, done, input) == NOTHING
  {
  }

  /** One repetition. */
  lemma ManyTurn(path: Path, id: nat, max: nat, kid: Node, count: nat, done: seq<PTree>, input: seq<Token>)
    requires max != 0 ==> count < max
    ensures
      ManyOffer(path, id, max, kid, count, done, input) ==
      var first := Complete(path + [Frame(id, done)], kid, input);
      if !first.ok || count + 1 == max then first
      else
        match ParseChild(path + [Frame(id, done)], kid, input)
        case ChildError => Offer(false, first.groups)
        case ChildNoMatch => first
        case Matched(t) =>
          if max == 0 && t.words == [] then first
          else Then(first, ManyOffer(path, id, max, kid, count + 1, done + [t], input[|t.words|..]))
  {
    hide Complete, ParseChild;
  }

  /** One entry of the table. */
  lemma NextTurn(path: Path, id: nat, table: seq<Node>, live: seq<bool>, i: nat, done: seq<PTree>, input: seq<Token>)
    requires |live| == |table| && i < |table|
    ensures
      SubsetNext(path, id, table, live, i, done, input) ==
      if !live[i] then SubsetNext(path, id, table, live, i + 1, done, input)
      else
        match ParseChild(path + [Frame(id, done)], table[i], input)
        case ChildError => Offer(false, [])
        case ChildNoMatch => SubsetNext(path, id, table, live, i + 1, done, input)
        case Matched(t) =>
          var rest := SubsetOffer(path, id, table, live[i := false], done + [t], input[|t.words|..]);
          if !rest.ok then rest else Then(rest, SubsetNext(path, id, table, live, i + 1, done, input))
  {
    hide ParseChild, SubsetOffer;
  }

  // ----- what the items say ----------------------------------------------------------------

  /** A full item extends the last word typed; nothing is offered without a word. */
  predicate ItemFits(item: Item, input: seq<Token>) {
    && input != []
    && (item.kind == FullItem ==>
          && item.current == Some(input[|input| - 1].text)
          && item.full.Some? && item.completion.Some?
          && item.full.value == item.current.value + item.completion.value)
    && item.kind != PartialItem
  }

  predicate Fits(groups: seq<Group>, input: seq<Token>) {
    forall g :: g in groups ==> forall item :: item in g.items ==> ItemFits(item, input)
  }

  /** What fits a suffix fits the whole. */
  lemma FitsSuffix(groups: seq<Group>, i: nat, input: seq<Token>)
    requires i <= |input| && Fits(groups, input[i..])
    ensures Fits(groups, input)
  {
    forall g, item | g in groups && item in g.items
      ensures ItemFits(item, input)
    {
      assert ItemFits(item, input[i..]);
    }
  }

  /** Every item offered for an input fits that input. */
  lemma {:induction false} OffersFit(path: Path, g: Node, input: seq<Token>)
    ensures Fits(Complete(path, g, input).groups, input)
    decreases g, 1, 0
  {
    match g
    case Str(_, word) =>
      if |input| == 1 {
        StartsWithIsPrefix(word.text, input[0].text);
      }
    case AnyWord(_) =>
    case Empty(_) =>
    case Broken(_) =>
    case Seq(id, kids) => SeqFits(path, id, kids, [], input);
    case Or(id, kids) => OrFits(path + [Frame(id, [])], kids, input);
    case Many(id, _, max, kid) => ManyFits(path, id, max, kid, 0, [], input);
    case Opt(id, kid) => OffersFit(path + [Frame(id, [])], kid, input);
    case Bypass(id, kid) => OffersFit(path + [Frame(id, [])], kid, input);
    case Once(id, kid) => OffersFit(path + [Frame(id, [])], kid, input);
    case Subset(id, _, kids) => SubsetFits(path, id, kids, AllLive(kids), [], input);
  }

  /** No item fits an empty vector. */
  lemma ItemNeedsWord(groups: seq<Group>, group: Group)
    requires group in groups && group.items != []
    ensures !Fits(groups, [])
  {
    assert group.items[0] in group.items;
  }

  /** Completing a node with an empty vector adds no item. */
  lemma NothingOnEmpty(path: Path, g: Node)
    ensures forall group :: group in Complete(path, g, []).groups ==> group.items == []
  {
    hide Fits, Complete;
    OffersFit(path, g, []);
    var groups := Complete(path, g, []).groups;
    forall group | group in groups
      ensures group.items == []
    {
      if group.items != [] {
        ItemNeedsWord(groups, group);
      }
    }
  }

  lemma {:induction false} SeqFits(path: Path, id: nat, kids: seq<Node>, done: seq<PTree>, input: seq<Token>)
    ensures Fits(SeqOffer(path, id, kids, done, input).groups, input)
    decreases kids, 1, 0
  {
    if kids != [] {
      OffersFit(path + [Frame(id, done)], kids[0], input);
      SplitsFit(path, id, kids, done, 0, input);
    }
  }

  lemma {:induction false} SplitsFit(path: Path, id: nat, kids: seq<Node>, done: seq<PTree>, i: nat, input: seq<Token>)
    requires kids != [] && i <= |input|
    ensures Fits(SeqSplits(path, id, kids, done, i, input).groups, input)
    decreases kids, 0, |input| - i
  {
    if i < |input| {
      SplitsFit(path, id, kids, done, i + 1, input);
      var r := ParseChild(path + [Frame(id, done)], kids[0], input[..i]);
      if r.Matched? && |r.t.words| == i {
        SeqFits(path, id, kids[1..], done + [r.t], input[i..]);
        FitsSuffix(SeqOffer(path, id, kids[1..], done + [r.t], input[i..]).groups, i, input);
      }
    }
  }

  lemma {:induction false} OrFits(path: Path, kids: seq<Node>, input: seq<Token>)
    ensures Fits(OrOffer(path, kids, input).groups, input)
    decreases kids, 0, 0
  {
    if kids != [] {
      OffersFit(path, kids[0], input);
      OrFits(path, kids[1..], input);
    }
  }

  lemma {:induction false} ManyFits(path: Path, id: nat, max: nat, kid: Node, count: nat, done: seq<PTree>,
                                    input: seq<Token>)
    requires max != 0 ==> count < max
    ensures Fits(ManyOffer(path, id, max, kid, count, done, input).groups, input)
    decreases kid, 3, if max == 0 then |input| else max - count
  {
    OffersFit(path + [Frame(id, done)], kid, input);
    var r := ParseChild(path + [Frame(id, done)], kid, input);
    if count + 1 != max && r.Matched? && !(max == 0 && r.t.words == []) {
      var n := |r.t.words|;
      ManyFits(path, id, max, kid, count + 1, done + [r.t], input[n..]);
      FitsSuffix(ManyOffer(path, id, max, kid, count + 1, done + [r.t], input[n..]).groups, n, input);
    }
  }

  lemma {:induction false} SubsetFits(path: Path, id: nat, table: seq<Node>, live: seq<bool>, done: seq<PTree>,
                                      input: seq<Token>)
    requires |live| == |table|
    ensures Fits(SubsetOffer(path, id, table, live, done, input).groups, input)
    decreases table, 1, LiveCount(live), 1, 0
  {
    EachFits(path + [Frame(id, done)], table, live, 0, input);
    NextFits(path, id, table, live, 0, done, input);
  }

  lemma {:induction false} EachFits(path: Path, table: seq<Node>, live: seq<bool>, i: nat, input: seq<Token>)
    requires |live| == |table| && i <= |table|
    ensures Fits(SubsetEach(path, table, live, i, input).groups, input)
    decreases table, 0, |table| - i
  {
    if i < |table| {
      EachFits(path, table, live, i + 1, input);
      OffersFit(path, table[i], input);
    }
  }

  lemma {:induction false} NextFits(path: Path, id: nat, table: seq<Node>, live: seq<bool>, i: nat, done: seq<PTree>,
                                    input: seq<Token>)
    requires |live| == |table| && i <= |table|
    ensures Fits(SubsetNext(path, id, table, live, i, done, input).groups, input)
    decreases table, 1, LiveCount(live), 0, |table| - i
  {
    if i < |table| {
      NextFits(path, id, table, live, i + 1, done, input);
      var r := ParseChild(path + [Frame(id, done)], table[i], input);
      if live[i] && r.Matched? {
        var n := |r.t.words|;
        MaskingDecreases(live, i);
        SubsetFits(path, id, table, live[i := false], done + [r.t], input[n..]);
        FitsSuffix(SubsetOffer(path, id, table, live[i := false], done + [r.t], input[n..]).groups, n, input);
      }
    }
  }
}
