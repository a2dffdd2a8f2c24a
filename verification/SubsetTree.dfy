/**
 The children that a matched subset leaves under its pnode: the search unlinks
 only the last child of an order it discards, so earlier ones can stay.
 */
module SubsetTree {
  import opened Prelude
  import opened Grammar
  import opened GrammarFacts

  predicate Takes(g: Node, input: seq<Token>) { ParseChild([], g, input).Matched? }

  function Rest(g: Node, input: seq<Token>): seq<Token>
    requires Takes(g, input)
  {
    input[|ParseChild([], g, input).t.words|..]
  }

  /** No entry of the table matches. */
  predicate Stuck(table: seq<Node>, input: seq<Token>) {
    forall j :: 0 <= j < |table| ==> !Takes(table[j], input)
  }

  /** After entry j no other entry matches. */
  predicate Last(table: seq<Node>, j: nat, input: seq<Token>)
    requires j < |table| && Takes(table[j], input)
  {
    Stuck(Without(table, j), Rest(table[j], input))
  }

  /** At every point of the search at most one of the entries that match can be followed by another. */
  ghost predicate Tidy(table: seq<Node>, input: seq<Token>)
    decreases |table|, 1
  {
    TidyUpTo(table, |table|, input)
  }

  ghost predicate TidyUpTo(table: seq<Node>, i: nat, input: seq<Token>)
    requires i <= |table|
    decreases |table|, 0
  {
    && (forall j :: 0 <= j < i && Takes(table[j], input) ==> Tidy(Without(table, j), Rest(table[j], input)))
    && (forall j, k :: 0 <= j < k < i && Takes(table[j], input) && Takes(table[k], input) ==>
          Last(table, j, input) || Last(table, k, input))
  }

  ghost predicate LastUpTo(table: seq<Node>, i: nat, input: seq<Token>)
    requires i <= |table|
  {
    forall j :: 0 <= j < i && Takes(table[j], input) ==> Last(table, j, input)
  }

  lemma TidyStep(table: seq<Node>, i: nat, input: seq<Token>)
    requires i < |table|
    ensures TidyUpTo(table, i + 1, input) <==>
      TidyUpTo(table, i, input) &&
      (Takes(table[i], input) ==>
        && Tidy(Without(table, i), Rest(table[i], input))
        && (Last(table, i, input) || LastUpTo(table, i, input)))
    ensures LastUpTo(table, i + 1, input) <==>
      LastUpTo(table, i, input) && (Takes(table[i], input) ==> Last(table, i, input))
  {
    hide Takes, Rest, Last;
    if TidyUpTo(table, i + 1, input) && Takes(table[i], input) && !Last(table, i, input) {
      forall j | 0 <= j < i && Takes(table[j], input)
        ensures Last(table, j, input)
      {
      }
    }
  }

  /** Every child from this index on took a word. */
  predicate AllTook(kids: seq<PTree>, from: nat) {
    forall i :: from <= i < |kids| ==> kids[i].words != []
  }

  lemma {:induction false} WordsAtLeast(kids: seq<PTree>, from: nat)
    requires from <= |kids| && AllTook(kids, from)
    ensures |Words(kids)| - |Words(kids[..from])| >= |kids| - from
    decreases kids
  {
    if from == |kids| {
      assert kids[..from] == kids;
    } else {
      var last := |kids| - 1;
      assert kids == kids[..last] + [kids[last]] && kids[..last][..from] == kids[..from];
      WordsAppend(kids[..last], kids[last]);
      WordsAtLeast(kids[..last], from);
    }
  }

  predicate Took(g: Node, input: seq<Token>)
    requires Takes(g, input)
  {
    ParseChild([], g, input).t.words != []
  }

  /** Nodes that never match the empty vector. */
  ghost predicate Consuming(table: seq<Node>) {
    forall j, input :: 0 <= j < |table| && Takes(table[j], input) ==> Took(table[j], input)
  }

  /** What the search adds to the children: at least one for each node counted, and exactly those when it is tidy. */
  ghost predicate Adds(table: seq<Node>, input: seq<Token>, kids: seq<PTree>, after: seq<PTree>, count: nat, len: nat) {
    && kids <= after && len <= |input|
    && |after| - |kids| >= count
    && (|after| - |kids| == count <==> Tidy(table, input))
    && (count == 0 <==> Stuck(table, input)) && (|after| == |kids| <==> Stuck(table, input))
    && (Tidy(table, input) ==> Words(after) == Words(kids) + input[..len])
    && (Consuming(table) ==>
          AllTook(after, |kids|) && |Words(after)| - |Words(kids)| - len >= |after| - |kids| - count)
  }

  /** The same for the entries before i, with the best order found so far set apart. */
  ghost predicate AddsUpTo(table: seq<Node>, i: nat, input: seq<Token>, start: seq<PTree>, kids: seq<PTree>,
                           best: Option<PTree>, count: nat, len: nat)
  {
    && i <= |table| && start <= kids && len <= |input|
    && (best.None? <==> count == 0)
    && (count == 0 <==> forall j :: 0 <= j < i ==> !Takes(table[j], input))
    && (count == 0 ==> kids == start && len == 0)
    && |kids| - |start| >= count - 1
    && (|kids| - |start| == (if count == 0 then 0 else count - 1) <==> TidyUpTo(table, i, input))
    && (|kids| == |start| <==> LastUpTo(table, i, input))
    && (best.Some? && TidyUpTo(table, i, input) ==> Words(kids + [best.value]) == Words(start) + input[..len])
    && (Consuming(table) ==> AllTook(kids, |start|))
    && (Consuming(table) && best.Some? ==>
          && best.value.words != []
          && |Words(kids)| - |Words(start)| + |best.value.words| - len >= |kids| - |start| + 1 - count)
  }

  lemma ConsumingWithout(table: seq<Node>, i: nat)
    requires i < |table| && Consuming(table)
    ensures Consuming(Without(table, i))
  {
    forall j, input | 0 <= j < |Without(table, i)| && Takes(Without(table, i)[j], input)
      ensures Took(Without(table, i)[j], input)
    {
      assert Without(table, i)[j] == table[if j < i then j else j + 1];
    }
  }

  /** The counts after one more entry that matches. */
  lemma StepCounts(table: seq<Node>, i: nat, input: seq<Token>, start: seq<PTree>, kids: seq<PTree>,
                   best: Option<PTree>, count: nat, len: nat, t: PTree, after: seq<PTree>, more: nat, rest: nat)
    requires i < |table| && AddsUpTo(table, i, input, start, kids, best, count, len)
    requires ParseChild([], table[i], input) == Matched(t)
    requires Adds(Without(table, i), input[|t.words|..], kids + [t], after, more, rest)
    ensures
      var longer := more >= count;
      var junk, n := |after| - 1 - |start|, if longer then more + 1 else count;
      && start <= after[..|after| - 1] && junk >= n - 1
      && (junk == n - 1 <==> TidyUpTo(table, i + 1, input))
      && (junk == 0 <==> LastUpTo(table, i + 1, input))
  {
    hide ParseChild, Words, TidyUpTo, LastUpTo, Stuck, Consuming, AllTook;
    TidyStep(table, i, input);
  }

  lemma TakeAfter(done: seq<Token>, s: seq<Token>, a: nat, b: nat)
    requires a + b <= |s|
    ensures done + s[..a] + s[a..][..b] == done + s[..a + b]
  {
    assert s[..a + b] == s[..a] + s[a..][..b];
  }

  lemma StepWords(table: seq<Node>, i: nat, input: seq<Token>, start: seq<PTree>, kids: seq<PTree>,
                  best: Option<PTree>, count: nat, len: nat, t: PTree, after: seq<PTree>, more: nat, rest: nat)
    requires i < |table| && AddsUpTo(table, i, input, start, kids, best, count, len)
    requires ParseChild([], table[i], input) == Matched(t)
    requires Adds(Without(table, i), input[|t.words|..], kids + [t], after, more, rest)
    requires TidyUpTo(table, i + 1, input)
    ensures
      var last := |after| - 1;
      if more >= count then Words(after[..last] + [after[last]]) == Words(start) + input[..|t.words| + rest]
      else best.Some? && Words(after[..last] + [best.value]) == Words(start) + input[..len]
  {
    hide ParseChild, Words, TidyUpTo, LastUpTo, Stuck, Consuming, AllTook, Without;
    TidyStep(table, i, input);
    if more >= count {
      assert kids == start;
      WordsAppend(start, t);
      assert t.words == input[..|t.words|];
      TakeAfter(Words(start), input, |t.words|, rest);
      assert after[..|after| - 1] + [after[|after| - 1]] == after;
    } else {
      assert Last(table, i, input);
      assert after == kids + [t];
      assert after[..|after| - 1] == kids;
    }
  }

  /** Children that stay behind take words of their own. */
  lemma StepTook(table: seq<Node>, i: nat, input: seq<Token>, start: seq<PTree>, kids: seq<PTree>,
                 best: Option<PTree>, count: nat, len: nat, t: PTree, after: seq<PTree>, more: nat, rest: nat)
    requires i < |table| && AddsUpTo(table, i, input, start, kids, best, count, len) && Consuming(table)
    requires ParseChild([], table[i], input) == Matched(t)
    requires Adds(Without(table, i), input[|t.words|..], kids + [t], after, more, rest)
    ensures
      var last := |after| - 1;
      var longer := more >= count;
      var child := if longer then after[last] else best.value;
      var n, l := if longer then more + 1 else count, if longer then |t.words| + rest else len;
      && AllTook(after[..last], |start|)
      && child.words != []
      && |Words(after[..last])| - |Words(start)| + |child.words| - l >= last - |start| + 1 - n
  {
    hide ParseChild, Words, TidyUpTo, LastUpTo, Stuck, Tidy, Consuming, Without;
    ConsumingWithout(table, i);
    assert Takes(table[i], input) && t.words != [] by { TookWord(table, i, input); }
    var last := |after| - 1;
    var left := after[..last];
    assert kids + [t] <= after && after[|kids|] == t;
    assert AllTook(after, |start|) by {
      forall k | |start| <= k < |after|
        ensures after[k].words != []
      {
        assert k < |kids| ==> after[k] == kids[k];
      }
    }
    assert after == left + [after[last]];
    WordsAppend(left, after[last]);
    WordsAppend(kids, t);
    assert kids[..|start|] == start;
    WordsAtLeast(kids, |start|);
    if more < count {
      assert left[..|kids|] == kids;
      WordsAtLeast(left, |kids|);
    }
  }

  lemma TookWord(table: seq<Node>, i: nat, input: seq<Token>)
    requires i < |table| && Consuming(table) && Takes(table[i], input)
    ensures ParseChild([], table[i], input).t.words != []
  {
  }

  lemma Step(table: seq<Node>, i: nat, input: seq<Token>, start: seq<PTree>, kids: seq<PTree>,
             best: Option<PTree>, count: nat, len: nat, t: PTree, after: seq<PTree>, more: nat, rest: nat)
    requires i < |table| && AddsUpTo(table, i, input, start, kids, best, count, len)
    requires ParseChild([], table[i], input) == Matched(t)
    requires Adds(Without(table, i), input[|t.words|..], kids + [t], after, more, rest)
    ensures |t.words| + rest <= |input|
    ensures
      var last := |after| - 1;
      if more >= count
      then AddsUpTo(table, i + 1, input, start, after[..last], Some(after[last]), more + 1, |t.words| + rest)
      else AddsUpTo(table, i + 1, input, start, after[..last], best, count, len)
  {
    StepCounts(table, i, input, start, kids, best, count, len, t, after, more, rest);
    if TidyUpTo(table, i + 1, input) {
      StepWords(table, i, input, start, kids, best, count, len, t, after, more, rest);
    }
    if Consuming(table) {
      StepTook(table, i, input, start, kids, best, count, len, t, after, more, rest);
    }
    hide ParseChild, Words, TidyUpTo, LastUpTo, Stuck, Tidy, Consuming, Without, AllTook;
    assert Takes(table[i], input);
  }

  lemma Skip(table: seq<Node>, i: nat, input: seq<Token>, start: seq<PTree>, kids: seq<PTree>,
             best: Option<PTree>, count: nat, len: nat)
    requires i < |table| && AddsUpTo(table, i, input, start, kids, best, count, len) && !Takes(table[i], input)
    ensures AddsUpTo(table, i + 1, input, start, kids, best, count, len)
  {
    TidyStep(table, i, input);
    hide Takes, Words, TidyUpTo, LastUpTo, Consuming, AllTook;
  }

  lemma Finish(table: seq<Node>, input: seq<Token>, start: seq<PTree>, kids: seq<PTree>,
               best: Option<PTree>, count: nat, len: nat)
    requires AddsUpTo(table, |table|, input, start, kids, best, count, len)
    ensures Adds(table, input, start, if best.Some? then kids + [best.value] else kids, count, len)
  {
    hide Takes, Words, LastUpTo, TidyUpTo, Consuming;
    if best.Some? {
      WordsAppend(kids, best.value);
    }
  }

  lemma {:induction false} RunAdds(p: Path, id: nat, table: seq<Node>, kids: seq<PTree>, input: seq<Token>)
    requires forall k :: k in table ==> NoOnce(k)
    requires SubsetRun(p, id, table, kids, input).Found?
    ensures var r := SubsetRun(p, id, table, kids, input); Adds(table, input, kids, r.kids, r.count, r.len)
    decreases table, 1
  {
    hide Adds, AddsUpTo, NoOnce;
    if table == [] {
      AddsNothing(input, kids);
    } else {
      NothingYet(table, input, kids);
      LoopAdds(p, id, table, 0, kids, kids, input, None, 0, 0);
    }
  }

  lemma AddsNothing(input: seq<Token>, kids: seq<PTree>)
    ensures Adds([], input, kids, kids, 0, 0)
  {
    assert Words(kids) + input[..0] == Words(kids);
  }

  lemma NothingYet(table: seq<Node>, input: seq<Token>, kids: seq<PTree>)
    ensures AddsUpTo(table, 0, input, kids, kids, None, 0, 0)
  {
  }

  lemma {:induction false} LoopAdds(p: Path, id: nat, table: seq<Node>, i: nat, start: seq<PTree>, kids: seq<PTree>,
                                    input: seq<Token>, best: Option<PTree>, count: nat, len: nat)
    requires AddsUpTo(table, i, input, start, kids, best, count, len) && i <= |table| && len <= |input|
    requires forall k :: k in table ==> NoOnce(k)
    requires SubsetLoop(p, id, table, i, kids, input, best, count, len).Found?
    ensures
      var r := SubsetLoop(p, id, table, i, kids, input, best, count, len);
      Adds(table, input, start, r.kids, r.count, r.len)
    decreases table, 0, |table| - i
  {
    hide Adds, AddsUpTo, NoOnce, ParseChild, SubsetRun;
    if i == |table| {
      Finish(table, input, start, kids, best, count, len);
      return;
    }
    PathIrrelevant(p + [Frame(id, kids)], [], table[i], input);
    match ParseChild(p + [Frame(id, kids)], table[i], input)
    case ChildError =>
    case ChildNoMatch =>
      Skip(table, i, input, start, kids, best, count, len);
      LoopAdds(p, id, table, i + 1, start, kids, input, best, count, len);
    case Matched(t) =>
      var rest := input[|t.words|..];
      var r := SubsetRun(p, id, Without(table, i), kids + [t], rest);
      var last := |r.kids| - 1;
      WithoutIsDifference(table, i);
      RunAdds(p, id, Without(table, i), kids + [t], rest);
      Step(table, i, input, start, kids, best, count, len, t, r.kids, r.count, r.len);
      if r.count < count {
        LoopAdds(p, id, table, i + 1, start, r.kids[..last], input, best, count, len);
      } else {
        LoopAdds(p, id, table, i + 1, start, r.kids[..last], input, Some(r.kids[last]), r.count + 1, |t.words| + r.len);
      }
  }

  /**
   A matched subset leaves at least one child for each node of the longest
   order, and no others exactly when the search is tidy.
   */
  lemma ChildrenAreCounted(path: Path, id: nat, min: nat, kids: seq<Node>, input: seq<Token>)
    returns (best: seq<Node>)
    requires forall k :: k in kids ==> NoOnce(k)
    requires ParseChild(path, Subset(id, min, kids), input).Matched?
    ensures IsChain(kids, best, input) && forall nodes :: IsChain(kids, nodes, input) ==> |nodes| <= |best|
    ensures
      var t := ParseChild(path, Subset(id, min, kids), input).t;
      |t.kids| >= |best| && (|t.kids| == |best| <==> Tidy(kids, input))
  {
    hide NoOnce, Tidy, IsChain, Chain;
    best := FoundChain(path, id, kids, [], input);
    forall nodes | IsChain(kids, nodes, input)
      ensures |nodes| <= |best|
    {
      NoLongerChain(path, id, kids, [], input, nodes);
    }
    RunAdds(path, id, kids, [], input);
  }

  /**
   The words of those children, in order, are the words of the subset when the
   search is tidy, and only then if no child matches without taking a word.
   */
  lemma WordsAreKept(path: Path, id: nat, min: nat, kids: seq<Node>, input: seq<Token>)
    requires forall k :: k in kids ==> NoOnce(k)
    requires ParseChild(path, Subset(id, min, kids), input).Matched?
    ensures
      var t := ParseChild(path, Subset(id, min, kids), input).t;
      && (Tidy(kids, input) ==> Words(t.kids) == t.words)
      && (Consuming(kids) && Words(t.kids) == t.words ==> Tidy(kids, input))
  {
    hide NoOnce, Tidy, Consuming, AllTook, Stuck;
    RunAdds(path, id, kids, [], input);
    var t := ParseChild(path, Subset(id, min, kids), input).t;
    assert Words([]) == [] && Words([]) + t.words == t.words;
  }

  // ----- three children for two words ------------------------------------------------------------

  const A: Token := Token("a")
  const B: Token := Token("b")
  const ONE: Node := AnyWord(1)
  const TWO: Node := AnyWord(2)

  lemma OneLeft(path: Path, table: seq<Node>, kids: seq<PTree>)
    requires table == [ONE] || table == [TWO]
    ensures SubsetRun(path, 0, table, kids, [B]) == Found(kids + [PTree(table[0].id, [], [B])], 1, 1)
  {
    var t := PTree(table[0].id, [], [B]);
    assert ParseChild(path + [Frame(0, kids)], table[0], [B]) == Matched(t) by {
      assert [B][..1] == [B];
    }
    assert Without(table, 0) == [];
    assert [B][|t.words|..] == [];
    var r := SubsetRun(path, 0, Without(table, 0), kids + [t], []);
    assert r == Found(kids + [t], 0, 0);
    assert (kids + [t])[..|kids|] == kids;
    assert SubsetLoop(path, 0, table, 1, kids, [B], Some(t), 1, 1) == Found(kids + [t], 1, 1);
  }

  const FIRST: PTree := PTree(1, [], [A])
  const OTHER: PTree := PTree(2, [], [A])
  const NEXT: PTree := PTree(2, [], [B])

  /** The order that starts with the second node is no longer, and leaves its first child. */
  lemma SecondOrder(path: Path)
    ensures
      SubsetLoop(path, 0, [ONE, TWO], 1, [FIRST], [A, B], Some(NEXT), 2, 2) == Found([FIRST, OTHER, NEXT], 2, 2)
  {
    hide CountPath;
    var kids := [FIRST] + [OTHER];
    assert [A, B][..1] == [A] && [A, B][1..] == [B] && Without([ONE, TWO], 1) == [ONE];
    assert ParseChild(path + [Frame(0, [FIRST])], TWO, [A, B]) == Matched(OTHER);
    OneLeft(path, [ONE], kids);
    assert (kids + [PTree(1, [], [B])])[..2] == kids;
    assert kids + [NEXT] == [FIRST, OTHER, NEXT];
    assert SubsetLoop(path, 0, [ONE, TWO], 2, kids, [A, B], Some(NEXT), 2, 2) == Found(kids + [NEXT], 2, 2);
  }

  lemma FirstOrder(path: Path)
    ensures SubsetRun(path, 0, [ONE, TWO], [], [A, B]) == Found([FIRST, OTHER, NEXT], 2, 2)
  {
    hide CountPath;
    var none: seq<PTree> := [];
    var kids := none + [FIRST];
    assert kids == [FIRST];
    assert [A, B][..1] == [A] && [A, B][1..] == [B] && Without([ONE, TWO], 0) == [TWO];
    assert ParseChild(path + [Frame(0, none)], ONE, [A, B]) == Matched(FIRST);
    OneLeft(path, [TWO], kids);
    assert (kids + [NEXT])[..1] == kids;
    SecondOrder(path);
  }

  /** Two any nodes in a subset, on two words, leave three children, the second of them for an order that lost. */
  lemma ThreeForTwo(path: Path)
    ensures
      ParseChild(path, Subset(0, 1, [ONE, TWO]), [A, B]) == Matched(PTree(0, [FIRST, OTHER, NEXT], [A, B]))
    ensures Words([FIRST, OTHER, NEXT]) == [A, A, B]
  {
    hide SubsetRun, CountPath;
    FirstOrder(path);
    assert [A, B][..2] == [A, B];
    assert [FIRST, OTHER, NEXT] == [FIRST] + [OTHER] + [NEXT];
    WordsOne(FIRST);
    WordsAppend([FIRST], OTHER);
    WordsAppend([FIRST] + [OTHER], NEXT);
  }
}
