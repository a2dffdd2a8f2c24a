/** When completion goes through a once node. */
module OnceOffers {
  import opened Prelude
  import opened Grammar
  import opened GrammarFacts
  import opened GrammarMeaning
  import opened OnceFacts
  import opened OnceTwice
  import opened Completion
  import opened Offers

  /** A once node is completed like its child, and not at all when that is in the tree already. */
  lemma {:induction false} OnceReaches(path: Path, once: nat, c: Node, input: seq<Token>, p: ItemWant)
    requires Safe(c) && once != c.id
    ensures
      var unseen := CountPath(path, c.id) == 0;
      Offered(Complete(path, Once(once, c), input), false, unseen && Reaches(c, input, Added(p)), p)
  {
    CountOpen(path, once, c.id);
    SafeNoOnce(c);
    SafeReaches(c, input);
    CompleteReaches(path + [Frame(once, [])], c, input, p);
    OfferedNothing(p);
    hide Reaches, Offered, CountPath, Safe, NoOnce;
  }

  /** The first node takes the slice, without the child of the once node, and that is reached with the rest. */
  ghost predicate SplitOnce(a: Node, c: Node, i: nat, input: seq<Token>, want: Want)
    requires i <= |input|
  {
    && TakesAll(a, input[..i]) && Reaches(c, input[i..], want)
    && CountTree(ParseChild([], a, input[..i]).t, c.id) == 0
  }

  ghost predicate SplitsOnce(a: Node, c: Node, i: nat, input: seq<Token>, want: Want) {
    exists j :: i <= j < |input| && SplitOnce(a, c, j, input, want)
  }

  /** Alone at the end of a sequence, the once node is all that is offered. */
  lemma {:induction false} OnceLast(path: Path, id: nat, once: nat, c: Node, done: seq<PTree>, input: seq<Token>,
                                    p: ItemWant)
    requires Safe(c) && CountPath(path, c.id) == 0 && c.id !in {id, once}
    ensures
      var unseen := CountTrees(done, c.id) == 0;
      Offered(SeqOffer(path, id, [Once(once, c)], done, input), false, unseen && Reaches(c, input, Added(p)), p)
  {
    var at := path + [Frame(id, done)];
    CountPush(path, Frame(id, done), c.id);
    OnceReaches(at, once, c, input, p);
    NoSplits(path, id, once, c, done, 0, input);
    var first := Complete(at, Once(once, c), input);
    assert Then(first, NOTHING).groups == first.groups;
    hide Reaches, Complete, SeqSplits, CountPath, CountTrees;
  }

  lemma {:induction false} NoSplits(path: Path, id: nat, once: nat, c: Node, done: seq<PTree>, i: nat,
                                    input: seq<Token>)
    requires Safe(c) && i <= |input|
    ensures SeqSplits(path, id, [Once(once, c)], done, i, input) == NOTHING
    decreases |input| - i
  {
    hide ParseChild;
    if i < |input| {
      var at := path + [Frame(id, done)];
      OnceBody(at, once, c, input[..i]);
      NoError(at + [Frame(once, [])], c, input[..i]);
      NoSplits(path, id, once, c, done, i + 1, input);
    }
  }

  lemma {:induction false} OnceSplits(path: Path, id: nat, a: Node, once: nat, c: Node, i: nat, input: seq<Token>,
                                      p: ItemWant)
    requires Safe(a) && Safe(c) && CountPath(path, c.id) == 0 && c.id !in {id, once} && i <= |input|
    ensures
      Offered(SeqSplits(path, id, [a, Once(once, c)], [], i, input), false, SplitsOnce(a, c, i, input, Added(p)), p)
    decreases |input| - i
  {
    hide Offered, Reaches, SeqOffer, CountPath, CountTree, ParseChild, Safe, SplitOnce;
    if i == |input| {
      OfferedNothing(p);
      return;
    }
    var slice := input[..i];
    var kids := [a, Once(once, c)];
    assert kids[1..] == [Once(once, c)];
    OnceSplits(path, id, a, once, c, i + 1, input, p);
    SafeNoOnce(a);
    PathIrrelevant(path + [Frame(id, [])], [], a, slice);
    NoError([], a, slice);
    var next := SeqSplits(path, id, kids, [], i + 1, input);
    var r := ParseChild([], a, slice);
    SplitIs(a, c, i, input, Added(p));
    if r.Matched? && |r.t.words| == i {
      assert [] + [r.t] == [r.t];
      CountOne(r.t, c.id);
      OnceLast(path, id, once, c, [r.t], input[i..], p);
      OfferedBoth(SeqOffer(path, id, kids[1..], [r.t], input[i..]), next,
                  false, CountTree(r.t, c.id) == 0 && Reaches(c, input[i..], Added(p)),
                  false, SplitsOnce(a, c, i + 1, input, Added(p)), p);
    }
  }

  lemma SplitIs(a: Node, c: Node, i: nat, input: seq<Token>, want: Want)
    requires i < |input|
    ensures SplitOnce(a, c, i, input, want) <==>
      var r := ParseChild([], a, input[..i]);
      r.Matched? && |r.t.words| == i && CountTree(r.t, c.id) == 0 && Reaches(c, input[i..], want)
  {
    hide Reaches, ParseChild, CountTree;
    var r := ParseChild([], a, input[..i]);
    if r.Matched? && |r.t.words| == i {
      assert r.t.words <= input[..i];
      assert r.t.words == input[..i];
    }
  }

  /**
   A node followed by a once node, in a tree where the child of that is not yet:
   the items of the node are offered, and those of the child after each slice
   that the node takes without a pnode of the child in the tree of that slice.
   */
  lemma OnceOffered(path: Path, id: nat, a: Node, once: nat, c: Node, input: seq<Token>, p: ItemWant)
    requires Safe(a) && Safe(c) && CountPath(path, c.id) == 0 && c.id !in {id, once}
    ensures
      Offered(Complete(path, Seq(id, [a, Once(once, c)]), input), false,
              Reaches(a, input, Added(p)) || SplitsOnce(a, c, 0, input, Added(p)), p)
  {
    hide Offered, Reaches, CountPath, Safe, SplitsOnce;
    SafeNoOnce(a);
    SafeReaches(a, input);
    CompleteReaches(path + [Frame(id, [])], a, input, p);
    OnceSplits(path, id, a, once, c, 0, input, p);
    var kids := [a, Once(once, c)];
    OfferedBoth(Complete(path + [Frame(id, [])], a, input), SeqSplits(path, id, kids, [], 0, input),
                false, Reaches(a, input, Added(p)), false, SplitsOnce(a, c, 0, input, Added(p)), p);
  }

  /** After its child, a once node offers nothing: only the child is completed. */
  lemma OnceIsSpent(path: Path, id: nat, once: nat, c: Node, input: seq<Token>, p: ItemWant)
    requires Safe(c) && CountPath(path, c.id) == 0 && c.id !in {id, once}
    ensures Offered(Complete(path, Seq(id, [c, Once(once, c)]), input), false, Reaches(c, input, Added(p)), p)
  {
    hide Complete, Reaches, CountPath, Safe, Offered;
    OnceOffered(path, id, c, once, c, input, p);
    forall i | 0 <= i < |input|
      ensures !SplitOnce(c, c, i, input, Added(p))
    {
      SplitIs(c, c, i, input, Added(p));
    }
  }
}
