/**
 Which order of its children a subset node settles on, and when it reports an
 error, told from what the children match.
 */
module SubsetOrders {
  import opened Prelude
  import opened Grammar
  import opened GrammarFacts

  /** Entries of a table, by index, in the order they are matched. */
  type Order = seq<nat>

  /** The words taken by the entries one after the other, if all match. */
  function Taking(table: seq<Node>, o: Order, input: seq<Token>): (r: Option<nat>)
    ensures r.Some? ==> r.value <= |input|
  {
    if o == [] then Some(0)
    else if o[0] >= |table| then None
    else
      match ParseChild([], table[o[0]], input)
      case Matched(t) =>
        var rest := Taking(table, o[1..], input[|t.words|..]);
        if rest.None? then None else Some(|t.words| + rest.value)
      case _ => None
  }

  /** Different entries that match one after the other. */
  ghost predicate Works(table: seq<Node>, ids: seq<nat>, o: Order, input: seq<Token>) {
    multiset(o) <= multiset(ids) && Taking(table, o, input).Some?
  }

  /** Where the two orders differ first, this one has an earlier entry. */
  ghost predicate Before(o: Order, other: Order) {
    exists k: nat :: k < |o| && k < |other| && o[..k] == other[..k] && o[k] < other[k]
  }

  /** Longer than the other, or as long and not after it. */
  ghost predicate Beats(o: Order, other: Order) {
    |other| < |o| || (|other| == |o| && (o == other || Before(o, other)))
  }

  /** Of the longest orders, the first. */
  ghost predicate Best(table: seq<Node>, ids: seq<nat>, o: Order, input: seq<Token>) {
    Works(table, ids, o, input) && forall other :: Works(table, ids, other, input) ==> Beats(o, other)
  }

  /** After the entries of the order, one more reports an error. */
  ghost predicate FailsAfter(table: seq<Node>, ids: seq<nat>, o: Order, j: nat, input: seq<Token>) {
    && Works(table, ids, o, input) && multiset(o + [j]) <= multiset(ids) && j < |table|
    && ParseChild([], table[j], input[Taking(table, o, input).value..]).ChildError?
  }

  ghost predicate SomeFails(table: seq<Node>, ids: seq<nat>, input: seq<Token>) {
    exists o, j :: FailsAfter(table, ids, o, j, input)
  }

  // ----- the entries left ---------------------------------------------------------------------------------

  ghost predicate Increasing(ids: seq<nat>) { forall i, j :: 0 <= i < j < |ids| ==> ids[i] < ids[j] }

  ghost predicate Within(ids: seq<nat>, n: nat) { forall i :: 0 <= i < |ids| ==> ids[i] < n }

  function Pick(table: seq<Node>, ids: seq<nat>): (r: seq<Node>)
    requires Within(ids, |table|)
    ensures |r| == |ids| && forall i :: 0 <= i < |ids| ==> r[i] == table[ids[i]]
  {
    seq(|ids|, i requires 0 <= i < |ids| => table[ids[i]])
  }

  lemma WithoutAt<T>(s: seq<T>, i: nat)
    requires i < |s|
    ensures forall k :: 0 <= k < |s| - 1 ==> Without(s, i)[k] == s[if k < i then k else k + 1]
  {
  }

  lemma StillIncreasing(ids: seq<nat>, i: nat, n: nat)
    requires Within(ids, n) && Increasing(ids) && i < |ids|
    ensures Within(Without(ids, i), n) && Increasing(Without(ids, i))
  {
    WithoutAt(ids, i);
    hide Without;
  }

  lemma PickWithout(table: seq<Node>, ids: seq<nat>, i: nat)
    requires Within(ids, |table|) && Increasing(ids) && i < |ids|
    ensures Within(Without(ids, i), |table|) && Increasing(Without(ids, i))
    ensures Pick(table, Without(ids, i)) == Without(Pick(table, ids), i)
  {
    StillIncreasing(ids, i, |table|);
    WithoutAt(ids, i);
    WithoutAt(Pick(table, ids), i);
    hide Without, Increasing;
  }

  // ----- orders by their first entry ----------------------------------------------------------------------

  lemma IdsFirst(ids: seq<nat>, i: nat, o: Order)
    requires i < |ids| && o != [] && o[0] == ids[i]
    ensures multiset(o) <= multiset(ids) <==> multiset(o[1..]) <= multiset(Without(ids, i))
  {
    assert ids == ids[..i] + [ids[i]] + ids[i + 1..];
    assert multiset(Without(ids, i)) == multiset(ids) - multiset{ids[i]};
    assert o == [o[0]] + o[1..];
    assert multiset(o) == multiset{o[0]} + multiset(o[1..]);
  }

  /** An order that starts with entry i goes on with an order of the others. */
  lemma {:induction false} WorksFirst(table: seq<Node>, ids: seq<nat>, i: nat, o: Order, input: seq<Token>)
    requires Within(ids, |table|) && i < |ids| && o != [] && o[0] == ids[i]
    ensures
      var r := ParseChild([], table[ids[i]], input);
      Works(table, ids, o, input) <==> r.Matched? && Works(table, Without(ids, i), o[1..], input[|r.t.words|..])
    ensures
      var r := ParseChild([], table[ids[i]], input);
      Works(table, ids, o, input) ==>
        Taking(table, o, input) == Some(|r.t.words| + Taking(table, o[1..], input[|r.t.words|..]).value)
  {
    hide ParseChild, Without;
    IdsFirst(ids, i, o);
  }

  lemma BeatsFirst(x: nat, o: Order, other: Order)
    requires other != [] && other[0] == x && Beats(o, other[1..])
    ensures Beats([x] + o, other)
  {
    assert other == [x] + other[1..];
    if k: nat :| k < |o| && k < |other[1..]| && o[..k] == other[1..][..k] && o[k] < other[1..][k] {
      assert ([x] + o)[..k + 1] == [x] + o[..k] && other[..k + 1] == [x] + other[1..][..k];
      assert Before([x] + o, other);
    }
  }

  lemma FailsFirst(table: seq<Node>, ids: seq<nat>, i: nat, o: Order, j: nat, input: seq<Token>)
    requires Within(ids, |table|) && i < |ids| && o != [] && o[0] == ids[i]
    ensures
      var r := ParseChild([], table[ids[i]], input);
      FailsAfter(table, ids, o, j, input) <==>
        r.Matched? && FailsAfter(table, Without(ids, i), o[1..], j, input[|r.t.words|..])
  {
    var r := ParseChild([], table[ids[i]], input);
    WorksFirst(table, ids, i, o, input);
    hide ParseChild, Taking, Without;
    assert (o + [j])[1..] == o[1..] + [j];
    IdsFirst(ids, i, o + [j]);
    if Works(table, ids, o, input) {
      var n, m := |r.t.words|, Taking(table, o[1..], input[|r.t.words|..]).value;
      assert input[n..][m..] == input[n + m..];
    }
  }

  // ----- the search ---------------------------------------------------------------------------------------

  /** The order starts with one of the first i entries, or is empty. */
  ghost predicate Starting(ids: seq<nat>, i: nat, o: Order)
    requires i <= |ids|
  {
    o != [] ==> o[0] in ids[..i]
  }

  ghost predicate BestUpTo(table: seq<Node>, ids: seq<nat>, i: nat, o: Order, input: seq<Token>)
    requires i <= |ids|
  {
    && Works(table, ids, o, input) && Starting(ids, i, o)
    && forall other :: Works(table, ids, other, input) && Starting(ids, i, other) ==> Beats(o, other)
  }

  /** No error comes first or after one of the first i entries. */
  ghost predicate NoneFails(table: seq<Node>, ids: seq<nat>, i: nat, input: seq<Token>)
    requires i <= |ids| && Within(ids, |table|)
  {
    && (forall j :: 0 <= j < i ==> !ParseChild([], table[ids[j]], input).ChildError?)
    && forall o, j :: o != [] && Starting(ids, i, o) ==> !FailsAfter(table, ids, o, j, input)
  }

  lemma StartsNow(ids: seq<nat>, i: nat, o: Order)
    requires i < |ids|
    ensures Starting(ids, i + 1, o) <==> Starting(ids, i, o) || (o != [] && o[0] == ids[i])
  {
    assert ids[..i + 1] == ids[..i] + [ids[i]];
  }

  /** Entry i does not match: nothing starts with it. */
  lemma SkipsEntry(table: seq<Node>, ids: seq<nat>, i: nat, o: Order, input: seq<Token>)
    requires Within(ids, |table|) && i < |ids| && ParseChild([], table[ids[i]], input).ChildNoMatch?
    requires BestUpTo(table, ids, i, o, input) && NoneFails(table, ids, i, input)
    ensures BestUpTo(table, ids, i + 1, o, input) && NoneFails(table, ids, i + 1, input)
  {
    hide Works, FailsAfter, ParseChild, Starting, Beats;
    StartsNow(ids, i, o);
    forall other | Works(table, ids, other, input) && Starting(ids, i + 1, other)
      ensures Starting(ids, i, other)
    {
      StartsNow(ids, i, other);
      if other != [] && other[0] == ids[i] {
        WorksFirst(table, ids, i, other, input);
      }
    }
    forall other, j | other != [] && Starting(ids, i + 1, other)
      ensures !FailsAfter(table, ids, other, j, input)
    {
      StartsNow(ids, i, other);
      if other[0] == ids[i] {
        FailsFirst(table, ids, i, other, j, input);
      }
    }
  }

  /** Entry i matches: the best order after it, against the best before. */
  lemma {:induction false} TriesEntry(table: seq<Node>, ids: seq<nat>, i: nat, o: Order, tail: Order, t: PTree,
                                      input: seq<Token>)
    requires Within(ids, |table|) && Increasing(ids) && i < |ids|
    requires ParseChild([], table[ids[i]], input) == Matched(t)
    requires BestUpTo(table, ids, i, o, input)
    requires Best(table, Without(ids, i), tail, input[|t.words|..])
    ensures BestUpTo(table, ids, i + 1, if |tail| < |o| then o else [ids[i]] + tail, input)
    ensures
      Taking(table, [ids[i]] + tail, input) == Some(|t.words| + Taking(table, tail, input[|t.words|..]).value)
  {
    hide Works, ParseChild, Beats, Taking, Starting, Without, Increasing;
    var x := ids[i];
    var longer := [x] + tail;
    assert longer[1..] == tail;
    WorksFirst(table, ids, i, longer, input);
    StartsNow(ids, i, o);
    StartsNow(ids, i, longer);
    var next := if |tail| < |o| then o else longer;
    forall other | Works(table, ids, other, input) && Starting(ids, i + 1, other)
      ensures Beats(next, other)
    {
      StartsNow(ids, i, other);
      if other != [] && other[0] == x {
        WorksFirst(table, ids, i, other, input);
        BeatsFirst(x, tail, other);
        if |tail| < |o| {
          EarlierBeats(ids, i, o, longer, other);
        }
      } else {
        LongerBeats(o, longer, other);
      }
    }
  }

  lemma EarlierBeats(ids: seq<nat>, i: nat, o: Order, longer: Order, other: Order)
    requires Increasing(ids) && i < |ids| && Starting(ids, i, o) && other != [] && other[0] == ids[i]
    requires Beats(longer, other) && |longer| <= |o|
    ensures Beats(o, other)
  {
    if |other| == |o| {
      var k :| 0 <= k < i && ids[..i][k] == o[0];
      assert o[..0] == other[..0];
      assert Before(o, other);
    }
  }

  lemma LongerBeats(o: Order, longer: Order, other: Order)
    requires Beats(o, other)
    ensures |o| < |longer| ==> Beats(longer, other)
  {
  }

  // ----- the search finds it ------------------------------------------------------------------------------

  /** What the search over the entries left returns. */
  ghost predicate Settles(r: SubsetResult, table: seq<Node>, ids: seq<nat>, input: seq<Token>) {
    && (r.SubsetError? <==> SomeFails(table, ids, input))
    && (r.Found? ==> exists o :: Best(table, ids, o, input) && |o| == r.count && Taking(table, o, input) == Some(r.len))
  }

  lemma {:induction false} RunSettles(p: Path, id: nat, table: seq<Node>, ids: seq<nat>, kids: seq<PTree>,
                                      input: seq<Token>)
    requires Within(ids, |table|) && Increasing(ids) && forall k :: k in table ==> NoOnce(k)
    ensures Settles(SubsetRun(p, id, Pick(table, ids), kids, input), table, ids, input)
    decreases |ids|, 1
  {
    hide Best, BestUpTo, SomeFails, NoneFails, NoOnce, SubsetLoop, Increasing;
    NothingBefore(table, ids, input);
    TakingNone(table, input);
    if ids == [] {
      EveryEntry(table, ids, [], input);
    } else {
      LoopSettles(p, id, table, ids, 0, kids, input, None, 0, 0, []);
    }
  }

  lemma NothingBefore(table: seq<Node>, ids: seq<nat>, input: seq<Token>)
    requires Within(ids, |table|)
    ensures BestUpTo(table, ids, 0, [], input) && NoneFails(table, ids, 0, input)
  {
  }

  /** After the last entry: the best of all orders, and no error. */
  lemma EveryEntry(table: seq<Node>, ids: seq<nat>, o: Order, input: seq<Token>)
    requires Within(ids, |table|) && BestUpTo(table, ids, |ids|, o, input) && NoneFails(table, ids, |ids|, input)
    ensures Best(table, ids, o, input) && !SomeFails(table, ids, input)
  {
    hide ParseChild, Taking, Beats;
    forall other | multiset(other) <= multiset(ids)
      ensures Starting(ids, |ids|, other)
    {
      InIds(ids, other);
    }
    forall other, j | FailsAfter(table, ids, other, j, input)
      ensures false
    {
      if other == [] {
        var k := FailsAtOnce(table, ids, j, input);
      }
    }
  }

  lemma TakingNone(table: seq<Node>, input: seq<Token>)
    ensures Taking(table, [], input) == Some(0)
  {
  }

  lemma FailsAtOnce(table: seq<Node>, ids: seq<nat>, j: nat, input: seq<Token>) returns (k: nat)
    requires Within(ids, |table|) && FailsAfter(table, ids, [], j, input)
    ensures k < |ids| && ParseChild([], table[ids[k]], input).ChildError?
  {
    hide ParseChild, Taking;
    TakingNone(table, input);
    InIds(ids, [j]);
    assert input[0..] == input && [] + [j] == [j];
    k :| 0 <= k < |ids| && ids[k] == j;
  }

  lemma InIds(ids: seq<nat>, o: Order)
    requires multiset(o) <= multiset(ids)
    ensures o != [] ==> o[0] in ids && o[0] in ids[..|ids|]
  {
    if o != [] {
      assert o[0] in multiset(o);
      assert ids[..|ids|] == ids;
    }
  }

  lemma SettlesEnd(table: seq<Node>, ids: seq<nat>, r: SubsetResult, o: Order, input: seq<Token>)
    requires Best(table, ids, o, input) && !SomeFails(table, ids, input)
    requires r.Found? && |o| == r.count && Taking(table, o, input) == Some(r.len)
    ensures Settles(r, table, ids, input)
  {
    hide Best, SomeFails;
  }

  lemma SettlesError(table: seq<Node>, ids: seq<nat>, r: SubsetResult, input: seq<Token>)
    requires r.SubsetError?
    ensures Settles(r, table, ids, input) <==> SomeFails(table, ids, input)
  {
    hide Best, SomeFails;
  }

  lemma BestOf(table: seq<Node>, ids: seq<nat>, r: SubsetResult, input: seq<Token>) returns (o: Order)
    requires r.Found? && Settles(r, table, ids, input)
    ensures Best(table, ids, o, input) && |o| == r.count && Taking(table, o, input) == Some(r.len)
    ensures !SomeFails(table, ids, input)
  {
    hide Best, SomeFails, Taking;
    o :| Best(table, ids, o, input) && |o| == r.count && Taking(table, o, input) == Some(r.len);
  }

  lemma {:induction false} LoopSettles(p: Path, id: nat, table: seq<Node>, ids: seq<nat>, i: nat, kids: seq<PTree>,
                                       input: seq<Token>, best: Option<PTree>, count: nat, len: nat, o: Order)
    requires Within(ids, |table|) && Increasing(ids) && i <= |ids| && len <= |input|
    requires forall k :: k in table ==> NoOnce(k)
    requires BestUpTo(table, ids, i, o, input) && NoneFails(table, ids, i, input)
    requires |o| == count && Taking(table, o, input) == Some(len)
    ensures Settles(SubsetLoop(p, id, Pick(table, ids), i, kids, input, best, count, len), table, ids, input)
    decreases |ids|, 0, |ids| - i
  {
    hide Best, BestUpTo, SomeFails, NoneFails, NoOnce, Taking, ParseChild, SubsetRun, Increasing, Without, Settles;
    var now := SubsetLoop(p, id, Pick(table, ids), i, kids, input, best, count, len);
    if i == |ids| {
      EveryEntry(table, ids, o, input);
      SettlesEnd(table, ids, now, o, input);
      return;
    }
    var g := Pick(table, ids)[i];
    PathIrrelevant(p + [Frame(id, kids)], [], g, input);
    match ParseChild(p + [Frame(id, kids)], g, input)
    case ChildError =>
      FailsNow(table, ids, i, input);
      SettlesError(table, ids, now, input);
    case ChildNoMatch =>
      SkipsEntry(table, ids, i, o, input);
      LoopSettles(p, id, table, ids, i + 1, kids, input, best, count, len, o);
    case Matched(t) =>
      PickWithout(table, ids, i);
      var rest := input[|t.words|..];
      RunSettles(p, id, table, Without(ids, i), kids + [t], rest);
      var r := SubsetRun(p, id, Without(Pick(table, ids), i), kids + [t], rest);
      if r.SubsetError? {
        SettlesError(table, Without(ids, i), r, rest);
        FailsLater(table, ids, i, t, input);
        SettlesError(table, ids, now, input);
      } else {
        var tail := BestOf(table, Without(ids, i), r, rest);
        TriesEntry(table, ids, i, o, tail, t, input);
        NoErrorAfter(table, ids, i, t, input);
        var last := |r.kids| - 1;
        if r.count < count {
          LoopSettles(p, id, table, ids, i + 1, r.kids[..last], input, best, count, len, o);
        } else {
          LoopSettles(p, id, table, ids, i + 1, r.kids[..last], input, Some(r.kids[last]), r.count + 1,
                      |t.words| + r.len, [ids[i]] + tail);
        }
      }
  }

  lemma FailsNow(table: seq<Node>, ids: seq<nat>, i: nat, input: seq<Token>)
    requires Within(ids, |table|) && i < |ids| && ParseChild([], table[ids[i]], input).ChildError?
    ensures SomeFails(table, ids, input)
  {
    hide ParseChild;
    assert [] + [ids[i]] == [ids[i]] && ids[i] in ids && input[0..] == input;
    assert FailsAfter(table, ids, [], ids[i], input);
  }

  lemma FailsLater(table: seq<Node>, ids: seq<nat>, i: nat, t: PTree, input: seq<Token>)
    requires Within(ids, |table|) && i < |ids| && ParseChild([], table[ids[i]], input) == Matched(t)
    requires SomeFails(table, Without(ids, i), input[|t.words|..])
    ensures SomeFails(table, ids, input)
  {
    hide ParseChild, FailsAfter;
    var o, j :| FailsAfter(table, Without(ids, i), o, j, input[|t.words|..]);
    assert ([ids[i]] + o)[1..] == o;
    FailsFirst(table, ids, i, [ids[i]] + o, j, input);
  }

  lemma NoErrorAfter(table: seq<Node>, ids: seq<nat>, i: nat, t: PTree, input: seq<Token>)
    requires Within(ids, |table|) && i < |ids| && ParseChild([], table[ids[i]], input) == Matched(t)
    requires NoneFails(table, ids, i, input) && !SomeFails(table, Without(ids, i), input[|t.words|..])
    ensures NoneFails(table, ids, i + 1, input)
  {
    hide ParseChild, FailsAfter, Starting;
    forall o, j | o != [] && Starting(ids, i + 1, o)
      ensures !FailsAfter(table, ids, o, j, input)
    {
      StartsNow(ids, i, o);
      if o[0] == ids[i] {
        FailsFirst(table, ids, i, o, j, input);
      }
    }
  }

  // ----- the subset node ----------------------------------------------------------------------------------

  function All(n: nat): (r: seq<nat>)
    ensures |r| == n && forall i :: 0 <= i < n ==> r[i] == i
  {
    seq(n, i => i)
  }

  /**
   A subset node over children without once nodes reports an error if and only
   if one of them does after some others have matched, in whatever order; the
   words it takes are those of the first of the longest orders, which decides
   whether it matches.
   */
  lemma SettlesOnFirst(path: Path, id: nat, min: nat, kids: seq<Node>, input: seq<Token>)
    requires forall k :: k in kids ==> NoOnce(k)
    ensures
      var r := ParseChild(path, Subset(id, min, kids), input);
      && (r.ChildError? <==> SomeFails(kids, All(|kids|), input))
      && (!r.ChildError? ==> exists o :: Best(kids, All(|kids|), o, input))
      && (!r.ChildError? ==> forall o :: Best(kids, All(|kids|), o, input) ==>
           && (r.Matched? <==> min <= |o|)
           && (r.Matched? ==> Some(|r.t.words|) == Taking(kids, o, input)))
  {
    hide Best, SomeFails, Taking, SubsetRun, NoOnce;
    var ids := All(|kids|);
    assert Pick(kids, ids) == kids;
    RunSettles(path, id, kids, ids, [], input);
    forall o, other | Best(kids, ids, o, input) && Best(kids, ids, other, input)
      ensures o == other
    {
      OneBest(kids, ids, o, other, input);
    }
  }

  /** Orders that agree up to k and up to l do not differ at the smaller of both. */
  lemma SameStart(o: Order, other: Order, k: nat, l: nat)
    requires k < |o| && k < |other| && o[..k] == other[..k]
    requires l < |o| && l < |other| && o[..l] == other[..l]
    ensures k < l ==> o[k] == other[k]
    ensures l < k ==> o[l] == other[l]
  {
    if k < l {
      assert o[..l][k] == other[..l][k];
    } else if l < k {
      assert o[..k][l] == other[..k][l];
    }
  }

  lemma OneBest(table: seq<Node>, ids: seq<nat>, o: Order, other: Order, input: seq<Token>)
    requires Best(table, ids, o, input) && Best(table, ids, other, input)
    ensures o == other
  {
    hide Works;
    assert Beats(o, other) && Beats(other, o);
    if o != other {
      var k: nat :| k < |o| && k < |other| && o[..k] == other[..k] && o[k] < other[k];
      var l: nat :| l < |o| && l < |other| && other[..l] == o[..l] && other[l] < o[l];
      SameStart(o, other, k, l);
      assert false;
    }
  }
}
