/**
 Why a node that is only reached through once nodes occurs at most once: what a
 subset above it may look like, and a subset with which it occurs twice.
 */
module OnceFacts {
  import opened Prelude
  import opened Grammar

  /** Below g, node c is only reached as the child of once nodes. */
  predicate UnderOnce(c: nat, g: Node) {
    match g
    case Seq(_, kids) => forall k :: k in kids ==> k.id != c && UnderOnce(c, k)
    case Or(_, kids) => forall k :: k in kids ==> k.id != c && UnderOnce(c, k)
    case Many(_, _, _, kid) => kid.id != c && UnderOnce(c, kid)
    case Opt(_, kid) => kid.id != c && UnderOnce(c, kid)
    case Bypass(_, kid) => kid.id != c && UnderOnce(c, kid)
    case Once(_, kid) => UnderOnce(c, kid)
    case Subset(_, _, kids) => forall k :: k in kids ==> k.id != c && UnderOnce(c, k)
    case _ => true
  }

  /** Node c is neither g nor below it. */
  predicate Absent(c: nat, g: Node) {
    g.id != c &&
    match g
    case Seq(_, kids) => forall k :: k in kids ==> Absent(c, k)
    case Or(_, kids) => forall k :: k in kids ==> Absent(c, k)
    case Many(_, _, _, kid) => Absent(c, kid)
    case Opt(_, kid) => Absent(c, kid)
    case Bypass(_, kid) => Absent(c, kid)
    case Once(_, kid) => Absent(c, kid)
    case Subset(_, _, kids) => forall k :: k in kids ==> Absent(c, k)
    case _ => true
  }

  /** Entry j of the table matches, and then another one does. */
  ghost predicate Followed(path: Path, id: nat, kids: seq<PTree>, table: seq<Node>, j: nat, input: seq<Token>)
    requires j < |table|
  {
    match ParseChild(path + [Frame(id, kids)], table[j], input)
    case Matched(t) => Starts(path, id, kids + [t], Without(table, j), input[|t.words|..])
    case _ => false
  }

  /** Some entry of the table matches. */
  ghost predicate Starts(path: Path, id: nat, kids: seq<PTree>, table: seq<Node>, input: seq<Token>) {
    exists l :: 0 <= l < |table| && ParseChild(path + [Frame(id, kids)], table[l], input).Matched?
  }

  /** There is no input on which two entries can each be followed by another, nor once some have matched. */
  ghost predicate Tame(table: seq<Node>)
    decreases |table|
  {
    && (forall j :: 0 <= j < |table| ==> Tame(Without(table, j)))
    && forall path, id, kids, more, input, j, k :: 0 <= j < k < |table| ==>
         !(Followed(path, id, kids, table, j, input) && Followed(path, id, more, table, k, input))
  }

  /** Node c is not below a subset, unless that is tame. */
  ghost predicate Settled(c: nat, g: Node) {
    match g
    case Seq(_, kids) => forall k :: k in kids ==> Settled(c, k)
    case Or(_, kids) => forall k :: k in kids ==> Settled(c, k)
    case Many(_, _, _, kid) => Settled(c, kid)
    case Opt(_, kid) => Settled(c, kid)
    case Bypass(_, kid) => Settled(c, kid)
    case Once(_, kid) => Settled(c, kid)
    case Subset(_, _, kids) =>
      (forall k :: k in kids ==> Settled(c, k)) && (NoneHas(c, kids) || Tame(kids))
    case _ => true
  }

  predicate NoneHas(c: nat, table: seq<Node>) {
    forall k :: k in table ==> Absent(c, k)
  }

  /** What the search over a table asks of it. */
  ghost predicate Calm(c: nat, table: seq<Node>) {
    && (forall k :: k in table ==> Settled(c, k) && k.id != c && UnderOnce(c, k))
    && (NoneHas(c, table) || Tame(table))
  }

  lemma CalmEntry(c: nat, table: seq<Node>, i: nat)
    requires i < |table| && Calm(c, table)
    ensures Settled(c, table[i]) && UnderOnce(c, table[i]) && table[i].id != c && Calm(c, Without(table, i))
  {
    hide Settled, UnderOnce, Absent, Followed;
    assert table[i] in table;
    forall k | k in Without(table, i)
      ensures k in table
    {
    }
  }

  /** At most one entry matches any input: then the table is tame. */
  ghost predicate Exclusive(table: seq<Node>) {
    forall p, q, input, j, k :: 0 <= j < k < |table| ==>
      !(ParseChild(p, table[j], input).Matched? && ParseChild(q, table[k], input).Matched?)
  }

  lemma {:induction false} ExclusiveIsTame(table: seq<Node>)
    requires Exclusive(table)
    ensures Tame(table)
    decreases |table|
  {
    hide ParseChild;
    forall i | 0 <= i < |table|
      ensures Tame(Without(table, i))
    {
      var rest := Without(table, i);
      forall p, q, input, j, k | 0 <= j < k < |rest|
        ensures !(ParseChild(p, rest[j], input).Matched? && ParseChild(q, rest[k], input).Matched?)
      {
        assert rest[j] == table[if j < i then j else j + 1] && rest[k] == table[if k < i then k else k + 1];
      }
      ExclusiveIsTame(rest);
    }
  }

  // ----- counting ---------------------------------------------------------------------------------

  lemma {:induction false} CountTreesAppend(kids: seq<PTree>, t: PTree, id: nat)
    ensures CountTrees(kids + [t], id) == CountTrees(kids, id) + CountTree(t, id)
  {
    if kids == [] {
      assert kids + [t] == [t] && [t][1..] == [];
    } else {
      assert (kids + [t])[1..] == kids[1..] + [t];
      CountTreesAppend(kids[1..], t, id);
    }
  }

  lemma CountPush(path: Path, f: Frame, id: nat)
    ensures CountPath(path + [f], id) == CountPath(path, id) + CountFrame(f, id)
  {
    assert (path + [f])[..|path|] == path;
  }

  lemma CountAdd(path: Path, id: nat, kids: seq<PTree>, t: PTree, c: nat)
    ensures CountPath(path + [Frame(id, kids + [t])], c) == CountPath(path + [Frame(id, kids)], c) + CountTree(t, c)
  {
    CountPush(path, Frame(id, kids), c);
    CountPush(path, Frame(id, kids + [t]), c);
    CountTreesAppend(kids, t, c);
  }

  // ----- a node that is absent from the grammar is absent from what matches --------------------------

  /** From this index on the node does not occur. */
  predicate Free(c: nat, kids: seq<PTree>, from: nat) {
    forall i :: from <= i < |kids| ==> CountTree(kids[i], c) == 0
  }

  lemma {:induction false} FreeCount(c: nat, kids: seq<PTree>)
    requires Free(c, kids, 0)
    ensures CountTrees(kids, c) == 0
  {
    if kids != [] {
      FreeCount(c, kids[1..]);
    }
  }

  lemma {:induction false} AbsentTree(path: Path, g: Node, input: seq<Token>, c: nat)
    requires Absent(c, g)
    ensures var r := ParseChild(path, g, input); r.Matched? ==> CountTree(r.t, c) == 0
    decreases g, 2
  {
    var b := ParseBody(path, g, input);
    if b.ret.Match? {
      AbsentBody(path, g, input, c);
      FreeCount(c, b.kids);
    }
  }

  lemma {:induction false} AbsentBody(path: Path, g: Node, input: seq<Token>, c: nat)
    requires Absent(c, g) && ParseBody(path, g, input).ret.Match?
    ensures Free(c, ParseBody(path, g, input).kids, 0)
    decreases g, 1
  {
    hide ParseChild, SeqLoop, OrLoop, ManyLoop, SubsetRun, CountPath;
    match g
    case Seq(id, kids) => AbsentSeq(path, id, kids, [], 0, input, c);
    case Or(id, kids) => AbsentOr(path, id, kids, input, c);
    case Many(id, min, max, kid) => AbsentMany(path, id, min, max, kid, 0, 0, [], input, c);
    case Opt(id, kid) => AbsentTree(path + [Frame(id, [])], kid, input, c);
    case Bypass(id, kid) => AbsentTree(path + [Frame(id, [])], kid, input, c);
    case Once(id, kid) => AbsentTree(path + [Frame(id, [])], kid, input, c);
    case Subset(id, min, kids) => AbsentRun(path, id, kids, [], input, c);
    case _ =>
  }

  lemma {:induction false} AbsentSeq(path: Path, id: nat, kids: seq<Node>, done: seq<PTree>, len: nat,
                                     input: seq<Token>, c: nat)
    requires len <= |input| && Free(c, done, 0) && forall k :: k in kids ==> Absent(c, k)
    ensures var b := SeqLoop(path, id, kids, done, len, input); b.ret.Match? ==> Free(c, b.kids, 0)
    decreases kids, 0
  {
    hide ParseChild, Absent;
    if kids != [] {
      assert kids[0] in kids;
      AbsentTree(path + [Frame(id, done)], kids[0], input[len..], c);
      var r := ParseChild(path + [Frame(id, done)], kids[0], input[len..]);
      if r.Matched? {
        AbsentSeq(path, id, kids[1..], done + [r.t], len + |r.t.words|, input, c);
      }
    }
  }

  lemma {:induction false} AbsentOr(path: Path, id: nat, kids: seq<Node>, input: seq<Token>, c: nat)
    requires forall k :: k in kids ==> Absent(c, k)
    ensures var b := OrLoop(path, id, kids, input); b.ret.Match? ==> Free(c, b.kids, 0)
    decreases kids, 0
  {
    hide ParseChild, Absent;
    if kids != [] {
      assert kids[0] in kids;
      AbsentTree(path + [Frame(id, [])], kids[0], input, c);
      AbsentOr(path, id, kids[1..], input, c);
    }
  }

  lemma {:induction false} AbsentMany(path: Path, id: nat, min: nat, max: nat, kid: Node, count: nat, off: nat,
                                      done: seq<PTree>, input: seq<Token>, c: nat)
    requires off <= |input| && Free(c, done, 0) && Absent(c, kid)
    ensures var b := ManyLoop(path, id, min, max, kid, count, off, done, input); b.ret.Match? ==> Free(c, b.kids, 0)
    decreases kid, 3, if max == 0 then |input| - off else if count < max then max - count else 0
  {
    hide ParseChild, Absent;
    if max == 0 || count < max {
      AbsentTree(path + [Frame(id, done)], kid, input[off..], c);
      var r := ParseChild(path + [Frame(id, done)], kid, input[off..]);
      if r.Matched? && !(r.t.words == [] && max == 0) {
        AbsentMany(path, id, min, max, kid, count + 1, off + |r.t.words|, done + [r.t], input, c);
      }
    }
  }

  lemma {:induction false} AbsentRun(path: Path, id: nat, table: seq<Node>, kids: seq<PTree>, input: seq<Token>, c: nat)
    requires forall k :: k in table ==> Absent(c, k)
    ensures
      var r := SubsetRun(path, id, table, kids, input);
      r.Found? ==> kids <= r.kids && Free(c, r.kids, |kids|)
    decreases table, 1
  {
    hide SubsetLoop, Absent;
    if table != [] {
      AbsentLoop(path, id, table, 0, kids, kids, input, None, 0, 0, c);
    }
  }

  lemma {:induction false} AbsentLoop(path: Path, id: nat, table: seq<Node>, i: nat, start: seq<PTree>,
                                      kids: seq<PTree>,
                                      input: seq<Token>, best: Option<PTree>, count: nat, len: nat, c: nat)
    requires i <= |table| && len <= |input| && forall k :: k in table ==> Absent(c, k)
    requires start <= kids && Free(c, kids, |start|) && (best.Some? ==> CountTree(best.value, c) == 0)
    ensures
      var r := SubsetLoop(path, id, table, i, kids, input, best, count, len);
      r.Found? ==> start <= r.kids && Free(c, r.kids, |start|)
    decreases table, 0, |table| - i
  {
    hide ParseChild, Absent, SubsetRun, CountTree;
    if i < |table| {
      assert table[i] in table;
      AbsentTree(path + [Frame(id, kids)], table[i], input, c);
      match ParseChild(path + [Frame(id, kids)], table[i], input)
      case ChildError =>
      case ChildNoMatch => AbsentLoop(path, id, table, i + 1, start, kids, input, best, count, len, c);
      case Matched(t) =>
        var r := SubsetRun(path, id, Without(table, i), kids + [t], input[|t.words|..]);
        if r.Found? {
          AbsentRun(path, id, Without(table, i), kids + [t], input[|t.words|..], c);
          var last := |r.kids| - 1;
          assert start <= r.kids[..last];
          if r.count < count {
            AbsentLoop(path, id, table, i + 1, start, r.kids[..last], input, best, count, len, c);
          } else {
            AbsentLoop(path, id, table, i + 1, start, r.kids[..last], input, Some(r.kids[last]), r.count + 1,
                       |t.words| + r.len, c);
          }
        }
    }
  }

  // ----- the search ---------------------------------------------------------------------------------

  /** The search counts a node exactly when an entry matches; otherwise it adds no child. */
  lemma RunStarts(path: Path, id: nat, table: seq<Node>, kids: seq<PTree>, input: seq<Token>)
    ensures
      var r := SubsetRun(path, id, table, kids, input);
      r.Found? ==> (r.count == 0 ==> r.kids == kids) && (r.count > 0 ==> Starts(path, id, kids, table, input))
  {
    hide SubsetLoop;
    if table != [] {
      LoopStarts(path, id, table, 0, kids, kids, input, None, 0, 0);
    }
  }

  lemma {:induction false} LoopStarts(path: Path, id: nat, table: seq<Node>, i: nat, start: seq<PTree>,
                                      kids: seq<PTree>,
                                      input: seq<Token>, best: Option<PTree>, count: nat, len: nat)
    requires i <= |table| && len <= |input| && (count == 0 ==> best.None? && kids == start)
    requires count > 0 ==> Starts(path, id, start, table, input)
    ensures
      var r := SubsetLoop(path, id, table, i, kids, input, best, count, len);
      r.Found? ==> (r.count == 0 ==> r.kids == start) && (r.count > 0 ==> Starts(path, id, start, table, input))
    decreases |table| - i
  {
    hide ParseChild, SubsetRun;
    if i < |table| {
      match ParseChild(path + [Frame(id, kids)], table[i], input)
      case ChildError =>
      case ChildNoMatch => LoopStarts(path, id, table, i + 1, start, kids, input, best, count, len);
      case Matched(t) =>
        assert Starts(path, id, start, table, input);
        hide Starts;
        var r := SubsetRun(path, id, Without(table, i), kids + [t], input[|t.words|..]);
        if r.Found? {
          var last := |r.kids| - 1;
          if r.count < count {
            LoopStarts(path, id, table, i + 1, start, r.kids[..last], input, best, count, len);
          } else {
            LoopStarts(path, id, table, i + 1, start, r.kids[..last], input, Some(r.kids[last]), r.count + 1,
                       |t.words| + r.len);
          }
        }
    }
  }

  /** One of the entries before i was followed by another. */
  ghost predicate FollowedBefore(path: Path, id: nat, start: seq<PTree>, table: seq<Node>, i: nat, input: seq<Token>)
    requires i <= |table|
  {
    exists j :: 0 <= j < i && Followed(path, id, start, table, j, input)
  }

  /**
   The best child may be linked again: with it, the node occurs at most once.
   In a tame table a search has left nothing before it found an order of two.
   */
  ghost predicate Keeps(c: nat, path: Path, id: nat, table: seq<Node>, i: nat, start: seq<PTree>, kids: seq<PTree>,
                        input: seq<Token>, best: Option<PTree>, count: nat)
    requires i <= |table|
  {
    && (best.None? <==> count == 0)
    && (best.Some? ==> CountPath(path + [Frame(id, kids + [best.value])], c) <= 1)
    && (NoneHas(c, table) && best.Some? ==> CountTree(best.value, c) == 0)
    && (Tame(table) ==>
          && (count <= 1 ==> kids == start)
          && (count > 1 ==> FollowedBefore(path, id, start, table, i, input)))
  }

  lemma KeepsNothing(c: nat, path: Path, id: nat, table: seq<Node>, start: seq<PTree>, input: seq<Token>)
    ensures Keeps(c, path, id, table, 0, start, start, input, None, 0)
  {
  }

  /** At the end the best child is linked again. */
  lemma KeepsBest(c: nat, path: Path, id: nat, table: seq<Node>, i: nat, start: seq<PTree>, kids: seq<PTree>,
                  input: seq<Token>, best: PTree, count: nat)
    requires i <= |table| && Keeps(c, path, id, table, i, start, kids, input, Some(best), count)
    ensures CountPath(path + [Frame(id, kids + [best])], c) <= 1
  {
  }

  lemma KeepsSkip(c: nat, path: Path, id: nat, table: seq<Node>, i: nat, start: seq<PTree>, kids: seq<PTree>,
                  input: seq<Token>, best: Option<PTree>, count: nat)
    requires i < |table| && Keeps(c, path, id, table, i, start, kids, input, best, count)
    ensures Keeps(c, path, id, table, i + 1, start, kids, input, best, count)
  {
    hide Tame, Followed, CountPath, NoneHas;
  }

  /** After one more entry, when the node occurs at most once with all its children in place. */
  lemma KeepsTurn(c: nat, path: Path, id: nat, table: seq<Node>, i: nat, start: seq<PTree>, kids: seq<PTree>,
                  input: seq<Token>, best: Option<PTree>, count: nat, t: PTree)
    requires i < |table| && Calm(c, table) && Keeps(c, path, id, table, i, start, kids, input, best, count)
    requires ParseChild(path + [Frame(id, kids)], table[i], input) == Matched(t)
    requires SubsetRun(path, id, Without(table, i), kids + [t], input[|t.words|..]).Found?
    requires
      var r := SubsetRun(path, id, Without(table, i), kids + [t], input[|t.words|..]);
      CountPath(path + [Frame(id, r.kids)], c) <= 1
    ensures
      var r := SubsetRun(path, id, Without(table, i), kids + [t], input[|t.words|..]);
      var last := |r.kids| - 1;
      if r.count < count then Keeps(c, path, id, table, i + 1, start, r.kids[..last], input, best, count)
      else Keeps(c, path, id, table, i + 1, start, r.kids[..last], input, Some(r.kids[last]), r.count + 1)
  {
    var rest := input[|t.words|..];
    var r := SubsetRun(path, id, Without(table, i), kids + [t], rest);
    var last := |r.kids| - 1;
    var left := r.kids[..last];
    assert left + [r.kids[last]] == r.kids;
    hide ParseChild, SubsetRun, Followed, Settled, UnderOnce, FollowedBefore, NoneHas, Tame;
    if NoneHas(c, table) {
      KeepsAbsent(c, path, id, table, i, kids, input, best, t);
    }
    hide CountPath;
    if Tame(table) {
      KeepsTame(c, path, id, table, i, start, kids, input, best, count, t);
    }
  }

  lemma KeepsAbsent(c: nat, path: Path, id: nat, table: seq<Node>, i: nat, kids: seq<PTree>,
                    input: seq<Token>, best: Option<PTree>, t: PTree)
    requires i < |table| && NoneHas(c, table)
    requires best.Some? ==> CountTree(best.value, c) == 0
    requires ParseChild(path + [Frame(id, kids)], table[i], input) == Matched(t)
    requires SubsetRun(path, id, Without(table, i), kids + [t], input[|t.words|..]).Found?
    requires
      var r := SubsetRun(path, id, Without(table, i), kids + [t], input[|t.words|..]);
      CountPath(path + [Frame(id, r.kids)], c) <= 1
    ensures
      var r := SubsetRun(path, id, Without(table, i), kids + [t], input[|t.words|..]);
      var last := |r.kids| - 1;
      && CountTree(r.kids[last], c) == 0
      && (best.Some? ==> CountPath(path + [Frame(id, r.kids[..last] + [best.value])], c) <= 1)
  {
    hide ParseChild, SubsetRun, Absent, CountPath, CountTree;
    var rest := input[|t.words|..];
    var r := SubsetRun(path, id, Without(table, i), kids + [t], rest);
    var last := |r.kids| - 1;
    assert table[i] in table;
    AbsentTree(path + [Frame(id, kids)], table[i], input, c);
    AbsentRun(path, id, Without(table, i), kids + [t], rest, c);
    assert r.kids[last] == if |r.kids| == |kids| + 1 then t else r.kids[last];
    assert r.kids[..last] + [r.kids[last]] == r.kids;
    CountAdd(path, id, r.kids[..last], r.kids[last], c);
    if best.Some? {
      CountAdd(path, id, r.kids[..last], best.value, c);
    }
  }

  lemma KeepsTame(c: nat, path: Path, id: nat, table: seq<Node>, i: nat, start: seq<PTree>, kids: seq<PTree>,
                  input: seq<Token>, best: Option<PTree>, count: nat, t: PTree)
    requires i < |table| && Tame(table) && Keeps(c, path, id, table, i, start, kids, input, best, count)
    requires ParseChild(path + [Frame(id, kids)], table[i], input) == Matched(t)
    requires SubsetRun(path, id, Without(table, i), kids + [t], input[|t.words|..]).Found?
    ensures
      var r := SubsetRun(path, id, Without(table, i), kids + [t], input[|t.words|..]);
      var left := r.kids[..|r.kids| - 1];
      && (r.count < count ==> left == kids)
      && (r.count >= count ==> (r.count == 0 ==> left == start))
      && (r.count >= count && r.count > 0 ==> FollowedBefore(path, id, start, table, i + 1, input))
  {
    hide ParseChild, SubsetRun, CountPath, Absent;
    var rest := input[|t.words|..];
    var r := SubsetRun(path, id, Without(table, i), kids + [t], rest);
    RunStarts(path, id, Without(table, i), kids + [t], rest);
    assert (kids + [t])[..|kids|] == kids;
    hide Starts;
    if r.count > 0 {
      assert Followed(path, id, kids, table, i, input);
    }
  }
}
