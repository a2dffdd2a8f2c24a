/** What a parse result means, without reference to the order of the search. */
module GrammarFacts {
  import opened Prelude
  import opened Grammar

  // ----- matched trees are derivations ---------------------------------------------------

  function Words(kids: seq<PTree>): seq<Token> {
    if kids == [] then [] else kids[0].words + Words(kids[1..])
  }

  lemma {:induction false} WordsAppend(kids: seq<PTree>, t: PTree)
    ensures Words(kids + [t]) == Words(kids) + t.words
  {
    if kids == [] {
      assert kids + [t] == [t] && [t][1..] == [];
    } else {
      assert (kids + [t])[1..] == kids[1..] + [t];
      WordsAppend(kids[1..], t);
    }
  }

  /**
   The tree is a derivation from the node: each pnode holds the words of its
   children in order, and the children are derivations from the node's children
   as the node's type asks.
   */
  predicate Derives(g: Node, t: PTree) {
    && t.node == g.id
    && match g
       case Str(_, word) => t.kids == [] && t.words == [word]
       case AnyWord(_) => t.kids == [] && |t.words| == 1
       case Empty(_) => t.kids == [] && t.words == []
       case Broken(_) => false
       case Seq(_, kids) =>
         && t.words == Words(t.kids) && |t.kids| == |kids|
         && forall i :: 0 <= i < |kids| ==> Derives(kids[i], t.kids[i])
       case Or(_, kids) =>
         && t.words == Words(t.kids) && |t.kids| == 1
         && exists i :: 0 <= i < |kids| && Derives(kids[i], t.kids[0])
       case Many(_, min, max, kid) =>
         && t.words == Words(t.kids) && min <= |t.kids| && (max != 0 ==> |t.kids| <= max)
         && forall k :: k in t.kids ==> Derives(kid, k)
       case Opt(_, kid) => t.words == Words(t.kids) && (t.kids == [] || (|t.kids| == 1 && Derives(kid, t.kids[0])))
       case Bypass(_, kid) => t.words == Words(t.kids) && |t.kids| == 1 && Derives(kid, t.kids[0])
       case Once(_, kid) => t.words == Words(t.kids) && |t.kids| == 1 && Derives(kid, t.kids[0])
       case Subset(_, _, _) => false
  }

  lemma WordsOne(t: PTree)
    ensures Words([t]) == t.words
  {
    assert [t][1..] == [];
  }

  predicate NoSubset(g: Node) {
    match g
    case Seq(_, kids) => forall k :: k in kids ==> NoSubset(k)
    case Or(_, kids) => forall k :: k in kids ==> NoSubset(k)
    case Many(_, _, _, kid) => NoSubset(kid)
    case Opt(_, kid) => NoSubset(kid)
    case Bypass(_, kid) => NoSubset(kid)
    case Once(_, kid) => NoSubset(kid)
    case Subset(_, _, _) => false
    case _ => true
  }

  /** A match is a derivation whose words start the input. */
  lemma {:induction false} MatchIsDerivation(path: Path, g: Node, input: seq<Token>)
    requires NoSubset(g)
    ensures
      var r := ParseChild(path, g, input);
      r.Matched? ==> Derives(g, r.t) && r.t.words <= input
    decreases g, 2
  {
    var b := ParseBody(path, g, input);
    if b.ret.Match? {
      match g
      case Str(_, _) =>
      case AnyWord(_) =>
      case Empty(_) =>
      case Broken(_) =>
      case Seq(id, kids) => SeqDerives(path, id, kids, [], 0, input);
      case Or(id, kids) => OrDerives(path, id, kids, input);
      case Many(id, min, max, kid) => ManyDerives(path, id, min, max, kid, 0, 0, [], input);
      case Opt(id, kid) => OnlyDerives(path + [Frame(id, [])], kid, input);
      case Bypass(id, kid) => OnlyDerives(path + [Frame(id, [])], kid, input);
      case Once(id, kid) => OnlyDerives(path + [Frame(id, [])], kid, input);
      case Subset(_, _, _) =>
    }
  }

  lemma {:induction false} OnlyDerives(path: Path, kid: Node, input: seq<Token>)
    requires NoSubset(kid)
    ensures
      var r := ParseChild(path, kid, input);
      r.Matched? ==> Derives(kid, r.t) && Words([r.t]) == input[..|r.t.words|]
    decreases kid, 3
  {
    MatchIsDerivation(path, kid, input);
    var r := ParseChild(path, kid, input);
    if r.Matched? {
      WordsOne(r.t);
    }
  }

  lemma {:induction false} SeqDerives(path: Path, id: nat, kids: seq<Node>, done: seq<PTree>, len: nat,
                                      input: seq<Token>)
    requires len <= |input| && Words(done) == input[..len]
    requires forall k :: k in kids ==> NoSubset(k)
    ensures
      var b := SeqLoop(path, id, kids, done, len, input);
      b.ret.Match? ==>
        && Words(b.kids) == input[..b.ret.n]
        && |b.kids| == |done| + |kids| && b.kids[..|done|] == done
        && forall i :: 0 <= i < |kids| ==> Derives(kids[i], b.kids[|done| + i])
    decreases kids, 0
  {
    hide ParseChild, Derives, NoSubset;
    if kids != [] {
      assert kids[0] in kids;
      MatchIsDerivation(path + [Frame(id, done)], kids[0], input[len..]);
      var r := ParseChild(path + [Frame(id, done)], kids[0], input[len..]);
      if r.Matched? {
        WordsAppend(done, r.t);
        assert input[..len] + input[len..][..|r.t.words|] == input[..len + |r.t.words|];
        SeqDerives(path, id, kids[1..], done + [r.t], len + |r.t.words|, input);
        var b := SeqLoop(path, id, kids, done, len, input);
        if b.ret.Match? {
          assert b.kids[..|done| + 1][|done|] == r.t;
          assert b.kids[..|done| + 1][..|done|] == done;
          forall i | 0 <= i < |kids|
            ensures Derives(kids[i], b.kids[|done| + i])
          {
            if i > 0 {
              assert kids[1..][i - 1] == kids[i];
            }
          }
        }
      }
    }
  }

  lemma {:induction false} OrDerives(path: Path, id: nat, kids: seq<Node>, input: seq<Token>)
    requires forall k :: k in kids ==> NoSubset(k)
    ensures
      var b := OrLoop(path, id, kids, input);
      b.ret.Match? ==>
        && |b.kids| == 1 && Words(b.kids) == input[..b.ret.n]
        && exists i :: 0 <= i < |kids| && Derives(kids[i], b.kids[0])
    decreases kids, 0
  {
    if kids != [] {
      assert kids[0] in kids;
      OnlyDerives(path + [Frame(id, [])], kids[0], input);
      var r := ParseChild(path + [Frame(id, [])], kids[0], input);
      if r.ChildNoMatch? {
        OrDerives(path, id, kids[1..], input);
        var b := OrLoop(path, id, kids[1..], input);
        if b.ret.Match? {
          var i :| 0 <= i < |kids[1..]| && Derives(kids[1..][i], b.kids[0]);
          assert kids[i + 1] == kids[1..][i];
        }
      }
    }
  }

  lemma {:induction false} ManyDerives(path: Path, id: nat, min: nat, max: nat, kid: Node, count: nat, off: nat,
                                       done: seq<PTree>, input: seq<Token>)
    requires off <= |input| && NoSubset(kid)
    requires Words(done) == input[..off] && |done| == count && (max != 0 ==> count <= max)
    requires forall k :: k in done ==> Derives(kid, k)
    ensures
      var b := ManyLoop(path, id, min, max, kid, count, off, done, input);
      b.ret.Match? ==>
        && Words(b.kids) == input[..b.ret.n]
        && min <= |b.kids| && (max != 0 ==> |b.kids| <= max)
        && forall k :: k in b.kids ==> Derives(kid, k)
    decreases kid, 3, if max == 0 then |input| - off else if count < max then max - count else 0
  {
    hide ParseChild, Derives, NoSubset;
    if max == 0 || count < max {
      MatchIsDerivation(path + [Frame(id, done)], kid, input[off..]);
      var r := ParseChild(path + [Frame(id, done)], kid, input[off..]);
      if r.Matched? && !(r.t.words == [] && max == 0) {
        WordsAppend(done, r.t);
        assert input[..off] + input[off..][..|r.t.words|] == input[..off + |r.t.words|];
        ManyDerives(path, id, min, max, kid, count + 1, off + |r.t.words|, done + [r.t], input);
      }
    }
  }

  // ----- results that depend on the input only --------------------------------------------

  predicate NoOnce(g: Node) {
    match g
    case Seq(_, kids) => forall k :: k in kids ==> NoOnce(k)
    case Or(_, kids) => forall k :: k in kids ==> NoOnce(k)
    case Many(_, _, _, kid) => NoOnce(kid)
    case Opt(_, kid) => NoOnce(kid)
    case Bypass(_, kid) => NoOnce(kid)
    case Once(_, _) => false
    case Subset(_, _, kids) => forall k :: k in kids ==> NoOnce(k)
    case _ => true
  }

  /** Without once nodes, what was parsed before does not matter. */
  lemma {:induction false} PathIrrelevant(p: Path, q: Path, g: Node, input: seq<Token>)
    requires NoOnce(g)
    ensures ParseChild(p, g, input) == ParseChild(q, g, input)
    decreases g, 2
  {
    match g
    case Seq(id, kids) => SeqIrrelevant(p, q, id, kids, [], 0, input);
    case Or(id, kids) => OrIrrelevant(p, q, id, kids, input);
    case Many(id, min, max, kid) => ManyIrrelevant(p, q, id, min, max, kid, 0, 0, [], input);
    case Opt(id, kid) => PathIrrelevant(p + [Frame(id, [])], q + [Frame(id, [])], kid, input);
    case Bypass(id, kid) => PathIrrelevant(p + [Frame(id, [])], q + [Frame(id, [])], kid, input);
    case Subset(id, min, kids) => SubsetIrrelevant(p, q, id, kids, [], input);
    case _ =>
  }

  lemma {:induction false} SeqIrrelevant(p: Path, q: Path, id: nat, kids: seq<Node>, done: seq<PTree>, len: nat,
                                         input: seq<Token>)
    requires len <= |input| && forall k :: k in kids ==> NoOnce(k)
    ensures SeqLoop(p, id, kids, done, len, input) == SeqLoop(q, id, kids, done, len, input)
    decreases kids, 0
  {
    if kids != [] {
      assert kids[0] in kids;
      PathIrrelevant(p + [Frame(id, done)], q + [Frame(id, done)], kids[0], input[len..]);
      var r := ParseChild(p + [Frame(id, done)], kids[0], input[len..]);
      if r.Matched? {
        SeqIrrelevant(p, q, id, kids[1..], done + [r.t], len + |r.t.words|, input);
      }
    }
  }

  lemma {:induction false} OrIrrelevant(p: Path, q: Path, id: nat, kids: seq<Node>, input: seq<Token>)
    requires forall k :: k in kids ==> NoOnce(k)
    ensures OrLoop(p, id, kids, input) == OrLoop(q, id, kids, input)
    decreases kids, 0
  {
    if kids != [] {
      assert kids[0] in kids;
      PathIrrelevant(p + [Frame(id, [])], q + [Frame(id, [])], kids[0], input);
      OrIrrelevant(p, q, id, kids[1..], input);
    }
  }

  lemma {:induction false} ManyIrrelevant(p: Path, q: Path, id: nat, min: nat, max: nat, kid: Node, count: nat,
                                          off: nat, done: seq<PTree>, input: seq<Token>)
    requires off <= |input| && NoOnce(kid)
    ensures ManyLoop(p, id, min, max, kid, count, off, done, input)
         == ManyLoop(q, id, min, max, kid, count, off, done, input)
    decreases kid, 3, if max == 0 then |input| - off else if count < max then max - count else 0
  {
    hide ParseChild, NoOnce;
    if max == 0 || count < max {
      PathIrrelevant(p + [Frame(id, done)], q + [Frame(id, done)], kid, input[off..]);
      var r := ParseChild(p + [Frame(id, done)], kid, input[off..]);
      if r.Matched? && !(r.t.words == [] && max == 0) {
        ManyIrrelevant(p, q, id, min, max, kid, count + 1, off + |r.t.words|, done + [r.t], input);
      }
    }
  }

  lemma {:induction false} SubsetIrrelevant(p: Path, q: Path, id: nat, table: seq<Node>, kids: seq<PTree>,
                                            input: seq<Token>)
    requires forall k :: k in table ==> NoOnce(k)
    ensures SubsetRun(p, id, table, kids, input) == SubsetRun(q, id, table, kids, input)
    decreases table, 1
  {
    if table != [] {
      SubsetLoopIrrelevant(p, q, id, table, 0, kids, input, None, 0, 0);
    }
  }

  lemma {:induction false} SubsetLoopIrrelevant(p: Path, q: Path, id: nat, table: seq<Node>, i: nat, kids: seq<PTree>,
                                                input: seq<Token>, best: Option<PTree>, count: nat, len: nat)
    requires i <= |table| && len <= |input| && forall k :: k in table ==> NoOnce(k)
    ensures SubsetLoop(p, id, table, i, kids, input, best, count, len)
         == SubsetLoop(q, id, table, i, kids, input, best, count, len)
    decreases table, 0, |table| - i
  {
    if i < |table| {
      PathIrrelevant(p + [Frame(id, kids)], q + [Frame(id, kids)], table[i], input);
      match ParseChild(p + [Frame(id, kids)], table[i], input)
      case ChildError =>
      case ChildNoMatch => SubsetLoopIrrelevant(p, q, id, table, i + 1, kids, input, best, count, len);
      case Matched(t) =>
        var rest := input[|t.words|..];
        SubsetIrrelevant(p, q, id, Without(table, i), kids + [t], rest);
        var r := SubsetRun(p, id, Without(table, i), kids + [t], rest);
        if r.Found? {
          var last := |r.kids| - 1;
          if r.count < count {
            SubsetLoopIrrelevant(p, q, id, table, i + 1, r.kids[..last], input, best, count, len);
          } else {
            SubsetLoopIrrelevant(p, q, id, table, i + 1, r.kids[..last], input, Some(r.kids[last]),
                                 r.count + 1, |t.words| + r.len);
          }
        }
    }
  }

  // ----- the subset node finds a longest chain ---------------------------------------------

  /** The words consumed by matching these nodes one after the other. */
  function Chain(nodes: seq<Node>, input: seq<Token>): (r: Option<nat>)
    ensures r.Some? ==> r.value <= |input|
  {
    if nodes == [] then Some(0)
    else
      match ParseChild([], nodes[0], input)
      case Matched(t) =>
        var rest := Chain(nodes[1..], input[|t.words|..]);
        if rest.None? then None else Some(|t.words| + rest.value)
      case _ => None
  }

  /** Distinct entries of the table, in some order, that match one after the other. */
  ghost predicate IsChain(table: seq<Node>, nodes: seq<Node>, input: seq<Token>) {
    multiset(nodes) <= multiset(table) && Chain(nodes, input).Some?
  }

  lemma WithoutIsDifference(table: seq<Node>, i: nat)
    requires i < |table|
    ensures multiset(Without(table, i)) == multiset(table) - multiset{table[i]}
    ensures forall k :: k in Without(table, i) ==> k in table
  {
    assert table == table[..i] + [table[i]] + table[i + 1..];
  }

  lemma EntryFirst(table: seq<Node>, i: nat, tail: seq<Node>)
    requires i < |table| && multiset(tail) <= multiset(Without(table, i))
    ensures multiset([table[i]] + tail) <= multiset(table)
  {
    WithoutIsDifference(table, i);
  }

  /** A chain of the table without entry i, after entry i itself. */
  lemma ChainCons(table: seq<Node>, i: nat, t: PTree, tail: seq<Node>, input: seq<Token>)
    requires i < |table| && ParseChild([], table[i], input) == Matched(t)
    requires IsChain(Without(table, i), tail, input[|t.words|..])
    ensures
      var nodes := [table[i]] + tail;
      IsChain(table, nodes, input) && Chain(nodes, input) == Some(|t.words| + Chain(tail, input[|t.words|..]).value)
  {
    hide ParseChild, Without;
    EntryFirst(table, i, tail);
    var nodes := [table[i]] + tail;
    assert nodes[1..] == tail;
  }

  /** What is left of a chain after its first node, entry i of the table. */
  lemma ChainTail(table: seq<Node>, i: nat, t: PTree, nodes: seq<Node>, input: seq<Token>)
    requires i < |table| && ParseChild([], table[i], input) == Matched(t)
    requires IsChain(table, nodes, input) && nodes != [] && nodes[0] == table[i]
    ensures IsChain(Without(table, i), nodes[1..], input[|t.words|..])
  {
    hide ParseChild;
    WithoutIsDifference(table, i);
    assert nodes == [nodes[0]] + nodes[1..];
    assert multiset(nodes) == multiset{nodes[0]} + multiset(nodes[1..]);
  }

  lemma ChainStarts(table: seq<Node>, nodes: seq<Node>, input: seq<Token>)
    requires IsChain(table, nodes, input) && nodes != []
    ensures ParseChild([], nodes[0], input).Matched?
  {
  }

  /** Some chain has the count and length found. */
  lemma {:induction false} FoundChain(p: Path, id: nat, table: seq<Node>, kids: seq<PTree>, input: seq<Token>)
    returns (nodes: seq<Node>)
    requires forall k :: k in table ==> NoOnce(k)
    requires SubsetRun(p, id, table, kids, input).Found?
    ensures
      var r := SubsetRun(p, id, table, kids, input);
      IsChain(table, nodes, input) && |nodes| == r.count && Chain(nodes, input) == Some(r.len)
    decreases table, 1
  {
    if table == [] {
      nodes := [];
    } else {
      nodes := FoundInLoop(p, id, table, 0, kids, input, None, 0, 0, []);
    }
  }

  lemma {:induction false} FoundInLoop(p: Path, id: nat, table: seq<Node>, i: nat, kids: seq<PTree>, input: seq<Token>,
                                       best: Option<PTree>, count: nat, len: nat, before: seq<Node>)
    returns (nodes: seq<Node>)
    requires i <= |table| && len <= |input| && forall k :: k in table ==> NoOnce(k)
    requires IsChain(table, before, input) && |before| == count && Chain(before, input) == Some(len)
    requires SubsetLoop(p, id, table, i, kids, input, best, count, len).Found?
    ensures
      var r := SubsetLoop(p, id, table, i, kids, input, best, count, len);
      IsChain(table, nodes, input) && |nodes| == r.count && Chain(nodes, input) == Some(r.len)
    decreases table, 0, |table| - i
  {
    hide ParseChild, NoOnce, SubsetRun, Chain, IsChain;
    if i == |table| {
      return before;
    }
    match ParseChild(p + [Frame(id, kids)], table[i], input)
    case ChildError =>
    case ChildNoMatch =>
      nodes := FoundInLoop(p, id, table, i + 1, kids, input, best, count, len, before);
    case Matched(t) =>
      var rest := input[|t.words|..];
      var r := SubsetRun(p, id, Without(table, i), kids + [t], rest);
      var last := |r.kids| - 1;
      WithoutIsDifference(table, i);
      if r.count < count {
        nodes := FoundInLoop(p, id, table, i + 1, r.kids[..last], input, best, count, len, before);
      } else {
        var tail := FoundChain(p, id, Without(table, i), kids + [t], rest);
        PathIrrelevant(p + [Frame(id, kids)], [], table[i], input);
        ChainCons(table, i, t, tail, input);
        var longer := [table[i]] + tail;
        nodes := FoundInLoop(p, id, table, i + 1, r.kids[..last], input, Some(r.kids[last]),
                             r.count + 1, |t.words| + r.len, longer);
      }
  }

  /** No chain is longer than the count found. */
  lemma {:induction false} NoLongerChain(p: Path, id: nat, table: seq<Node>, kids: seq<PTree>, input: seq<Token>,
                                         nodes: seq<Node>)
    requires forall k :: k in table ==> NoOnce(k)
    requires SubsetRun(p, id, table, kids, input).Found? && IsChain(table, nodes, input)
    ensures |nodes| <= SubsetRun(p, id, table, kids, input).count
    decreases table, 1
  {
    if nodes != [] {
      assert nodes[0] in multiset(nodes);
      var at :| 0 <= at < |table| && table[at] == nodes[0];
      NoLongerInLoop(p, id, table, 0, kids, input, None, 0, 0, nodes, at);
    }
  }

  lemma {:induction false} LoopKeepsCount(p: Path, id: nat, table: seq<Node>, i: nat, kids: seq<PTree>,
                                          input: seq<Token>, best: Option<PTree>, count: nat, len: nat)
    requires i <= |table| && len <= |input|
    requires SubsetLoop(p, id, table, i, kids, input, best, count, len).Found?
    ensures count <= SubsetLoop(p, id, table, i, kids, input, best, count, len).count
    decreases |table| - i
  {
    hide ParseChild, SubsetRun;
    if i < |table| {
      match ParseChild(p + [Frame(id, kids)], table[i], input)
      case ChildError =>
      case ChildNoMatch => LoopKeepsCount(p, id, table, i + 1, kids, input, best, count, len);
      case Matched(t) =>
        var r := SubsetRun(p, id, Without(table, i), kids + [t], input[|t.words|..]);
        var last := |r.kids| - 1;
        if r.count < count {
          LoopKeepsCount(p, id, table, i + 1, r.kids[..last], input, best, count, len);
        } else {
          LoopKeepsCount(p, id, table, i + 1, r.kids[..last], input, Some(r.kids[last]), r.count + 1,
                         |t.words| + r.len);
        }
    }
  }

  lemma {:induction false} NoLongerInLoop(p: Path, id: nat, table: seq<Node>, i: nat, kids: seq<PTree>,
                                          input: seq<Token>, best: Option<PTree>, count: nat, len: nat,
                                          nodes: seq<Node>, at: nat)
    requires i <= at < |table| && len <= |input| && forall k :: k in table ==> NoOnce(k)
    requires IsChain(table, nodes, input) && nodes != [] && nodes[0] == table[at]
    requires SubsetLoop(p, id, table, i, kids, input, best, count, len).Found?
    ensures |nodes| <= SubsetLoop(p, id, table, i, kids, input, best, count, len).count
    decreases table, 0, |table| - i
  {
    hide ParseChild, NoOnce, SubsetRun, Chain, IsChain;
    ChainStarts(table, nodes, input);
    PathIrrelevant(p + [Frame(id, kids)], [], table[i], input);
    match ParseChild(p + [Frame(id, kids)], table[i], input)
    case ChildError =>
    case ChildNoMatch => NoLongerInLoop(p, id, table, i + 1, kids, input, best, count, len, nodes, at);
    case Matched(t) =>
      var rest := input[|t.words|..];
      var r := SubsetRun(p, id, Without(table, i), kids + [t], rest);
      var last := |r.kids| - 1;
      WithoutIsDifference(table, i);
      if i == at {
        ChainTail(table, i, t, nodes, input);
        NoLongerChain(p, id, Without(table, i), kids + [t], rest, nodes[1..]);
        if r.count < count {
          LoopKeepsCount(p, id, table, i + 1, r.kids[..last], input, best, count, len);
        } else {
          LoopKeepsCount(p, id, table, i + 1, r.kids[..last], input, Some(r.kids[last]), r.count + 1,
                         |t.words| + r.len);
        }
      } else if r.count < count {
        NoLongerInLoop(p, id, table, i + 1, r.kids[..last], input, best, count, len, nodes, at);
      } else {
        NoLongerInLoop(p, id, table, i + 1, r.kids[..last], input, Some(r.kids[last]),
                       r.count + 1, |t.words| + r.len, nodes, at);
      }
  }

  /**
   A subset node over children without once nodes: the number of children it
   matches is the largest number that can be matched one after the other in any
   order, the words it consumes are those of such an order, and it matches
   exactly when that number reaches its minimum.
   */
  lemma SubsetIsLongest(path: Path, id: nat, min: nat, kids: seq<Node>, input: seq<Token>)
    returns (best: seq<Node>)
    requires forall k :: k in kids ==> NoOnce(k)
    requires !ParseChild(path, Subset(id, min, kids), input).ChildError?
    ensures IsChain(kids, best, input)
    ensures forall nodes :: IsChain(kids, nodes, input) ==> |nodes| <= |best|
    ensures
      var r := ParseChild(path, Subset(id, min, kids), input);
      && (r.Matched? <==> min <= |best|)
      && (r.Matched? ==> Some(|r.t.words|) == Chain(best, input))
  {
    best := FoundChain(path, id, kids, [], input);
    forall nodes | IsChain(kids, nodes, input)
      ensures |nodes| <= |best|
    {
      NoLongerChain(path, id, kids, [], input, nodes);
    }
  }

  // ----- nodes that do not report errors -----------------------------------------------------------

  predicate Safe(g: Node) {
    match g
    case Broken(_) => false
    case Once(_, _) => false
    case Seq(_, kids) => forall k :: k in kids ==> Safe(k)
    case Or(_, kids) => forall k :: k in kids ==> Safe(k)
    case Many(_, _, _, kid) => Safe(kid)
    case Opt(_, kid) => Safe(kid)
    case Bypass(_, kid) => Safe(kid)
    case Subset(_, _, kids) => forall k :: k in kids ==> Safe(k)
    case _ => true
  }

  lemma {:induction false} SafeNoOnce(g: Node)
    requires Safe(g)
    ensures NoOnce(g)
  {
    match g
    case Seq(_, kids) => forall k | k in kids ensures NoOnce(k) { SafeNoOnce(k); }
    case Or(_, kids) => forall k | k in kids ensures NoOnce(k) { SafeNoOnce(k); }
    case Subset(_, _, kids) => forall k | k in kids ensures NoOnce(k) { SafeNoOnce(k); }
    case Many(_, _, _, kid) => SafeNoOnce(kid);
    case Opt(_, kid) => SafeNoOnce(kid);
    case Bypass(_, kid) => SafeNoOnce(kid);
    case _ =>
  }

  lemma {:induction false} NoError(path: Path, g: Node, input: seq<Token>)
    requires Safe(g)
    ensures !ParseChild(path, g, input).ChildError?
    decreases g, 2
  {
    match g
    case Seq(id, kids) => SeqNoError(path, id, kids, [], 0, input);
    case Or(id, kids) => OrNoError(path, id, kids, input);
    case Many(id, min, max, kid) => ManyNoError(path, id, min, max, kid, 0, 0, [], input);
    case Opt(id, kid) => NoError(path + [Frame(id, [])], kid, input);
    case Bypass(id, kid) => NoError(path + [Frame(id, [])], kid, input);
    case Subset(id, min, kids) => SubsetNoError(path, id, kids, [], input);
    case _ =>
  }

  lemma {:induction false} SeqNoError(path: Path, id: nat, kids: seq<Node>, done: seq<PTree>, len: nat,
                                      input: seq<Token>)
    requires len <= |input| && forall k :: k in kids ==> Safe(k)
    ensures !SeqLoop(path, id, kids, done, len, input).ret.Error?
    decreases kids, 0
  {
    if kids != [] {
      assert Safe(kids[0]);
      NoError(path + [Frame(id, done)], kids[0], input[len..]);
      var r := ParseChild(path + [Frame(id, done)], kids[0], input[len..]);
      if r.Matched? {
        SeqNoError(path, id, kids[1..], done + [r.t], len + |r.t.words|, input);
      }
    }
  }

  lemma {:induction false} OrNoError(path: Path, id: nat, kids: seq<Node>, input: seq<Token>)
    requires forall k :: k in kids ==> Safe(k)
    ensures !OrLoop(path, id, kids, input).ret.Error?
    decreases kids, 0
  {
    if kids != [] {
      assert Safe(kids[0]);
      NoError(path + [Frame(id, [])], kids[0], input);
      OrNoError(path, id, kids[1..], input);
    }
  }

  lemma {:induction false} ManyNoError(path: Path, id: nat, min: nat, max: nat, kid: Node, count: nat, off: nat,
                                       done: seq<PTree>, input: seq<Token>)
    requires off <= |input| && Safe(kid)
    ensures !ManyLoop(path, id, min, max, kid, count, off, done, input).ret.Error?
    decreases kid, 3, if max == 0 then |input| - off else if count < max then max - count else 0
  {
    hide ParseChild, Safe;
    if max == 0 || count < max {
      NoError(path + [Frame(id, done)], kid, input[off..]);
      var r := ParseChild(path + [Frame(id, done)], kid, input[off..]);
      if r.Matched? && !(r.t.words == [] && max == 0) {
        ManyNoError(path, id, min, max, kid, count + 1, off + |r.t.words|, done + [r.t], input);
      }
    }
  }

  lemma {:induction false} SubsetNoError(path: Path, id: nat, table: seq<Node>, kids: seq<PTree>, input: seq<Token>)
    requires forall k :: k in table ==> Safe(k)
    ensures SubsetRun(path, id, table, kids, input).Found?
    decreases table, 1
  {
    if table != [] {
      SubsetLoopNoError(path, id, table, 0, kids, input, None, 0, 0);
    }
  }

  lemma {:induction false} SubsetLoopNoError(path: Path, id: nat, table: seq<Node>, i: nat, kids: seq<PTree>,
                                             input: seq<Token>, best: Option<PTree>, count: nat, len: nat)
    requires i <= |table| && len <= |input| && forall k :: k in table ==> Safe(k)
    ensures SubsetLoop(path, id, table, i, kids, input, best, count, len).Found?
    decreases table, 0, |table| - i
  {
    if i < |table| {
      assert Safe(table[i]);
      NoError(path + [Frame(id, kids)], table[i], input);
      match ParseChild(path + [Frame(id, kids)], table[i], input)
      case ChildNoMatch => SubsetLoopNoError(path, id, table, i + 1, kids, input, best, count, len);
      case Matched(t) =>
        SubsetNoError(path, id, Without(table, i), kids + [t], input[|t.words|..]);
        var r := SubsetRun(path, id, Without(table, i), kids + [t], input[|t.words|..]);
        var last := |r.kids| - 1;
        if r.count < count {
          SubsetLoopNoError(path, id, table, i + 1, r.kids[..last], input, best, count, len);
        } else {
          SubsetLoopNoError(path, id, table, i + 1, r.kids[..last], input, Some(r.kids[last]),
                            r.count + 1, |t.words| + r.len);
        }
      case _ =>
    }
  }
}
