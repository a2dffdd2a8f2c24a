/**
 Parsing as it runs: one shared parse state extended and rolled back in place.
 Each callback is proved to compute what the grammar says, and every state the
 run goes through is recorded, so that what holds at every moment can be said.
 */
module Parser {
  import opened Prelude
  import opened Grammar
  import opened OnceFacts

  // ----- paths --------------------------------------------------------------------------

  lemma RootCount(root: nat, id: nat)
    ensures CountPath([Frame(root, [])], id) <= 1
  {
    assert [] + [Frame(root, [])] == [Frame(root, [])];
    CountPush([], Frame(root, []), id);
  }

  /** The path with a finished child added to its last pnode. */
  function AddKid(path: Path, t: PTree): Path
    requires path != []
  {
    var top := path[|path| - 1];
    path[..|path| - 1] + [Frame(top.node, top.kids + [t])]
  }

  lemma AddNext(below: Path, id: nat, kids: seq<PTree>, t: PTree)
    ensures AddKid(below + [Frame(id, kids)], t) == below + [Frame(id, kids + [t])]
  {
    assert (below + [Frame(id, kids)])[..|below|] == below;
  }

  lemma AddFirst(below: Path, id: nat, t: PTree)
    ensures AddKid(below + [Frame(id, [])], t) == below + [Frame(id, [t])]
  {
    AddNext(below, id, [], t);
    assert [] + [t] == [t];
  }

  lemma SubsetStart(path: Path, id: nat, table: seq<Node>, kids: seq<PTree>, input: seq<Token>)
    ensures
      SubsetRun(path, id, table, kids, input) ==
      if table == [] then Found(kids, 0, 0) else SubsetLoop(path, id, table, 0, kids, input, None, 0, 0)
  {
  }

  /** One turn of the search, or its end. */
  lemma SubsetTurn(path: Path, id: nat, table: seq<Node>, i: nat, kids: seq<PTree>, input: seq<Token>,
                   best: Option<PTree>, count: nat, len: nat)
    requires i <= |table| && len <= |input|
    ensures
      SubsetLoop(path, id, table, i, kids, input, best, count, len) ==
      if i == |table| then Found(if best.Some? then kids + [best.value] else kids, count, len)
      else
        match Grammar.ParseChild(path + [Frame(id, kids)], table[i], input)
        case ChildError => SubsetError(kids)
        case ChildNoMatch => SubsetLoop(path, id, table, i + 1, kids, input, best, count, len)
        case Matched(t) =>
          var r := SubsetRun(path, id, Without(table, i), kids + [t], input[|t.words|..]);
          if r.SubsetError? then r
          else
            var last := |r.kids| - 1;
            if r.count < count then SubsetLoop(path, id, table, i + 1, r.kids[..last], input, best, count, len)
            else SubsetLoop(path, id, table, i + 1, r.kids[..last], input, Some(r.kids[last]),
                            r.count + 1, |t.words| + r.len)
  {
    hide Grammar.ParseChild, SubsetRun;
  }

  /** The search before entry i: it goes on to the result of the whole, and may link the best child again. */
  ghost predicate Searching(c: nat, calm: bool, path: Path, id: nat, table: seq<Node>, i: nat, start: seq<PTree>,
                            kids: seq<PTree>, input: seq<Token>, best: Option<PTree>, count: nat, len: nat)
  {
    && i <= |table| && len <= |input|
    && SubsetLoop(path, id, table, i, kids, input, best, count, len) == SubsetRun(path, id, table, start, input)
    && (calm ==> Calm(c, table) && Keeps(c, path, id, table, i, start, kids, input, best, count))
  }

  lemma SearchFirst(c: nat, calm: bool, path: Path, id: nat, table: seq<Node>, start: seq<PTree>, input: seq<Token>)
    requires table != [] && (calm ==> Calm(c, table))
    ensures Searching(c, calm, path, id, table, 0, start, start, input, None, 0, 0)
  {
    SubsetStart(path, id, table, start, input);
    KeepsNothing(c, path, id, table, start, input);
    hide Calm, Keeps;
  }

  lemma SearchSkip(c: nat, calm: bool, path: Path, id: nat, table: seq<Node>, i: nat, start: seq<PTree>,
                   kids: seq<PTree>, input: seq<Token>, best: Option<PTree>, count: nat, len: nat)
    requires Searching(c, calm, path, id, table, i, start, kids, input, best, count, len) && i < |table|
    requires Grammar.ParseChild(path + [Frame(id, kids)], table[i], input).ChildNoMatch?
    ensures Searching(c, calm, path, id, table, i + 1, start, kids, input, best, count, len)
  {
    hide Calm, Keeps, Grammar.ParseChild, SubsetRun;
    SubsetTurn(path, id, table, i, kids, input, best, count, len);
    if calm {
      KeepsSkip(c, path, id, table, i, start, kids, input, best, count);
    }
  }

  /** An error, of the entry or of the search after it, ends the search. */
  lemma SearchFails(c: nat, calm: bool, path: Path, id: nat, table: seq<Node>, i: nat, start: seq<PTree>,
                    kids: seq<PTree>, input: seq<Token>, best: Option<PTree>, count: nat, len: nat)
    requires Searching(c, calm, path, id, table, i, start, kids, input, best, count, len) && i < |table|
    ensures
      match Grammar.ParseChild(path + [Frame(id, kids)], table[i], input)
      case ChildError => SubsetRun(path, id, table, start, input) == SubsetError(kids)
      case ChildNoMatch => true
      case Matched(t) =>
        var r := SubsetRun(path, id, Without(table, i), kids + [t], input[|t.words|..]);
        r.SubsetError? ==> SubsetRun(path, id, table, start, input) == r
  {
    hide Calm, Keeps, Grammar.ParseChild, SubsetRun;
    SubsetTurn(path, id, table, i, kids, input, best, count, len);
  }

  lemma SearchTakes(c: nat, calm: bool, path: Path, id: nat, table: seq<Node>, i: nat, start: seq<PTree>,
                    kids: seq<PTree>, input: seq<Token>, best: Option<PTree>, count: nat, len: nat, t: PTree)
    requires Searching(c, calm, path, id, table, i, start, kids, input, best, count, len) && i < |table|
    requires Grammar.ParseChild(path + [Frame(id, kids)], table[i], input) == Matched(t)
    requires
      var r := SubsetRun(path, id, Without(table, i), kids + [t], input[|t.words|..]);
      r.Found? && (calm ==> CountPath(path + [Frame(id, r.kids)], c) <= 1)
    ensures
      var r := SubsetRun(path, id, Without(table, i), kids + [t], input[|t.words|..]);
      var left, last := r.kids[..|r.kids| - 1], Some(r.kids[|r.kids| - 1]);
      if r.count < count then Searching(c, calm, path, id, table, i + 1, start, left, input, best, count, len)
      else Searching(c, calm, path, id, table, i + 1, start, left, input, last, r.count + 1, |t.words| + r.len)
  {
    hide Calm, Keeps, Grammar.ParseChild, SubsetRun, CountPath;
    SubsetTurn(path, id, table, i, kids, input, best, count, len);
    if calm {
      KeepsTurn(c, path, id, table, i, start, kids, input, best, count, t);
    }
  }

  lemma SearchEnds(c: nat, calm: bool, path: Path, id: nat, table: seq<Node>, start: seq<PTree>,
                   kids: seq<PTree>, input: seq<Token>, best: Option<PTree>, count: nat, len: nat)
    requires Searching(c, calm, path, id, table, |table|, start, kids, input, best, count, len)
    ensures SubsetRun(path, id, table, start, input)
         == Found(if best.Some? then kids + [best.value] else kids, count, len)
    ensures calm && best.Some? ==> CountPath(path + [Frame(id, kids + [best.value])], c) <= 1
  {
    hide Calm, Keeps, SubsetRun, CountPath;
    SubsetTurn(path, id, table, |table|, kids, input, best, count, len);
    if calm && best.Some? {
      KeepsBest(c, path, id, table, |table|, start, kids, input, best.value, count);
    }
  }

  /** One turn of a repetition. */
  lemma ManyStep(path: Path, id: nat, min: nat, max: nat, kid: Node, count: nat, off: nat, done: seq<PTree>,
                 input: seq<Token>)
    requires off <= |input|
    ensures
      ManyLoop(path, id, min, max, kid, count, off, done, input) ==
      if max != 0 && count >= max then ManyEnd(min, count, off, done)
      else
        match Grammar.ParseChild(path + [Frame(id, done)], kid, input[off..])
        case ChildError => Body(Error, done)
        case ChildNoMatch => ManyEnd(min, count, off, done)
        case Matched(t) =>
          if t.words == [] && max == 0 then ManyEnd(min, count, off, done)
          else ManyLoop(path, id, min, max, kid, count + 1, off + |t.words|, done + [t], input)
  {
  }

  class ParseState {
    var path: Path
    ghost const watched: nat
    ghost var trace: seq<Path>

    constructor (root: nat, ghost watched: nat)
      ensures path == [Frame(root, [])] && trace == [path] && this.watched == watched
    {
      path := [Frame(root, [])];
      this.watched := watched;
      trace := [[Frame(root, [])]];
    }

    ghost function Top(): Frame
      requires path != []
      reads this
    {
      path[|path| - 1]
    }

    ghost function Below(): Path
      requires path != []
      reads this
    {
      path[..|path| - 1]
    }

    /** Now, and in every state so far, the watched node occurs at most once. */
    ghost predicate AtMostOnce()
      reads this
    {
      && CountPath(path, watched) <= 1
      && forall i :: 0 <= i < |trace| ==> CountPath(trace[i], watched) <= 1
    }

    /** Parsing g from here cannot add a second occurrence of the watched node. */
    ghost predicate Guards(g: Node)
      reads this
    {
      && AtMostOnce() && Settled(watched, g) && UnderOnce(watched, g)
      && (g.id == watched ==> CountPath(path, watched) == 0)
    }

    // ----- the mutations of the parse tree ------------------------------------------------

    /** Create a pnode as the last child of the current one, and enter it. */
    method Link(node: nat)
      modifies this
      ensures path == old(path) + [Frame(node, [])]
      ensures trace == old(trace) + [path]
      ensures CountPath(path, watched) == CountPath(old(path), watched) + if node == watched then 1 else 0
    {
      CountPush(path, Frame(node, []), watched);
      path := path + [Frame(node, [])];
      trace := trace + [path];
    }

    /** Unlink the current pnode from its parent and free it. */
    method Unlink()
      requires path != []
      modifies this
      ensures path == old(Below()) && trace == old(trace) + [path]
      ensures CountPath(path, watched) <= CountPath(old(path), watched)
    {
      path := path[..|path| - 1];
      trace := trace + [path];
    }

    /** The current pnode has matched: it stays, as a finished child of its parent. */
    method Finish(words: seq<Token>)
      requires |path| >= 2
      modifies this
      ensures path == AddKid(old(Below()), PTree(old(Top()).node, old(Top()).kids, words))
      ensures trace == old(trace) + [path]
      ensures CountPath(path, watched) == CountPath(old(path), watched)
    {
      ghost var before := path;
      var top := path[|path| - 1];
      var t := PTree(top.node, top.kids, words);
      var up := path[..|path| - 1];
      var parent := up[|up| - 1];
      path := up[..|up| - 1] + [Frame(parent.node, parent.kids + [t])];
      trace := trace + [path];
      CountTreesAppend(parent.kids, t, watched);
      CountPush(up[..|up| - 1], Frame(parent.node, parent.kids + [t]), watched);
    }

    method FreeChildren()
      requires path != []
      modifies this
      ensures path == old(Below()) + [Frame(old(Top()).node, [])] && trace == old(trace) + [path]
      ensures CountPath(path, watched) <= CountPath(old(path), watched)
    {
      var top := path[|path| - 1];
      CountPush(path[..|path| - 1], Frame(top.node, []), watched);
      path := path[..|path| - 1] + [Frame(top.node, [])];
      trace := trace + [path];
    }

    /** Unlink the last finished child. */
    method UnlinkLast() returns (t: PTree)
      requires path != [] && Top().kids != []
      modifies this
      ensures t == old(Top()).kids[|old(Top()).kids| - 1]
      ensures path == old(Below()) + [Frame(old(Top()).node, old(Top()).kids[..|old(Top()).kids| - 1])]
      ensures trace == old(trace) + [path]
      ensures CountPath(path, watched) <= CountPath(old(path), watched)
    {
      var top := path[|path| - 1];
      var kids := top.kids[..|top.kids| - 1];
      t := top.kids[|top.kids| - 1];
      CountTreesAppend(kids, t, watched);
      assert top.kids == kids + [t];
      CountPush(path[..|path| - 1], Frame(top.node, kids), watched);
      path := path[..|path| - 1] + [Frame(top.node, kids)];
      trace := trace + [path];
    }

    method LinkTree(t: PTree)
      requires path != []
      modifies this
      ensures path == AddKid(old(path), t) && trace == old(trace) + [path]
      ensures old(AtMostOnce()) && CountPath(path, watched) <= 1 ==> AtMostOnce()
    {
      var top := path[|path| - 1];
      path := path[..|path| - 1] + [Frame(top.node, top.kids + [t])];
      trace := trace + [path];
    }

    method CountNode(node: nat) returns (count: nat)
      ensures count == CountPath(path, node)
    {
      count := 0;
      assert path[..|path|] == path;
      for i := 0 to |path|
        invariant count == CountPath(path[..i], node)
      {
        assert path[..i + 1][..i] == path[..i];
        count := count + CountFrame(path[i], node);
      }
    }

    // ----- parse callbacks ----------------------------------------------------------------

    method ParseChild(g: Node, input: seq<Token>) returns (ret: Result)
      requires path != []
      modifies this
      ensures
        match Grammar.ParseChild(old(path), g, input)
        case ChildError => ret == Error && path == old(path)
        case ChildNoMatch => ret == NoMatch && path == old(path)
        case Matched(t) => ret == Match(|t.words|) && path == AddKid(old(path), t)
      ensures old(Guards(g)) ==> AtMostOnce()
      ensures old(trace) <= trace
      decreases g, 2
    {
      hide CountPath, Grammar.ParseBody;
      Link(g.id);
      ret := ParseBody(g, input);
      if ret.Error? || ret.NoMatch? {
        Unlink();
        return;
      }
      Finish(input[..ret.n]);
    }

    method ParseBody(g: Node, input: seq<Token>) returns (ret: Result)
      requires path != [] && Top() == Frame(g.id, [])
      modifies this
      ensures
        var b := Grammar.ParseBody(old(Below()), g, input);
        ret == b.ret && path == old(Below()) + [Frame(g.id, b.kids)]
      ensures old(AtMostOnce()) && Settled(watched, g) && UnderOnce(watched, g) ==> AtMostOnce()
      ensures old(trace) <= trace
      decreases g, 1
    {
      hide CountPath, SeqLoop, OrLoop, ManyLoop, SubsetRun, Grammar.ParseChild;
      assert path == Below() + [Frame(g.id, [])];
      match g {
        case Str(_, word) =>
          ret := if input == [] || input[0] != word then NoMatch else Match(1);
        case AnyWord(_) =>
          ret := if input == [] then NoMatch else Match(1);
        case Empty(_) =>
          ret := Match(0);
        case Broken(_) =>
          ret := Error;
        case Seq(_, kids) =>
          ret := SeqParse(g.id, kids, input);
        case Or(_, kids) =>
          ret := OrParse(g.id, kids, input);
        case Many(_, min, max, kid) =>
          ret := ManyParse(g.id, min, max, kid, input);
        case Opt(_, kid) =>
          ret := ParseOnly(g.id, kid, input);
          if ret.NoMatch? {
            ret := Match(0);
          }
        case Bypass(_, kid) =>
          ret := ParseOnly(g.id, kid, input);
        case Once(_, kid) =>
          var count := CountNode(kid.id);
          if count > 0 {
            return NoMatch;
          }
          ret := ParseOnly(g.id, kid, input);
        case Subset(_, min, kids) =>
          var err, count, len := SubsetSearch(g.id, kids, input);
          if err {
            return Error;
          }
          ret := if count < min then NoMatch else Match(len);
      }
    }

    /** The callback of a node with one child: its result is the child's. */
    method ParseOnly(id: nat, kid: Node, input: seq<Token>) returns (ret: Result)
      requires path != [] && Top() == Frame(id, [])
      modifies this
      ensures
        var b := Forward(Grammar.ParseChild(old(Below()) + [Frame(id, [])], kid, input));
        ret == b.ret && path == old(Below()) + [Frame(id, b.kids)]
      ensures old(Guards(kid)) ==> AtMostOnce()
      ensures old(trace) <= trace
      decreases kid, 3
    {
      hide CountPath, Settled, UnderOnce, Grammar.ParseChild;
      ghost var below := Below();
      assert path == below + [Frame(id, [])];
      ret := ParseChild(kid, input);
      if ret.Match? {
        AddFirst(below, id, Grammar.ParseChild(below + [Frame(id, [])], kid, input).t);
      }
    }

    method SeqParse(id: nat, kids: seq<Node>, input: seq<Token>) returns (ret: Result)
      requires path != [] && Top() == Frame(id, [])
      modifies this
      ensures
        var b := SeqLoop(old(Below()), id, kids, [], 0, input);
        ret == b.ret && path == old(Below()) + [Frame(id, b.kids)]
      ensures old(AtMostOnce())
              && (forall k :: k in kids ==> Settled(watched, k) && k.id != watched && UnderOnce(watched, k))
        ==> AtMostOnce()
      ensures old(trace) <= trace
      decreases kids, 0
    {
      hide CountPath, Settled, UnderOnce, Grammar.ParseChild;
      ghost var below := Below();
      var len: nat, i: nat := 0, 0;
      while i < |kids|
        invariant 0 <= i <= |kids| && len <= |input|
        invariant old(trace) <= trace
        invariant path != [] && path == below + [Frame(id, Top().kids)]
        invariant SeqLoop(below, id, kids[i..], Top().kids, len, input) == SeqLoop(below, id, kids, [], 0, input)
        invariant old(AtMostOnce())
                  && (forall k :: k in kids ==> Settled(watched, k) && k.id != watched && UnderOnce(watched, k))
          ==> AtMostOnce()
      {
        assert kids[i..][0] == kids[i] && kids[i..][1..] == kids[i + 1..];
        ret := ParseChild(kids[i], input[len..]);
        if ret.Error? {
          return;
        }
        if ret.NoMatch? {
          FreeChildren();
          return;
        }
        len := len + ret.n;
        i := i + 1;
      }
      ret := Match(len);
    }

    method OrParse(id: nat, kids: seq<Node>, input: seq<Token>) returns (ret: Result)
      requires path != [] && Top() == Frame(id, [])
      modifies this
      ensures
        var b := OrLoop(old(Below()), id, kids, input);
        ret == b.ret && path == old(Below()) + [Frame(id, b.kids)]
      ensures old(AtMostOnce())
              && (forall k :: k in kids ==> Settled(watched, k) && k.id != watched && UnderOnce(watched, k))
        ==> AtMostOnce()
      ensures old(trace) <= trace
      decreases kids, 0
    {
      hide CountPath, Settled, UnderOnce, Grammar.ParseChild;
      ghost var below := Below();
      for i := 0 to |kids|
        invariant old(trace) <= trace
        invariant path == below + [Frame(id, [])]
        invariant OrLoop(below, id, kids[i..], input) == OrLoop(below, id, kids, input)
        invariant old(AtMostOnce())
                  && (forall k :: k in kids ==> Settled(watched, k) && k.id != watched && UnderOnce(watched, k))
          ==> AtMostOnce()
      {
        assert kids[i..][0] == kids[i] && kids[i..][1..] == kids[i + 1..];
        ret := ParseChild(kids[i], input);
        if ret.NoMatch? {
          continue;
        }
        if ret.Match? {
          AddFirst(below, id, Grammar.ParseChild(below + [Frame(id, [])], kids[i], input).t);
        }
        return;
      }
      ret := NoMatch;
    }

    method ManyParse(id: nat, min: nat, max: nat, kid: Node, input: seq<Token>) returns (ret: Result)
      requires path != [] && Top() == Frame(id, [])
      modifies this
      ensures
        var b := ManyLoop(old(Below()), id, min, max, kid, 0, 0, [], input);
        ret == b.ret && path == old(Below()) + [Frame(id, b.kids)]
      ensures old(AtMostOnce()) && Settled(watched, kid) && kid.id != watched && UnderOnce(watched, kid)
        ==> AtMostOnce()
      ensures old(trace) <= trace
      decreases kid, 3
    {
      hide CountPath, CountFrame, Settled, UnderOnce, Grammar.ParseChild, AddKid, ManyLoop;
      ghost var below := Below();
      var off: nat, count: nat := 0, 0;
      ghost var done: seq<PTree> := [];
      while max == 0 || count < max
        invariant off <= |input| && (max != 0 ==> count <= max)
        invariant old(trace) <= trace
        invariant path == below + [Frame(id, done)]
        invariant ManyLoop(below, id, min, max, kid, count, off, done, input)
               == ManyLoop(below, id, min, max, kid, 0, 0, [], input)
        invariant old(AtMostOnce()) && Settled(watched, kid) && kid.id != watched && UnderOnce(watched, kid)
          ==> AtMostOnce()
        decreases if max == 0 then |input| - off else max - count
      {
        ManyStep(below, id, min, max, kid, count, off, done, input);
        ret := ParseChild(kid, input[off..]);
        if ret.Error? {
          return;
        }
        if ret.NoMatch? {
          break;
        }
        ghost var t := Grammar.ParseChild(below + [Frame(id, done)], kid, input[off..]).t;
        AddNext(below, id, done, t);
        if ret.n == 0 && max == 0 {
          var _ := UnlinkLast();
          break;
        }
        off := off + ret.n;
        count := count + 1;
        done := done + [t];
      }
      ManyStep(below, id, min, max, kid, count, off, done, input);
      if count < min {
        FreeChildren();
        return NoMatch;
      }
      ret := Match(off);
    }

    method SubsetSearch(id: nat, table: seq<Node>, input: seq<Token>) returns (err: bool, count: nat, len: nat)
      requires path != [] && Top().node == id
      modifies this
      ensures path != [] && path[..|path| - 1] == old(Below()) && Top().node == id
      ensures
        match SubsetRun(old(Below()), id, table, old(Top()).kids, input)
        case SubsetError(kids) => err && Top().kids == kids
        case Found(kids, c, l) => !err && count == c && len == l && Top().kids == kids
      ensures old(AtMostOnce()) && Calm(watched, table) ==> AtMostOnce()
      ensures old(trace) <= trace
      decreases table, 1
    {
      hide CountPath, Calm, Searching, Grammar.ParseChild, SubsetRun, AddKid, AtMostOnce;
      err, count, len := false, 0, 0;
      SubsetStart(Below(), id, table, Top().kids, input);
      if |table| == 0 {
        return;
      }
      ghost var below, start, calm := Below(), Top().kids, AtMostOnce() && Calm(watched, table);
      var best: Option<PTree> := None;
      SearchFirst(watched, calm, below, id, table, start, input);
      for i := 0 to |table|
        invariant old(trace) <= trace
        invariant path != [] && path == below + [Frame(id, Top().kids)]
        invariant Searching(watched, calm, below, id, table, i, start, Top().kids, input, best, count, len)
        invariant calm ==> AtMostOnce()
      {
        ghost var kids := Top().kids;
        SearchFails(watched, calm, below, id, table, i, start, kids, input, best, count, len);
        var ret, c, l, last := TryEntry(id, table, i, input);
        if ret.Error? {
          err := true;
          return;
        }
        if ret.NoMatch? {
          SearchSkip(watched, calm, below, id, table, i, start, kids, input, best, count, len);
          continue;
        }
        ghost var t := Grammar.ParseChild(below + [Frame(id, kids)], table[i], input).t;
        SearchTakes(watched, calm, below, id, table, i, start, kids, input, best, count, len, t);
        if c < count {
          continue;
        }
        best, count, len := last, c + 1, ret.n + l;
      }
      SearchEnds(watched, calm, below, id, table, start, Top().kids, input, best, count, len);
      if best.Some? {
        AddNext(below, id, Top().kids, best.value);
        LinkTree(best.value);
      }
    }

    /** One entry, then the others after it; the last child of what this leaves is taken out again. */
    method TryEntry(id: nat, table: seq<Node>, i: nat, input: seq<Token>)
      returns (ret: Result, count: nat, len: nat, last: Option<PTree>)
      requires path != [] && Top().node == id && i < |table|
      modifies this
      ensures path != [] && path[..|path| - 1] == old(Below()) && Top().node == id
      ensures
        match Grammar.ParseChild(old(path), table[i], input)
        case ChildError => ret == Error && path == old(path)
        case ChildNoMatch => ret == NoMatch && path == old(path)
        case Matched(t) =>
          match SubsetRun(old(Below()), id, Without(table, i), old(Top()).kids + [t], input[|t.words|..])
          case SubsetError(kids) => ret == Error && Top().kids == kids
          case Found(kids, c, l) =>
            && ret == Match(|t.words|) && count == c && len == l
            && last == Some(kids[|kids| - 1]) && Top().kids == kids[..|kids| - 1]
            && (old(AtMostOnce()) && Calm(watched, table) ==>
                  CountPath(old(Below()) + [Frame(id, kids)], watched) <= 1)
      ensures old(AtMostOnce()) && Calm(watched, table) ==> AtMostOnce()
      ensures old(trace) <= trace
      decreases table, 0
    {
      hide CountPath, Calm, Settled, UnderOnce, Grammar.ParseChild, SubsetRun, AddKid;
      count, len, last := 0, 0, None;
      ghost var below, kids := Below(), Top().kids;
      assert path == below + [Frame(id, kids)];
      if Calm(watched, table) {
        CalmEntry(watched, table, i);
      }
      ret := ParseChild(table[i], input);
      if !ret.Match? {
        return;
      }
      AddNext(below, id, kids, Grammar.ParseChild(below + [Frame(id, kids)], table[i], input).t);
      var err;
      err, count, len := SubsetSearch(id, table[..i] + table[i + 1..], input[ret.n..]);
      if err {
        return Error, 0, 0, None;
      }
      assert path == below + [Frame(id, Top().kids)];
      var t := UnlinkLast();
      last := Some(t);
    }
  }

  /**
   Parse from a fresh root. A node that the grammar only reaches through once
   nodes occurs at most once in the tree at every moment of the run.
   */
  method ParseRoot(g: Node, input: seq<Token>, ghost watched: nat) returns (state: ParseState, ret: Result)
    ensures fresh(state) && state.watched == watched
    ensures
      var b := Grammar.ParseBody([], g, input);
      ret == b.ret && state.path == [Frame(g.id, b.kids)]
    ensures Settled(watched, g) && UnderOnce(watched, g) ==> state.AtMostOnce()
  {
    hide Grammar.ParseBody, CountPath, Settled, UnderOnce;
    state := new ParseState(g.id, watched);
    RootCount(g.id, watched);
    assert state.path[..0] == [];
    ret := state.ParseBody(g, input);
    var top := Frame(g.id, Grammar.ParseBody([], g, input).kids);
    assert [] + [top] == [top];
  }
}
