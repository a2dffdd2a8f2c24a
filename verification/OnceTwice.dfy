/**
 A once node in a subset: with two entries, when its child ends up in the tree
 twice, told from what the entries match.
 */
module OnceTwice {
  import opened Prelude
  import opened Grammar
  import opened GrammarFacts
  import opened OnceFacts
  import opened SubsetTree
  import Parser

  /** What a once node makes of its child. */
  function Through(id: nat, r: ChildResult): ChildResult {
    match r
    case Matched(t) => Matched(PTree(id, [t], t.words))
    case _ => r
  }

  lemma {:induction false} OnceAt(p: Path, id: nat, c: Node, input: seq<Token>)
    requires NoOnce(c) && id != c.id
    ensures
      ParseChild(p, Once(id, c), input) ==
      if CountPath(p, c.id) > 0 then ChildNoMatch else Through(id, ParseChild([], c, input))
  {
    hide CountPath;
    CountOpen(p, id, c.id);
    PathIrrelevant(p + [Frame(id, [])], [], c, input);
    hide ParseChild;
    OnceBody(p, id, c, input);
  }

  lemma CountOpen(p: Path, id: nat, c: nat)
    requires id != c
    ensures CountPath(p + [Frame(id, [])], c) == CountPath(p, c)
  {
    CountPush(p, Frame(id, []), c);
  }

  lemma {:induction false} OnceBody(p: Path, id: nat, c: Node, input: seq<Token>)
    ensures
      ParseChild(p, Once(id, c), input) ==
      if CountPath(p + [Frame(id, [])], c.id) > 0 then ChildNoMatch
      else Through(id, ParseChild(p + [Frame(id, [])], c, input))
  {
  }

  /** The search over one entry. */
  lemma {:induction false} RunOne(path: Path, id: nat, g: Node, kids: seq<PTree>, input: seq<Token>)
    ensures
      SubsetRun(path, id, [g], kids, input) ==
      match ParseChild(path + [Frame(id, kids)], g, input)
      case ChildError => SubsetError(kids)
      case ChildNoMatch => Found(kids, 0, 0)
      case Matched(t) => Found(kids + [t], 1, |t.words|)
  {
    hide ParseChild;
    var r := ParseChild(path + [Frame(id, kids)], g, input);
    assert Without([g], 0) == [];
    if r.Matched? {
      assert SubsetRun(path, id, [], kids + [r.t], input[|r.t.words|..]) == Found(kids + [r.t], 0, 0);
      assert (kids + [r.t])[..|kids|] == kids;
      assert SubsetLoop(path, id, [g], 1, kids, input, Some(r.t), 1, |r.t.words|) == Found(kids + [r.t], 1,
                                                                                           |r.t.words|);
    } else if r.ChildNoMatch? {
      assert SubsetLoop(path, id, [g], 1, kids, input, None, 0, 0) == Found(kids, 0, 0);
    }
  }

  /** First one node, then the other. */
  predicate InTurn(a: Node, b: Node, input: seq<Token>) {
    Takes(a, input) && Takes(b, Rest(a, input))
  }

  /** A once node under test: its child c is not in the tree yet, nor in the other entry, and holds itself once. */
  ghost predicate Watched(path: Path, id: nat, a: Node, once: nat, c: Node) {
    && NoOnce(a) && NoOnce(c) && Absent(c.id, a) && c.id !in {id, once} && CountPath(path, c.id) == 0
    && forall i :: ParseChild([], c, i).Matched? ==> CountTree(ParseChild([], c, i).t, c.id) == 1
  }

  /** Under these children, the once node is blocked when its child is among them. */
  lemma {:induction false} EntriesAt(path: Path, id: nat, a: Node, once: nat, c: Node, kids: seq<PTree>,
                                     input: seq<Token>)
    requires Watched(path, id, a, once, c)
    ensures ParseChild(path + [Frame(id, kids)], a, input) == ParseChild([], a, input)
    ensures
      ParseChild(path + [Frame(id, kids)], Once(once, c), input) ==
      if CountTrees(kids, c.id) > 0 then ChildNoMatch else Through(once, ParseChild([], c, input))
  {
    PathIrrelevant(path + [Frame(id, kids)], [], a, input);
    CountPush(path, Frame(id, kids), c.id);
    hide ParseChild, CountPath;
    OnceAt(path + [Frame(id, kids)], once, c, input);
  }

  lemma CountOne(t: PTree, c: nat)
    ensures CountTrees([t], c) == CountTree(t, c)
  {
    assert [t][1..] == [];
  }

  /** What is left, and what was best, after the first of two entries, the second being the once node. */
  datatype Half = Half(kids: seq<PTree>, best: Option<PTree>, count: nat, len: nat)

  function AfterFirst(a: Node, once: nat, c: Node, input: seq<Token>): Half {
    if !Takes(a, input) then Half([], None, 0, 0)
    else
      var t := ParseChild([], a, input).t;
      if !InTurn(a, c, input) then Half([], Some(t), 1, |t.words|)
      else
        var u := ParseChild([], c, Rest(a, input)).t;
        Half([t], Some(PTree(once, [u], u.words)), 2, |t.words| + |u.words|)
  }

  /** A table of two entries, the second of them the once node. */
  predicate Two(table: seq<Node>, a: Node, once: nat, c: Node) { table == [a, Once(once, c)] }

  lemma TwoEntries(table: seq<Node>, a: Node, once: nat, c: Node)
    requires Two(table, a, once, c)
    ensures |table| == 2 && table[0] == a && table[1] == Once(once, c)
    ensures Without(table, 0) == [table[1]] && Without(table, 1) == [a]
  {
  }

  /** The once node alone, under children without its child. */
  lemma {:induction false} OnceRun(path: Path, id: nat, a: Node, once: nat, c: Node, kids: seq<PTree>,
                                   input: seq<Token>)
    requires Watched(path, id, a, once, c) && CountTrees(kids, c.id) == 0
    ensures
      SubsetRun(path, id, [Once(once, c)], kids, input) ==
      match ParseChild([], c, input)
      case ChildError => SubsetError(kids)
      case ChildNoMatch => Found(kids, 0, 0)
      case Matched(u) => Found(kids + [PTree(once, [u], u.words)], 1, |u.words|)
  {
    hide ParseChild, SubsetRun, Watched;
    EntriesAt(path, id, a, once, c, kids, input);
    RunOne(path, id, Once(once, c), kids, input);
  }

  /** The other entry alone. */
  lemma {:induction false} OtherRun(path: Path, id: nat, a: Node, once: nat, c: Node, kids: seq<PTree>,
                                    input: seq<Token>)
    requires Watched(path, id, a, once, c)
    ensures
      SubsetRun(path, id, [a], kids, input) ==
      match ParseChild([], a, input)
      case ChildError => SubsetError(kids)
      case ChildNoMatch => Found(kids, 0, 0)
      case Matched(u) => Found(kids + [u], 1, |u.words|)
  {
    hide ParseChild, SubsetRun, Watched;
    EntriesAt(path, id, a, once, c, kids, input);
    RunOne(path, id, a, kids, input);
  }

  lemma {:induction false} AbsentMatch(path: Path, id: nat, a: Node, once: nat, c: Node, input: seq<Token>)
    requires Watched(path, id, a, once, c) && Takes(a, input)
    ensures CountTree(ParseChild([], a, input).t, c.id) == 0 == CountTrees([ParseChild([], a, input).t], c.id)
  {
    AbsentTree([], a, input, c.id);
    CountOne(ParseChild([], a, input).t, c.id);
  }

  lemma {:induction false} AfterFirstIs(a: Node, once: nat, c: Node, input: seq<Token>, t: PTree)
    requires ParseChild([], a, input) == Matched(t)
    ensures
      AfterFirst(a, once, c, input) ==
      match ParseChild([], c, input[|t.words|..])
      case Matched(u) => Half([t], Some(PTree(once, [u], u.words)), 2, |t.words| + |u.words|)
      case _ => Half([], Some(t), 1, |t.words|)
  {
  }

  /** The state of the search after a turn in which the search of the others found this. */
  function Turned(kids: seq<PTree>, best: Option<PTree>, count: nat, len: nat, words: nat, r: SubsetResult): Half
    requires r.Found? && r.kids != []
  {
    var last := |r.kids| - 1;
    if r.count < count then Half(r.kids[..last], best, count, len)
    else Half(r.kids[..last], Some(r.kids[last]), r.count + 1, words + r.len)
  }

  /** One turn of the search. */
  lemma {:induction false} TakesTurn(path: Path, id: nat, table: seq<Node>, i: nat, h: Half, input: seq<Token>,
                                     t: PTree)
    requires i < |table| && h.len <= |input|
    requires ParseChild(path + [Frame(id, h.kids)], table[i], input) == Matched(t)
    requires SubsetLoop(path, id, table, i, h.kids, input, h.best, h.count, h.len).Found?
    ensures
      var r := SubsetRun(path, id, Without(table, i), h.kids + [t], input[|t.words|..]);
      && r.Found? && r.kids != []
      && var n := Turned(h.kids, h.best, h.count, h.len, |t.words|, r);
      && n.len <= |input|
      && SubsetLoop(path, id, table, i, h.kids, input, h.best, h.count, h.len)
      == SubsetLoop(path, id, table, i + 1, n.kids, input, n.best, n.count, n.len)
  {
    hide ParseChild, SubsetRun, SubsetLoop;
    Parser.SubsetTurn(path, id, table, i, h.kids, input, h.best, h.count, h.len);
  }

  lemma {:induction false} LastTurn(path: Path, id: nat, table: seq<Node>, h: Half, input: seq<Token>)
    requires h.len <= |input|
    ensures SubsetLoop(path, id, table, |table|, h.kids, input, h.best, h.count, h.len)
         == Found(if h.best.Some? then h.kids + [h.best.value] else h.kids, h.count, h.len)
  {
  }

  /** How often c is in the children, the best one included. */
  function Occurs(h: Half, c: nat): nat {
    CountTrees(h.kids, c) + if h.best.Some? then CountTree(h.best.value, c) else 0
  }

  lemma {:induction false} LastCount(path: Path, id: nat, table: seq<Node>, h: Half, input: seq<Token>, c: nat)
    requires h.len <= |input|
    ensures
      var r := SubsetLoop(path, id, table, |table|, h.kids, input, h.best, h.count, h.len);
      r.Found? && CountTrees(r.kids, c) == Occurs(h, c)
  {
    LastTurn(path, id, table, h, input);
    if h.best.Some? {
      CountTreesAppend(h.kids, h.best.value, c);
    }
  }

  /** The first turn, for an entry that matches. */
  lemma {:induction false} TakenFirst(path: Path, id: nat, table: seq<Node>, a: Node, once: nat, c: Node,
                                      input: seq<Token>,
                                      start: Half, t: PTree)
    requires Two(table, a, once, c) && Watched(path, id, a, once, c) && ParseChild([], a, input) == Matched(t)
    requires IsStart(start)
    requires SubsetLoop(path, id, table, 0, start.kids, input, start.best, start.count, start.len).Found?
    ensures
      var h := AfterFirst(a, once, c, input);
      && h.len <= |input|
      && SubsetLoop(path, id, table, 0, start.kids, input, start.best, start.count, start.len)
      == SubsetLoop(path, id, table, 1, h.kids, input, h.best, h.count, h.len)
  {
    hide ParseChild, SubsetRun, SubsetLoop, Watched, Without, AfterFirst, Turned, Two;
    TwoEntries(table, a, once, c);
    assert start.kids + [t] == [t] && start.len == 0;
    hide IsStart;
    EntriesAt(path, id, a, once, c, start.kids, input);
    TakesTurn(path, id, table, 0, start, input, t);
    FirstState(path, id, a, once, c, input, start, t);
  }

  lemma {:induction false} FirstState(path: Path, id: nat, a: Node, once: nat, c: Node, input: seq<Token>,
                                      start: Half, t: PTree)
    requires Watched(path, id, a, once, c) && ParseChild([], a, input) == Matched(t) && IsStart(start)
    requires SubsetRun(path, id, [Once(once, c)], [t], input[|t.words|..]).Found?
    ensures
      var r := SubsetRun(path, id, [Once(once, c)], [t], input[|t.words|..]);
      && r.kids != []
      && Turned(start.kids, start.best, start.count, start.len, |t.words|, r) == AfterFirst(a, once, c, input)
  {
    var rest := input[|t.words|..];
    AbsentMatch(path, id, a, once, c, input);
    AfterFirstIs(a, once, c, input, t);
    StartTurned(start, t, once, ParseChild([], c, rest));
    hide ParseChild, SubsetRun, Watched, AfterFirst, Turned, IsStart, CountTree, CountTrees;
    OnceRun(path, id, a, once, c, [t], rest);
  }

  predicate IsStart(h: Half) { h == Half([], None, 0, 0) }

  lemma {:induction false} StartTurned(start: Half, t: PTree, once: nat, r: ChildResult)
    requires IsStart(start)
    ensures start.len == 0
    ensures
      match r
      case ChildError => true
      case ChildNoMatch =>
        Turned(start.kids, start.best, start.count, start.len, |t.words|, Found([t], 0, 0))
        == Half([], Some(t), 1, |t.words|)
      case Matched(u) =>
        var o := PTree(once, [u], u.words);
        Turned(start.kids, start.best, start.count, start.len, |t.words|, Found([t] + [o], 1, |u.words|))
        == Half([t], Some(o), 2, |t.words| + |u.words|)
  {
    if r.Matched? {
      assert ([t] + [PTree(once, [r.t], r.t.words)])[..1] == [t];
    }
  }

  lemma {:induction false} FirstTurn(path: Path, id: nat, a: Node, once: nat, c: Node, input: seq<Token>)
    requires Watched(path, id, a, once, c) && SubsetRun(path, id, [a, Once(once, c)], [], input).Found?
    ensures
      var h := AfterFirst(a, once, c, input);
      && h.len <= |input|
      && SubsetRun(path, id, [a, Once(once, c)], [], input)
      == SubsetLoop(path, id, [a, Once(once, c)], 1, h.kids, input, h.best, h.count, h.len)
  {
    var table := [a, Once(once, c)];
    Parser.SubsetStart(path, id, table, [], input);
    hide ParseChild, SubsetRun, SubsetLoop, Watched, Without, AfterFirst;
    EntriesAt(path, id, a, once, c, [], input);
    if Takes(a, input) {
      TakenFirst(path, id, table, a, once, c, input, Half([], None, 0, 0), ParseChild([], a, input).t);
    } else {
      Parser.SubsetTurn(path, id, table, 0, [], input, None, 0, 0);
      NotTaken(a, once, c, input);
    }
  }

  lemma NotTaken(a: Node, once: nat, c: Node, input: seq<Token>)
    requires !Takes(a, input)
    ensures AfterFirst(a, once, c, input) == Half([], None, 0, 0)
  {
  }

  /** After the first turn the child is in the best tree, if at all. */
  lemma {:induction false} FirstOccurs(path: Path, id: nat, a: Node, once: nat, c: Node, input: seq<Token>)
    requires Watched(path, id, a, once, c)
    ensures
      var h := AfterFirst(a, once, c, input);
      && CountTrees(h.kids, c.id) == 0 && Occurs(h, c.id) == (if InTurn(a, c, input) then 1 else 0)
      && (h.count > 1 <==> InTurn(a, c, input)) && (h.count == 0 <==> !Takes(a, input)) && |h.kids| <= 1
      && (h.count <= 1 ==> h.kids == []) && (h.best.None? <==> h.count == 0)
  {
    hide ParseChild, Watched;
    if Takes(a, input) {
      AbsentMatch(path, id, a, once, c, input);
      if InTurn(a, c, input) {
        OnceCount(path, id, a, once, c, Rest(a, input));
      }
    }
  }

  lemma {:induction false} OnceCount(path: Path, id: nat, a: Node, once: nat, c: Node, input: seq<Token>)
    requires Watched(path, id, a, once, c) && Takes(c, input)
    ensures var u := ParseChild([], c, input).t; CountTree(PTree(once, [u], u.words), c.id) == 1
  {
    CountOne(ParseChild([], c, input).t, c.id);
  }

  lemma {:induction false} SecondAbsent(path: Path, id: nat, a: Node, once: nat, c: Node, input: seq<Token>, u: PTree)
    requires Watched(path, id, a, once, c) && ParseChild([], c, input) == Matched(u)
    ensures
      var r := ParseChild([], a, input[|u.words|..]);
      (r.Matched? <==> InTurn(c, a, input)) && (r.Matched? ==> CountTree(r.t, c.id) == 0)
  {
    if InTurn(c, a, input) {
      AbsentMatch(path, id, a, once, c, Rest(c, input));
    }
  }

  /** What is left after the second turn, when the once node matched. */
  lemma {:induction false} TakenSecond(path: Path, id: nat, table: seq<Node>, a: Node, once: nat, c: Node,
                                       input: seq<Token>,
                                       h: Half, u: PTree)
    requires Two(table, a, once, c) && Watched(path, id, a, once, c) && h == AfterFirst(a, once, c, input)
      && h.len <= |input|
    requires ParseChild([], c, input) == Matched(u)
    requires SubsetLoop(path, id, table, 1, h.kids, input, h.best, h.count, h.len).Found?
    ensures
      var r := SubsetLoop(path, id, table, 1, h.kids, input, h.best, h.count, h.len);
      CountTrees(r.kids, c.id) > 1 <==> InTurn(a, c, input) && InTurn(c, a, input)
  {
    var o := PTree(once, [u], u.words);
    FirstOccurs(path, id, a, once, c, input);
    OnceCount(path, id, a, once, c, input);
    TwoEntries(table, a, once, c);
    EntriesAt(path, id, a, once, c, h.kids, input);
    CountTreesAppend(h.kids, o, c.id);
    SecondAbsent(path, id, a, once, c, input, u);
    hide ParseChild, SubsetRun, SubsetLoop, Watched, Without, AfterFirst, CountTree, CountTrees, Two, InTurn;
    hide Turned, Occurs;
    TakesTurn(path, id, table, 1, h, input, o);
    OtherRun(path, id, a, once, c, h.kids + [o], input[|u.words|..]);
    var r := SubsetRun(path, id, [a], h.kids + [o], input[|u.words|..]);
    TurnedOccurs(h, o, |o.words|, r, c.id);
    LastCount(path, id, table, Turned(h.kids, h.best, h.count, h.len, |o.words|, r), input, c.id);
  }

  /** The occurrences after the second turn: with the other entry after the once node, and without. */
  lemma {:induction false} TurnedOccurs(h: Half, o: PTree, words: nat, r: SubsetResult, c: nat)
    requires r.Found? && (r.count == 0 ==> r.kids == h.kids + [o])
    requires r.count != 0 ==> r.count == 1 && |r.kids| == |h.kids| + 2 && r.kids[..|h.kids| + 1] == h.kids + [o]
    ensures r.kids != []
    ensures
      var own, rest := CountTrees(h.kids, c) + CountTree(o, c), CountTree(r.kids[|r.kids| - 1], c);
      Occurs(Turned(h.kids, h.best, h.count, h.len, words, r), c) ==
      if r.count == 0 then (if 0 < h.count then Occurs(h, c) else own)
      else if 1 < h.count then Occurs(h, c) + CountTree(o, c) else own + rest
  {
    hide CountTree, CountTrees;
    CountTreesAppend(h.kids, o, c);
    assert (h.kids + [o])[..|h.kids|] == h.kids;
  }

  /** The count of c at the end: the once node, when it matches after what was left, stays when the other follows it. */
  lemma {:induction false} SecondTurn(path: Path, id: nat, a: Node, once: nat, c: Node, input: seq<Token>, h: Half)
    requires Watched(path, id, a, once, c) && h == AfterFirst(a, once, c, input) && h.len <= |input|
    requires SubsetLoop(path, id, [a, Once(once, c)], 1, h.kids, input, h.best, h.count, h.len).Found?
    ensures
      var r := SubsetLoop(path, id, [a, Once(once, c)], 1, h.kids, input, h.best, h.count, h.len);
      CountTrees(r.kids, c.id) > 1 <==> InTurn(a, c, input) && InTurn(c, a, input)
  {
    FirstOccurs(path, id, a, once, c, input);
    EntriesAt(path, id, a, once, c, h.kids, input);
    hide ParseChild, SubsetRun, SubsetLoop, Watched, AfterFirst, CountTree, CountTrees, Occurs;
    if Takes(c, input) {
      TakenSecond(path, id, [a, Once(once, c)], a, once, c, input, h, ParseChild([], c, input).t);
    } else {
      Parser.SubsetTurn(path, id, [a, Once(once, c)], 1, h.kids, input, h.best, h.count, h.len);
      LastCount(path, id, [a, Once(once, c)], h, input, c.id);
    }
  }

  /**
   In a subset of two entries, of which the second is a once node, its child is
   in the tree twice if and only if each of the two can follow the other.
   */
  lemma {:induction false} TwiceIffBoth(path: Path, id: nat, min: nat, a: Node, once: nat, c: Node, input: seq<Token>)
    requires Watched(path, id, a, once, c)
    requires ParseChild(path, Subset(id, min, [a, Once(once, c)]), input).Matched?
    ensures
      var t := ParseChild(path, Subset(id, min, [a, Once(once, c)]), input).t;
      CountTree(t, c.id) > 1 <==> InTurn(a, c, input) && InTurn(c, a, input)
  {
    hide SubsetRun, SubsetLoop, Watched, Without, AfterFirst;
    FirstTurn(path, id, a, once, c, input);
    WatchedFacts(path, id, a, once, c);
    SecondTurn(path, id, a, once, c, input, AfterFirst(a, once, c, input));
  }

  // ----- twice ----------------------------------------------------------------------------------------

  /** Without errors the search finds an order. */
  lemma {:induction false} RunFinds(path: Path, id: nat, table: seq<Node>, kids: seq<PTree>, input: seq<Token>)
    requires forall p, j, i :: 0 <= j < |table| ==> !ParseChild(p, table[j], i).ChildError?
    ensures SubsetRun(path, id, table, kids, input).Found?
    decreases |table|, 1, 0
  {
    hide ParseChild, SubsetLoop;
    if table != [] {
      LoopFinds(path, id, table, 0, kids, input, None, 0, 0);
    }
  }

  lemma {:induction false} LoopFinds(path: Path, id: nat, table: seq<Node>, i: nat, kids: seq<PTree>,
                                     input: seq<Token>, best: Option<PTree>, count: nat, len: nat)
    requires i <= |table| && len <= |input|
    requires forall p, j, l :: 0 <= j < |table| ==> !ParseChild(p, table[j], l).ChildError?
    ensures SubsetLoop(path, id, table, i, kids, input, best, count, len).Found?
    decreases |table|, 0, |table| - i
  {
    hide ParseChild, SubsetRun;
    if i < |table| {
      var r := ParseChild(path + [Frame(id, kids)], table[i], input);
      if r.ChildNoMatch? {
        LoopFinds(path, id, table, i + 1, kids, input, best, count, len);
      } else {
        var rest := Without(table, i);
        forall p, j, l | 0 <= j < |rest|
          ensures !ParseChild(p, rest[j], l).ChildError?
        {
          assert rest[j] == table[if j < i then j else j + 1];
        }
        RunFinds(path, id, rest, kids + [r.t], input[|r.t.words|..]);
        var s := SubsetRun(path, id, rest, kids + [r.t], input[|r.t.words|..]);
        var last := |s.kids| - 1;
        if s.count < count {
          LoopFinds(path, id, table, i + 1, s.kids[..last], input, best, count, len);
        } else {
          LoopFinds(path, id, table, i + 1, s.kids[..last], input, Some(s.kids[last]), s.count + 1,
                    |r.t.words| + s.len);
        }
      }
    }
  }

  const ANY: Node := AnyWord(1)
  const CHILD: Node := AnyWord(3)

  lemma AnyIsWatched()
    ensures Watched([], 0, ANY, 2, CHILD)
  {
    forall i | ParseChild([], CHILD, i).Matched?
      ensures CountTree(ParseChild([], CHILD, i).t, 3) == 1
    {
      assert ParseChild([], CHILD, i).t.kids == [];
    }
  }

  /** Any word, and once any word, on two words. */
  lemma OnceIsTwice()
    ensures
      var r := ParseChild([], Subset(0, 0, [ANY, Once(2, CHILD)]), [A, B]);
      r.Matched? && CountTree(r.t, 3) > 1
    ensures UnderOnce(3, Subset(0, 0, [ANY, Once(2, CHILD)]))
  {
    AnyIsWatched();
    forall p, j, i | 0 <= j < 2
      ensures !ParseChild(p, [ANY, Once(2, CHILD)][j], i).ChildError?
    {
      NeverFails(p, i);
    }
    RunFinds([], 0, [ANY, Once(2, CHILD)], [], [A, B]);
    assert InTurn(ANY, CHILD, [A, B]) && InTurn(CHILD, ANY, [A, B]);
    hide SubsetRun, Watched, InTurn, CountTree;
    TwiceIffBoth([], 0, 0, ANY, 2, CHILD, [A, B]);
  }

  lemma NeverFails(p: Path, input: seq<Token>)
    ensures !ParseChild(p, ANY, input).ChildError? && !ParseChild(p, Once(2, CHILD), input).ChildError?
  {
    hide CountPath;
    OnceBody(p, 2, CHILD, input);
  }

  lemma WatchedFacts(path: Path, id: nat, a: Node, once: nat, c: Node)
    requires Watched(path, id, a, once, c)
    ensures NoOnce(a) && NoOnce(c) && Absent(c.id, a) && c.id !in {id, once} && CountPath(path, c.id) == 0
  {
  }
}
