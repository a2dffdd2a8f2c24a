/**
 Grammar nodes, parse trees, and what parsing a node computes. The parse state
 is the path from the root pnode to the current one; every pnode on the path
 has its finished children, and the next pnode of the path as its last child.
 */
module Grammar {
  import opened Prelude

  /** A node and its identity. Broken stands for a node whose callbacks report an error. */
  datatype Node =
    | Str(id: nat, word: Token)
    | AnyWord(id: nat)
    | Empty(id: nat)
    | Broken(id: nat)
    | Seq(id: nat, kids: seq<Node>)
    | Or(id: nat, kids: seq<Node>)
    | Many(id: nat, min: nat, max: nat, kid: Node)
    | Opt(id: nat, kid: Node)
    | Bypass(id: nat, kid: Node)
    | Once(id: nat, kid: Node)
    | Subset(id: nat, min: nat, kids: seq<Node>)

  /** A finished pnode: its node, its children and the words it matched. */
  datatype PTree = PTree(node: nat, kids: seq<PTree>, words: seq<Token>)

  /** A pnode being parsed. */
  datatype Frame = Frame(node: nat, kids: seq<PTree>)

  type Path = seq<Frame>

  datatype Result = Match(n: nat) | NoMatch | Error

  datatype ChildResult = Matched(t: PTree) | ChildNoMatch | ChildError

  /** The result of a parse callback and the children it leaves under its pnode. */
  datatype BodyResult = Body(ret: Result, kids: seq<PTree>)

  datatype SubsetResult = SubsetError(kids: seq<PTree>) | Found(kids: seq<PTree>, count: nat, len: nat)

  // ----- counting occurrences of a node ------------------------------------------------

  function CountTree(t: PTree, id: nat): nat {
    (if t.node == id then 1 else 0) + CountTrees(t.kids, id)
  }

  function CountTrees(kids: seq<PTree>, id: nat): nat {
    if kids == [] then 0 else CountTree(kids[0], id) + CountTrees(kids[1..], id)
  }

  function CountFrame(f: Frame, id: nat): nat {
    (if f.node == id then 1 else 0) + CountTrees(f.kids, id)
  }

  /** The count over the whole tree, from its root. */
  function CountPath(path: Path, id: nat): nat {
    if path == [] then 0 else CountPath(path[..|path| - 1], id) + CountFrame(path[|path| - 1], id)
  }

  // ----- parsing -----------------------------------------------------------------------

  function ParseChild(path: Path, g: Node, input: seq<Token>): (r: ChildResult)
    ensures r.Matched? ==> r.t.node == g.id && r.t.words <= input
    decreases g, 2
  {
    var b := ParseBody(path, g, input);
    match b.ret
    case Error => ChildError
    case NoMatch => ChildNoMatch
    case Match(n) => Matched(PTree(g.id, b.kids, input[..n]))
  }

  /** The parse callback of the node, called with a fresh pnode under `path`. */
  function ParseBody(path: Path, g: Node, input: seq<Token>): (b: BodyResult)
    ensures b.ret.Match? ==> b.ret.n <= |input|
    decreases g, 1
  {
    match g
    case Str(_, word) => Body(if input == [] || input[0] != word then NoMatch else Match(1), [])
    case AnyWord(_) => Body(if input == [] then NoMatch else Match(1), [])
    case Empty(_) => Body(Match(0), [])
    case Broken(_) => Body(Error, [])
    case Seq(id, kids) => SeqLoop(path, id, kids, [], 0, input)
    case Or(id, kids) => OrLoop(path, id, kids, input)
    case Many(id, min, max, kid) => ManyLoop(path, id, min, max, kid, 0, 0, [], input)
    case Opt(id, kid) =>
      (match ParseChild(path + [Frame(id, [])], kid, input)
       case ChildError => Body(Error, [])
       case ChildNoMatch => Body(Match(0), [])
       case Matched(t) => Body(Match(|t.words|), [t]))
    case Bypass(id, kid) => Forward(ParseChild(path + [Frame(id, [])], kid, input))
    case Once(id, kid) =>
      if CountPath(path + [Frame(id, [])], kid.id) > 0 then Body(NoMatch, [])
      else Forward(ParseChild(path + [Frame(id, [])], kid, input))
    case Subset(id, min, kids) =>
      (match SubsetRun(path, id, kids, [], input)
       case SubsetError(left) => Body(Error, left)
       case Found(left, count, len) => if count < min then Body(NoMatch, left) else Body(Match(len), left))
  }

  function Forward(r: ChildResult): BodyResult {
    match r
    case ChildError => Body(Error, [])
    case ChildNoMatch => Body(NoMatch, [])
    case Matched(t) => Body(Match(|t.words|), [t])
  }

  /** The rest of a sequence, with the children and words matched so far. */
  function SeqLoop(path: Path, id: nat, kids: seq<Node>, done: seq<PTree>, len: nat, input: seq<Token>): (b: BodyResult)
    requires len <= |input|
    ensures b.ret.Match? ==> b.ret.n <= |input|
    decreases kids, 0
  {
    if kids == [] then Body(Match(len), done)
    else
      match ParseChild(path + [Frame(id, done)], kids[0], input[len..])
      case ChildError => Body(Error, done)
      case ChildNoMatch => Body(NoMatch, [])
      case Matched(t) => SeqLoop(path, id, kids[1..], done + [t], len + |t.words|, input)
  }

  function OrLoop(path: Path, id: nat, kids: seq<Node>, input: seq<Token>): (b: BodyResult)
    ensures b.ret.Match? ==> b.ret.n <= |input|
    decreases kids, 0
  {
    if kids == [] then Body(NoMatch, [])
    else
      var r := ParseChild(path + [Frame(id, [])], kids[0], input);
      if r.ChildNoMatch? then OrLoop(path, id, kids[1..], input) else Forward(r)
  }

  /** The rest of a repetition, after `count` matches of `off` words. */
  function ManyLoop(path: Path, id: nat, min: nat, max: nat, kid: Node, count: nat, off: nat,
                    done: seq<PTree>, input: seq<Token>): (b: BodyResult)
    requires off <= |input|
    ensures b.ret.Match? ==> b.ret.n <= |input|
    decreases kid, 3, if max == 0 then |input| - off else if count < max then max - count else 0
  {
    if max != 0 && count >= max then ManyEnd(min, count, off, done)
    else
      match ParseChild(path + [Frame(id, done)], kid, input[off..])
      case ChildError => Body(Error, done)
      case ChildNoMatch => ManyEnd(min, count, off, done)
      case Matched(t) =>
        if t.words == [] && max == 0 then ManyEnd(min, count, off, done)
        else ManyLoop(path, id, min, max, kid, count + 1, off + |t.words|, done + [t], input)
  }

  function ManyEnd(min: nat, count: nat, off: nat, done: seq<PTree>): BodyResult {
    if count < min then Body(NoMatch, []) else Body(Match(off), done)
  }

  function Without<T>(s: seq<T>, i: nat): (r: seq<T>)
    requires i < |s|
    ensures |r| == |s| - 1
  {
    s[..i] + s[i + 1..]
  }

  /** The search over the nodes left in the table, under a pnode with these children. */
  function SubsetRun(path: Path, id: nat, table: seq<Node>, kids: seq<PTree>, input: seq<Token>): (r: SubsetResult)
    ensures r.Found? ==> r.len <= |input| && |r.kids| >= |kids|
    decreases table, 1
  {
    if table == [] then Found(kids, 0, 0)
    else SubsetLoop(path, id, table, 0, kids, input, None, 0, 0)
  }

  /** The candidates from index i on, with the best pnode, count and length found before. */
  function SubsetLoop(path: Path, id: nat, table: seq<Node>, i: nat, kids: seq<PTree>, input: seq<Token>,
                      best: Option<PTree>, count: nat, len: nat): (r: SubsetResult)
    requires i <= |table| && len <= |input|
    ensures r.Found? ==> r.len <= |input| && |r.kids| >= |kids|
    decreases table, 0, |table| - i
  {
    if i == |table| then Found(if best.Some? then kids + [best.value] else kids, count, len)
    else
      match ParseChild(path + [Frame(id, kids)], table[i], input)
      case ChildError => SubsetError(kids)
      case ChildNoMatch => SubsetLoop(path, id, table, i + 1, kids, input, best, count, len)
      case Matched(t) =>
        var r := SubsetRun(path, id, Without(table, i), kids + [t], input[|t.words|..]);
        if r.SubsetError? then r
        else
          var last := |r.kids| - 1;
          if r.count < count then SubsetLoop(path, id, table, i + 1, r.kids[..last], input, best, count, len)
          else SubsetLoop(path, id, table, i + 1, r.kids[..last], input, Some(r.kids[last]),
                          r.count + 1, |t.words| + r.len)
  }
}
