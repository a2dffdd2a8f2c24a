/**
 The expression node: the operator tables, the layered grammar compiled from
 them, and the parser that the combinators run on that grammar.
 */
module ExprGrammar {
  import opened Prelude

  /** The nodes created by the build step; every other node belongs to the user. */
  datatype Role =
    | Top                    // the expression node itself
    | Ref                    // the back reference that closes the cycle
    | Post                   // value, prefix expression or parenthesis
    | PreSeq                 // prefix operator, then a whole expression
    | PreOr                  // choice of prefix operators
    | ParenSeq(paren: nat)   // open, expression, close
    | Term                   // operand and its postfix operators
    | PostMany | PostOr
    | Next(level: nat)       // one layer per binary operator
    | BinMany(level: nat)
    | BinSeq(level: nat)

  datatype NodeId = Built(role: Role) | User(id: nat)

  datatype Tree = Tree(node: NodeId, toks: seq<Token>, kids: seq<Tree>)

  /** A node given by the user: its identity and what it matches. */
  datatype Leaf = Leaf(id: nat, parse: seq<Token> -> Option<Tree>)

  datatype Config = Config(
    val: Leaf,
    bins: seq<Leaf>,
    pres: seq<Leaf>,
    posts: seq<Leaf>,
    opens: seq<Leaf>,
    closes: seq<Leaf>
  )

  datatype Kind = NoKind | Val | BinOp | PreOp | PostOp | ParenOpen | ParenClose

  predicate HasId(leaves: seq<Leaf>, id: nat) {
    exists i :: 0 <= i < |leaves| && leaves[i].id == id
  }

  /** The table a node comes from: tables are searched in a fixed order. */
  function KindOf(cfg: Config, node: NodeId): Kind {
    if node.Built? then NoKind
    else if node.id == cfg.val.id then Val
    else if HasId(cfg.bins, node.id) then BinOp
    else if HasId(cfg.pres, node.id) then PreOp
    else if HasId(cfg.posts, node.id) then PostOp
    else if HasId(cfg.opens, node.id) then ParenOpen
    else if HasId(cfg.closes, node.id) then ParenClose
    else NoKind
  }

  /** No node is registered in two tables, or below another registered node. */
  ghost predicate Separate(cfg: Config) {
    && Sealed(cfg)
    && (forall i :: 0 <= i < |cfg.bins| ==> KindOf(cfg, User(cfg.bins[i].id)) == BinOp)
    && (forall i :: 0 <= i < |cfg.pres| ==> KindOf(cfg, User(cfg.pres[i].id)) == PreOp)
    && (forall i :: 0 <= i < |cfg.posts| ==> KindOf(cfg, User(cfg.posts[i].id)) == PostOp)
    && (forall i :: 0 <= i < |cfg.opens| ==> KindOf(cfg, User(cfg.opens[i].id)) == ParenOpen)
    && (forall i :: 0 <= i < |cfg.closes| ==> KindOf(cfg, User(cfg.closes[i].id)) == ParenClose)
  }

  /** Nothing in the tree is a configured node. */
  predicate Inert(cfg: Config, t: Tree) {
    KindOf(cfg, t.node) == NoKind && forall k :: k in t.kids ==> Inert(cfg, k)
  }

  /** The subtrees of what the leaf builds are inert. */
  ghost predicate SealedLeaf(cfg: Config, leaf: Leaf) {
    forall input :: leaf.parse(input).Some? ==> forall k :: k in leaf.parse(input).value.kids ==> Inert(cfg, k)
  }

  ghost predicate SealedLeaves(cfg: Config, leaves: seq<Leaf>) {
    forall i :: 0 <= i < |leaves| ==> SealedLeaf(cfg, leaves[i])
  }

  /** No registered node occurs below another one. */
  ghost predicate Sealed(cfg: Config) {
    && SealedLeaf(cfg, cfg.val)
    && SealedLeaves(cfg, cfg.bins) && SealedLeaves(cfg, cfg.pres) && SealedLeaves(cfg, cfg.posts)
    && SealedLeaves(cfg, cfg.opens) && SealedLeaves(cfg, cfg.closes)
  }

  ghost predicate LeafOk(leaf: Leaf) {
    forall input :: leaf.parse(input).Some? ==>
      leaf.parse(input).value.node == User(leaf.id) && leaf.parse(input).value.toks <= input
  }

  ghost predicate LeavesOk(leaves: seq<Leaf>) {
    forall i :: 0 <= i < |leaves| ==> LeafOk(leaves[i])
  }

  /** The leaf never matches the empty vector. */
  ghost predicate Consumes(leaf: Leaf) {
    forall input :: leaf.parse(input).Some? ==> |leaf.parse(input).value.toks| > 0
  }

  ghost predicate Valid(cfg: Config) {
    && |cfg.opens| == |cfg.closes|
    && LeafOk(cfg.val)
    && LeavesOk(cfg.bins) && LeavesOk(cfg.pres) && LeavesOk(cfg.posts)
    && LeavesOk(cfg.opens) && LeavesOk(cfg.closes)
  }

  /** What breaks the left recursion of the cyclic grammar. */
  ghost predicate Guarded(cfg: Config) {
    && Valid(cfg)
    && (forall i :: 0 <= i < |cfg.pres| ==> Consumes(cfg.pres[i]))
    && (forall i :: 0 <= i < |cfg.opens| ==> Consumes(cfg.opens[i]))
  }

  // ----- the trees of the grammar ---------------------------------------------

  /** A tree of the user node registered as `kind`. */
  predicate IsOp(cfg: Config, kind: Kind, t: Tree) {
    KindOf(cfg, t.node) == kind && forall k :: k in t.kids ==> Inert(cfg, k)
  }

  /** An operator after a value is applied to it, whatever table it is first found in. */
  predicate IsPostOp(cfg: Config, t: Tree) {
    && t.node == Built(PostOr) && |t.kids| == 1 && t.toks == t.kids[0].toks
    && IsOneOf(cfg, {BinOp, PreOp, PostOp}, t.kids[0])
  }

  predicate IsOneOf(cfg: Config, kinds: set<Kind>, t: Tree) {
    KindOf(cfg, t.node) in kinds && forall k :: k in t.kids ==> Inert(cfg, k)
  }

  /** A pair of parentheses, either of which may be found in an earlier table. */
  predicate IsPair(cfg: Config, i: nat, open: Tree, close: Tree) {
    && i < |cfg.opens| && open.node == User(cfg.opens[i].id) && IsOneOf(cfg, {PreOp, ParenOpen}, open)
    && i < |cfg.closes| && close.node == User(cfg.closes[i].id)
    && IsOneOf(cfg, {BinOp, PreOp, PostOp, ParenOpen, ParenClose}, close)
  }

  predicate IsOperand(cfg: Config, t: Tree)
    decreases t, 0
  {
    || IsOp(cfg, Val, t)
    || (&& t.node == Built(PreSeq) && |t.kids| == 2
        && t.toks == t.kids[0].toks + t.kids[1].toks
        && t.kids[0].node == Built(PreOr) && |t.kids[0].kids| == 1
        && t.kids[0].toks == t.kids[0].kids[0].toks
        && IsOp(cfg, PreOp, t.kids[0].kids[0]) && IsRef(cfg, t.kids[1]))
    || (&& t.node.Built? && t.node.role.ParenSeq? && |t.kids| == 3
        && t.toks == t.kids[0].toks + t.kids[1].toks + t.kids[2].toks
        && IsPair(cfg, t.node.role.paren, t.kids[0], t.kids[2]) && IsRef(cfg, t.kids[1]))
  }

  predicate IsRef(cfg: Config, t: Tree)
    decreases t, 0
  {
    t.node == Built(Ref) && |t.kids| == 1 && t.toks == t.kids[0].toks && IsLevel(cfg, |cfg.bins|, t.kids[0])
  }

  predicate IsPost(cfg: Config, t: Tree)
    decreases t, 0
  {
    t.node == Built(Post) && |t.kids| == 1 && t.toks == t.kids[0].toks && IsOperand(cfg, t.kids[0])
  }

  predicate IsTerm(cfg: Config, t: Tree)
    decreases t, 0
  {
    && t.node == Built(Term) && |t.kids| == 2 && t.toks == t.kids[0].toks + t.kids[1].toks
    && IsPost(cfg, t.kids[0])
    && t.kids[1].node == Built(PostMany) && t.kids[1].toks == Toks(t.kids[1].kids)
    && forall k :: k in t.kids[1].kids ==> IsPostOp(cfg, k)
  }

  predicate IsStep(cfg: Config, level: nat, t: Tree)
    requires level < |cfg.bins|
    decreases t, 0
  {
    && t.node == Built(BinSeq(level)) && |t.kids| == 2 && t.toks == t.kids[0].toks + t.kids[1].toks
    && t.kids[0].node == User(cfg.bins[level].id)
    && IsOp(cfg, BinOp, t.kids[0]) && IsLevel(cfg, level, t.kids[1])
  }

  predicate IsLevel(cfg: Config, level: nat, t: Tree): (r: bool)
    requires level <= |cfg.bins|
    ensures r ==> t.node.Built?
    decreases t, 1
  {
    if level == 0 then IsTerm(cfg, t)
    else
      && t.node == Built(Next(level - 1)) && |t.kids| == 2 && t.toks == t.kids[0].toks + t.kids[1].toks
      && IsLevel(cfg, level - 1, t.kids[0])
      && t.kids[1].node == Built(BinMany(level - 1)) && t.kids[1].toks == Toks(t.kids[1].kids)
      && forall k :: k in t.kids[1].kids ==> IsStep(cfg, level - 1, k)
  }

  predicate IsTop(cfg: Config, t: Tree) {
    t.node == Built(Top) && |t.kids| == 1 && t.toks == t.kids[0].toks && IsLevel(cfg, |cfg.bins|, t.kids[0])
  }

  // ----- the layered parser ---------------------------------------------------

  /** The first leaf of the table that matches. */
  function ParseFirst(leaves: seq<Leaf>, input: seq<Token>): (r: Option<Tree>)
    requires LeavesOk(leaves)
    ensures r.Some? ==> r.value.toks <= input
    ensures r.Some? ==> exists i :: 0 <= i < |leaves| && leaves[i].parse(input) == r
  {
    if leaves == [] then None
    else
      var first := leaves[0].parse(input);
      if first.Some? then first
      else
        var r := ParseFirst(leaves[1..], input);
        assert r.Some? ==> exists i :: 0 <= i < |leaves[1..]| && leaves[1..][i].parse(input) == r;
        assert forall i :: 0 <= i < |leaves[1..]| ==> leaves[1..][i] == leaves[i + 1];
        r
  }

  function ParsePreOr(cfg: Config, input: seq<Token>): (r: Option<Tree>)
    requires Guarded(cfg)
    ensures r.Some? ==> 0 < |r.value.toks| && r.value.toks <= input
    ensures r.Some? ==> r.value.node == Built(PreOr) && |r.value.kids| == 1 && r.value.toks == r.value.kids[0].toks
    ensures r.Some? && Separate(cfg) ==> IsOp(cfg, PreOp, r.value.kids[0])
  {
    var op := ParseFirst(cfg.pres, input);
    if op.None? then None else Some(Tree(Built(PreOr), op.value.toks, [op.value]))
  }

  function ParsePostOr(cfg: Config, input: seq<Token>): (r: Option<Tree>)
    requires Guarded(cfg)
    ensures r.Some? ==> r.value.toks <= input
    ensures r.Some? && Separate(cfg) ==> IsPostOp(cfg, r.value)
  {
    var op := ParseFirst(cfg.posts, input);
    if op.None? then None else Some(Tree(Built(PostOr), op.value.toks, [op.value]))
  }

  /** Greedy repetition; a match of nothing is dropped and ends it. */
  function ParsePosts(cfg: Config, input: seq<Token>): (r: seq<Tree>)
    requires Guarded(cfg)
    ensures Toks(r) <= input
    ensures Separate(cfg) ==> forall k :: k in r ==> IsPostOp(cfg, k)
    decreases |input|
  {
    var op := ParsePostOr(cfg, input);
    if op.None? || op.value.toks == [] then []
    else
      var rest := ParsePosts(cfg, input[|op.value.toks|..]);
      PrefixOfPrefix(op.value.toks, Toks(rest), input);
      ToksCons(op.value, rest);
      [op.value] + rest
  }

  /** The words covered by consecutive trees. */
  function Toks(trees: seq<Tree>): seq<Token> {
    if trees == [] then [] else trees[0].toks + Toks(trees[1..])
  }

  lemma ToksCons(t: Tree, trees: seq<Tree>)
    ensures Toks([t] + trees) == t.toks + Toks(trees)
  {
    assert ([t] + trees)[1..] == trees;
  }

  function ParseRef(cfg: Config, input: seq<Token>): (r: Option<Tree>)
    requires Guarded(cfg)
    ensures r.Some? ==> r.value.toks <= input
    ensures r.Some? && Separate(cfg) ==> IsRef(cfg, r.value)
    ensures r.Some? && Consumes(cfg.val) ==> 0 < |r.value.toks|
    decreases |input|, 2 * |cfg.bins| + 2
  {
    var e := ParseLevel(cfg, |cfg.bins|, input);
    if e.None? then None else Some(Tree(Built(Ref), e.value.toks, [e.value]))
  }

  function ParsePreSeq(cfg: Config, input: seq<Token>): (r: Option<Tree>)
    requires Guarded(cfg)
    ensures r.Some? ==> r.value.toks <= input
    ensures r.Some? && Separate(cfg) ==> IsOperand(cfg, r.value)
    ensures r.Some? ==> 0 < |r.value.toks|
    decreases |input|, 0, 0
  {
    var op := ParsePreOr(cfg, input);
    if op.None? then None
    else
      var arg := ParseRef(cfg, input[|op.value.toks|..]);
      if arg.None? then None
      else
        PrefixOfPrefix(op.value.toks, arg.value.toks, input);
        Some(Tree(Built(PreSeq), op.value.toks + arg.value.toks, [op.value, arg.value]))
  }

  function ParseParen(cfg: Config, i: nat, input: seq<Token>): (r: Option<Tree>)
    requires Guarded(cfg) && i < |cfg.opens|
    ensures r.Some? ==> r.value.toks <= input
    ensures r.Some? && Separate(cfg) ==> IsOperand(cfg, r.value)
    ensures r.Some? ==> 0 < |r.value.toks|
    decreases |input|, 0, 0
  {
    var open := cfg.opens[i].parse(input);
    if open.None? then None
    else
      var rest := input[|open.value.toks|..];
      var arg := ParseRef(cfg, rest);
      if arg.None? then None
      else
        PrefixOfPrefix(open.value.toks, arg.value.toks, input);
        var close := cfg.closes[i].parse(rest[|arg.value.toks|..]);
        if close.None? then None
        else
          PrefixOfPrefix(open.value.toks + arg.value.toks, close.value.toks, input);
          Some(Tree(Built(ParenSeq(i)), open.value.toks + arg.value.toks + close.value.toks,
                    [open.value, arg.value, close.value]))
  }

  /** The parentheses from index i on, in the order they were added. */
  function ParseParens(cfg: Config, i: nat, input: seq<Token>): (r: Option<Tree>)
    requires Guarded(cfg) && i <= |cfg.opens|
    ensures r.Some? ==> r.value.toks <= input
    ensures r.Some? && Separate(cfg) ==> IsOperand(cfg, r.value)
    ensures r.Some? ==> 0 < |r.value.toks|
    decreases |input|, 0, 1 + |cfg.opens| - i
  {
    if i == |cfg.opens| then None
    else
      var p := ParseParen(cfg, i, input);
      if p.Some? then p else ParseParens(cfg, i + 1, input)
  }

  function ParsePost(cfg: Config, input: seq<Token>): (r: Option<Tree>)
    requires Guarded(cfg)
    ensures r.Some? ==> r.value.toks <= input
    ensures r.Some? && Separate(cfg) ==> IsPost(cfg, r.value)
    ensures r.Some? && Consumes(cfg.val) ==> 0 < |r.value.toks|
    decreases |input|, 0, 2 + |cfg.opens|
  {
    var v := cfg.val.parse(input);
    var p := if v.Some? then v else
               var pre := ParsePreSeq(cfg, input);
               if pre.Some? then pre else ParseParens(cfg, 0, input);
    if p.None? then None else Some(Tree(Built(Post), p.value.toks, [p.value]))
  }

  function ParseTerm(cfg: Config, input: seq<Token>): (r: Option<Tree>)
    requires Guarded(cfg)
    ensures r.Some? ==> r.value.toks <= input
    ensures r.Some? && Separate(cfg) ==> IsTerm(cfg, r.value)
    ensures r.Some? && Consumes(cfg.val) ==> 0 < |r.value.toks|
    decreases |input|, 0, 3 + |cfg.opens|
  {
    var post := ParsePost(cfg, input);
    if post.None? then None
    else
      var ops := ParsePosts(cfg, input[|post.value.toks|..]);
      PrefixOfPrefix(post.value.toks, Toks(ops), input);
      Some(Tree(Built(Term), post.value.toks + Toks(ops),
                [post.value, Tree(Built(PostMany), Toks(ops), ops)]))
  }

  /** Level 0 is the term; level i + 1 chains level i with binary operator i. */
  function ParseLevel(cfg: Config, level: nat, input: seq<Token>): (r: Option<Tree>)
    requires Guarded(cfg) && level <= |cfg.bins|
    ensures r.Some? ==> r.value.toks <= input
    ensures r.Some? && Separate(cfg) ==> IsLevel(cfg, level, r.value)
    ensures r.Some? && Consumes(cfg.val) ==> 0 < |r.value.toks|
    decreases |input|, 2 * level + 1
  {
    if level == 0 then ParseTerm(cfg, input)
    else
      var first := ParseLevel(cfg, level - 1, input);
      if first.None? then None
      else
        var steps := ParseSteps(cfg, level - 1, input[|first.value.toks|..]);
        PrefixOfPrefix(first.value.toks, Toks(steps), input);
        Some(Tree(Built(Next(level - 1)), first.value.toks + Toks(steps),
                  [first.value, Tree(Built(BinMany(level - 1)), Toks(steps), steps)]))
  }

  function ParseStep(cfg: Config, level: nat, input: seq<Token>): (r: Option<Tree>)
    requires Guarded(cfg) && level < |cfg.bins|
    ensures r.Some? ==> r.value.toks <= input
    ensures r.Some? && Separate(cfg) ==> IsStep(cfg, level, r.value)
    ensures r.Some? && Consumes(cfg.val) ==> 0 < |r.value.toks|
    decreases |input|, 2 * level + 2, 0
  {
    var op := cfg.bins[level].parse(input);
    if op.None? then None
    else
      var arg := ParseLevel(cfg, level, input[|op.value.toks|..]);
      if arg.None? then None
      else
        PrefixOfPrefix(op.value.toks, arg.value.toks, input);
        Some(Tree(Built(BinSeq(level)), op.value.toks + arg.value.toks, [op.value, arg.value]))
  }

  function ParseSteps(cfg: Config, level: nat, input: seq<Token>): (r: seq<Tree>)
    requires Guarded(cfg) && level < |cfg.bins|
    ensures Toks(r) <= input
    ensures Separate(cfg) ==> forall k :: k in r ==> IsStep(cfg, level, k)
    decreases |input|, 2 * level + 2, 1
  {
    var step := ParseStep(cfg, level, input);
    if step.None? || step.value.toks == [] then []
    else
      var rest := ParseSteps(cfg, level, input[|step.value.toks|..]);
      PrefixOfPrefix(step.value.toks, Toks(rest), input);
      ToksCons(step.value, rest);
      [step.value] + rest
  }

  function Parse(cfg: Config, input: seq<Token>): (r: Option<Tree>)
    requires Guarded(cfg)
    ensures r.Some? ==> r.value.toks <= input
    ensures r.Some? && Separate(cfg) ==> IsTop(cfg, r.value)
    ensures r.Some? && Consumes(cfg.val) ==> 0 < |r.value.toks|
  {
    var e := ParseLevel(cfg, |cfg.bins|, input);
    if e.None? then None else Some(Tree(Built(Top), e.value.toks, [e.value]))
  }
}
