/** Iterating over a parse tree: first child, next sibling, or up until there is one. */
module PnodeIter {
  import opened Prelude
  import opened Grammar

  /** A pnode, as the children taken from the root of the iteration. */
  type Pos = seq<nat>

  predicate IsPos(t: PTree, pos: Pos) {
    pos == [] || (pos[0] < |t.kids| && IsPos(t.kids[pos[0]], pos[1..]))
  }

  function At(t: PTree, pos: Pos): PTree
    requires IsPos(t, pos)
  {
    if pos == [] then t else At(t.kids[pos[0]], pos[1..])
  }

  lemma {:induction false} PosSnoc(t: PTree, pos: Pos, i: nat)
    ensures IsPos(t, pos + [i]) <==> IsPos(t, pos) && i < |At(t, pos).kids|
    ensures IsPos(t, pos + [i]) ==> At(t, pos + [i]) == At(t, pos).kids[i]
    decreases pos
  {
    if pos == [] {
      assert [i][1..] == [];
    } else {
      assert (pos + [i])[1..] == pos[1..] + [i];
      if pos[0] < |t.kids| {
        PosSnoc(t.kids[pos[0]], pos[1..], i);
      }
    }
  }

  lemma ParentPos(t: PTree, pos: Pos)
    requires IsPos(t, pos) && pos != []
    ensures IsPos(t, pos[..|pos| - 1]) && pos[|pos| - 1] < |At(t, pos[..|pos| - 1]).kids|
    ensures At(t, pos) == At(t, pos[..|pos| - 1]).kids[pos[|pos| - 1]]
  {
    assert pos == pos[..|pos| - 1] + [pos[|pos| - 1]];
    PosSnoc(t, pos[..|pos| - 1], pos[|pos| - 1]);
  }

  // ----- preorder ----------------------------------------------------------------------------------

  /** The positions of a subtree, parents before children, children in order. */
  function Pre(t: PTree, pos: Pos): seq<Pos>
    decreases t, 1
  {
    [pos] + PreKids(t.kids, pos, 0)
  }

  function PreKids(kids: seq<PTree>, pos: Pos, i: nat): seq<Pos>
    decreases kids, 0
  {
    if kids == [] then [] else Pre(kids[0], pos + [i]) + PreKids(kids[1..], pos, i + 1)
  }

  /** The positions that come after the subtree at a position. */
  function Rest(t: PTree, pos: Pos): seq<Pos>
    requires IsPos(t, pos)
    decreases |pos|
  {
    if pos == [] then []
    else
      ParentPos(t, pos);
      var parent, i := pos[..|pos| - 1], pos[|pos| - 1];
      PreKids(At(t, parent).kids[i + 1..], parent, i + 1) + Rest(t, parent)
  }

  /** What remains to be visited after a position. */
  function After(t: PTree, pos: Pos, iterChildren: bool): seq<Pos>
    requires IsPos(t, pos)
  {
    (if iterChildren then PreKids(At(t, pos).kids, pos, 0) else []) + Rest(t, pos)
  }

  method IterNext(t: PTree, pos: Pos, iterChildren: bool) returns (next: Option<Pos>)
    requires IsPos(t, pos)
    ensures
      match next
      case None => After(t, pos, iterChildren) == []
      case Some(n) => IsPos(t, n) && After(t, pos, iterChildren) == [n] + After(t, n, true)
  {
    hide At, IsPos, Rest, PreKids;
    if iterChildren && At(t, pos).kids != [] {
      FirstChild(t, pos);
      return Some(pos + [0]);
    }
    NoKids(pos, 0);
    var pnode: Pos := pos;
    while pnode != []
      invariant IsPos(t, pnode) && After(t, pos, iterChildren) == Rest(t, pnode)
    {
      ParentPos(t, pnode);
      var parent, i := pnode[..|pnode| - 1], pnode[|pnode| - 1];
      if i + 1 < |At(t, parent).kids| {
        NextSibling(t, parent, i, pnode);
        return Some(parent + [i + 1]);
      }
      LastSibling(t, parent, i, pnode);
      pnode := parent;
    }
    RestRoot(t);
    return None;
  }

  lemma NoKids(pos: Pos, i: nat)
    ensures PreKids([], pos, i) == []
  {
  }

  lemma RestRoot(t: PTree)
    ensures IsPos(t, []) && Rest(t, []) == []
  {
  }

  lemma RestChild(t: PTree, parent: Pos, i: nat)
    requires IsPos(t, parent) && i < |At(t, parent).kids|
    ensures IsPos(t, parent + [i]) && At(t, parent + [i]) == At(t, parent).kids[i]
    ensures Rest(t, parent + [i]) == PreKids(At(t, parent).kids[i + 1..], parent, i + 1) + Rest(t, parent)
  {
    PosSnoc(t, parent, i);
    assert (parent + [i])[..|parent|] == parent;
  }

  lemma FirstChild(t: PTree, pos: Pos)
    requires IsPos(t, pos) && At(t, pos).kids != []
    ensures IsPos(t, pos + [0]) && After(t, pos, true) == [pos + [0]] + After(t, pos + [0], true)
  {
    hide At, IsPos, Rest;
    RestChild(t, pos, 0);
    var kids := At(t, pos).kids;
    assert PreKids(kids, pos, 0) == [pos + [0]] + PreKids(kids[0].kids, pos + [0], 0) + PreKids(kids[1..], pos, 1);
  }

  lemma NextSibling(t: PTree, parent: Pos, i: nat, pnode: Pos)
    requires IsPos(t, parent) && pnode == parent + [i] && i + 1 < |At(t, parent).kids|
    ensures IsPos(t, pnode) && IsPos(t, parent + [i + 1])
    ensures Rest(t, pnode) == [parent + [i + 1]] + After(t, parent + [i + 1], true)
  {
    hide At, IsPos, Rest;
    var kids := At(t, parent).kids;
    RestChild(t, parent, i);
    RestChild(t, parent, i + 1);
    assert kids[i + 1..][1..] == kids[i + 2..];
  }

  lemma LastSibling(t: PTree, parent: Pos, i: nat, pnode: Pos)
    requires IsPos(t, parent) && pnode == parent + [i] && i + 1 == |At(t, parent).kids|
    ensures IsPos(t, pnode) && Rest(t, pnode) == Rest(t, parent)
  {
    hide At, IsPos, Rest;
    RestChild(t, parent, i);
  }

  // ----- every pnode is visited once -----------------------------------------------------------------

  lemma {:induction false} PreHas(t: PTree, pos: Pos, below: Pos)
    requires IsPos(t, below)
    ensures pos + below in Pre(t, pos)
    decreases t, 1
  {
    if below == [] {
      assert pos + below == pos;
    } else {
      PreKidsHas(t.kids, pos, 0, below[0], below[1..]);
      assert pos + [below[0]] + below[1..] == pos + below;
    }
  }

  lemma {:induction false} PreKidsHas(kids: seq<PTree>, pos: Pos, i: nat, k: nat, below: Pos)
    requires k < |kids| && IsPos(kids[k], below)
    ensures pos + [i + k] + below in PreKids(kids, pos, i)
    decreases kids, 0
  {
    if k == 0 {
      PreHas(kids[0], pos + [i], below);
    } else {
      PreKidsHas(kids[1..], pos, i + 1, k - 1, below);
    }
  }

  /** How many of the positions hold a node. */
  function CountAt(t: PTree, list: seq<Pos>, id: nat): nat
    requires forall p :: p in list ==> IsPos(t, p)
  {
    if list == [] then 0
    else
      assert list[0] in list;
      (if At(t, list[0]).node == id then 1 else 0) + CountAt(t, list[1..], id)
  }

  lemma {:induction false} CountAppend(t: PTree, a: seq<Pos>, b: seq<Pos>, id: nat)
    requires forall p :: p in a + b ==> IsPos(t, p)
    ensures (forall p :: p in a ==> IsPos(t, p)) && (forall p :: p in b ==> IsPos(t, p))
    ensures CountAt(t, a + b, id) == CountAt(t, a, id) + CountAt(t, b, id)
    decreases a
  {
    assert forall p :: p in a || p in b ==> p in a + b;
    if a == [] {
      assert a + b == b;
    } else {
      assert (a + b)[1..] == a[1..] + b;
      CountAppend(t, a[1..], b, id);
    }
  }

  /** Counting over the positions of a subtree is counting over the subtree. */
  lemma {:induction false} CountPre(t: PTree, pos: Pos, id: nat)
    requires IsPos(t, pos)
    ensures forall p :: p in Pre(At(t, pos), pos) ==> IsPos(t, p)
    ensures CountAt(t, Pre(At(t, pos), pos), id) == CountTree(At(t, pos), id)
    decreases At(t, pos), 1
  {
    hide At, IsPos;
    var kids := At(t, pos).kids;
    assert kids[0..] == kids;
    CountPreKids(t, pos, 0, id);
    CountAppend(t, [pos], PreKids(kids, pos, 0), id);
    assert [pos][1..] == [];
  }

  lemma {:induction false} CountPreKids(t: PTree, pos: Pos, i: nat, id: nat)
    requires IsPos(t, pos) && i <= |At(t, pos).kids|
    ensures forall p :: p in PreKids(At(t, pos).kids[i..], pos, i) ==> IsPos(t, p)
    ensures CountAt(t, PreKids(At(t, pos).kids[i..], pos, i), id) == CountTrees(At(t, pos).kids[i..], id)
    decreases At(t, pos), 0, |At(t, pos).kids| - i
  {
    hide At, IsPos;
    var kids := At(t, pos).kids;
    if i < |kids| {
      PosSnoc(t, pos, i);
      assert kids[i] in kids && kids[i..][0] == kids[i] && kids[i..][1..] == kids[i + 1..];
      CountPre(t, pos + [i], id);
      CountPreKids(t, pos, i + 1, id);
      CountAppend(t, Pre(kids[i], pos + [i]), PreKids(kids[i + 1..], pos, i + 1), id);
    }
  }

  // ----- the order is fixed -------------------------------------------------------------------------

  /** A parent before what is below it, and siblings in order, with what is below them. */
  predicate Earlier(p: Pos, q: Pos) {
    if p == [] || q == [] then q != []
    else p[0] < q[0] || (p[0] == q[0] && Earlier(p[1..], q[1..]))
  }

  ghost predicate Sorted(list: seq<Pos>) {
    forall i, j :: 0 <= i < j < |list| ==> Earlier(list[i], list[j])
  }

  lemma {:induction false} EarlierBelow(pos: Pos, p: Pos, q: Pos)
    requires pos <= p && pos < q && (p == pos || (|p| > |pos| && p[|pos|] < q[|pos|]))
    ensures Earlier(p, q)
    decreases pos
  {
    if pos != [] {
      EarlierBelow(pos[1..], p[1..], q[1..]);
    }
  }

  lemma SortedBoth(a: seq<Pos>, b: seq<Pos>)
    requires Sorted(a) && Sorted(b) && forall p, q :: p in a && q in b ==> Earlier(p, q)
    ensures Sorted(a + b)
  {
    hide Earlier;
    var list := a + b;
    forall i, j | 0 <= i < j < |list|
      ensures Earlier(list[i], list[j])
    {
      if i < |a| && j >= |a| {
        assert list[i] in a && list[j] in b;
      }
    }
  }

  /** The preorder of a subtree is sorted: with PreHas, it is the only list of its positions that is. */
  lemma {:induction false} PreSorted(t: PTree, pos: Pos)
    ensures Sorted(Pre(t, pos)) && forall p :: p in Pre(t, pos) ==> pos <= p
    decreases t, 1
  {
    hide Earlier;
    PreKidsSorted(t.kids, pos, 0);
    var below := PreKids(t.kids, pos, 0);
    forall p | p in below
      ensures Earlier(pos, p)
    {
      EarlierBelow(pos, pos, p);
    }
    SortedBoth([pos], below);
  }

  lemma {:induction false} PreKidsSorted(kids: seq<PTree>, pos: Pos, i: nat)
    ensures Sorted(PreKids(kids, pos, i))
    ensures forall p :: p in PreKids(kids, pos, i) ==> pos < p && i <= p[|pos|]
    decreases kids, 0
  {
    hide Earlier;
    if kids != [] {
      PreSorted(kids[0], pos + [i]);
      PreKidsSorted(kids[1..], pos, i + 1);
      var first, rest := Pre(kids[0], pos + [i]), PreKids(kids[1..], pos, i + 1);
      forall p | p in first
        ensures pos < p && p[|pos|] == i
      {
        assert p[|pos|] == (pos + [i])[|pos|];
      }
      forall p, q | p in first && q in rest
        ensures Earlier(p, q)
      {
        EarlierBelow(pos, p, q);
      }
      SortedBoth(first, rest);
    }
  }

  // ----- counting and finding ----------------------------------------------------------------------

  lemma AfterRoot(t: PTree)
    ensures IsPos(t, []) && At(t, []) == t && Pre(t, []) == [[]] + After(t, [], true)
  {
  }

  /** Counting the pnodes of a node, over the iterator. */
  method Count(t: PTree, id: nat) returns (count: nat)
    ensures count == CountTree(t, id)
  {
    hide At, IsPos, Pre, After, CountTree, CountAt;
    AfterRoot(t);
    CountPre(t, [], id);
    ghost var rest := Pre(t, []);
    var iter: Option<Pos> := Some([]);
    count := 0;
    while iter.Some?
      invariant forall p :: p in rest ==> IsPos(t, p)
      invariant CountAt(t, Pre(t, []), id) == count + CountAt(t, rest, id)
      invariant
        match iter
        case None => rest == []
        case Some(n) => IsPos(t, n) && rest == [n] + After(t, n, true)
      decreases |rest|
    {
      CountFirst(t, rest, id);
      if At(t, iter.value).node == id {
        count := count + 1;
      }
      rest := rest[1..];
      iter := IterNext(t, iter.value, true);
    }
    CountNothing(t, id);
  }

  lemma CountFirst(t: PTree, list: seq<Pos>, id: nat)
    requires list != [] && forall p :: p in list ==> IsPos(t, p)
    ensures IsPos(t, list[0]) && forall p :: p in list[1..] ==> IsPos(t, p)
    ensures CountAt(t, list, id) == (if At(t, list[0]).node == id then 1 else 0) + CountAt(t, list[1..], id)
  {
  }

  lemma CountNothing(t: PTree, id: nat)
    ensures CountAt(t, [], id) == 0
  {
  }

  /** The first pnode of a node, in preorder, or none when the tree has no such pnode. */
  method Find(t: PTree, id: nat) returns (found: Option<Pos>)
    ensures found.None? <==> CountTree(t, id) == 0
    ensures found.Some? ==>
      && IsPos(t, found.value) && At(t, found.value).node == id
      && exists k :: 0 <= k < |Pre(t, [])| && Pre(t, [])[k] == found.value
           && forall j :: 0 <= j < k ==> IsPos(t, Pre(t, [])[j]) && At(t, Pre(t, [])[j]).node != id
  {
    hide At, IsPos, Pre, After, CountTree, CountAt;
    AfterRoot(t);
    CountPre(t, [], id);
    ghost var all := Pre(t, []);
    ghost var k := 0;
    found := Some([]);
    while found.Some? && At(t, found.value).node != id
      invariant 0 <= k <= |all|
      invariant forall j :: 0 <= j < k ==> IsPos(t, all[j]) && At(t, all[j]).node != id
      invariant forall p :: p in all[k..] ==> IsPos(t, p)
      invariant CountAt(t, all, id) == CountAt(t, all[k..], id)
      invariant
        match found
        case None => all[k..] == []
        case Some(n) => IsPos(t, n) && all[k..] == [n] + After(t, n, true)
      decreases |all| - k
    {
      CountFirst(t, all[k..], id);
      assert all[k..][1..] == all[k + 1..] && all[k..][0] == all[k];
      k := k + 1;
      found := IterNext(t, found.value, true);
    }
    CountNothing(t, id);
    if found.Some? {
      CountFirst(t, all[k..], id);
      assert all[k] == all[k..][0];
    }
  }
}
