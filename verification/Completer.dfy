/**
 Completion as it runs: the parse state is extended and rolled back around every
 callback, groups and counters are updated in place, and the table of a subset
 node is masked and restored in place.
 */
module Completer {
  import opened Prelude
  import opened Grammar
  import opened Completion
  import opened Parser

  function CountItems(items: seq<Item>, kind: ItemKind): nat {
    if items == [] then 0 else (if items[0].kind == kind then 1 else 0) + CountItems(items[1..], kind)
  }

  function CountKind(groups: seq<Group>, kind: ItemKind): nat {
    if groups == [] then 0 else CountItems(groups[0].items, kind) + CountKind(groups[1..], kind)
  }

  lemma {:induction false} CountKindAppend(groups: seq<Group>, g: Group, kind: ItemKind)
    ensures CountKind(groups + [g], kind) == CountKind(groups, kind) + CountItems(g.items, kind)
  {
    if groups == [] {
      assert groups + [g] == [g] && [g][1..] == [];
    } else {
      assert (groups + [g])[1..] == groups[1..] + [g];
      CountKindAppend(groups[1..], g, kind);
    }
  }

  lemma {:induction false} CountItemsAppend(items: seq<Item>, item: Item, kind: ItemKind)
    ensures CountItems(items + [item], kind) == CountItems(items, kind) + if item.kind == kind then 1 else 0
  {
    if items == [] {
      assert items + [item] == [item] && [item][1..] == [];
    } else {
      assert (items + [item])[1..] == items[1..] + [item];
      CountItemsAppend(items[1..], item, kind);
    }
  }

  /** The groups with an item added to one of them. */
  function PutItem(groups: seq<Group>, at: nat, item: Item): seq<Group>
    requires at < |groups|
  {
    groups[at := Group(groups[at].node, groups[at].items + [item])]
  }

  lemma CountNewGroup(groups: seq<Group>, node: nat)
    ensures forall kind :: CountKind(groups + [Group(node, [])], kind) == CountKind(groups, kind)
  {
    forall kind
      ensures CountKind(groups + [Group(node, [])], kind) == CountKind(groups, kind)
    {
      CountKindAppend(groups, Group(node, []), kind);
    }
  }

  lemma {:induction false} CountPutItem(groups: seq<Group>, at: nat, item: Item)
    requires at < |groups|
    ensures forall kind ::
      CountKind(PutItem(groups, at, item), kind) == CountKind(groups, kind) + if item.kind == kind then 1 else 0
  {
    var after := PutItem(groups, at, item);
    forall kind
      ensures CountKind(after, kind) == CountKind(groups, kind) + if item.kind == kind then 1 else 0
    {
      if at == 0 {
        CountItemsAppend(groups[0].items, item, kind);
        assert after[1..] == groups[1..];
      } else {
        CountPutItem(groups[1..], at - 1, item);
        assert after[1..] == PutItem(groups[1..], at - 1, item);
      }
    }
  }

  /** The children of a subset node, with null in place of the masked ones. */
  function Masked(table: seq<Node>, live: seq<bool>): seq<Option<Node>>
    requires |live| == |table|
  {
    seq(|table|, (i: nat) requires i < |table| => if live[i] then Some(table[i]) else None)
  }

  class Completer {
    const state: ParseState
    var groups: seq<Group>
    var curGroup: Option<nat>
    var countFull: nat
    var countPartial: nat
    var countUnknown: nat

    ghost predicate Valid()
      reads this
    {
      && countFull == CountKind(groups, FullItem)
      && countPartial == CountKind(groups, PartialItem)
      && countUnknown == CountKind(groups, UnknownItem)
      && (curGroup.Some? ==> curGroup.value < |groups|)
    }

    constructor (state: ParseState)
      ensures this.state == state && Valid() && groups == [] && curGroup == None
    {
      this.state := state;
      groups, curGroup := [], None;
      countFull, countPartial, countUnknown := 0, 0, 0;
    }

    /** Add an item to the current group, which is created last if there is none. */
    method AddItem(node: nat, item: Item)
      requires Valid()
      modifies this
      ensures Valid()
      ensures curGroup == Some(if old(curGroup) == None then |old(groups)| else old(curGroup).value)
      ensures
        var before := if old(curGroup) == None then old(groups) + [Group(node, [])] else old(groups);
        |groups| == |before| && groups == PutItem(before, curGroup.value, item)
    {
      hide CountKind;
      match item.kind {
        case UnknownItem => countUnknown := countUnknown + 1;
        case FullItem => countFull := countFull + 1;
        case PartialItem => countPartial := countPartial + 1;
      }
      if curGroup == None {
        CountNewGroup(groups, node);
        groups := groups + [Group(node, [])];
        curGroup := Some(|groups| - 1);
      }
      CountPutItem(groups, curGroup.value, item);
      var group := groups[curGroup.value];
      groups := groups[curGroup.value := Group(group.node, group.items + [item])];
    }

    /** Complete a node, leaving the parse state and the current group as they were. */
    method CompleteChild(g: Node, input: seq<Token>) returns (ok: bool)
      requires Valid()
      modifies this, state
      ensures Valid() && curGroup == old(curGroup)
      ensures state.path == old(state.path)
      ensures
        var r := Complete(old(state.path), g, input);
        ok == r.ok && groups == old(groups) + r.groups
      decreases g, 2, 0
    {
      state.Link(g.id);
      var saved := curGroup;
      curGroup := None;
      ok := CompleteNode(g, input);
      assert state.Top().kids == [];  // the assertion of the source
      state.Unlink();
      curGroup := saved;
    }

    /** The complete callback of the node, with its own pnode current. */
    method CompleteNode(g: Node, input: seq<Token>) returns (ok: bool)
      requires Valid() && curGroup == None
      requires state.path != [] && state.Top() == Frame(g.id, [])
      modifies this, state
      ensures Valid()
      ensures state.path == old(state.path)
      ensures
        var r := Complete(old(state.Below()), g, input);
        ok == r.ok && groups == old(groups) + r.groups
      decreases g, 1, 0
    {
      hide CountPath, CountKind, SeqOffer, OrOffer, ManyOffer, SubsetOffer, StartsWith;
      assert state.path == state.Below() + [Frame(g.id, [])];
      ok := true;
      match g {
        case Str(id, word) =>
          if |input| != 1 {
            return;
          }
          if !StartsWith(word.text, input[0].text) {
            return;
          }
          ok := AddNewItem(id, FullItem, Some(input[0].text), Some(word.text));
        case AnyWord(id) =>
          ok := CompleteUnknown(id, input);
        case Empty(id) =>
          ok := CompleteUnknown(id, input);
        case Broken(_) =>
          ok := false;
        case Seq(id, kids) =>
          ok := SeqComplete(id, kids, input);
        case Or(id, kids) =>
          ok := OrComplete(kids, input);
        case Many(id, _, max, kid) =>
          ok := ManyComplete(id, max, kid, input);
        case Opt(_, kid) =>
          ok := CompleteChild(kid, input);
        case Bypass(_, kid) =>
          ok := CompleteChild(kid, input);
        case Once(_, kid) =>
          var count := state.CountNode(kid.id);
          if count > 0 {
            return;
          }
          ok := CompleteChild(kid, input);
        case Subset(id, _, kids) =>
          var table := new Option<Node>[|kids|];
          forall i | 0 <= i < |kids| {
            table[i] := Some(kids[i]);
          }
          assert table[..] == Masked(kids, AllLive(kids));
          ok := SubsetComplete(id, table, kids, AllLive(kids), input);
      }
    }

    method AddNewItem(id: nat, kind: ItemKind, current: Option<string>, full: Option<string>) returns (ok: bool)
      requires Valid() && curGroup == None
      modifies this
      ensures Valid()
      ensures
        var r := One(id, MakeItem(kind, current, full));
        ok == r.ok && groups == old(groups) + r.groups
    {
      var item := MakeItem(kind, current, full);
      if item.None? {
        return false;
      }
      AddItem(id, item.value);
      assert [] + [item.value] == [item.value];
      ok := true;
    }

    method CompleteUnknown(id: nat, input: seq<Token>) returns (ok: bool)
      requires Valid() && curGroup == None
      modifies this
      ensures Valid()
      ensures
        var r := if |input| != 1 then NOTHING else One(id, MakeItem(UnknownItem, None, None));
        ok == r.ok && groups == old(groups) + r.groups
    {
      if |input| != 1 {
        return true;
      }
      ok := AddNewItem(id, UnknownItem, None, None);
    }

    method SeqComplete(id: nat, kids: seq<Node>, input: seq<Token>) returns (ok: bool)
      requires Valid() && state.path != [] && state.Top().node == id
      modifies this, state
      ensures Valid() && curGroup == old(curGroup)
      ensures state.path == old(state.path)
      ensures
        var r := SeqOffer(old(state.Below()), id, kids, old(state.Top()).kids, input);
        ok == r.ok && groups == old(groups) + r.groups
      decreases kids, 1, 0
    {
      hide CountPath, CountKind, Complete, SeqSplits;
      if |kids| == 0 {
        return true;
      }
      assert state.path == state.Below() + [Frame(id, state.Top().kids)];
      ok := CompleteChild(kids[0], input);
      if !ok {
        return;
      }
      ok := SeqCompleteSplits(id, kids, input);
    }

    /** Complete the rest after every prefix that the first node matches. */
    method SeqCompleteSplits(id: nat, kids: seq<Node>, input: seq<Token>) returns (ok: bool)
      requires Valid() && state.path != [] && state.Top().node == id && kids != []
      modifies this, state
      ensures Valid() && curGroup == old(curGroup)
      ensures state.path == old(state.path)
      ensures
        var r := SeqSplits(old(state.Below()), id, kids, old(state.Top()).kids, 0, input);
        ok == r.ok && groups == old(groups) + r.groups
      decreases kids, 0, |input|
    {
      hide CountPath, CountKind, SeqOffer, ParseChild;
      ghost var below, done, start := state.Below(), state.Top().kids, state.path;
      assert start == below + [Frame(id, done)];
      ghost var goal := SeqSplits(below, id, kids, done, 0, input);
      ok := true;
      for i := 0 to |input|
        invariant ok && Valid() && curGroup == old(curGroup)
        invariant state.path == start
        invariant var r := SeqSplits(below, id, kids, done, i, input);
          goal.ok == r.ok && old(groups) + goal.groups == groups + r.groups
      {
        var ret := state.ParseChild(kids[0], input[..i]);
        if ret.Error? {
          assert groups + [] == groups;
          return false;
        }
        if ret.NoMatch? {
          continue;
        }
        if ret.n != i {
          var _ := state.UnlinkLast();
          assert state.path == start;
          continue;
        }
        ok := SeqComplete(id, kids[1..], input[i..]);
        var _ := state.UnlinkLast();
        assert state.path == start;
        if !ok {
          return;
        }
      }
    }

    method OrComplete(kids: seq<Node>, input: seq<Token>) returns (ok: bool)
      requires Valid()
      modifies this, state
      ensures Valid() && curGroup == old(curGroup)
      ensures state.path == old(state.path)
      ensures
        var r := OrOffer(old(state.path), kids, input);
        ok == r.ok && groups == old(groups) + r.groups
      decreases kids, 0, 0
    {
      hide CountPath, CountKind, Complete;
      ghost var goal := OrOffer(state.path, kids, input);
      for n := 0 to |kids|
        invariant Valid() && curGroup == old(curGroup) && state.path == old(state.path)
        invariant var r := OrOffer(state.path, kids[n..], input);
          goal.ok == r.ok && old(groups) + goal.groups == groups + r.groups
      {
        assert kids[n..][0] == kids[n] && kids[n..][1..] == kids[n + 1..];
        ok := CompleteChild(kids[n], input);
        if !ok {
          return;
        }
      }
      ok := true;
    }

    method ManyComplete(id: nat, max: nat, kid: Node, input: seq<Token>) returns (ok: bool)
      requires Valid() && state.path != [] && state.Top() == Frame(id, [])
      modifies this, state
      ensures Valid() && curGroup == old(curGroup)
      ensures state.path == old(state.path)
      ensures
        var r := ManyOffer(old(state.Below()), id, max, kid, 0, [], input);
        ok == r.ok && groups == old(groups) + r.groups
      decreases kid, 4, 0
    {
      hide CountPath, CountKind, ManyOffer;
      assert state.path == state.Below() + [Frame(id, [])];
      var children;
      ok, children := ManyCompleteAll(id, max, kid, input);
      DeleteChildren(id, children);
    }

    /** Complete the child after every repetition; the repetitions stay in the parse state. */
    method ManyCompleteAll(id: nat, max: nat, kid: Node, input: seq<Token>) returns (ok: bool, children: nat)
      requires Valid() && state.path != [] && state.Top() == Frame(id, [])
      modifies this, state
      ensures Valid() && curGroup == old(curGroup)
      ensures state.path != [] && state.Below() == old(state.Below())
      ensures state.Top().node == id && |state.Top().kids| == children
      ensures
        var r := ManyOffer(old(state.Below()), id, max, kid, 0, [], input);
        ok == r.ok && groups == old(groups) + r.groups
      decreases kid, 3, 0
    {
      hide CountPath, CountKind, Complete, ParseChild, ManyOffer, AddKid;
      ghost var below := state.Below();
      ghost var goal := ManyOffer(below, id, max, kid, 0, [], input);
      var childvec := input;
      children := 0;
      ghost var done: seq<PTree> := [];
      while true
        invariant max != 0 ==> children < max
        invariant Valid() && curGroup == old(curGroup)
        invariant state.path == below + [Frame(id, done)] && |done| == children
        invariant var r := ManyOffer(below, id, max, kid, children, done, childvec);
          goal.ok == r.ok && old(groups) + goal.groups == groups + r.groups
        decreases if max == 0 then |childvec| else max - children
      {
        ManyTurn(below, id, max, kid, children, done, childvec);
        ok := CompleteChild(kid, childvec);
        if !ok || children + 1 == max {
          return;
        }
        var ret := state.ParseChild(kid, childvec);
        if ret.Error? {
          ok := false;
          return;
        }
        if ret.NoMatch? {
          return;
        }
        children := children + 1;
        ghost var t := ParseChild(below + [Frame(id, done)], kid, childvec).t;
        AddNext(below, id, done, t);
        done := done + [t];
        if max == 0 && ret.n == 0 {
          return;
        }
        childvec := childvec[ret.n..];
      }
    }

    /** Delete as many children of the current pnode as were added. */
    method DeleteChildren(id: nat, children: nat)
      requires state.path != [] && state.Top().node == id && |state.Top().kids| == children
      modifies state
      ensures state.path == old(state.Below()) + [Frame(id, [])]
    {
      hide CountPath;
      ghost var below := state.Below();
      assert state.path == below + [Frame(id, state.Top().kids)];
      for i := 0 to children
        invariant state.path != [] && state.path == below + [Frame(id, state.Top().kids)]
        invariant |state.Top().kids| == children - i
      {
        var _ := state.UnlinkLast();
      }
    }

    /** The table is masked while the others are completed, and given back as it was. */
    method SubsetComplete(id: nat, table: array<Option<Node>>, ghost all: seq<Node>, ghost live: seq<bool>,
                          input: seq<Token>) returns (ok: bool)
      requires Valid() && state.path != [] && state.Top().node == id
      requires |live| == |all| && table[..] == Masked(all, live)
      modifies this, state, table
      ensures Valid() && curGroup == old(curGroup)
      ensures state.path == old(state.path) && table[..] == old(table[..])
      ensures
        var r := SubsetOffer(old(state.Below()), id, all, live, old(state.Top()).kids, input);
        ok == r.ok && groups == old(groups) + r.groups
      decreases all, 1, LiveCount(live), 1
    {
      hide CountPath, CountKind, SubsetEach, SubsetNext;
      assert state.path == state.Below() + [Frame(id, state.Top().kids)];
      ok := SubsetCompleteEach(table, all, live, input);
      if !ok {
        return;
      }
      ok := SubsetCompleteNext(id, table, all, live, input);
    }

    method SubsetCompleteNext(id: nat, table: array<Option<Node>>, ghost all: seq<Node>, ghost live: seq<bool>,
                              input: seq<Token>) returns (ok: bool)
      requires Valid() && state.path != [] && state.Top().node == id
      requires |live| == |all| && table[..] == Masked(all, live)
      modifies this, state, table
      ensures Valid() && curGroup == old(curGroup)
      ensures state.path == old(state.path) && table[..] == old(table[..])
      ensures
        var r := SubsetNext(old(state.Below()), id, all, live, 0, old(state.Top()).kids, input);
        ok == r.ok && groups == old(groups) + r.groups
      decreases all, 1, LiveCount(live), 0
    {
      hide CountPath, CountKind, SubsetOffer, SubsetNext, ParseChild;
      ghost var below, done, start := state.Below(), state.Top().kids, state.path;
      assert start == below + [Frame(id, done)];
      ghost var goal := SubsetNext(below, id, all, live, 0, done, input);
      ok := true;
      for i := 0 to table.Length
        invariant ok && Valid() && curGroup == old(curGroup)
        invariant state.path == start && table[..] == Masked(all, live)
        invariant var r := SubsetNext(below, id, all, live, i, done, input);
          goal.ok == r.ok && old(groups) + goal.groups == groups + r.groups
      {
        assert table[i] == table[..][i];
        NextTurn(below, id, all, live, i, done, input);
        if table[i].None? {
          continue;
        }
        var ret := state.ParseChild(table[i].value, input);
        if ret.Error? {
          assert groups + [] == groups;
          return false;
        }
        if ret.NoMatch? {
          continue;
        }
        MaskingDecreases(live, i);
        ok := SubsetCompleteMasked(id, table, all, live, i, input[ret.n..]);
        var _ := state.UnlinkLast();
        assert state.path == start;
        if !ok {
          return;
        }
      }
      NextEnd(below, id, all, live, done, input);
    }

    /** Take one node out of the table, complete the others after it, and put it back. */
    method SubsetCompleteMasked(id: nat, table: array<Option<Node>>, ghost all: seq<Node>, ghost live: seq<bool>,
                                i: nat, input: seq<Token>) returns (ok: bool)
      requires Valid() && state.path != [] && state.Top().node == id
      requires |live| == |all| && table[..] == Masked(all, live) && i < |live| && live[i]
      modifies this, state, table
      ensures Valid() && curGroup == old(curGroup)
      ensures state.path == old(state.path) && table[..] == old(table[..])
      ensures
        var r := SubsetOffer(old(state.Below()), id, all, live[i := false], old(state.Top()).kids, input);
        ok == r.ok && groups == old(groups) + r.groups
      decreases all, 1, LiveCount(live[i := false]), 2
    {
      hide CountPath, CountKind, SubsetOffer;
      assert table[i] == table[..][i];
      var save := table[i];
      table[i] := None;
      assert table[..] == Masked(all, live[i := false]);
      ok := SubsetComplete(id, table, all, live[i := false], input);
      table[i] := save;
      assert table[..] == Masked(all, live);
    }

    method SubsetCompleteEach(table: array<Option<Node>>, ghost all: seq<Node>, ghost live: seq<bool>,
                              input: seq<Token>) returns (ok: bool)
      requires Valid() && |live| == |all| && table[..] == Masked(all, live)
      modifies this, state
      ensures Valid() && curGroup == old(curGroup)
      ensures state.path == old(state.path) && table[..] == old(table[..])
      ensures
        var r := SubsetEach(old(state.path), all, live, 0, input);
        ok == r.ok && groups == old(groups) + r.groups
      decreases all, 0
    {
      hide CountPath, CountKind, Complete;
      ghost var goal := SubsetEach(state.path, all, live, 0, input);
      for i := 0 to table.Length
        invariant Valid() && curGroup == old(curGroup)
        invariant state.path == old(state.path) && table[..] == Masked(all, live)
        invariant var r := SubsetEach(state.path, all, live, i, input);
          goal.ok == r.ok && old(groups) + goal.groups == groups + r.groups
      {
        assert table[i] == table[..][i];
        if table[i].None? {
          continue;
        }
        ok := CompleteChild(table[i].value, input);
        if !ok {
          return;
        }
      }
      ok := true;
    }
  }
}
