/**
 Iterating over completion items, and the text that can be appended because all
 offers share it.
 */
module Interact {
  import opened Prelude
  import opened Grammar
  import opened Completion

  datatype Pos = Pos(group: nat, item: nat)

  ghost predicate InRange(groups: seq<Group>, p: Pos) {
    p.group < |groups| && p.item < |groups[p.group].items|
  }

  /** The wanted items of a group, in order. */
  function Select(items: seq<Item>, kinds: set<ItemKind>): seq<Item> {
    if items == [] then [] else (if items[0].kind in kinds then [items[0]] else []) + Select(items[1..], kinds)
  }

  function SelectAll(groups: seq<Group>, kinds: set<ItemKind>): seq<Item> {
    if groups == [] then [] else Select(groups[0].items, kinds) + SelectAll(groups[1..], kinds)
  }

  /** The wanted items from item i of group g on. */
  function From(groups: seq<Group>, g: nat, i: nat, kinds: set<ItemKind>): seq<Item>
    requires g < |groups| ==> i <= |groups[g].items|
  {
    if g < |groups| then Select(groups[g].items[i..], kinds) + SelectAll(groups[g + 1..], kinds) else []
  }

  /** The wanted items after a position, or all of them. */
  function After(groups: seq<Group>, at: Option<Pos>, kinds: set<ItemKind>): seq<Item>
    requires at.Some? ==> InRange(groups, at.value)
  {
    match at
    case None => SelectAll(groups, kinds)
    case Some(p) => From(groups, p.group, p.item + 1, kinds)
  }

  /** The items of all groups, in order. */
  function Items(groups: seq<Group>): seq<Item> {
    if groups == [] then [] else groups[0].items + Items(groups[1..])
  }

  /** The positions are those of the wanted items, in order. */
  ghost predicate Selects(at: seq<nat>, items: seq<Item>, kinds: set<ItemKind>) {
    && (forall i, j :: 0 <= i < j < |at| ==> at[i] < at[j])
    && (forall k :: k in at <==> 0 <= k < |items| && items[k].kind in kinds)
  }

  /** What is selected are the wanted items of all groups, each once and in order. */
  lemma {:induction false} SelectedItems(groups: seq<Group>, kinds: set<ItemKind>) returns (at: seq<nat>)
    ensures Selects(at, Items(groups), kinds) && |at| == |SelectAll(groups, kinds)|
    ensures forall i :: 0 <= i < |at| ==>
      at[i] < |Items(groups)| && SelectAll(groups, kinds)[i] == Items(groups)[at[i]]
  {
    at := SelectedAt(Items(groups), kinds);
    SelectIsAll(groups, kinds);
  }

  lemma {:induction false} SelectIsAll(groups: seq<Group>, kinds: set<ItemKind>)
    ensures SelectAll(groups, kinds) == Select(Items(groups), kinds)
  {
    if groups != [] {
      SelectIsAll(groups[1..], kinds);
      SelectBoth(groups[0].items, Items(groups[1..]), kinds);
    }
  }

  lemma {:induction false} SelectBoth(a: seq<Item>, b: seq<Item>, kinds: set<ItemKind>)
    ensures Select(a + b, kinds) == Select(a, kinds) + Select(b, kinds)
  {
    if a == [] {
      assert a + b == b;
    } else {
      assert (a + b)[1..] == a[1..] + b;
      SelectBoth(a[1..], b, kinds);
    }
  }

  lemma {:induction false} SelectedAt(items: seq<Item>, kinds: set<ItemKind>) returns (at: seq<nat>)
    ensures Selects(at, items, kinds) && |at| == |Select(items, kinds)|
    ensures forall i :: 0 <= i < |at| ==> at[i] < |items| && Select(items, kinds)[i] == items[at[i]]
  {
    if items == [] {
      at := [];
    } else {
      var last := |items| - 1;
      var front := items[..last];
      at := SelectedAt(front, kinds);
      assert items == front + [items[last]];
      SelectBoth(front, [items[last]], kinds);
      SelectOne(items[last], kinds);
      if items[last].kind in kinds {
        at := at + [last];
      }
    }
  }

  lemma SelectOne(item: Item, kinds: set<ItemKind>)
    ensures Select([item], kinds) == if item.kind in kinds then [item] else []
  {
    assert [item][1..] == [];
  }

  lemma FromStart(groups: seq<Group>, kinds: set<ItemKind>)
    ensures From(groups, 0, 0, kinds) == SelectAll(groups, kinds)
  {
    if groups != [] {
      assert groups[0].items[0..] == groups[0].items;
    }
  }

  lemma FromItem(groups: seq<Group>, g: nat, i: nat, kinds: set<ItemKind>)
    requires g < |groups| && i < |groups[g].items|
    ensures
      From(groups, g, i, kinds)
      == (if groups[g].items[i].kind in kinds then [groups[g].items[i]] else []) + From(groups, g, i + 1, kinds)
  {
    var items := groups[g].items;
    assert items[i..][1..] == items[i + 1..];
  }

  lemma FromGroup(groups: seq<Group>, g: nat, kinds: set<ItemKind>)
    requires g < |groups|
    ensures From(groups, g, |groups[g].items|, kinds) == From(groups, g + 1, 0, kinds)
  {
    var rest := groups[g + 1..];
    assert groups[g].items[|groups[g].items|..] == [];
    if rest != [] {
      assert rest[0].items[0..] == rest[0].items;
      assert rest[1..] == groups[g + 2..];
    }
  }

  /** The next wanted item, starting from the first one when there is no current item. */
  method IterNext(groups: seq<Group>, at: Option<Pos>, kinds: set<ItemKind>) returns (next: Option<Pos>)
    requires at.Some? ==> InRange(groups, at.value)
    ensures next.None? ==> After(groups, at, kinds) == []
    ensures next.Some? ==>
      && InRange(groups, next.value)
      && After(groups, at, kinds) == [groups[next.value.group].items[next.value.item]] + After(groups, next, kinds)
  {
    hide From, SelectAll, Select;
    var g: nat, i: nat := 0, 0;
    ghost var goal := After(groups, at, kinds);
    FromStart(groups, kinds);
    if at.Some? {
      g, i := at.value.group, at.value.item + 1;
      if i == |groups[g].items| {
        FromGroup(groups, g, kinds);
        g, i := g + 1, 0;
      }
    }
    while g < |groups|
      invariant g < |groups| ==> i <= |groups[g].items|
      invariant goal == From(groups, g, i, kinds)
      invariant g <= |groups|
    {
      while i < |groups[g].items|
        invariant i <= |groups[g].items|
        invariant goal == From(groups, g, i, kinds)
      {
        FromItem(groups, g, i, kinds);
        if groups[g].items[i].kind in kinds {
          return Some(Pos(g, i));
        }
        i := i + 1;
      }
      FromGroup(groups, g, kinds);
      g, i := g + 1, 0;
    }
    FromEnd(groups, i, kinds);
    return None;
  }

  lemma FromEnd(groups: seq<Group>, i: nat, kinds: set<ItemKind>)
    ensures From(groups, |groups|, i, kinds) == []
  {
  }

  /** The longest text that starts every completion. */
  ghost predicate IsCommonPrefix(r: string, items: seq<Item>) {
    forall item :: item in items ==> item.completion.Some? ==> r <= item.completion.value
  }

  lemma PrefixesShare(s: string, t: string, p: string)
    requires p <= s && p <= t
    ensures p <= s[..CommonLen(s, t)]
  {
  }

  lemma AfterNone(groups: seq<Group>, kinds: set<ItemKind>)
    ensures After(groups, None, kinds) == SelectAll(groups, kinds)
  {
  }

  method AppendChars(groups: seq<Group>) returns (r: string)
    requires forall item :: item in SelectAll(groups, {FullItem, PartialItem}) ==> item.completion.Some?
    ensures
      var items := SelectAll(groups, {FullItem, PartialItem});
      && IsCommonPrefix(r, items)
      && (items == [] ==> r == "")
      && (items != [] ==> forall p :: IsCommonPrefix(p, items) ==> p <= r)
  {
    hide SelectAll, After, CommonLen;
    var kinds := {FullItem, PartialItem};
    ghost var items := SelectAll(groups, kinds);
    ghost var seen: seq<Item> := [];
    var ret: Option<string> := None;
    AfterNone(groups, kinds);
    var at := IterNext(groups, None, kinds);
    while at.Some?
      invariant at.Some? ==> InRange(groups, at.value)
      invariant at.Some? ==> items == seen + [groups[at.value.group].items[at.value.item]] + After(groups, at, kinds)
      invariant at.None? ==> items == seen
      invariant ret.None? <==> seen == []
      invariant ret.Some? ==> IsCommonPrefix(ret.value, seen) && forall p :: IsCommonPrefix(p, seen) ==> p <= ret.value
      decreases |items| - |seen|, if at.Some? then 1 else 0
    {
      var item := groups[at.value.group].items[at.value.item];
      assert item in items by { assert items[|seen|] == item; }
      var append := item.completion.value;
      ghost var before := seen;
      seen := seen + [item];
      if ret.None? {
        ret := Some(append);
      } else {
        var n := StrcmpCount(ret.value, append);
        forall p | IsCommonPrefix(p, seen)
          ensures p <= ret.value[..n]
        {
          assert IsCommonPrefix(p, before);
          PrefixesShare(ret.value, append, p);
        }
        ret := Some(ret.value[..n]);
      }
      ghost var rest := After(groups, at, kinds);
      at := IterNext(groups, at, kinds);
      assert items == seen + rest;
    }
    r := if ret.None? then "" else ret.value;
  }

  lemma {:induction false} SelectedFit(groups: seq<Group>, input: seq<Token>, item: Item)
    requires Fits(groups, input) && item in SelectAll(groups, {FullItem, PartialItem})
    ensures ItemFits(item, input) && item.kind == FullItem
  {
    if item in Select(groups[0].items, {FullItem, PartialItem}) {
      SelectIn(groups[0].items, item);
      assert groups[0] in groups;
    } else {
      assert forall g :: g in groups[1..] ==> g in groups;
      SelectedFit(groups[1..], input, item);
    }
  }

  lemma {:induction false} SelectIn(items: seq<Item>, item: Item)
    requires item in Select(items, {FullItem, PartialItem})
    ensures item in items && item.kind in {FullItem, PartialItem}
  {
    if item != items[0] || items[0].kind !in {FullItem, PartialItem} {
      SelectIn(items[1..], item);
    }
  }

  /**
   Completing a node and appending what all offers share: the last word typed
   with the text appended starts every word offered.
   */
  method CompleteAndAppend(path: Path, g: Node, input: seq<Token>) returns (r: string)
    ensures
      forall item :: item in SelectAll(Complete(path, g, input).groups, {FullItem, PartialItem}) ==>
        && input != [] && item.full.Some?
        && input[|input| - 1].text + r <= item.full.value
  {
    var groups := Complete(path, g, input).groups;
    OffersFit(path, g, input);
    forall item | item in SelectAll(groups, {FullItem, PartialItem})
      ensures ItemFits(item, input) && item.kind == FullItem
    {
      SelectedFit(groups, input, item);
    }
    r := AppendChars(groups);
  }
}
