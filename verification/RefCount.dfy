/** Elements shared by several containers, and the references they count. */
module RefCount {
  import opened Prelude

  /** The references to an element, and how often it was released. */
  datatype Count = Count(refs: nat, released: nat)

  ghost function HolderSet<C, E>(lists: map<C, seq<E>>, e: E): set<C> {
    set t | t in lists && e in lists[t]
  }

  /** How many containers hold an element. */
  ghost function Holders<C, E>(lists: map<C, seq<E>>, e: E): nat { |HolderSet(lists, e)| }

  ghost function Extra<E>(extra: Option<E>, e: E): nat { if extra == Some(e) then 1 else 0 }

  ghost predicate CountIs(c: Count, refs: nat) { c == Count(refs, if refs == 0 then 1 else 0) }

  /**
   Every element is referenced by the containers that hold it (and once more when
   it is about to be stored), and was released once if and only if no one does.
   */
  ghost predicate Agrees<C, E>(lists: map<C, seq<E>>, counts: map<E, Count>, extra: Option<E>) {
    && (forall t, e :: t in lists && e in lists[t] ==> e in counts)
    && (extra.Some? ==> extra.value in counts)
    && forall e :: e in counts ==> CountIs(counts[e], Holders(lists, e) + Extra(extra, e))
  }

  /** Dropping a reference, and the element with the last one. */
  ghost function Unref(c: Count): Count {
    if c.refs == 0 then c else if c.refs == 1 then Count(0, c.released + 1) else c.(refs := c.refs - 1)
  }

  ghost predicate Loses<E>(before: seq<E>, after: seq<E>, e: E) {
    && (forall x :: x in after ==> x in before && x != e)
    && (forall x :: x in before && x != e ==> x in after)
  }

  ghost predicate Gains<E>(before: seq<E>, after: seq<E>, e: E) {
    && (forall x :: x in after ==> x in before || x == e)
    && (forall x :: x in before ==> x in after)
    && e in after
  }

  lemma HoldersOther<C, E>(lists: map<C, seq<E>>, t: C, list: seq<E>, e: E)
    requires t in lists && (e in lists[t] <==> e in list)
    ensures Holders(lists[t := list], e) == Holders(lists, e)
  {
    assert HolderSet(lists[t := list], e) == HolderSet(lists, e);
  }

  lemma HoldersLess<C, E>(lists: map<C, seq<E>>, t: C, list: seq<E>, e: E)
    requires t in lists && e in lists[t] && e !in list
    ensures Holders(lists[t := list], e) == Holders(lists, e) - 1
  {
    assert HolderSet(lists[t := list], e) == HolderSet(lists, e) - {t};
    assert t in HolderSet(lists, e);
  }

  lemma HoldersMore<C, E>(lists: map<C, seq<E>>, t: C, list: seq<E>, e: E)
    requires t in lists && e !in lists[t] && e in list
    ensures Holders(lists[t := list], e) == Holders(lists, e) + 1
  {
    assert HolderSet(lists[t := list], e) == HolderSet(lists, e) + {t};
    assert t !in HolderSet(lists, e);
  }

  lemma AgreesUnref<C, E>(lists: map<C, seq<E>>, counts: map<E, Count>, extra: Option<E>, t: C, list: seq<E>, e: E)
    requires Agrees(lists, counts, extra) && t in lists && e in lists[t] && Loses(lists[t], list, e)
    ensures e in counts && counts[e].refs > 0
    ensures Agrees(lists[t := list], counts[e := Unref(counts[e])], extra)
  {
    hide Holders;
    forall x | x in counts
      ensures Holders(lists[t := list], x) == Holders(lists, x) - if x == e then 1 else 0
    {
      if x == e {
        HoldersLess(lists, t, list, x);
      } else {
        HoldersOther(lists, t, list, x);
      }
    }
  }

  lemma AgreesStore<C, E>(lists: map<C, seq<E>>, counts: map<E, Count>, t: C, list: seq<E>, e: E)
    requires Agrees(lists, counts, Some(e)) && t in lists && e !in lists[t] && Gains(lists[t], list, e)
    ensures Agrees(lists[t := list], counts, None)
  {
    hide Holders;
    forall x | x in counts
      ensures Holders(lists[t := list], x) == Holders(lists, x) + if x == e then 1 else 0
    {
      if x == e {
        HoldersMore(lists, t, list, x);
      } else {
        HoldersOther(lists, t, list, x);
      }
    }
  }

  lemma AgreesNew<C, E>(lists: map<C, seq<E>>, counts: map<E, Count>, e: E)
    requires Agrees(lists, counts, None) && e !in counts
    ensures Agrees(lists, counts[e := Count(1, 0)], Some(e))
  {
    assert HolderSet(lists, e) == {};
  }

  lemma AgreesShare<C, E>(lists: map<C, seq<E>>, counts: map<E, Count>, t: C, e: E)
    requires Agrees(lists, counts, None) && t in lists && e in lists[t]
    ensures e in counts && Agrees(lists, counts[e := counts[e].(refs := counts[e].refs + 1)], Some(e))
  {
    assert t in HolderSet(lists, e);
  }

  lemma AgreesCreate<C, E>(lists: map<C, seq<E>>, counts: map<E, Count>, t: C)
    requires Agrees(lists, counts, None) && t !in lists
    ensures Agrees(lists[t := []], counts, None)
  {
    forall e | e in counts
      ensures Holders(lists[t := []], e) == Holders(lists, e)
    {
      assert HolderSet(lists[t := []], e) == HolderSet(lists, e);
    }
  }

  lemma AgreesGone<C, E>(lists: map<C, seq<E>>, counts: map<E, Count>, t: C)
    requires Agrees(lists, counts, None) && t in lists && lists[t] == []
    ensures Agrees(lists - {t}, counts, None)
  {
    forall e | e in counts
      ensures Holders(lists - {t}, e) == Holders(lists, e)
    {
      assert HolderSet(lists - {t}, e) == HolderSet(lists, e);
    }
  }

  lemma HeldIsCounted<C, E>(lists: map<C, seq<E>>, counts: map<E, Count>, extra: Option<E>, t: C, e: E)
    requires Agrees(lists, counts, extra) && t in lists && e in lists[t]
    ensures e in counts && counts[e].refs > 0
  {
    assert t in HolderSet(lists, e);
  }

  /** The only holder of an element with one reference. */
  lemma OnlyHolder<C, E>(lists: map<C, seq<E>>, counts: map<E, Count>, t: C, u: C, e: E)
    requires Agrees(lists, counts, None) && t in lists && u in lists && e in lists[t] && e in lists[u]
    requires e in counts && counts[e].refs <= 1
    ensures t == u
  {
    if t != u {
      assert {t, u} <= HolderSet(lists, e);
      FewerMembers({t, u}, HolderSet(lists, e));
    }
  }

  lemma {:induction false} FewerMembers<C>(a: set<C>, b: set<C>)
    requires a <= b
    ensures |a| <= |b|
    decreases a
  {
    if c :| c in a {
      FewerMembers(a - {c}, b - {c});
    }
  }
}
