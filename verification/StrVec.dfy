/**
 String vectors: a duplicate shares the strings of its original by reference
 count, and setting the attributes of a shared string copies it first.
 */
module StrVec {
  import opened Prelude
  import opened RefCount

  class VecElt {
    const str: string
    var attrs: Option<int>
    var refcnt: nat
    var released: nat

    constructor (str: string)
      ensures this.str == str && attrs == None && refcnt == 1 && released == 0
    {
      this.str, attrs, refcnt, released := str, None, 1, 0;
    }
  }

  type Lists = map<Vec, seq<VecElt>>

  type Counts = map<VecElt, Count>

  /** The strings of a vector and their attributes. */
  ghost function Show(vec: seq<VecElt>): (r: seq<(string, Option<int>)>)
    reads vec`attrs
    ensures |r| == |vec|
  {
    if vec == [] then [] else Show(vec[..|vec| - 1]) + [(vec[|vec| - 1].str, vec[|vec| - 1].attrs)]
  }

  lemma {:induction false} ShowAt(vec: seq<VecElt>)
    ensures forall i :: 0 <= i < |vec| ==> Show(vec)[i] == (vec[i].str, vec[i].attrs)
    decreases |vec|
  {
    if vec != [] {
      ShowAt(vec[..|vec| - 1]);
    }
  }

  ghost predicate Distinct(vec: seq<VecElt>) {
    forall i, j :: 0 <= i < j < |vec| ==> vec[i] != vec[j]
  }

  /** All the vectors that are alive, and all the strings that were ever made. */
  class Pool {
    ghost var vecs: set<Vec>
    ghost var elts: set<VecElt>

    constructor ()
      ensures Valid() && vecs == {} && elts == {}
    {
      vecs, elts := {}, {};
      new;
      assert Lists() == map[] && CountsOf() == map[];
    }

    ghost function Lists(): Lists
      reads this, vecs
    {
      map v | v in vecs :: v.vec
    }

    ghost function CountsOf(): Counts
      reads this, elts
    {
      map e | e in elts :: Count(e.refcnt, e.released)
    }

    ghost predicate Consistent(extra: Option<VecElt>)
      reads this, vecs, elts
    {
      && (forall v :: v in vecs ==> v.pool == this && Distinct(v.vec))
      && Agrees(Lists(), CountsOf(), extra)
    }

    ghost predicate Valid()
      reads this, vecs, elts
    {
      Consistent(None)
    }

    method Create() returns (v: Vec)
      requires Valid()
      modifies this
      ensures Valid() && fresh(v) && v.pool == this && v.vec == []
      ensures vecs == old(vecs) + {v} && elts == old(elts)
    {
      hide Agrees;
      ghost var lists, counts := Lists(), CountsOf();
      v := new Vec(this);
      vecs := vecs + {v};
      AgreesCreate(lists, counts, v);
      ListsUpdate(this, lists, v);
      assert CountsOf() == counts;
    }
  }

  lemma ListsUpdate(pool: Pool, lists: Lists, v: Vec)
    requires v in pool.vecs && pool.vecs == lists.Keys + {v}
    requires forall u :: u in pool.vecs && u != v ==> u.vec == lists[u]
    ensures pool.Lists() == lists[v := v.vec]
  {
  }

  lemma Known(pool: Pool, v: Vec, e: VecElt, extra: Option<VecElt>)
    requires pool.Consistent(extra) && v in pool.vecs && e in v.vec
    ensures e in pool.elts && e.refcnt > 0
  {
    HeldIsCounted<Vec, VecElt>(pool.Lists(), pool.CountsOf(), extra, v, e);
  }

  method EltFree(e: VecElt, ghost pool: Pool)
    requires e in pool.elts && e.refcnt > 0
    modifies e`refcnt, e`released
    ensures pool.CountsOf() == old(pool.CountsOf())[e := Unref(old(pool.CountsOf())[e])]
  {
    e.refcnt := e.refcnt - 1;
    if e.refcnt == 0 {
      e.released := e.released + 1;
    }
  }

  /** A new string, not in a vector yet. */
  method EltNew(s: string, pool: Pool) returns (e: VecElt)
    requires pool.Valid()
    modifies pool
    ensures fresh(e) && e.str == s && e.attrs == None && e.refcnt == 1
    ensures pool.vecs == old(pool.vecs) && pool.elts == old(pool.elts) + {e}
    ensures pool.Consistent(Some(e))
    ensures forall v :: v in pool.vecs ==> e !in v.vec
  {
    hide Agrees;
    ghost var lists, counts := pool.Lists(), pool.CountsOf();
    e := new VecElt(s);
    AgreesNew(lists, counts, e);
    forall v | v in pool.vecs
      ensures e !in v.vec
    {
      if e in v.vec {
        Known(pool, v, e, None);
      }
    }
    pool.elts := pool.elts + {e};
    assert pool.Lists() == lists;
    assert pool.CountsOf() == counts[e := Count(1, 0)];
  }

  class Vec {
    const pool: Pool
    var vec: seq<VecElt>

    constructor (pool: Pool)
      ensures this.pool == pool && vec == []
    {
      this.pool, vec := pool, [];
    }

    ghost function Content(): seq<(string, Option<int>)>
      reads this, vec`attrs
    {
      Show(vec)
    }

    method Add(s: string)
      requires this in pool.vecs && pool.Valid()
      modifies this, pool
      ensures pool.Valid() && pool.vecs == old(pool.vecs)
      ensures Content() == old(Content()) + [(s, None)]
      ensures forall v :: v in pool.vecs && v != this ==> v.Content() == old(v.Content())
    {
      hide Agrees;
      var e := EltNew(s, pool);
      Store(e);
    }

    /** Adding a string and handing over the reference to it. */
    method Store(e: VecElt)
      requires this in pool.vecs && pool.Consistent(Some(e)) && e !in vec
      modifies this
      ensures pool.Valid() && vec == old(vec) + [e]
    {
      hide Agrees;
      ghost var lists, counts := pool.Lists(), pool.CountsOf();
      AgreesStore(lists, counts, this, vec + [e], e);
      vec := vec + [e];
      ListsUpdate(pool, lists, this);
    }

    method Set(idx: nat, s: string) returns (ok: bool)
      requires this in pool.vecs && pool.Valid()
      modifies this, pool, vec`refcnt, vec`released
      ensures pool.Valid() && pool.vecs == old(pool.vecs)
      ensures ok == (idx < |old(vec)|)
      ensures |vec| == |old(vec)|
      ensures ok ==> fresh(vec[idx]) && vec[idx].str == s && vec[idx].refcnt == 1 && vec == old(vec)[idx := vec[idx]]
      ensures Content() == if ok then old(Content())[idx := (s, None)] else old(Content())
      ensures forall v :: v in pool.vecs && v != this ==> v.Content() == old(v.Content())
    {
      hide Agrees, Show;
      ShowAt(vec);
      if idx >= |vec| {
        return false;
      }
      var e := EltNew(s, pool);
      ghost var before := vec;
      Replace(idx, e);
      ShowAt(vec);
      return true;
    }

    /** Replacing a string, whose reference is dropped. */
    method Replace(idx: nat, e: VecElt)
      requires this in pool.vecs && pool.Consistent(Some(e)) && e !in vec && idx < |vec| && e.refcnt == 1
      modifies this, {vec[idx]}`refcnt, {vec[idx]}`released
      ensures pool.Valid() && vec == old(vec)[idx := e] && e.refcnt == 1
    {
      hide Agrees, Unref, Distinct;
      ghost var lists, counts := pool.Lists(), pool.CountsOf();
      var was := vec[idx];
      ghost var rest := vec[..idx] + vec[idx + 1..];
      Known(pool, this, was, Some(e));
      DistinctReplace(vec, idx, e);
      AgreesUnref(lists, counts, Some(e), this, rest, was);
      EltFree(was, pool);
      ghost var mid: Lists := lists[this := rest];
      AgreesStore(mid, pool.CountsOf(), this, vec[idx := e], e);
      vec := vec[idx := e];
      ListsUpdate(pool, lists, this);
      assert pool.Lists() == mid[this := vec];
    }

    method DelLast() returns (ok: bool)
      requires this in pool.vecs && pool.Valid()
      modifies this, vec`refcnt, vec`released
      ensures pool.Valid()
      ensures ok == (old(vec) != [])
      ensures Content() == if ok then old(Content())[..|old(vec)| - 1] else old(Content())
      ensures forall v :: v in pool.vecs && v != this ==> v.Content() == old(v.Content())
    {
      hide Agrees;
      if vec == [] {
        return false;
      }
      DropLast();
      return true;
    }

    /** Dropping the last string and the reference to it. */
    method DropLast()
      requires this in pool.vecs && pool.Valid() && vec != []
      modifies this, vec`refcnt, vec`released
      ensures pool.Valid() && vec == old(vec)[..|old(vec)| - 1]
    {
      hide Agrees, Unref, Distinct;
      ghost var lists, counts := pool.Lists(), pool.CountsOf();
      var last := |vec| - 1;
      var e := vec[last];
      Known(pool, this, e, None);
      DistinctLast(vec);
      AgreesUnref(lists, counts, None, this, vec[..last], e);
      EltFree(e, pool);
      vec := vec[..last];
      ListsUpdate(pool, lists, this);
    }

    /** A part of a vector, with the same strings, or nothing when it is out of bounds. */
    method Ndup(off: nat, len: nat) returns (copy: Option<Vec>)
      requires this in pool.vecs && pool.Valid()
      modifies pool, vec`refcnt
      ensures pool.Valid()
      ensures copy.Some? <==> off + len <= |vec|
      ensures copy.None? ==> pool.vecs == old(pool.vecs)
      ensures copy.Some? ==>
        && fresh(copy.value) && copy.value.pool == pool && pool.vecs == old(pool.vecs) + {copy.value}
        && copy.value.vec == vec[off..off + len]
    {
      hide Agrees, Distinct;
      if off + len > |vec| {
        return None;
      }
      var v := pool.Create();
      var i := 0;
      while i < len
        invariant 0 <= i <= len && pool.Valid()
        invariant v.pool == pool && pool.vecs == old(pool.vecs) + {v}
        invariant v.vec == vec[off..off + i]
      {
        Known(pool, this, vec[off + i], None);
        EltRef(vec[off + i], pool, this);
        NotTwice(vec, off, i);
        v.Store(vec[off + i]);
        i := i + 1;
      }
      return Some(v);
    }

    /** Setting attributes: a string that another vector shares is copied first. */
    method SetAttrs(idx: nat, attrs: int) returns (ok: bool)
      requires this in pool.vecs && pool.Valid()
      modifies this, pool, vec
      ensures pool.Valid() && pool.vecs == old(pool.vecs)
      ensures ok == (idx < |old(vec)|)
      ensures Content() == if ok then old(Content())[idx := (old(vec)[idx].str, Some(attrs))] else old(Content())
      ensures forall v :: v in pool.vecs && v != this ==> v.Content() == old(v.Content())
    {
      hide Agrees, Show;
      ShowAt(vec);
      if idx >= |vec| {
        return false;
      }
      var elt := vec[idx];
      ghost var before, str := Content(), elt.str;
      if elt.refcnt > 1 {
        var copied := Set(idx, elt.str);
        elt := vec[idx];
      }
      SetOwnAttrs(idx, elt, attrs);
      assert before[idx := (str, None)][idx := (str, Some(attrs))] == before[idx := (str, Some(attrs))];
      return true;
    }

    /** Attributes of a string that no other vector holds. */
    method SetOwnAttrs(idx: nat, elt: VecElt, attrs: int)
      requires this in pool.vecs && pool.Valid() && idx < |vec| && vec[idx] == elt && elt.refcnt <= 1
      modifies elt`attrs
      ensures pool.Valid()
      ensures Content() == old(Content())[idx := (elt.str, Some(attrs))]
      ensures forall v :: v in pool.vecs && v != this ==> v.Content() == old(v.Content())
    {
      hide Agrees, Show;
      ShowAt(vec);
      NotShared(pool, this, elt);
      ghost var lists, counts := pool.Lists(), pool.CountsOf();
      elt.attrs := Some(attrs);
      assert pool.Lists() == lists && pool.CountsOf() == counts;
      ShowAt(vec);
    }

    method Free()
      requires this in pool.vecs && pool.Valid()
      modifies this, pool, vec`refcnt, vec`released
      ensures pool.Valid() && pool.vecs == old(pool.vecs) - {this} && pool.elts == old(pool.elts)
      ensures forall v :: v in pool.vecs ==> v.Content() == old(v.Content())
    {
      hide Agrees;
      while vec != []
        invariant this in pool.vecs && pool.Valid() && vec <= old(vec)
        invariant pool.vecs == old(pool.vecs) && pool.elts == old(pool.elts)
        decreases |vec|
      {
        DropLast();
      }
      ghost var lists, counts := pool.Lists(), pool.CountsOf();
      AgreesGone(lists, counts, this);
      pool.vecs := pool.vecs - {this};
      assert pool.Lists() == lists - {this} && pool.CountsOf() == counts;
    }
  }

  /** Taking one more reference to a string of a vector. */
  method EltRef(e: VecElt, ghost pool: Pool, ghost v: Vec)
    requires pool.Valid() && v in pool.vecs && e in v.vec && e in pool.elts
    modifies e`refcnt
    ensures pool.Consistent(Some(e))
  {
    hide Agrees;
    ghost var lists, counts := pool.Lists(), pool.CountsOf();
    AgreesShare<Vec, VecElt>(lists, counts, v, e);
    e.refcnt := e.refcnt + 1;
    assert pool.Lists() == lists;
    assert pool.CountsOf() == counts[e := counts[e].(refs := counts[e].refs + 1)];
  }

  lemma NotShared(pool: Pool, v: Vec, e: VecElt)
    requires pool.Valid() && v in pool.vecs && e in v.vec && e.refcnt <= 1
    ensures forall u :: u in pool.vecs && u != v ==> e !in u.vec
    ensures Distinct(v.vec)
  {
    Known(pool, v, e, None);
    forall u | u in pool.vecs && u != v
      ensures e !in u.vec
    {
      if e in u.vec {
        OnlyHolder<Vec, VecElt>(pool.Lists(), pool.CountsOf(), v, u, e);
      }
    }
  }

  lemma NotTwice(vec: seq<VecElt>, off: nat, i: nat)
    requires Distinct(vec) && off + i < |vec|
    ensures vec[off + i] !in vec[off..off + i]
    ensures vec[off..off + i] + [vec[off + i]] == vec[off..off + i + 1]
  {
  }

  lemma DistinctLast(vec: seq<VecElt>)
    requires Distinct(vec) && vec != []
    ensures Distinct(vec[..|vec| - 1]) && Loses(vec, vec[..|vec| - 1], vec[|vec| - 1])
  {
    assert vec == vec[..|vec| - 1] + [vec[|vec| - 1]];
  }

  lemma DistinctReplace(vec: seq<VecElt>, idx: nat, e: VecElt)
    requires Distinct(vec) && idx < |vec| && e !in vec
    ensures Distinct(vec[idx := e])
    ensures var rest := vec[..idx] + vec[idx + 1..]; Loses(vec, rest, vec[idx]) && Gains(rest, vec[idx := e], e)
    ensures e !in vec[..idx] + vec[idx + 1..]
  {
    var rest, after := vec[..idx] + vec[idx + 1..], vec[idx := e];
    forall x | x in vec && x != vec[idx]
      ensures x in rest
    {
      var i :| 0 <= i < |vec| && vec[i] == x;
      assert rest[if i < idx then i else i - 1] == x;
    }
    forall x | x in rest
      ensures x in after
    {
      var i :| 0 <= i < |rest| && rest[i] == x;
      assert after[if i < idx then i else i + 1] == x;
    }
    assert after[idx] == e;
  }
}
