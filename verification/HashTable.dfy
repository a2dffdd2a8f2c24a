/**
 The hash table: buckets and an ordered list that are changed in place, a table
 that grows by powers of two, and elements that duplicates share by reference count.
 */
module HashTable {
  import opened Prelude
  import opened HashSpec
  import opened RefCount

  type Lists = map<HTable, seq<Elt>>

  type Counts = map<Elt, Count>

  // ----- the tables of a program ---------------------------------------------------------------------

  /** All the tables that are alive, and all the elements that were ever made. */
  class Pool {
    ghost var tables: set<HTable>
    ghost var elts: set<Elt>

    constructor ()
      ensures Valid() && tables == {} && elts == {}
    {
      tables, elts := {}, {};
      new;
      assert Lists() == map[] && CountsOf() == map[];
    }

    ghost function Lists(): Lists
      reads this, tables
    {
      map t | t in tables :: t.list
    }

    ghost function CountsOf(): Counts
      reads this, elts
    {
      map e | e in elts :: Count(e.refcount, e.released)
    }

    ghost predicate Consistent(extra: Option<Elt>)
      reads this, tables, elts
    {
      && (forall t :: t in tables ==> t.pool == this && t.Valid())
      && (forall e :: e in elts ==> e.freeCalls == if e.hasFree then e.released else 0)
      && Agrees(Lists(), CountsOf(), extra)
    }

    ghost predicate Valid()
      reads this, tables, elts
    {
      Consistent(None)
    }

    method Create(hash: string -> nat) returns (t: HTable)
      requires Valid()
      modifies this
      ensures Valid() && fresh(t) && t.pool == this && t.hash == hash && t.list == []
      ensures tables == old(tables) + {t} && elts == old(elts)
    {
      hide Agrees, Table;
      ghost var lists, counts := Lists(), CountsOf();
      t := new HTable(this, hash);
      tables := tables + {t};
      AgreesCreate(lists, counts, t);
      ListsUpdate(this, lists, t);
      assert CountsOf() == counts;
    }
  }

  /** Dropping one reference, and the element with the last one. */
  method EltUnref(e: Elt, ghost pool: Pool)
    requires e in pool.elts && e.refcount > 0
    modifies e
    ensures pool.CountsOf() == old(pool.CountsOf())[e := Unref(old(pool.CountsOf())[e])]
    ensures e.freeCalls - old(e.freeCalls) == if e.hasFree then e.released - old(e.released) else 0
  {
    e.refcount := e.refcount - 1;
    if e.refcount == 0 {
      if e.hasFree {
        e.freeCalls := e.freeCalls + 1;
      }
      e.released := e.released + 1;
    }
  }

  /** Taking one more reference to an element of a table. */
  method EltRef(e: Elt, ghost pool: Pool, ghost t: HTable)
    requires pool.Valid() && t in pool.tables && e in t.list && e in pool.elts
    modifies e
    ensures pool.Consistent(Some(e))
  {
    hide Agrees, Table;
    ghost var lists, counts := pool.Lists(), pool.CountsOf();
    assert pool.Consistent(None);
    AgreesShare<HTable, Elt>(lists, counts, t, e);
    e.refcount := e.refcount + 1;
    assert pool.Lists() == lists;
    assert pool.CountsOf() == counts[e := counts[e].(refs := counts[e].refs + 1)];
  }

  lemma ShareKnown(pool: Pool, t: HTable, e: Elt)
    requires pool.Valid() && t in pool.tables && e in t.list
    ensures e in pool.elts
  {
    HeldIsCounted<HTable, Elt>(pool.Lists(), pool.CountsOf(), None, t, e);
  }

  class HTable {
    const pool: Pool
    const hash: string -> nat
    var list: seq<Elt>
    var table: seq<seq<Elt>>
    var len: nat

    ghost predicate Valid()
      reads this
    {
      Table(list, table, hash) && len == |list|
    }

    /** The content of the table: entries in the order of its iterator. */
    ghost function Content(): seq<(string, int)>
      reads this
    {
      Entries(list)
    }

    constructor (pool: Pool, hash: string -> nat)
      ensures this.pool == pool && this.hash == hash
      ensures Valid() && list == [] && table == []
    {
      this.pool, this.hash := pool, hash;
      list, table, len := [], [], 0;
    }

    method Lookup(key: string) returns (ref: Option<Elt>)
      requires Valid()
      ensures ref == Find(list, key)
    {
      hide Table, Find;
      BucketFinds(list, table, hash, key);
      if table == [] {
        return None;
      }
      var h := hash(key);
      var bucket := table[BitAnd(h, |table| - 1)];
      var i := 0;
      FindFrom(bucket, 0, key);
      while i < |bucket|
        invariant 0 <= i <= |bucket|
        invariant Find(bucket, key) == Find(bucket[i..], key)
      {
        FindFrom(bucket, i, key);
        if bucket[i].key == key {
          return Some(bucket[i]);
        }
        i := i + 1;
      }
      FindFrom(bucket, i, key);
      return None;
    }

    method Get(key: string) returns (val: Option<int>)
      requires Valid()
      ensures val == Value(Content(), key)
    {
      hide Entries, Value, Find;
      var ref := Lookup(key);
      EntriesFind(list, key);
      return if ref.None? then None else Some(ref.value.val);
    }

    /** Taking an element out of its bucket and of the list. */
    method Unlink(e: Elt)
      requires Valid() && e in list
      modifies this
      ensures Valid() && list == Minus(old(list), e) && |table| == |old(table)|
    {
      hide Table, Minus;
      TableMinus(list, table, hash, e);
      list := Minus(list, e);
      var idx := Index(e, |table|);
      table := table[idx := Minus(table[idx], e)];
      len := len - 1;
    }

    /** Taking an element out of the table, and dropping the reference to it. */
    method Release(e: Elt, ghost extra: Option<Elt>)
      requires this in pool.tables && pool.Consistent(extra) && e in list
      modifies this, pool.elts
      ensures pool.Consistent(extra)
      ensures list == Minus(old(list), e) && |list| == |old(list)| - 1 && |table| == |old(table)|
    {
      hide Table, Minus, Agrees, Unref;
      ghost var lists, counts := pool.Lists(), pool.CountsOf();
      TableMinus(list, table, hash, e);
      MinusLoses(list, e);
      AgreesUnref(lists, counts, extra, this, Minus(list, e), e);
      Unlink(e);
      EltUnref(e, pool);
      ListsUpdate(pool, lists, this);
    }

    /** Deleting a key: the entry goes, and the reference to its element with it. */
    method Del(key: string, ghost extra: Option<Elt>) returns (ok: bool)
      requires this in pool.tables && pool.Consistent(extra)
      modifies this, pool.elts
      ensures pool.Consistent(extra)
      ensures ok == Find(old(list), key).Some?
      ensures list == if ok then Minus(old(list), Find(old(list), key).value) else old(list)
      ensures |table| == |old(table)|
      ensures Content() == Apply(old(Content()), DelKey(key))
      ensures forall t :: t in pool.tables && t != this ==> t.Content() == old(t.Content())
    {
      hide Table, Find, Minus, Agrees, Entries, Drop;
      TableDistinct(list, table, hash);
      EntriesDrop(list, key);
      var ref := Lookup(key);
      if ref.None? {
        return false;
      }
      var e := ref.value;
      FoundIn(list, key);
      Release(e, extra);
      return true;
    }

    /** Growing the table: every element moves to its bucket in a new one. */
    method Resize(newSize: nat) returns (ok: bool)
      requires Placed(list, table, hash) && len == |list|
      modifies this
      ensures Placed(list, table, hash) && list == old(list) && len == old(len)
      ensures ok == (newSize > 0 && PowerOfTwo(newSize))
      ensures |table| == if ok then newSize else |old(table)|
    {
      hide Placed, Bucket, PowerOfTwo, BitAnd;
      if newSize > 0 {
        BitTestIsPowerOfTwo(newSize);
      }
      if newSize == 0 || BitAnd(newSize, newSize - 1) != 0 {
        return false;
      }
      ghost var before := table;
      var newTable := seq(newSize, _ => []);
      EmptyBuckets(newTable);
      var k := 0;
      while k < |list|
        invariant 0 <= k <= |list| && list == old(list) && len == old(len)
        invariant |table| == |before| && |newTable| == newSize
        invariant Buckets(newTable, list[..k])
      {
        var ref := list[k];
        IndexInBounds(list, before, hash, k, newSize);
        var i := Index(ref, |table|);
        table := table[i := Minus(table[i], ref)];
        BucketsAdd(newTable, list, k);
        i := Index(ref, newSize);
        newTable := newTable[i := newTable[i] + [ref]];
        k := k + 1;
      }
      assert list[..k] == list;
      PlacedFrom(list, before, newTable, hash);
      table := newTable;
      return true;
    }

    /** Adding an element at the end, in a table that grows when it is full. */
    method Link(e: Elt)
      requires Valid() && e.hash == hash(e.key) && Find(list, e.key).None?
      modifies this
      ensures Valid() && list == old(list) + [e]
    {
      hide Placed, Find, Index, PowerOfTwo, Bucket;
      if len >= |table| {
        var newSize := if |table| != 0 then |table| * 8 else 8;
        GrownSize(list, table, hash);
        var ok := Resize(newSize);
      }
      TableAdd(list, table, hash, e);
      var i := Index(e, |table|);
      table := table[i := table[i] + [e]];
      list := list + [e];
      len := len + 1;
    }

    /** Storing a reference: the entry with the same key goes first. */
    method Store(e: Elt)
      requires this in pool.tables && pool.Consistent(Some(e)) && e.hash == hash(e.key)
      modifies this, pool.elts
      ensures pool.Valid()
      ensures list == Removed(old(list), e.key) + [e]
      ensures forall t :: t in pool.tables && t != this ==> t.list == old(t.list)
    {
      hide Table, Find, Minus, Agrees, Entries, Drop;
      ghost var before := list;
      TableDistinct(list, table, hash);
      var deleted := Del(e.key, Some(e));
      RemovedFrees(before, e.key);
      Add(e);
    }

    /** Linking an element and handing over the reference to it. */
    method Add(e: Elt)
      requires this in pool.tables && pool.Consistent(Some(e))
      requires e.hash == hash(e.key) && Find(list, e.key).None?
      modifies this
      ensures pool.Valid()
      ensures list == old(list) + [e]
    {
      hide Table, Find, Agrees;
      ghost var lists, counts := pool.Lists(), pool.CountsOf();
      FoundIn(list, e.key);
      AgreesStore(lists, counts, this, list + [e], e);
      Link(e);
      ListsUpdate(pool, lists, this);
    }

    /** Setting a key: its entry, if there is one, goes away and a new one comes last. */
    method Set(key: string, val: int, hasFree: bool) returns (ok: bool)
      requires this in pool.tables && pool.Valid()
      modifies this, pool, pool.elts
      ensures pool.Valid() && pool.tables == old(pool.tables)
      ensures ok == (key != "")
      ensures Content() == Apply(old(Content()), SetKey(key, val))
      ensures forall t :: t in pool.tables && t != this ==> t.Content() == old(t.Content())
    {
      hide Agrees, Table, Entries, Drop, Removed;
      if key == "" {
        return false;
      }
      ghost var lists, counts := pool.Lists(), pool.CountsOf();
      var e := new Elt(key, val, hash(key), hasFree);
      AgreesNew(lists, counts, e);
      pool.elts := pool.elts + {e};
      assert pool.Lists() == lists;
      assert pool.CountsOf() == counts[e := Count(1, 0)];
      TableDistinct(list, table, hash);
      EntriesRemoved(list, key, e);
      Store(e);
      return true;
    }

    /** A duplicate: a new table with the same elements, all shared. */
    method Dup() returns (dup: HTable)
      requires this in pool.tables && pool.Valid()
      modifies pool, pool.elts
      ensures fresh(dup) && dup.pool == pool && pool.tables == old(pool.tables) + {dup} && pool.Valid()
      ensures dup.list == list && dup.Content() == Content()
    {
      hide Agrees, Table, Entries, Removed;
      dup := pool.Create(hash);
      var k := 0;
      while k < |list|
        invariant 0 <= k <= |list|
        invariant dup.list == list[..k] && dup.pool == pool && dup.hash == hash
        invariant pool.tables == old(pool.tables) + {dup} && pool.elts == old(pool.elts) && pool.Valid()
      {
        ShareKnown(pool, this, list[k]);
        EltRef(list[k], pool, this);
        NotYet(list, table, hash, k);
        dup.Store(list[k]);
        k := k + 1;
      }
    }

    /** Freeing a table: every reference it holds is dropped. */
    method Free()
      requires this in pool.tables && pool.Valid()
      modifies this, pool, pool.elts
      ensures pool.Valid() && pool.tables == old(pool.tables) - {this} && pool.elts == old(pool.elts)
      ensures forall t :: t in pool.tables ==> t.Content() == old(t.Content())
    {
      hide Agrees, Table, Minus;
      while list != []
        invariant this in pool.tables && pool.Valid()
        invariant pool.tables == old(pool.tables) && pool.elts == old(pool.elts)
        decreases |list|
      {
        Release(list[0], None);
      }
      ghost var lists, counts := pool.Lists(), pool.CountsOf();
      AgreesGone(lists, counts, this);
      pool.tables := pool.tables - {this};
      assert pool.Lists() == lists - {this};
      assert pool.CountsOf() == counts;
    }
  }

  lemma NotYet(list: seq<Elt>, table: seq<seq<Elt>>, hash: string -> nat, k: nat)
    requires Table(list, table, hash) && k < |list|
    ensures Removed(list[..k], list[k].key) + [list[k]] == list[..k + 1]
    ensures list[k].hash == hash(list[k].key)
  {
    FoundIn(list[..k], list[k].key);
  }

  lemma MinusLoses(list: seq<Elt>, e: Elt)
    ensures Loses(list, Minus(list, e), e)
  {
    forall x: Elt
      ensures x in Minus(list, e) <==> x in list && x != e
    {
      MinusHas(list, e, x);
    }
  }

  lemma TableDistinct(list: seq<Elt>, table: seq<seq<Elt>>, hash: string -> nat)
    requires Table(list, table, hash)
    ensures DistinctKeys(list)
  {
  }

  lemma EntriesRemoved(list: seq<Elt>, key: string, e: Elt)
    requires DistinctKeys(list)
    ensures Entries(Removed(list, key) + [e]) == Drop(Entries(list), key) + [(e.key, e.val)]
  {
    hide Entries, Drop;
    EntriesDrop(list, key);
    EntriesSnoc(Removed(list, key), e);
  }

  function Removed(list: seq<Elt>, key: string): seq<Elt> {
    match Find(list, key) case None => list case Some(e) => Minus(list, e)
  }

  ghost predicate Buckets(table: seq<seq<Elt>>, list: seq<Elt>) {
    forall i :: 0 <= i < |table| ==> table[i] == Bucket(list, i, |table|)
  }

  lemma EmptyBuckets(table: seq<seq<Elt>>)
    requires forall i :: 0 <= i < |table| ==> table[i] == []
    ensures Buckets(table, [])
  {
  }

  lemma IndexInBounds(list: seq<Elt>, table: seq<seq<Elt>>, hash: string -> nat, k: nat, newSize: nat)
    requires Placed(list, table, hash) && k < |list| && newSize > 0 && PowerOfTwo(newSize)
    ensures Index(list[k], |table|) < |table| && Index(list[k], newSize) < newSize
  {
    MaskIsRemainder(list[k].hash, |table|);
    MaskIsRemainder(list[k].hash, newSize);
  }

  lemma BucketsAdd(table: seq<seq<Elt>>, list: seq<Elt>, k: nat)
    requires k < |list| && Buckets(table, list[..k]) && Index(list[k], |table|) < |table|
    ensures
      var i := Index(list[k], |table|);
      Buckets(table[i := table[i] + [list[k]]], list[..k + 1])
  {
    hide Bucket, Index;
    assert list[..k + 1] == list[..k] + [list[k]];
    forall j | 0 <= j < |table|
      ensures Bucket(list[..k + 1], j, |table|)
        == Bucket(list[..k], j, |table|) + if Index(list[k], |table|) == j then [list[k]] else []
    {
      BucketSnoc(list[..k], list[k], j, |table|);
    }
  }

  lemma PlacedFrom(list: seq<Elt>, before: seq<seq<Elt>>, after: seq<seq<Elt>>, hash: string -> nat)
    requires Placed(list, before, hash) && Buckets(after, list) && after != [] && PowerOfTwo(|after|)
    ensures Placed(list, after, hash)
  {
  }

  /** The next size is a power of two with room for one more. */
  lemma GrownSize(list: seq<Elt>, table: seq<seq<Elt>>, hash: string -> nat)
    requires Table(list, table, hash)
    ensures var size := if |table| != 0 then |table| * 8 else 8; PowerOfTwo(size) && |list| < size
  {
    var n := |table|;
    if n == 0 {
      assert PowerOfTwo(2) && PowerOfTwo(4);
    } else {
      assert n * 8 / 2 == n * 4 && n * 4 / 2 == n * 2 && n * 2 / 2 == n;
      assert PowerOfTwo(n * 2) && PowerOfTwo(n * 4);
    }
  }

  lemma RemovedFrees(list: seq<Elt>, key: string)
    requires DistinctKeys(list)
    ensures Find(Removed(list, key), key).None?
  {
    hide Minus;
    FoundIn(list, key);
    FoundIn(Removed(list, key), key);
    var found := Find(Removed(list, key), key);
    if found.Some? && Find(list, key).Some? {
      MinusHas(list, Find(list, key).value, found.value);
      FindOne(list, found.value);
    }
  }

  lemma ListsUpdate(pool: Pool, lists: Lists, t: HTable)
    requires t in pool.tables && pool.tables == lists.Keys + {t}
    requires forall u :: u in pool.tables && u != t ==> u.list == lists[u]
    ensures pool.Lists() == lists[t := t.list]
  {
  }

  lemma FindFrom(bucket: seq<Elt>, i: nat, key: string)
    requires i <= |bucket|
    ensures bucket[0..] == bucket
    ensures
      Find(bucket[i..], key) ==
      if i == |bucket| then None
      else if bucket[i].key == key then Some(bucket[i])
      else Find(bucket[i + 1..], key)
  {
    if i < |bucket| {
      assert bucket[i..][1..] == bucket[i + 1..];
    }
  }
}
