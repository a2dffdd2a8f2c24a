/**
 What the hash table stands for: a list of elements in insertion order, and
 how its buckets follow from that list.
 */
module HashSpec {
  import opened Prelude

  /** A stored key and value, shared by the tables that refer to it. */
  class Elt {
    const key: string
    const val: int
    const hash: nat
    const hasFree: bool
    var refcount: nat
    var released: nat
    var freeCalls: nat

    constructor (key: string, val: int, hash: nat, hasFree: bool)
      ensures this.key == key && this.val == val && this.hash == hash && this.hasFree == hasFree
      ensures refcount == 1 && released == 0 && freeCalls == 0
    {
      this.key, this.val, this.hash, this.hasFree := key, val, hash, hasFree;
      refcount, released, freeCalls := 1, 0, 0;
    }
  }

  // ----- bits --------------------------------------------------------------------------------------

  /** The bitwise and of two integers. */
  function BitAnd(a: nat, b: nat): nat {
    if a == 0 || b == 0 then 0 else (if a % 2 == 1 && b % 2 == 1 then 1 else 0) + 2 * BitAnd(a / 2, b / 2)
  }

  predicate PowerOfTwo(n: nat) {
    n == 1 || (n > 1 && n % 2 == 0 && PowerOfTwo(n / 2))
  }

  lemma {:induction false} BitAndSelf(n: nat)
    ensures BitAnd(n, n) == n
  {
    if n > 0 {
      BitAndSelf(n / 2);
    }
  }

  /** The size test of a resize accepts the powers of two and no other size. */
  lemma {:induction false} BitTestIsPowerOfTwo(n: nat)
    requires n > 0
    ensures BitAnd(n, n - 1) == 0 <==> PowerOfTwo(n)
  {
    if n > 1 {
      if n % 2 == 0 {
        BitTestIsPowerOfTwo(n / 2);
        assert (n - 1) / 2 == n / 2 - 1;
      } else {
        BitAndSelf(n / 2);
        assert (n - 1) / 2 == n / 2;
      }
    }
  }

  /** Masking with the size of a power of two is the remainder of a division. */
  lemma {:induction false} MaskIsRemainder(h: nat, size: nat)
    requires PowerOfTwo(size)
    ensures BitAnd(h, size - 1) == h % size < size
  {
    if size > 1 {
      MaskIsRemainder(h / 2, size / 2);
      assert (size - 1) / 2 == size / 2 - 1;
      HalfRemainder(h, size / 2);
    }
  }

  lemma HalfRemainder(h: nat, half: nat)
    requires half > 0
    ensures h % (2 * half) == h % 2 + 2 * (h / 2 % half)
  {
    var q, r := h / 2 / half, h / 2 % half;
    assert h / 2 == q * half + r;
    assert h == 2 * half * q + (2 * r + h % 2);
    RemainderIs(h, 2 * half, q, 2 * r + h % 2);
  }

  lemma TimesGrows(n: nat, a: int, b: int)
    ensures a <= b ==> n * a <= n * b
  {
  }

  lemma RemainderIs(a: nat, n: nat, q: nat, r: nat)
    requires n > 0 && a == n * q + r && r < n
    ensures a % n == r
  {
    var p := a / n;
    assert n * (p + 1) == n * p + n && n * (q + 1) == n * q + n;
    TimesGrows(n, p + 1, q);
    TimesGrows(n, q + 1, p);
  }

  function Index(e: Elt, size: nat): nat {
    if size == 0 then 0 else BitAnd(e.hash, size - 1)
  }

  // ----- lists ---------------------------------------------------------------------------------------

  /** A list without one of its elements. */
  function Minus(list: seq<Elt>, e: Elt): seq<Elt> {
    if list == [] then []
    else Minus(list[..|list| - 1], e) + if list[|list| - 1] == e then [] else [list[|list| - 1]]
  }

  /** The elements of a list that belong in bucket i, in order. */
  function Bucket(list: seq<Elt>, i: nat, size: nat): seq<Elt> {
    if list == [] then []
    else Bucket(list[..|list| - 1], i, size) + if Index(list[|list| - 1], size) == i then [list[|list| - 1]] else []
  }

  function Find(list: seq<Elt>, key: string): Option<Elt> {
    if list == [] then None
    else if list[0].key == key then Some(list[0])
    else Find(list[1..], key)
  }

  predicate DistinctKeys(list: seq<Elt>) {
    forall i, j :: 0 <= i < j < |list| ==> list[i].key != list[j].key
  }

  lemma {:induction false} FoundIn(list: seq<Elt>, key: string)
    ensures
      match Find(list, key)
      case Some(e) => e in list && e.key == key
      case None => forall e :: e in list ==> e.key != key
  {
    if list != [] && list[0].key != key {
      FoundIn(list[1..], key);
    }
  }

  lemma {:induction false} FindOne(list: seq<Elt>, e: Elt)
    requires DistinctKeys(list) && e in list
    ensures Find(list, e.key) == Some(e)
  {
    FoundIn(list, e.key);
    var f := Find(list, e.key).value;
    var i :| 0 <= i < |list| && list[i] == e;
    var j :| 0 <= j < |list| && list[j] == f;
    if i < j || j < i {
      assert list[i].key == list[j].key;
    }
  }

  lemma {:induction false} MinusHas(list: seq<Elt>, e: Elt, x: Elt)
    ensures x in Minus(list, e) <==> x in list && x != e
    decreases |list|
  {
    if list != [] {
      MinusHas(list[..|list| - 1], e, x);
      assert list == list[..|list| - 1] + [list[|list| - 1]];
    }
  }

  lemma {:induction false} MinusAbsent(list: seq<Elt>, e: Elt)
    requires e !in list
    ensures Minus(list, e) == list
    decreases |list|
  {
    if list != [] {
      MinusAbsent(list[..|list| - 1], e);
    }
  }

  lemma {:induction false} MinusLength(list: seq<Elt>, e: Elt)
    requires DistinctKeys(list) && e in list
    ensures |Minus(list, e)| == |list| - 1
    decreases |list|
  {
    var front, last := list[..|list| - 1], list[|list| - 1];
    if last == e {
      forall x | x in front
        ensures x != e
      {
        var i :| 0 <= i < |front| && front[i] == x;
        assert list[i].key != list[|list| - 1].key;
      }
      MinusAbsent(front, e);
    } else {
      assert list == front + [last];
      MinusLength(front, e);
    }
  }

  lemma {:induction false} MinusDistinct(list: seq<Elt>, e: Elt)
    requires DistinctKeys(list)
    ensures DistinctKeys(Minus(list, e))
    decreases |list|
  {
    if list != [] {
      var front, last := list[..|list| - 1], list[|list| - 1];
      MinusDistinct(front, e);
      forall i | 0 <= i < |Minus(front, e)|
        ensures Minus(front, e)[i].key != last.key
      {
        MinusHas(front, e, Minus(front, e)[i]);
        var j :| 0 <= j < |front| && front[j] == Minus(front, e)[i];
        assert list[j].key != list[|list| - 1].key;
      }
    }
  }

  // ----- buckets -------------------------------------------------------------------------------------

  lemma {:induction false} BucketHas(list: seq<Elt>, i: nat, size: nat, x: Elt)
    ensures x in Bucket(list, i, size) <==> x in list && Index(x, size) == i
    decreases |list|
  {
    if list != [] {
      BucketHas(list[..|list| - 1], i, size, x);
      assert list == list[..|list| - 1] + [list[|list| - 1]];
    }
  }

  lemma {:induction false} BucketMinus(list: seq<Elt>, e: Elt, i: nat, size: nat)
    ensures
      Bucket(Minus(list, e), i, size) ==
      if Index(e, size) == i then Minus(Bucket(list, i, size), e) else Bucket(list, i, size)
    decreases |list|
  {
    if list != [] {
      var front, last := list[..|list| - 1], list[|list| - 1];
      BucketMinus(front, e, i, size);
      if last != e {
        BucketSnoc(Minus(front, e), last, i, size);
        if Index(last, size) == i {
          MinusSnoc(Bucket(front, i, size), last, e);
        } else {
          assert Bucket(list, i, size) == Bucket(front, i, size);
        }
      } else {
        assert Minus(list, e) == Minus(front, e);
        if Index(e, size) == i {
          MinusSnoc(Bucket(front, i, size), last, e);
        }
      }
    }
  }

  lemma BucketSnoc(list: seq<Elt>, x: Elt, i: nat, size: nat)
    ensures Bucket(list + [x], i, size) == Bucket(list, i, size) + if Index(x, size) == i then [x] else []
  {
    assert (list + [x])[..|list|] == list;
  }

  lemma MinusSnoc(list: seq<Elt>, x: Elt, e: Elt)
    ensures Minus(list + [x], e) == Minus(list, e) + if x == e then [] else [x]
  {
    assert (list + [x])[..|list|] == list;
  }

  // ----- the invariant of a table ----------------------------------------------------------------------

  ghost predicate Hashed(list: seq<Elt>, hash: string -> nat) {
    forall e :: e in list ==> e.hash == hash(e.key)
  }

  /** Every bucket holds the elements that hash to it, in insertion order; the size is 0 or a power of two. */
  ghost predicate Placed(list: seq<Elt>, table: seq<seq<Elt>>, hash: string -> nat) {
    && DistinctKeys(list)
    && Hashed(list, hash)
    && (table == [] ==> list == [])
    && (table == [] || PowerOfTwo(|table|))
    && forall i :: 0 <= i < |table| ==> table[i] == Bucket(list, i, |table|)
  }

  /** What every operation keeps: there is a bucket for each element, at least. */
  ghost predicate Table(list: seq<Elt>, table: seq<seq<Elt>>, hash: string -> nat) {
    Placed(list, table, hash) && |list| <= |table|
  }

  /** Looking in the bucket of a key finds what looking in the whole list does. */
  lemma BucketFinds(list: seq<Elt>, table: seq<seq<Elt>>, hash: string -> nat, key: string)
    requires Table(list, table, hash)
    ensures
      if table == [] then Find(list, key).None?
      else
        var i := BitAnd(hash(key), |table| - 1);
        i < |table| && Find(table[i], key) == Find(list, key)
  {
    hide Bucket, BitAnd, Find;
    if table != [] {
      MaskIsRemainder(hash(key), |table|);
      var i := BitAnd(hash(key), |table| - 1);
      FoundIn(list, key);
      FoundIn(table[i], key);
      if Find(list, key).Some? {
        BucketHas(list, i, |table|, Find(list, key).value);
      }
      if Find(table[i], key).Some? {
        BucketHas(list, i, |table|, Find(table[i], key).value);
        FindOne(list, Find(table[i], key).value);
      }
    } else {
      FoundIn(list, key);
    }
  }

  lemma TableIndex(list: seq<Elt>, table: seq<seq<Elt>>, hash: string -> nat, e: Elt)
    requires Table(list, table, hash) && table != []
    ensures Index(e, |table|) < |table|
  {
    MaskIsRemainder(e.hash, |table|);
  }

  lemma TableMinus(list: seq<Elt>, table: seq<seq<Elt>>, hash: string -> nat, e: Elt)
    requires Table(list, table, hash) && e in list
    ensures
      var i := Index(e, |table|);
      && i < |table|
      && Table(Minus(list, e), table[i := Minus(table[i], e)], hash)
      && |Minus(list, e)| == |list| - 1
  {
    hide Bucket, Minus, Index, PowerOfTwo, DistinctKeys;
    TableIndex(list, table, hash, e);
    MinusLength(list, e);
    MinusDistinct(list, e);
    var i := Index(e, |table|);
    var after := table[i := Minus(table[i], e)];
    forall j | 0 <= j < |after|
      ensures after[j] == Bucket(Minus(list, e), j, |after|)
    {
      BucketMinus(list, e, j, |table|);
    }
    forall x | x in Minus(list, e)
      ensures x.hash == hash(x.key)
    {
      MinusHas(list, e, x);
    }
  }

  lemma TableAdd(list: seq<Elt>, table: seq<seq<Elt>>, hash: string -> nat, e: Elt)
    requires Table(list, table, hash) && |list| < |table|
    requires e.hash == hash(e.key) && Find(list, e.key).None?
    ensures
      var i := Index(e, |table|);
      && i < |table|
      && Table(list + [e], table[i := table[i] + [e]], hash)
  {
    hide Bucket, Index, PowerOfTwo, Find;
    TableIndex(list, table, hash, e);
    FoundIn(list, e.key);
    var i := Index(e, |table|);
    var after := table[i := table[i] + [e]];
    forall j | 0 <= j < |after|
      ensures after[j] == Bucket(list + [e], j, |after|)
    {
      BucketSnoc(list, e, j, |table|);
    }
  }

  // ----- the insertion-ordered map ----------------------------------------------------------------------

  /** The entries of a table, in the order its iterator returns them. */
  function Entries(list: seq<Elt>): seq<(string, int)> {
    if list == [] then [] else Entries(list[..|list| - 1]) + [(list[|list| - 1].key, list[|list| - 1].val)]
  }

  function Drop(entries: seq<(string, int)>, key: string): seq<(string, int)> {
    if entries == [] then []
    else Drop(entries[..|entries| - 1], key) + if entries[|entries| - 1].0 == key then [] else [entries[|entries| - 1]]
  }

  function Value(entries: seq<(string, int)>, key: string): Option<int> {
    if entries == [] then None
    else if entries[|entries| - 1].0 == key then Some(entries[|entries| - 1].1)
    else Value(entries[..|entries| - 1], key)
  }

  lemma {:induction false} EntriesFind(list: seq<Elt>, key: string)
    requires DistinctKeys(list)
    ensures
      Value(Entries(list), key) ==
      match Find(list, key) case None => None case Some(e) => Some(e.val)
    decreases |list|
  {
    if list != [] {
      var front, last := list[..|list| - 1], list[|list| - 1];
      EntriesFind(front, key);
      FoundIn(front, key);
      FoundIn(list, key);
      assert list == front + [last];
      if Find(list, key).Some? {
        var e := Find(list, key).value;
        FindOne(list, e);
        if last.key == key {
          FindOne(list, last);
        } else {
          FindOne(front, e);
        }
      } else {
        assert last in list;
        assert forall e :: e in front ==> e in list;
      }
    }
  }

  lemma {:induction false} EntriesMinus(list: seq<Elt>, e: Elt)
    requires DistinctKeys(list) && e in list
    ensures Entries(Minus(list, e)) == Drop(Entries(list), e.key)
    decreases |list|
  {
    var front, last := list[..|list| - 1], list[|list| - 1];
    assert list == front + [last];
    if last == e {
      forall i | 0 <= i < |front|
        ensures front[i].key != e.key
      {
        assert list[i].key != list[|list| - 1].key;
      }
      assert forall x :: x in front ==> x.key != e.key;
      MinusAbsent(front, e);
      EntriesAbsent(front, e.key);
      assert Minus(list, e) == front;
      assert Drop(Entries(list), e.key) == Entries(front) by { DropSnoc(Entries(front), (e.key, e.val), e.key); }
    } else {
      DropSnoc(Entries(front), (last.key, last.val), e.key);
      EntriesMinus(front, e);
      var i :| 0 <= i < |front| && front[i] == e;
      assert list[i].key != list[|list| - 1].key;
      EntriesSnoc(Minus(front, e), last);
    }
  }

  lemma DropSnoc(entries: seq<(string, int)>, entry: (string, int), key: string)
    ensures Drop(entries + [entry], key) == Drop(entries, key) + if entry.0 == key then [] else [entry]
  {
    assert (entries + [entry])[..|entries|] == entries;
  }

  lemma ValueSnoc(entries: seq<(string, int)>, entry: (string, int), key: string)
    ensures Value(entries + [entry], key) == if entry.0 == key then Some(entry.1) else Value(entries, key)
  {
    assert (entries + [entry])[..|entries|] == entries;
  }

  lemma EntriesSnoc(list: seq<Elt>, e: Elt)
    ensures Entries(list + [e]) == Entries(list) + [(e.key, e.val)]
  {
    assert (list + [e])[..|list|] == list;
  }

  lemma {:induction false} EntriesAbsent(list: seq<Elt>, key: string)
    requires forall i :: 0 <= i < |list| ==> list[i].key != key
    ensures Drop(Entries(list), key) == Entries(list)
    decreases |list|
  {
    if list != [] {
      EntriesAbsent(list[..|list| - 1], key);
    }
  }

  /** Removing the element of a key from the list removes its entry, and nothing when there is none. */
  lemma EntriesDrop(list: seq<Elt>, key: string)
    requires DistinctKeys(list)
    ensures
      Drop(Entries(list), key) ==
      match Find(list, key) case None => Entries(list) case Some(e) => Entries(Minus(list, e))
  {
    hide Entries, Drop, Minus;
    FoundIn(list, key);
    match Find(list, key)
    case None =>
      forall i | 0 <= i < |list|
        ensures list[i].key != key
      {
        assert list[i] in list;
      }
      EntriesAbsent(list, key);
    case Some(e) => EntriesMinus(list, e);
  }

  /** After setting a key, it has the value, it comes last, and other keys keep theirs. */
  lemma {:induction false} SetValue(entries: seq<(string, int)>, key: string, val: int, other: string)
    ensures Value(Drop(entries, key) + [(key, val)], other) == if other == key then Some(val) else Value(entries, other)
    ensures Value(Drop(entries, key), other) == if other == key then None else Value(entries, other)
    decreases |entries|
  {
    ValueSnoc(Drop(entries, key), (key, val), other);
    if entries != [] {
      var front, last := entries[..|entries| - 1], entries[|entries| - 1];
      SetValue(front, key, val, other);
      if last.0 == key {
        assert Drop(entries, key) == Drop(front, key);
        ValueSnoc(Drop(front, key), (key, val), other);
      } else {
        ValueSnoc(Drop(front, key), last, other);
      }
    }
  }

  // ----- whole runs -------------------------------------------------------------------------------------

  datatype Op = SetKey(key: string, val: int) | DelKey(key: string)

  /** What one operation does to the content; setting the empty key is refused. */
  function Apply(entries: seq<(string, int)>, op: Op): seq<(string, int)> {
    match op
    case SetKey(key, val) => if key == "" then entries else Drop(entries, key) + [(key, val)]
    case DelKey(key) => Drop(entries, key)
  }

  /** The content of a table after a run. */
  function Play(ops: seq<Op>): seq<(string, int)> {
    if ops == [] then [] else Apply(Play(ops[..|ops| - 1]), ops[|ops| - 1])
  }

  predicate Writes(op: Op, key: string) {
    op.key == key && !(op.SetKey? && key == "")
  }

  /** One more than the position of the last operation on a key, or 0 when there is none. */
  function LastWrite(ops: seq<Op>, key: string): (n: nat)
    ensures n <= |ops| && (n > 0 ==> Writes(ops[n - 1], key))
    ensures forall i :: n <= i < |ops| ==> !Writes(ops[i], key)
  {
    if ops == [] then 0
    else if Writes(ops[|ops| - 1], key) then |ops|
    else LastWrite(ops[..|ops| - 1], key)
  }

  /** After any run a key has the value it was last set to, or none if it was deleted since or never set. */
  lemma {:induction false} RunKeepsLastWrite(ops: seq<Op>, key: string)
    ensures
      var n := LastWrite(ops, key);
      Value(Play(ops), key) == if n > 0 && ops[n - 1].SetKey? then Some(ops[n - 1].val) else None
    decreases |ops|
  {
    hide Drop, Value;
    if ops == [] {
      NoValue(key);
    } else {
      var front, op := ops[..|ops| - 1], ops[|ops| - 1];
      RunKeepsLastWrite(front, key);
      SetValue(Play(front), op.key, if op.SetKey? then op.val else 0, key);
    }
  }

  /** Entries whose keys were last written in this order, all of them within the run. */
  ghost predicate InWriteOrder(entries: seq<(string, int)>, ops: seq<Op>) {
    && (forall i :: 0 <= i < |entries| ==> LastWrite(ops, entries[i].0) > 0)
    && forall i, j :: 0 <= i < j < |entries| ==> LastWrite(ops, entries[i].0) < LastWrite(ops, entries[j].0)
  }

  lemma NoValue(key: string)
    ensures Value([], key) == None
  {
  }

  lemma {:induction false} DropHas(entries: seq<(string, int)>, key: string)
    ensures forall e :: e in Drop(entries, key) ==> e in entries && e.0 != key
    decreases |entries|
  {
    if entries != [] {
      DropHas(entries[..|entries| - 1], key);
    }
  }

  lemma OrderSnoc(entries: seq<(string, int)>, entry: (string, int), ops: seq<Op>)
    requires InWriteOrder(entries, ops) && LastWrite(ops, entry.0) > 0
    requires forall e :: e in entries ==> LastWrite(ops, e.0) < LastWrite(ops, entry.0)
    ensures InWriteOrder(entries + [entry], ops)
  {
    hide LastWrite;
  }

  lemma OrderInit(entries: seq<(string, int)>, ops: seq<Op>)
    requires InWriteOrder(entries, ops) && entries != []
    ensures
      var front, last := entries[..|entries| - 1], entries[|entries| - 1];
      && InWriteOrder(front, ops)
      && LastWrite(ops, last.0) > 0
      && forall e :: e in front ==> LastWrite(ops, e.0) < LastWrite(ops, last.0)
  {
    hide LastWrite;
  }

  lemma {:induction false} DropInOrder(entries: seq<(string, int)>, key: string, ops: seq<Op>)
    requires InWriteOrder(entries, ops)
    ensures InWriteOrder(Drop(entries, key), ops)
    decreases |entries|
  {
    hide LastWrite, InWriteOrder;
    if entries != [] {
      var front, last := entries[..|entries| - 1], entries[|entries| - 1];
      OrderInit(entries, ops);
      DropInOrder(front, key, ops);
      DropHas(front, key);
      if last.0 == key {
        assert Drop(entries, key) == Drop(front, key);
      } else {
        OrderSnoc(Drop(front, key), last, ops);
      }
    }
  }

  lemma OrderAfter(entries: seq<(string, int)>, ops: seq<Op>, op: Op)
    requires InWriteOrder(entries, ops) && forall e :: e in entries ==> !Writes(op, e.0)
    ensures InWriteOrder(entries, ops + [op])
    ensures forall e :: e in entries ==> LastWrite(ops + [op], e.0) <= |ops|
  {
    hide LastWrite, Writes;
    forall e | e in entries
      ensures LastWrite(ops + [op], e.0) == LastWrite(ops, e.0) <= |ops|
    {
      LastUnlessWritten(ops, op, e.0);
    }
  }

  lemma LastUnlessWritten(ops: seq<Op>, op: Op, key: string)
    requires !Writes(op, key)
    ensures LastWrite(ops + [op], key) == LastWrite(ops, key)
  {
    assert (ops + [op])[..|ops|] == ops;
  }

  /** After any run the iterator returns the entries in the order in which their keys were last set. */
  lemma {:induction false} RunKeepsOrder(ops: seq<Op>)
    ensures InWriteOrder(Play(ops), ops)
    decreases |ops|
  {
    hide Drop, InWriteOrder, LastWrite;
    if ops == [] {
      NothingInOrder();
    } else {
      var front, op := ops[..|ops| - 1], ops[|ops| - 1];
      RunKeepsOrder(front);
      assert front + [op] == ops;
      if Writes(op, op.key) {
        DropInOrder(Play(front), op.key, front);
        DropHas(Play(front), op.key);
        OrderAfter(Drop(Play(front), op.key), front, op);
        WrittenLast(front, op);
        if op.SetKey? {
          OrderSnoc(Drop(Play(front), op.key), (op.key, op.val), ops);
        }
      } else {
        OrderAfter(Play(front), front, op);
      }
    }
  }

  lemma NothingInOrder()
    ensures InWriteOrder([], [])
  {
  }

  lemma WrittenLast(ops: seq<Op>, op: Op)
    requires Writes(op, op.key)
    ensures LastWrite(ops + [op], op.key) == |ops| + 1
  {
  }
}
