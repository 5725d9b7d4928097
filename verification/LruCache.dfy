/** The least-recently-used cache of src/base/internal/lru_cache.h. */
module LruCache {
  import opened Wrappers

  // ---------------------------------------------------------------------------
  // Recency
  // ---------------------------------------------------------------------------

  type Key = int

  datatype Pair<V> = Pair(key: Key, value: V)

  /** The cache as its pairs, the most recent first. */
  type Cache<V> = seq<Pair<V>>

  function Find<V>(c: Cache<V>, k: Key): (i: nat)
    ensures i <= |c| && (i < |c| ==> c[i].key == k) && forall j | 0 <= j < i :: c[j].key != k
  {
    if c == [] || c[0].key == k then 0 else 1 + Find(c[1..], k)
  }

  predicate Has<V>(c: Cache<V>, k: Key) { Find(c, k) < |c| }

  /** A present key keeps its value and its place; otherwise the last pair makes room. */
  function Inserted<V>(c: Cache<V>, capacity: nat, k: Key, v: V): Cache<V> {
    if Has(c, k) then c
    else if |c| >= capacity && c != [] then [Pair(k, v)] + c[..|c| - 1]
    else [Pair(k, v)] + c
  }

  /** A hit becomes the most recent. */
  function Touched<V>(c: Cache<V>, k: Key): Cache<V> {
    var i := Find(c, k);
    if i < |c| then [c[i]] + c[..i] + c[i + 1..] else c
  }

  function Result<V>(c: Cache<V>, k: Key): Option<V> {
    var i := Find(c, k);
    if i < |c| then Some(c[i].value) else None
  }

  datatype Op<V> = Insert(k: Key, v: V) | Get(k: Key) | Clear

  function Do<V>(c: Cache<V>, capacity: nat, op: Op<V>): Cache<V> {
    match op
    case Insert(k, v) => Inserted(c, capacity, k, v)
    case Get(k) => Touched(c, k)
    case Clear => []
  }

  function After<V>(capacity: nat, ops: seq<Op<V>>): Cache<V>
    decreases |ops|
  {
    if ops == [] then [] else Do(After(capacity, ops[..|ops| - 1]), capacity, ops[|ops| - 1])
  }

  // ---------------------------------------------------------------------------
  // The specification: the keys touched last
  // ---------------------------------------------------------------------------

  /** The keys of the fresh inserts and hits since the last clear, in order. */
  function Touches<V>(capacity: nat, ops: seq<Op<V>>): seq<Key>
    decreases |ops|
  {
    if ops == [] then []
    else
      var n := |ops| - 1;
      var before, c := Touches(capacity, ops[..n]), After(capacity, ops[..n]);
      match ops[n]
      case Insert(k, _) => if Has(c, k) then before else before + [k]
      case Get(k) => if Has(c, k) then before + [k] else before
      case Clear => []
  }

  function Without(ks: seq<Key>, k: Key): seq<Key> {
    if ks == [] then [] else if ks[0] == k then Without(ks[1..], k) else [ks[0]] + Without(ks[1..], k)
  }

  /** The different keys of a sequence, the last one first. */
  function Latest(ts: seq<Key>): seq<Key> {
    if ts == [] then [] else [ts[|ts| - 1]] + Without(Latest(ts[..|ts| - 1]), ts[|ts| - 1])
  }

  function Take(ks: seq<Key>, n: nat): seq<Key> { if |ks| <= n then ks else ks[..n] }

  function Keys<V>(c: Cache<V>): (ks: seq<Key>)
    ensures |ks| == |c| && forall i | 0 <= i < |c| :: ks[i] == c[i].key
  {
    seq(|c|, i requires 0 <= i < |c| => c[i].key)
  }

  predicate Distinct(ks: seq<Key>) { forall i, j | 0 <= i < j < |ks| :: ks[i] != ks[j] }

  lemma {:induction false} WithoutAbsent(ks: seq<Key>, k: Key)
    requires k !in ks
    ensures Without(ks, k) == ks
  {
    if ks != [] { WithoutAbsent(ks[1..], k); }
  }

  lemma {:induction false} WithoutAt(ks: seq<Key>, i: nat)
    requires Distinct(ks) && i < |ks|
    ensures Without(ks, ks[i]) == ks[..i] + ks[i + 1..]
  {
    if i == 0 {
      assert ks[0] !in ks[1..];
      WithoutAbsent(ks[1..], ks[0]);
    } else {
      WithoutAt(ks[1..], i - 1);
      assert ks[1..][..i - 1] == ks[1..i] && ks[1..][i..] == ks[i + 1..];
    }
  }

  lemma {:induction false} WithoutDistinct(ks: seq<Key>, k: Key)
    requires Distinct(ks)
    ensures Distinct(Without(ks, k)) && forall x :: x in Without(ks, k) <==> x in ks && x != k
  {
    if ks != [] {
      WithoutDistinct(ks[1..], k);
      assert ks[0] !in ks[1..];
      forall i | 0 <= i < |Without(ks[1..], k)| ensures Without(ks[1..], k)[i] != ks[0] {
        assert Without(ks[1..], k)[i] in Without(ks[1..], k);
      }
    }
  }

  lemma {:induction false} LatestDistinct(ts: seq<Key>)
    ensures Distinct(Latest(ts))
  {
    if ts != [] {
      LatestDistinct(ts[..|ts| - 1]);
      var k := ts[|ts| - 1];
      var w := Without(Latest(ts[..|ts| - 1]), k);
      WithoutDistinct(Latest(ts[..|ts| - 1]), k);
      assert forall i | 0 <= i < |w| :: w[i] in w;
    }
  }

  lemma LatestTouch(ts: seq<Key>, k: Key)
    ensures Latest(ts + [k]) == [k] + Without(Latest(ts), k)
  {
    assert (ts + [k])[..|ts|] == ts;
  }

  /** Touching a key that is among the first `n` moves it to the front of them; touching
    another one pushes the last of them out. */
  lemma TakeTouch(ls: seq<Key>, n: nat, k: Key)
    requires Distinct(ls) && n > 0
    ensures var t := Take(ls, n);
            Take([k] + Without(ls, k), n) ==
              if k in t then [k] + Without(t, k) else if |t| == n then [k] + t[..n - 1] else [k] + t
  {
    if k in ls {
      var i :| 0 <= i < |ls| && ls[i] == k;
      WithoutAt(ls, i);
      if i < n {
        assert Take(ls, n)[i] == k;
        WithoutAt(Take(ls, n), i);
        TakeInside(ls, n, i);
      } else {
        assert k !in Take(ls, n);
        assert Take([k] + (ls[..i] + ls[i + 1..]), n) == [k] + ls[..n - 1];
      }
    } else {
      WithoutAbsent(ls, k);
    }
  }

  lemma TakeInside(ls: seq<Key>, n: nat, i: nat)
    requires i < n && i < |ls|
    ensures var t := Take(ls, n);
            Take([ls[i]] + (ls[..i] + ls[i + 1..]), n) == [ls[i]] + (t[..i] + t[i + 1..])
  {
  }

  lemma FindKey<V>(c: Cache<V>, k: Key)
    ensures Has(c, k) <==> k in Keys(c)
  {
    if k in Keys(c) { var i :| 0 <= i < |c| && Keys(c)[i] == k; }
  }

  lemma TouchKeys<V>(c: Cache<V>, k: Key)
    requires Distinct(Keys(c)) && Has(c, k)
    ensures Keys(Touched(c, k)) == [k] + Without(Keys(c), k)
  {
    WithoutAt(Keys(c), Find(c, k));
    KeysMoved(c, Find(c, k));
  }

  lemma KeysMoved<V>(c: Cache<V>, i: nat)
    requires i < |c|
    ensures Keys([c[i]] + c[..i] + c[i + 1..]) == [c[i].key] + (Keys(c)[..i] + Keys(c)[i + 1..])
  {
  }

  lemma InsertKeys<V>(c: Cache<V>, capacity: nat, k: Key, v: V)
    requires capacity > 0 && |c| <= capacity && !Has(c, k)
    ensures Keys(Inserted(c, capacity, k, v)) == if |c| == capacity then [k] + Keys(c)[..capacity - 1] else [k] + Keys(c)
  {
  }

  /** After any run the cache holds exactly the last `capacity` different keys that were
    touched, in that order; so the key that is evicted is the least recently touched. */
  lemma {:induction false} HoldsTheLatest<V>(capacity: nat, ops: seq<Op<V>>)
    requires capacity > 0
    ensures Keys(After(capacity, ops)) == Take(Latest(Touches(capacity, ops)), capacity)
    decreases |ops|
  {
    if ops != [] {
      var n := |ops| - 1;
      var before, ts, c := ops[..n], Touches(capacity, ops[..n]), After(capacity, ops[..n]);
      HoldsTheLatest(capacity, before);
      LatestDistinct(ts);
      match ops[n] {
        case Insert(k, v) => TouchStep(c, capacity, ts, k, v);
        case Get(k) => if Has(c, k) { TouchStep(c, capacity, ts, k, c[0].value); }
        case Clear =>
      }
    }
  }

  lemma TouchStep<V>(c: Cache<V>, capacity: nat, ts: seq<Key>, k: Key, v: V)
    requires capacity > 0 && Distinct(Latest(ts)) && Keys(c) == Take(Latest(ts), capacity)
    ensures Keys(if Has(c, k) then Touched(c, k) else Inserted(c, capacity, k, v)) == Take(Latest(ts + [k]), capacity)
  {
    LatestTouch(ts, k);
    TakeTouch(Latest(ts), capacity, k);
    FindKey(c, k);
    assert |c| == |Keys(c)|;
    if Has(c, k) { TouchKeys(c, k); } else { InsertKeys(c, capacity, k, v); }
  }

  // ---------------------------------------------------------------------------
  // Values
  // ---------------------------------------------------------------------------

  /** The value of the last insert of the key that found it absent. */
  function Stored<V>(capacity: nat, ops: seq<Op<V>>, k: Key): Option<V>
    decreases |ops|
  {
    if ops == [] then None
    else
      var n := |ops| - 1;
      match ops[n]
      case Insert(q, v) =>
        if q == k && !Has(After(capacity, ops[..n]), k) then Some(v) else Stored(capacity, ops[..n], k)
      case _ => Stored(capacity, ops[..n], k)
  }

  lemma {:induction false} DistinctAfter<V>(capacity: nat, ops: seq<Op<V>>)
    requires capacity > 0
    ensures Distinct(Keys(After(capacity, ops))) && |After(capacity, ops)| <= capacity
  {
    HoldsTheLatest(capacity, ops);
    LatestDistinct(Touches(capacity, ops));
    assert |Keys(After(capacity, ops))| <= capacity;
  }

  lemma FoundAt<V>(c: Cache<V>, i: nat)
    requires i < |c| && Distinct(Keys(c))
    ensures Find(c, c[i].key) == i
  {
    var j := Find(c, c[i].key);
    assert Keys(c)[i] == c[i].key && Keys(c)[j] == c[j].key;
  }

  lemma StepResult<V>(c: Cache<V>, capacity: nat, op: Op<V>, k: Key)
    requires Distinct(Keys(c)) && Distinct(Keys(Do(c, capacity, op))) && Result(Do(c, capacity, op), k).Some?
    ensures Result(Do(c, capacity, op), k) ==
              if op.Insert? && op.k == k && !Has(c, k) then Some(op.v) else Result(c, k)
  {
    if op.Insert? && !Has(c, op.k) {
      InsertResult(c, capacity, op.k, op.v, k);
    } else if op.Get? && Has(c, op.k) {
      TouchResult(c, op.k, k);
    }
  }

  lemma InsertResult<V>(c: Cache<V>, capacity: nat, q: Key, v: V, k: Key)
    requires Distinct(Keys(c)) && !Has(c, q) && Has(Inserted(c, capacity, q, v), k)
    ensures Result(Inserted(c, capacity, q, v), k) == if k == q then Some(v) else Result(c, k)
  {
    var i := Find(Inserted(c, capacity, q, v), k);
    if i > 0 { FoundAt(c, i - 1); }
  }

  lemma TouchResult<V>(c: Cache<V>, q: Key, k: Key)
    requires Distinct(Keys(c)) && Has(c, q) && Has(Touched(c, q), k)
    ensures Result(Touched(c, q), k) == Result(c, k)
  {
    var m, i := Find(c, q), Find(Touched(c, q), k);
    FoundAt(c, if i == 0 then m else if i <= m then i - 1 else i);
  }

  /** A hit returns the value with which the key last became present. */
  lemma {:induction false} HitIsStored<V>(capacity: nat, ops: seq<Op<V>>, k: Key)
    requires capacity > 0 && Has(After(capacity, ops), k)
    ensures Result(After(capacity, ops), k) == Stored(capacity, ops, k)
    decreases |ops|
  {
    if ops != [] {
      var n := |ops| - 1;
      DistinctAfter(capacity, ops);
      DistinctAfter(capacity, ops[..n]);
      StepResult(After(capacity, ops[..n]), capacity, ops[n], k);
      if Has(After(capacity, ops[..n]), k) { HitIsStored(capacity, ops[..n], k); }
    }
  }

  // ---------------------------------------------------------------------------
  // List and map
  // ---------------------------------------------------------------------------

  /** A node of m_list; iterators are the identities of nodes. */
  datatype Node = Node(id: nat, key: Key)

  datatype Entry<V> = Entry(value: V, iter: nat)

  function Position(list: seq<Node>, id: nat): (i: nat)
    ensures i <= |list| && (i < |list| ==> list[i].id == id) && forall j | 0 <= j < i :: list[j].id != id
  {
    if list == [] || list[0].id == id then 0 else 1 + Position(list[1..], id)
  }

  predicate Listed(list: seq<Node>, k: Key) { exists i | 0 <= i < |list| :: list[i].key == k }

  predicate Unique(list: seq<Node>, nextId: nat) {
    && (forall i | 0 <= i < |list| :: list[i].id < nextId)
    && (forall i, j | 0 <= i < j < |list| :: list[i].id != list[j].id && list[i].key != list[j].key)
  }

  predicate Linked<V>(list: seq<Node>, table: map<Key, Entry<V>>) {
    forall i | 0 <= i < |list| :: list[i].key in table && table[list[i].key].iter == list[i].id
  }

  /** List and map hold the same keys, and each stored iterator is that of its key. */
  predicate Consistent<V>(list: seq<Node>, table: map<Key, Entry<V>>, nextId: nat) {
    |table| == |list| && Unique(list, nextId) && Linked(list, table) && forall k <- table :: Listed(list, k)
  }

  function Pairs<V>(list: seq<Node>, table: map<Key, Entry<V>>): (c: Cache<V>)
    requires Linked(list, table)
    ensures |c| == |list| && forall i | 0 <= i < |list| :: c[i] == Pair(list[i].key, table[list[i].key].value)
  {
    seq(|list|, i requires 0 <= i < |list| => Pair(list[i].key, table[list[i].key].value))
  }

  lemma ListedMoved(list: seq<Node>, j: nat, node: Node, k: Key)
    requires j < |list| && node.key == list[j].key && Listed(list, k)
    ensures Listed([node] + list[..j] + list[j + 1..], k)
  {
    var i :| 0 <= i < |list| && list[i].key == k;
    assert ([node] + list[..j] + list[j + 1..])[if i == j then 0 else if i < j then i + 1 else i].key == k;
  }

  lemma ListedPushed(list: seq<Node>, node: Node, k: Key)
    requires node.key == k || Listed(list, k)
    ensures Listed([node] + list, k)
  {
    if node.key == k {
      assert ([node] + list)[0].key == k;
    } else {
      var i :| 0 <= i < |list| && list[i].key == k;
      assert ([node] + list)[i + 1].key == k;
    }
  }

  lemma PushedConsistent<V>(list: seq<Node>, table: map<Key, Entry<V>>, nextId: nat, k: Key, v: V)
    requires Consistent(list, table, nextId) && k !in table
    ensures Consistent([Node(nextId, k)] + list, table[k := Entry(v, nextId)], nextId + 1)
    ensures Pairs([Node(nextId, k)] + list, table[k := Entry(v, nextId)]) == [Pair(k, v)] + Pairs(list, table)
  {
    PushedUnique(list, table, nextId, k);
    PushedLinked(list, table, nextId, k, v);
    PushedPairs(list, table, nextId, k, v);
    forall x <- table[k := Entry(v, nextId)] ensures Listed([Node(nextId, k)] + list, x) {
      ListedPushed(list, Node(nextId, k), x);
    }
  }

  lemma PushedUnique<V>(list: seq<Node>, table: map<Key, Entry<V>>, nextId: nat, k: Key)
    requires Unique(list, nextId) && Linked(list, table) && k !in table
    ensures Unique([Node(nextId, k)] + list, nextId + 1)
  {
  }

  lemma PushedLinked<V>(list: seq<Node>, table: map<Key, Entry<V>>, nextId: nat, k: Key, v: V)
    requires Linked(list, table) && k !in table
    ensures Linked([Node(nextId, k)] + list, table[k := Entry(v, nextId)])
  {
  }

  lemma PushedPairs<V>(list: seq<Node>, table: map<Key, Entry<V>>, nextId: nat, k: Key, v: V)
    requires Linked(list, table) && Linked([Node(nextId, k)] + list, table[k := Entry(v, nextId)]) && k !in table
    ensures Pairs([Node(nextId, k)] + list, table[k := Entry(v, nextId)]) == [Pair(k, v)] + Pairs(list, table)
  {
  }

  /** A node replaced by a new one at the front of the list. */
  lemma MovedConsistent<V>(list: seq<Node>, table: map<Key, Entry<V>>, nextId: nat, j: nat)
    requires j < |list| && Consistent(list, table, nextId)
    ensures var k := list[j].key; var t := table[k := Entry(table[k].value, nextId)];
            var l := [Node(nextId, k)] + list[..j] + list[j + 1..]; var c := Pairs(list, table);
            Consistent(l, t, nextId + 1) && Pairs(l, t) == [c[j]] + c[..j] + c[j + 1..]
  {
    var k := list[j].key;
    var t, l := table[k := Entry(table[k].value, nextId)], [Node(nextId, k)] + list[..j] + list[j + 1..];
    MovedLinked(list, table, nextId, j);
    assert t.Keys == table.Keys && |t| == |t.Keys| && |table| == |table.Keys|;
    forall x <- t ensures Listed(l, x) { ListedMoved(list, j, Node(nextId, k), x); }
    MovedPairs(list, table, nextId, j);
  }

  lemma MovedPairs<V>(list: seq<Node>, table: map<Key, Entry<V>>, nextId: nat, j: nat)
    requires j < |list| && Linked(list, table)
    requires var k := list[j].key; var t := table[k := Entry(table[k].value, nextId)];
             Linked([Node(nextId, k)] + list[..j] + list[j + 1..], t)
    ensures var k := list[j].key; var t := table[k := Entry(table[k].value, nextId)];
            var l := [Node(nextId, k)] + list[..j] + list[j + 1..]; var c := Pairs(list, table);
            Pairs(l, t) == [c[j]] + c[..j] + c[j + 1..]
  {
  }

  lemma MovedLinked<V>(list: seq<Node>, table: map<Key, Entry<V>>, nextId: nat, j: nat)
    requires j < |list| && Unique(list, nextId) && Linked(list, table)
    ensures var k := list[j].key; var t := table[k := Entry(table[k].value, nextId)];
            var l := [Node(nextId, k)] + list[..j] + list[j + 1..];
            Unique(l, nextId + 1) && Linked(l, t)
  {
    var l := [Node(nextId, list[j].key)] + list[..j] + list[j + 1..];
    forall i | 0 <= i < |l| ensures l[i] == if i == 0 then Node(nextId, list[j].key) else list[if i <= j then i - 1 else i] {}
  }

  class Lru<V(==)> {
    const capacity: nat
    var list: seq<Node>
    var table: map<Key, Entry<V>>
    var nextId: nat

    predicate Valid() reads this { capacity > 0 && |list| <= capacity && Consistent(list, table, nextId) }

    function Abs(): Cache<V>
      requires Valid()
      reads this
    {
      Pairs(list, table)
    }

    constructor (capacity: nat)
      requires capacity > 0
      ensures Valid() && Abs() == [] && this.capacity == capacity
    {
      this.capacity, list, table, nextId := capacity, [], map[], 0;
    }

    /** The map finds a key where the list has it. */
    lemma FindIsPosition(k: Key)
      requires Valid()
      ensures k in table <==> Has(Abs(), k)
      ensures k in table ==> Position(list, table[k].iter) == Find(Abs(), k) < |list|
    {
      if k in table {
        assert Listed(list, k);
        var i :| 0 <= i < |list| && list[i].key == k;
        assert Abs()[i].key == k;
      }
    }

    method Insert(k: Key, v: V)
      requires Valid()
      modifies this
      ensures Valid() && Abs() == Inserted(old(Abs()), capacity, k, v)
    {
      FindIsPosition(k);
      if k !in table {
        if |table| >= capacity {
          Evict();
        }
        PushFront(k, v);
      }
    }

    method PushFront(k: Key, v: V)
      requires Valid() && k !in table && |list| < capacity
      modifies this
      ensures Valid() && Abs() == [Pair(k, v)] + old(Abs())
    {
      PushedConsistent(list, table, nextId, k, v);
      list := [Node(nextId, k)] + list;
      table := table[k := Entry(v, nextId)];
      nextId := nextId + 1;
    }

    method Evict()
      requires Valid() && list != []
      modifies this
      ensures Valid() && Abs() == old(Abs())[..|old(Abs())| - 1]
      ensures table == old(table) - {old(list[|list| - 1].key)}
      ensures |list| == |old(list)| - 1
    {
      ghost var was, t := list, table;
      var n := |list| - 1;
      var k := list[n].key;
      table := table - {k};
      list := list[..n];
      assert t == table[k := t[k]];
      forall x <- table ensures Listed(list, x) {
        assert Listed(was, x);
        var i :| 0 <= i < |was| && was[i].key == x;
        assert list[i].key == x;
      }
    }

    method Get(k: Key) returns (r: Option<V>)
      requires Valid()
      modifies this
      ensures Valid() && Abs() == Touched(old(Abs()), k) && r == Result(old(Abs()), k)
    {
      FindIsPosition(k);
      if k !in table {
        return None;
      }
      var j := Position(list, table[k].iter);
      if j != 0 {
        MoveToFront(k, j);
      }
      assert Abs()[0].key == k;
      r := Some(table[k].value);
    }

    /** erase(j), push_front(key) and the new iterator in the map. */
    method MoveToFront(k: Key, j: nat)
      requires Valid() && k in table && 0 < j < |list| && list[j].key == k
      modifies this
      ensures Valid() && Abs() == [old(Abs()[j])] + old(Abs())[..j] + old(Abs())[j + 1..]
      ensures table.Keys == old(table.Keys) && table[k].value == old(table[k].value)
    {
      MovedConsistent(list, table, nextId, j);
      assert [Node(nextId, k)] + (list[..j] + list[j + 1..]) == [Node(nextId, k)] + list[..j] + list[j + 1..];
      list := list[..j] + list[j + 1..];
      list := [Node(nextId, k)] + list;
      table := table[k := Entry(table[k].value, nextId)];
      nextId := nextId + 1;
    }

    method ClearAll()
      requires Valid()
      modifies this
      ensures Valid() && Abs() == []
    {
      table, list := map[], [];
    }
  }
}
