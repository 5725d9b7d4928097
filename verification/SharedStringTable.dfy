/** The table of shared strings of src/base/internal/stralloc.cc: chained blocks, moved to the
  front of their chain when they are looked up. */
module SharedStringTable {
  import opened SharedStrings

  class Block {
    var next: Block?
    var refs: nat
    var hash: nat
    const text: string

    constructor (text: string, hash: nat, next: Block?)
      ensures this.text == text && this.hash == hash && this.next == next && refs == 1
    {
      this.text, this.hash, this.next, this.refs := text, hash, next, 1;
    }
  }

  function At(c: seq<Block>, k: nat): Block? { if k < |c| then c[k] else null }

  function Front(c: seq<Block>, k: nat): seq<Block>
    requires k < |c|
  {
    [c[k]] + c[..k] + c[k + 1..]
  }

  function Without(c: seq<Block>, k: nat): seq<Block>
    requires k < |c|
  {
    c[..k] + c[k + 1..]
  }

  predicate TextsDistinct(c: seq<Block>) { forall i, j | 0 <= i < j < |c| :: c[i].text != c[j].text }

  predicate Has(c: seq<Block>, s: string) { exists k | 0 <= k < |c| :: c[k].text == s }

  ghost predicate Linked(head: Block?, c: seq<Block>)
    reads c
  {
    head == At(c, 0) && forall k | 0 <= k < |c| :: c[k].next == At(c, k + 1)
  }

  /** The chain of one bucket holds the table's strings of that hash. */
  predicate ChainOk(c: seq<Block>, table: map<string, Block>, hash: string -> nat, h: nat) {
    && TextsDistinct(c)
    && (forall k | 0 <= k < |c| :: c[k].text in table && table[c[k].text] == c[k] && hash(c[k].text) == h)
    && (forall s <- table :: hash(s) == h ==> Has(c, s))
  }

  predicate Named(table: map<string, Block>) { forall s <- table :: table[s].text == s }

  lemma FrontOk(c: seq<Block>, k: nat, table: map<string, Block>, hash: string -> nat, h: nat)
    requires k < |c| && ChainOk(c, table, hash, h)
    ensures ChainOk(Front(c, k), table, hash, h)
  {
    var d := Front(c, k);
    forall s | Has(c, s) ensures Has(d, s) {
      var i :| 0 <= i < |c| && c[i].text == s;
      assert d[if i == k then 0 else if i < k then i + 1 else i] == c[i];
    }
  }

  lemma FrontLinked(c: seq<Block>, i: nat)
    requires 0 < i < |c| && c[i].next == c[0] && c[i - 1].next == At(c, i + 1)
    requires forall k | 0 <= k < |c| && k != i && k != i - 1 :: c[k].next == At(c, k + 1)
    ensures Linked(c[i], Front(c, i))
  {
    var d := Front(c, i);
    forall k | 0 <= k < |d| ensures d[k].next == At(d, k + 1) {
      if k == 0 { assert d[0] == c[i]; } else if k <= i { assert d[k] == c[k - 1]; } else { assert d[k] == c[k]; }
    }
  }

  lemma PrependLinked(c: seq<Block>, b: Block)
    requires b.next == At(c, 0) && forall k | 0 <= k < |c| :: c[k].next == At(c, k + 1)
    ensures Linked(b, [b] + c)
  {
    var d := [b] + c;
    forall k | 0 <= k < |d| ensures d[k].next == At(d, k + 1) {
      if k > 0 { assert d[k] == c[k - 1]; }
    }
  }

  lemma WithoutLinked(head: Block?, c: seq<Block>, k: nat)
    requires k < |c| && head == if k == 0 then At(c, 1) else c[0]
    requires k > 0 ==> c[k - 1].next == At(c, k + 1)
    requires forall j | 0 <= j < |c| && j != k - 1 && j != k :: c[j].next == At(c, j + 1)
    ensures Linked(head, Without(c, k))
  {
    var d := Without(c, k);
    forall j | 0 <= j < |d| ensures d[j].next == At(d, j + 1) {
      if j < k { assert d[j] == c[j]; } else { assert d[j] == c[j + 1]; }
    }
  }

  lemma PrependOk(c: seq<Block>, b: Block, table: map<string, Block>, hash: string -> nat, h: nat)
    requires ChainOk(c, table, hash, h) && b.text !in table && hash(b.text) == h
    ensures ChainOk([b] + c, table[b.text := b], hash, h)
  {
    var d := [b] + c;
    assert d[0] == b;
    forall s | Has(c, s) ensures Has(d, s) {
      var i :| 0 <= i < |c| && c[i].text == s;
      assert d[i + 1] == c[i];
    }
  }

  lemma OtherAdd(c: seq<Block>, b: Block, table: map<string, Block>, hash: string -> nat, h: nat)
    requires ChainOk(c, table, hash, h) && b.text !in table && hash(b.text) != h
    ensures ChainOk(c, table[b.text := b], hash, h)
  {
  }

  lemma OtherRemove(c: seq<Block>, s: string, table: map<string, Block>, hash: string -> nat, h: nat)
    requires ChainOk(c, table, hash, h) && s in table && hash(s) != h
    ensures ChainOk(c, table - {s}, hash, h)
  {
  }

  lemma RemoveOk(c: seq<Block>, k: nat, table: map<string, Block>, hash: string -> nat, h: nat)
    requires k < |c| && ChainOk(c, table, hash, h)
    ensures ChainOk(Without(c, k), table - {c[k].text}, hash, h)
  {
    var d := Without(c, k);
    forall s | Has(c, s) && s != c[k].text ensures Has(d, s) {
      var i :| 0 <= i < |c| && c[i].text == s;
      assert d[if i < k then i else i - 1] == c[i];
    }
  }

  class StringTable {
    const size: nat               // htable_size
    const whash: string -> nat    // whashstr
    var base: array<Block?>       // base_table
    var distinct: nat             // num_distinct_strings
    ghost var chains: seq<seq<Block>>
    ghost var table: map<string, Block>
    ghost var blocks: set<Block>

    /** `& htable_size_minus_one`, the size being a power of two. */
    function StrHash(s: string): (h: nat)
      requires size > 0
      ensures h < size
    {
      whash(s) % size
    }

    ghost function Hash(): string -> nat
      requires size > 0
    {
      s => StrHash(s)
    }

    ghost predicate InBlocks()
      reads this
    {
      forall h, k | 0 <= h < |chains| && 0 <= k < |chains[h]| :: chains[h][k] in blocks
    }

    /** Each string is once in the chain of its hash, and in no other. */
    ghost predicate Chained()
      reads this
    {
      && size > 0 && |chains| == size && Named(table) && InBlocks()
      && (forall h | 0 <= h < size :: ChainOk(chains[h], table, Hash(), h))
      && (forall s <- table :: table[s] in blocks)
    }

    ghost predicate BlocksOkFor(t: map<string, Block>)
      requires size > 0
      reads this, blocks
    {
      forall s <- t :: t[s] in blocks && t[s].hash == StrHash(s) && t[s].refs < WRAP
    }

    ghost predicate BlocksOk()
      requires size > 0
      reads this, blocks
    {
      BlocksOkFor(table)
    }

    ghost predicate Valid()
      reads this, base, blocks
    {
      && Chained() && BlocksOk() && base.Length == size && distinct == |table|
      && (forall h | 0 <= h < size :: base[h] == At(chains[h], 0))
      && (forall h, k | 0 <= h < size && 0 <= k < |chains[h]| :: chains[h][k].next == At(chains[h], k + 1))
    }

    ghost function Abs(): Table<Block>
      reads this, blocks
      requires Chained()
    {
      map s <- table :: Rec(table[s], table[s].refs)
    }

    ghost predicate Owns(b: Block)
      reads this
    {
      b.text in table && table[b.text] == b
    }

    /** init_strings */
    constructor (y: int, whash: string -> nat)
      ensures Valid() && Abs() == map[] && fresh(base)
      ensures y <= size && (size == 1 || size < 2 * y)
    {
      var n := 1;
      while n < y
        invariant n >= 1 && (n == 1 || n < 2 * y)
      {
        n := n * 2;
      }
      this.size, this.whash := n, whash;
      base := new Block?[n](_ => null);
      distinct := 0;
      chains := seq(n, _ => []);
      table, blocks := map[], {};
    }

    /** sfindblock */
    method FindBlock(s: string, h: nat) returns (b: Block?)
      requires Valid() && h == StrHash(s)
      modifies this`chains, base, blocks`next
      ensures Valid() && b == (if s in table then table[s] else null) && Abs() == old(Abs())
      ensures b != null ==> base[h] == b
      ensures b == null ==> base[h] == old(base[h])
    {
      var curr, prev, i := Walk(s, h);
      if curr != null && prev != null {
        ghost var before, was := Abs(), table;
        MoveToFront(h, curr, prev, i);
        AbsIsSame(before, was);
      }
      b := curr;
    }

    lemma AbsIsSame(before: Table<Block>, was: map<string, Block>)
      requires Chained() && table == was && before.Keys == was.Keys
      requires forall x <- was :: before[x] == Rec(was[x], was[x].refs)
      ensures Abs() == before
    {
    }

    /** The loop of sfindblock. */
    method Walk(s: string, h: nat) returns (curr: Block?, prev: Block?, ghost i: nat)
      requires Valid() && h == StrHash(s)
      ensures curr == (if s in table then table[s] else null)
      ensures curr != null ==> i < |chains[h]| && curr == chains[h][i] && prev == (if i == 0 then null else chains[h][i - 1])
    {
      curr, prev, i := Along(base[h], s, chains[h]);
      assert ChainOk(chains[h], table, Hash(), h);
      assert curr == null ==> !Has(chains[h], s);
    }

    /** The loop, along the links. */
    static method Along(head: Block?, s: string, ghost c: seq<Block>) returns (curr: Block?, prev: Block?, ghost i: nat)
      requires Linked(head, c)
      ensures i <= |c| && curr == At(c, i) && (curr != null ==> curr.text == s) && forall j | 0 <= j < i :: c[j].text != s
      ensures prev == if i == 0 then null else c[i - 1]
    {
      i := 0;
      curr, prev := head, null;
      while curr != null && curr.text != s
        invariant i <= |c| && curr == At(c, i) && prev == (if i == 0 then null else c[i - 1])
        invariant forall j | 0 <= j < i :: c[j].text != s
        decreases |c| - i
      {
        prev := curr;
        curr := curr.next;
        i := i + 1;
      }
    }

    /** The block at position `i` of its chain becomes the first. */
    method MoveToFront(h: nat, curr: Block, prev: Block, ghost i: nat)
      requires Valid() && h < size && 0 < i < |chains[h]| && curr == chains[h][i] && prev == chains[h][i - 1]
      modifies this`chains, base, blocks`next
      ensures Valid() && base[h] == curr
    {
      ghost var c := chains[h];
      FrontOk(c, i, table, Hash(), h);
      Relink(h, curr, prev, i);
      FrontLinked(c, i);
      Rechain(h, Front(c, i));
    }

    /** Bucket `h` now has chain `d`, of the same blocks. */
    ghost method Rechain(h: nat, d: seq<Block>)
      requires Chained() && base.Length == size && h < size && ChainOk(d, table, Hash(), h) && Linked(base[h], d)
      requires OthersLinked(h) && BlocksOk() && distinct == |table|
      modifies this`chains
      ensures Valid()
    {
      chains := chains[h := d];
    }

    ghost predicate OthersLinked(h: nat)
      requires |chains| == size == base.Length && InBlocks()
      reads this, base, blocks
    {
      && (forall g | 0 <= g < size && g != h :: base[g] == At(chains[g], 0))
      && (forall g, k | 0 <= g < size && g != h && 0 <= k < |chains[g]| :: chains[g][k].next == At(chains[g], k + 1))
    }

    ghost predicate WouldBeChained(h: nat, d: seq<Block>, t: map<string, Block>)
      reads this
    {
      && size > 0 && |chains| == size && h < size && Named(t) && ChainOk(d, t, Hash(), h)
      && (forall g | 0 <= g < size && g != h :: ChainOk(chains[g], t, Hash(), g))
      && InBlocks() && (forall k | 0 <= k < |d| :: d[k] in blocks) && (forall s <- t :: t[s] in blocks)
    }

    /** Bucket `h` now has chain `d`, and the strings are those of `t`. */
    ghost method Update(h: nat, d: seq<Block>, t: map<string, Block>)
      requires WouldBeChained(h, d, t) && base.Length == size && Linked(base[h], d) && OthersLinked(h)
      requires distinct == |t| && BlocksOkFor(t)
      modifies this`chains, this`table
      ensures Valid() && table == t && Chained()
    {
      chains, table := chains[h := d], t;
    }

    method Relink(h: nat, curr: Block, prev: Block, ghost i: nat)
      requires Valid() && h < size && 0 < i < |chains[h]| && curr == chains[h][i] && prev == chains[h][i - 1]
      modifies base, blocks`next
      ensures base[h] == curr && curr.next == chains[h][0] && prev.next == At(chains[h], i + 1)
      ensures forall k | 0 <= k < |chains[h]| && k != i && k != i - 1 :: chains[h][k].next == At(chains[h], k + 1)
      ensures OthersLinked(h)
    {
      prev.next := curr.next;
      curr.next := base[h];
      base[h] := curr;
    }

    method SetRefs(b: Block, n: nat)
      requires Valid() && Owns(b) && n < WRAP
      modifies b`refs
      ensures Valid() && Abs() == old(Abs())[b.text := Rec(b, n)]
    {
      b.refs := n;
    }

    /** alloc_new_shared_string, for a string within the maximum length */
    method AllocNewSharedString(s: string, h: nat) returns (b: Block)
      requires Valid() && s !in table && h == StrHash(s)
      modifies this`chains, this`table, this`blocks, this`distinct, base
      ensures Valid() && fresh(b) && b.text == s && table == old(table)[s := b]
      ensures Abs() == Made(old(Abs()), s, b)
    {
      ghost var before, was := Abs(), table;
      b := AddBlock(s, h);
      AbsIsMade(before, was, b);
    }

    lemma AbsIsMade(before: Table<Block>, was: map<string, Block>, b: Block)
      requires Chained() && b.text !in was && table == was[b.text := b] && b.refs == 1
      requires before.Keys == was.Keys && forall x <- was :: before[x] == Rec(was[x], was[x].refs)
      ensures Abs() == Made(before, b.text, b)
    {
    }

    method AddBlock(s: string, h: nat) returns (b: Block)
      requires Valid() && s !in table && h == StrHash(s)
      modifies this`chains, this`table, this`blocks, this`distinct, base
      ensures Valid() && fresh(b) && b.text == s && b.refs == 1 && table == old(table)[s := b]
    {
      b := new Block(s, h, base[h]);
      LinkFirst(h, b);
      AddWouldChain(h, b);
      Update(h, [b] + chains[h], table[s := b]);
    }

    lemma AddWouldChain(h: nat, b: Block)
      requires Chained() && BlocksOk() && b.text !in table && h == StrHash(b.text) && b in blocks && b.hash == h && b.refs < WRAP
      ensures BlocksOkFor(table[b.text := b])
      ensures WouldBeChained(h, [b] + chains[h], table[b.text := b])
    {
      PrependOk(chains[h], b, table, Hash(), h);
      forall g | 0 <= g < size && g != h ensures ChainOk(chains[g], table[b.text := b], Hash(), g) {
        OtherAdd(chains[g], b, table, Hash(), g);
      }
    }

    method LinkFirst(h: nat, b: Block)
      requires Valid() && h < size && b !in blocks && b.next == base[h]
      modifies this`blocks, this`distinct, base
      ensures blocks == old(blocks) + {b} && distinct == old(distinct) + 1 && Chained() && BlocksOk()
      ensures Linked(base[h], [b] + chains[h]) && OthersLinked(h)
    {
      ghost var c := chains[h];
      base[h] := b;
      distinct, blocks := distinct + 1, blocks + {b};
      PrependLinked(c, b);
    }

    /** int_make_shared_string */
    method MakeSharedString(s: string) returns (b: Block)
      requires Valid()
      modifies this`chains, this`table, this`blocks, this`distinct, base, blocks
      ensures Valid() && b.text == s && table == old(table)[s := b]
      ensures if s in old(table) then b == old(table[s]) else fresh(b)
      ensures Abs() == Made(old(Abs()), s, b)
    {
      var h := StrHash(s);
      var found := FindBlock(s, h);
      if found == null {
        // another thread may have been first
        found := FindBlock(s, h);
      }
      if found == null {
        b := AllocNewSharedString(s, h);
      } else {
        b := found;
        RefString(b);
      }
    }

    /** int_ref_string; MakeSharedString does the same for a block it finds. */
    method RefString(b: Block)
      requires Valid() && Owns(b)
      modifies b`refs
      ensures Valid() && Abs() == Bumped(old(Abs()), b.text)
    {
      if b.refs != 0 {
        SetRefs(b, (b.refs + 1) % WRAP);
      }
    }

    /** int_free_string */
    method FreeString(b: Block)
      requires Valid() && Owns(b)
      modifies this`chains, this`table, this`distinct, base, blocks
      ensures Valid() && Abs() == Freed(old(Abs()), b.text)
    {
      if b.refs == 0 {
        return;
      }
      var oldRef := b.refs;
      SetRefs(b, oldRef - 1);
      if oldRef > 1 {
        return;
      }
      Unlink(b);
    }

    /** The block leaves the chain of its hash. */
    method Unlink(b: Block)
      requires Valid() && Owns(b)
      modifies this`chains, this`table, this`distinct, base, blocks`next
      ensures Valid() && Abs() == old(Abs()) - {b.text}
    {
      ghost var before := Abs();
      RemoveBlock(b);
      assert forall x <- table :: table[x] == before[x].block && table[x].refs == before[x].refs;
    }

    method RemoveBlock(b: Block)
      requires Valid() && Owns(b)
      modifies this`chains, this`table, this`distinct, base, blocks`next
      ensures Valid() && table == old(table) - {b.text}
    {
      var prev, k := Before(b.hash, b);
      RemoveAt(b.hash, b, prev, k);
    }

    method RemoveAt(h: nat, b: Block, prev: Block?, ghost k: nat)
      requires Valid() && h < size && k < |chains[h]| && chains[h][k] == b
      requires prev == if k == 0 then null else chains[h][k - 1]
      modifies this`chains, this`table, this`distinct, base, blocks`next
      ensures Valid() && table == old(table) - {b.text}
    {
      RemoveWouldChain(h, k);
      SkipOver(h, b, prev, k);
      Update(h, Without(chains[h], k), table - {b.text});
    }

    method Before(h: nat, b: Block) returns (prev: Block?, ghost k: nat)
      requires Valid() && Owns(b) && h == b.hash
      ensures h < size && k < |chains[h]| && chains[h][k] == b
      ensures prev == if k == 0 then null else chains[h][k - 1]
    {
      ghost var c := chains[h];
      assert ChainOk(c, table, Hash(), h) && Has(c, b.text);
      k := 0;
      prev := null;
      var cur := base[h];
      while cur != null && cur != b
        invariant k <= |c| && cur == At(c, k) && prev == (if k == 0 then null else c[k - 1])
        invariant forall j | 0 <= j < k :: c[j] != b
        decreases |c| - k
      {
        prev := cur;
        cur := cur.next;
        k := k + 1;
      }
    }

    method SkipOver(h: nat, b: Block, prev: Block?, ghost k: nat)
      requires Valid() && h < size && k < |chains[h]| && chains[h][k] == b
      requires prev == if k == 0 then null else chains[h][k - 1]
      modifies this`distinct, base, blocks`next
      ensures distinct == old(distinct) - 1 && BlocksOk()
      ensures Linked(base[h], Without(chains[h], k)) && OthersLinked(h)
    {
      ghost var c := chains[h];
      if prev == null {
        SetHead(h, b.next);
      } else {
        SetNext(h, k - 1, prev, b.next);
      }
      distinct := distinct - 1;
      WithoutLinked(base[h], c, k);
    }

    method SetHead(h: nat, n: Block?)
      requires Valid() && h < size
      modifies base
      ensures base[h] == n && OthersLinked(h) && BlocksOk()
      ensures forall j | 0 <= j < |chains[h]| :: chains[h][j].next == At(chains[h], j + 1)
    {
      base[h] := n;
    }

    method SetNext(ghost h: nat, ghost k: nat, b: Block, n: Block?)
      requires Valid() && h < size && k < |chains[h]| && chains[h][k] == b
      modifies b`next
      ensures b.next == n && OthersLinked(h) && BlocksOk()
      ensures forall j | 0 <= j < |chains[h]| && j != k :: chains[h][j].next == At(chains[h], j + 1)
    {
      assert ChainOk(chains[h], table, Hash(), h);
      b.next := n;
    }

    lemma RemoveWouldChain(h: nat, k: nat)
      requires Chained() && BlocksOk() && h < size && k < |chains[h]|
      ensures BlocksOkFor(table - {chains[h][k].text})
      ensures |table - {chains[h][k].text}| == |table| - 1
      ensures WouldBeChained(h, Without(chains[h], k), table - {chains[h][k].text})
    {
      var s := chains[h][k].text;
      RemoveOk(chains[h], k, table, Hash(), h);
      forall g | 0 <= g < size && g != h ensures ChainOk(chains[g], table - {s}, Hash(), g) {
        OtherRemove(chains[g], s, table, Hash(), g);
      }
      assert (table - {s})[s := chains[h][k]] == table;
    }
  }
}
