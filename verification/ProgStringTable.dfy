/** The program string table as the compiler keeps it: three parallel growing blocks, the
  hash chains threaded through one of them, a bit per bucket and the cursor freed_string
  (src/compiler/internal/compiler.cc). */
module ProgStringTable {
  import opened ProgStrings

  const BUCKETS := 256
  type Hash = h: nat | h < BUCKETS

  /** The successor of position `k - 1` in a chain, as an index or -1. */
  function Link(chain: seq<nat>, k: nat): int { if k < |chain| then chain[k] else -1 }

  /** Bit `h` of the bit array string_tags. */
  predicate Tagged(tags: seq<bv8>, h: Hash)
    requires |tags| == BUCKETS / 8
  {
    Bit(tags[h / 8], h % 8)
  }

  predicate Bit(b: bv8, i: nat)
    requires i < 8
  {
    b & (1 << i) != 0
  }

  ghost predicate ChainOk(hash: Ptr -> Hash, strings: seq<Ptr>, next: seq<int>, chain: seq<nat>, h: Hash)
    requires |next| == |strings|
  {
    && (forall k | 0 <= k < |chain| ::
          chain[k] < |strings| && strings[chain[k]] != NULL && hash(strings[chain[k]]) == h && next[chain[k]] == Link(chain, k + 1))
    && (forall k, l | 0 <= k < l < |chain| :: chain[k] != chain[l])
  }

  /** The tag bit of a bucket is set iff its chain is not empty, and then its head is known. */
  ghost predicate HeadsOk(idx: seq<int>, tags: seq<bv8>, chains: seq<seq<nat>>) {
    && |idx| == BUCKETS && |tags| == BUCKETS / 8 && |chains| == BUCKETS
    && (forall h: Hash :: Tagged(tags, h) <==> chains[h] != [])
    && (forall h: Hash :: chains[h] != [] ==> idx[h] == chains[h][0])
  }

  /** `chains[h]` is what bucket `h` holds: exactly the live entries that hash to `h`. */
  ghost predicate Linked(hash: Ptr -> Hash, strings: seq<Ptr>, next: seq<int>, idx: seq<int>, tags: seq<bv8>, chains: seq<seq<nat>>) {
    && |next| == |strings| && HeadsOk(idx, tags, chains)
    && (forall h: Hash :: ChainOk(hash, strings, next, chains[h], h))
    && (forall i | 0 <= i < |strings| && strings[i] != NULL :: i in chains[hash(strings[i])])
  }

  lemma BitOps(t: bv8, i: nat, j: nat)
    requires i < 8 && j < 8
    ensures Bit(t | (1 << i), j) <==> i == j || Bit(t, j)
    ensures Bit(t & !(1 << i), j) <==> i != j && Bit(t, j)
  {
  }

  function SetTag(tags: seq<bv8>, h: Hash): (r: seq<bv8>)
    requires |tags| == BUCKETS / 8
    ensures |r| == |tags| && forall g: Hash :: Tagged(r, g) <==> g == h || Tagged(tags, g)
  {
    var r := tags[h / 8 := tags[h / 8] | (1 << (h % 8))];
    assert forall g: Hash :: Tagged(r, g) <==> g == h || Tagged(tags, g) by {
      forall g: Hash ensures Tagged(r, g) <==> g == h || Tagged(tags, g) {
        if g / 8 == h / 8 { BitOps(tags[h / 8], h % 8, g % 8); }
      }
    }
    r
  }

  function ClearTag(tags: seq<bv8>, h: Hash): (r: seq<bv8>)
    requires |tags| == BUCKETS / 8
    ensures |r| == |tags| && forall g: Hash :: Tagged(r, g) <==> g != h && Tagged(tags, g)
  {
    var r := tags[h / 8 := tags[h / 8] & !(1 << (h % 8))];
    assert forall g: Hash :: Tagged(r, g) <==> g != h && Tagged(tags, g) by {
      forall g: Hash ensures Tagged(r, g) <==> g != h && Tagged(tags, g) {
        if g / 8 == h / 8 { BitOps(tags[h / 8], h % 8, g % 8); }
      }
    }
    r
  }

  /** A chain only depends on its own entries. */
  lemma ChainFrame(hash: Ptr -> Hash, strings: seq<Ptr>, next: seq<int>, strings': seq<Ptr>, next': seq<int>, chain: seq<nat>, h: Hash)
    requires |next| == |strings| && |next'| == |strings'| && ChainOk(hash, strings, next, chain, h)
    requires forall c <- chain :: c < |strings'| && c < |strings| && strings'[c] == strings[c] && next'[c] == next[c]
    ensures ChainOk(hash, strings', next', chain, h)
  {
  }

  /** Putting entry `i` in front of the chain of its hash. */
  lemma LinkFront(hash: Ptr -> Hash, strings: seq<Ptr>, next: seq<int>, idx: seq<int>, tags: seq<bv8>, chains: seq<seq<nat>>,
                  i: nat, p: Ptr, strings': seq<Ptr>, next': seq<int>)
    requires Linked(hash, strings, next, idx, tags, chains) && p != NULL
    requires i <= |strings| && (i < |strings| ==> strings[i] == NULL)
    requires |strings'| == |next'| == (if i < |strings| then |strings| else i + 1)
    requires strings'[i] == p && next'[i] == Link(chains[hash(p)], 0)
    requires forall j | 0 <= j < |strings| && j != i :: strings'[j] == strings[j] && next'[j] == next[j]
    ensures Linked(hash, strings', next', idx[hash(p) := i], SetTag(tags, hash(p)), chains[hash(p) := [i] + chains[hash(p)]])
  {
    var chains' := chains[hash(p) := [i] + chains[hash(p)]];
    forall g: Hash ensures ChainOk(hash, strings', next', chains'[g], g) {
      LinkFrontChain(hash, strings, next, idx, tags, chains, i, p, strings', next', g);
    }
    LinkFrontMembers(hash, strings, next, idx, tags, chains, i, p, strings');
    FrontHeads(idx, tags, chains, hash(p), i);
  }

  lemma LinkFrontChain(hash: Ptr -> Hash, strings: seq<Ptr>, next: seq<int>, idx: seq<int>, tags: seq<bv8>, chains: seq<seq<nat>>,
                       i: nat, p: Ptr, strings': seq<Ptr>, next': seq<int>, g: Hash)
    requires Linked(hash, strings, next, idx, tags, chains) && p != NULL
    requires i <= |strings| && (i < |strings| ==> strings[i] == NULL)
    requires |strings'| == |next'| == (if i < |strings| then |strings| else i + 1)
    requires strings'[i] == p && next'[i] == Link(chains[hash(p)], 0)
    requires forall j | 0 <= j < |strings| && j != i :: strings'[j] == strings[j] && next'[j] == next[j]
    ensures ChainOk(hash, strings', next', if g == hash(p) then [i] + chains[g] else chains[g], g)
  {
    assert ChainOk(hash, strings, next, chains[g], g);
    ChainFrame(hash, strings, next, strings', next', chains[g], g);
    if g == hash(p) { ChainFront(hash, strings', next', i, chains[g], g); }
  }

  lemma LinkFrontMembers(hash: Ptr -> Hash, strings: seq<Ptr>, next: seq<int>, idx: seq<int>, tags: seq<bv8>, chains: seq<seq<nat>>,
                         i: nat, p: Ptr, strings': seq<Ptr>)
    requires Linked(hash, strings, next, idx, tags, chains) && p != NULL
    requires i <= |strings| && |strings'| == (if i < |strings| then |strings| else i + 1) && strings'[i] == p
    requires forall j | 0 <= j < |strings| && j != i :: strings'[j] == strings[j]
    ensures var chains' := chains[hash(p) := [i] + chains[hash(p)]];
            forall j | 0 <= j < |strings'| && strings'[j] != NULL :: j in chains'[hash(strings'[j])]
  {
    var chains' := chains[hash(p) := [i] + chains[hash(p)]];
    forall j | 0 <= j < |strings'| && strings'[j] != NULL ensures j in chains'[hash(strings'[j])] {
      if j == i { assert chains'[hash(p)][0] == i; } else { assert j in chains[hash(strings[j])]; }
    }
  }

  lemma FrontHeads(idx: seq<int>, tags: seq<bv8>, chains: seq<seq<nat>>, h: Hash, i: nat)
    requires HeadsOk(idx, tags, chains)
    ensures HeadsOk(idx[h := i], SetTag(tags, h), chains[h := [i] + chains[h]])
  {
  }

  lemma ChainFront(hash: Ptr -> Hash, strings: seq<Ptr>, next: seq<int>, i: nat, chain: seq<nat>, h: Hash)
    requires |next| == |strings| && ChainOk(hash, strings, next, chain, h) && i < |strings| && i !in chain
    requires strings[i] != NULL && hash(strings[i]) == h && next[i] == Link(chain, 0)
    ensures ChainOk(hash, strings, next, [i] + chain, h)
  {
    var c := [i] + chain;
    Shifted(i, chain, c);
    forall k | 0 <= k < |c|
      ensures c[k] < |strings| && strings[c[k]] != NULL && hash(strings[c[k]]) == h && next[c[k]] == Link(c, k + 1)
    {
      if k > 0 { assert next[chain[k - 1]] == Link(chain, k); }
    }
    forall k, l | 0 <= k < l < |c| ensures c[k] != c[l] {
      if k == 0 { assert chain[l - 1] in chain; }
    }
  }

  lemma Shifted(i: nat, chain: seq<nat>, c: seq<nat>)
    requires c == [i] + chain
    ensures c[0] == i && forall k | 1 <= k < |c| :: c[k] == chain[k - 1]
    ensures forall k: nat :: Link(c, k + 1) == Link(chain, k)
  {
  }

  function Without(chain: seq<nat>, k: nat): seq<nat>
    requires k < |chain|
  {
    chain[..k] + chain[k + 1..]
  }

  lemma ChainWithout(hash: Ptr -> Hash, strings: seq<Ptr>, next: seq<int>, next': seq<int>, chain: seq<nat>, h: Hash, k: nat)
    requires |next| == |strings| && ChainOk(hash, strings, next, chain, h) && k < |chain|
    requires next' == if k > 0 then next[chain[k - 1] := next[chain[k]]] else next
    ensures ChainOk(hash, strings, next', Without(chain, k), h)
    ensures forall j :: j in Without(chain, k) <==> j in chain && j != chain[k]
  {
    WithoutMembers(chain, k);
    WithoutLinks(strings, next, next', chain, k);
  }

  lemma WithoutLinks(strings: seq<Ptr>, next: seq<int>, next': seq<int>, chain: seq<nat>, k: nat)
    requires |next| == |strings| && k < |chain|
    requires forall m | 0 <= m < |chain| :: chain[m] < |next| && next[chain[m]] == Link(chain, m + 1)
    requires forall m, n | 0 <= m < n < |chain| :: chain[m] != chain[n]
    requires next' == if k > 0 then next[chain[k - 1] := next[chain[k]]] else next
    ensures var rest := Without(chain, k);
            forall m | 0 <= m < |rest| :: rest[m] < |next'| && next'[rest[m]] == Link(rest, m + 1)
  {
    var rest := Without(chain, k);
    forall m | 0 <= m < |rest| ensures rest[m] < |next'| && next'[rest[m]] == Link(rest, m + 1) {
      if m < k {
        assert rest[m] == chain[m];
        assert Link(rest, m + 1) == if m == k - 1 then Link(chain, k + 1) else Link(chain, m + 1);
      } else {
        assert rest[m] == chain[m + 1] && Link(rest, m + 1) == Link(chain, m + 2);
      }
    }
  }

  lemma WithoutMembers(chain: seq<nat>, k: nat)
    requires k < |chain| && forall m, n | 0 <= m < n < |chain| :: chain[m] != chain[n]
    ensures forall j :: j in Without(chain, k) <==> j in chain && j != chain[k]
  {
    assert chain == chain[..k] + [chain[k]] + chain[k + 1..];
  }

  /** Next-links after the `k`-th entry has been bypassed. */
  function Relinked(next: seq<int>, chain: seq<nat>, k: nat): seq<int>
    requires k < |chain| && forall m | 0 <= m < |chain| :: chain[m] < |next|
  {
    if k > 0 then next[chain[k - 1] := next[chain[k]]] else next
  }

  /** The blocks after entry `chain[k]` has been unlinked and cleared or dropped. */
  ghost predicate Unlinked(strings: seq<Ptr>, next: seq<int>, chain: seq<nat>, k: nat, strings': seq<Ptr>, next': seq<int>) {
    && k < |chain| && |strings| == |next| && (forall m | 0 <= m < |chain| :: chain[m] < |next|)
    && var i := chain[k]; var n := Relinked(next, chain, k);
       if i == |strings| - 1 then strings' == strings[..i] && next' == n[..i] else strings' == strings[i := NULL] && next' == n
  }

  lemma UnlinkChains(hash: Ptr -> Hash, strings: seq<Ptr>, next: seq<int>, idx: seq<int>, tags: seq<bv8>, chains: seq<seq<nat>>,
                     h: Hash, k: nat, strings': seq<Ptr>, next': seq<int>, chains': seq<seq<nat>>)
    requires Linked(hash, strings, next, idx, tags, chains) && k < |chains[h]| && chains' == chains[h := Without(chains[h], k)]
    requires Unlinked(strings, next, chains[h], k, strings', next')
    ensures forall g: Hash :: ChainOk(hash, strings', next', chains'[g], g)
  {
    var n := Relinked(next, chains[h], k);
    assert ChainOk(hash, strings, next, chains[h], h);
    ChainWithout(hash, strings, next, n, chains[h], h, k);
    ChainFrame(hash, strings, n, strings', next', Without(chains[h], k), h);
    forall g: Hash ensures ChainOk(hash, strings', next', chains'[g], g) {
      if g != h {
        assert ChainOk(hash, strings, next, chains[g], g);
        OtherChain(hash, strings, next, chains[h], h, k, strings', next', chains[g], g);
      }
    }
  }

  lemma OtherChain(hash: Ptr -> Hash, strings: seq<Ptr>, next: seq<int>, chain: seq<nat>, h: Hash, k: nat,
                   strings': seq<Ptr>, next': seq<int>, other: seq<nat>, g: Hash)
    requires |next| == |strings| && ChainOk(hash, strings, next, chain, h) && ChainOk(hash, strings, next, other, g) && g != h
    requires Unlinked(strings, next, chain, k, strings', next')
    ensures ChainOk(hash, strings', next', other, g)
  {
    forall c <- other ensures c != chain[k] && (k > 0 ==> c != chain[k - 1]) {}
    ChainFrame(hash, strings, next, strings', next', other, g);
  }

  lemma UnlinkMembers(hash: Ptr -> Hash, strings: seq<Ptr>, next: seq<int>, idx: seq<int>, tags: seq<bv8>, chains: seq<seq<nat>>,
                      h: Hash, k: nat, strings': seq<Ptr>, next': seq<int>, chains': seq<seq<nat>>)
    requires Linked(hash, strings, next, idx, tags, chains) && k < |chains[h]| && chains' == chains[h := Without(chains[h], k)]
    requires Unlinked(strings, next, chains[h], k, strings', next')
    ensures forall j | 0 <= j < |strings'| && strings'[j] != NULL :: j in chains'[hash(strings'[j])]
  {
    assert ChainOk(hash, strings, next, chains[h], h);
    ChainWithout(hash, strings, next, Relinked(next, chains[h], k), chains[h], h, k);
    forall j | 0 <= j < |strings'| && strings'[j] != NULL ensures j in chains'[hash(strings'[j])] {
      assert j != chains[h][k] && strings[j] == strings'[j];
      assert j in chains[hash(strings[j])];
    }
  }

  /** Taking the `k`-th entry out of its chain, and clearing it or dropping it. */
  lemma Unlink(hash: Ptr -> Hash, strings: seq<Ptr>, next: seq<int>, idx: seq<int>, tags: seq<bv8>, chains: seq<seq<nat>>,
               h: Hash, k: nat, strings': seq<Ptr>, next': seq<int>, idx': seq<int>, tags': seq<bv8>, chains': seq<seq<nat>>)
    requires Linked(hash, strings, next, idx, tags, chains) && k < |chains[h]| && chains' == chains[h := Without(chains[h], k)]
    requires Unlinked(strings, next, chains[h], k, strings', next')
    requires idx' == if k == 0 then idx[h := Link(chains[h], 1)] else idx
    requires tags' == if |chains[h]| == 1 then ClearTag(tags, h) else tags
    ensures Linked(hash, strings', next', idx', tags', chains')
  {
    UnlinkChains(hash, strings, next, idx, tags, chains, h, k, strings', next', chains');
    UnlinkMembers(hash, strings, next, idx, tags, chains, h, k, strings', next', chains');
    UnlinkHeads(idx, tags, chains, h, k, idx', tags', chains');
  }

  lemma UnlinkHeads(idx: seq<int>, tags: seq<bv8>, chains: seq<seq<nat>>, h: Hash, k: nat,
                    idx': seq<int>, tags': seq<bv8>, chains': seq<seq<nat>>)
    requires HeadsOk(idx, tags, chains) && k < |chains[h]| && chains' == chains[h := Without(chains[h], k)]
    requires idx' == if k == 0 then idx[h := Link(chains[h], 1)] else idx
    requires tags' == if |chains[h]| == 1 then ClearTag(tags, h) else tags
    ensures HeadsOk(idx', tags', chains')
  {
    assert |chains'[h]| == |chains[h]| - 1;
    assert chains'[h] != [] ==> chains'[h][0] == chains[h][if k == 0 then 1 else 0];
  }

  function Slots(strings: seq<Ptr>, refs: seq<nat>): (t: Table)
    requires |refs| == |strings|
    ensures |t| == |strings| && forall i | 0 <= i < |t| :: t[i] == if strings[i] == NULL then FREE else Slot(strings[i], refs[i])
  {
    seq(|strings|, i requires 0 <= i < |strings| => if strings[i] == NULL then FREE else Slot(strings[i], refs[i]))
  }

  /** Storing, said of the blocks. */
  lemma StoredIs(strings: seq<Ptr>, refs: seq<nat>, p: Ptr)
    requires |refs| == |strings| && p != NULL
    ensures var t := Slots(strings, refs); var i := StoreIndex(t, p);
            Stored(t, p) == if Find(t, p, 0) >= 0 then Slots(strings, refs[i := refs[i] + 1])
                            else if i < |strings| then Slots(strings[i := p], refs[i := 1])
                            else Slots(strings + [p], refs + [1])
  {
  }

  lemma BumpIs(strings: seq<Ptr>, refs: seq<nat>, i: nat, p: Ptr, newRefs: seq<nat>)
    requires |refs| == |strings| && p != NULL && WellFormed(Slots(strings, refs)) && i == Find(Slots(strings, refs), p, 0)
    requires i < |refs| && newRefs == refs[i := refs[i] + 1]
    ensures Slots(strings, newRefs) == Stored(Slots(strings, refs), p) && WellFormed(Slots(strings, newRefs))
    ensures LeastFree(Slots(strings, newRefs)) == LeastFree(Slots(strings, refs))
  {
    var t := Slots(strings, refs);
    StoreKeeps(t, p);
    StoredIs(strings, refs, p);
    SameFree(t, Slots(strings, newRefs));
  }

  class StringTable {
    const hash: Ptr -> Hash    // STRING_HASH
    var strings: seq<Ptr>      // A_STRINGS
    var next: seq<int>         // A_STRING_NEXT
    var refs: seq<nat>         // A_STRING_REFS
    const idx: array<int>      // string_idx
    const tags: array<bv8>     // string_tags
    var freed: int             // freed_string
    ghost var chains: seq<seq<nat>>

    ghost predicate Valid()
      reads this, idx, tags
    {
      && |refs| == |strings|
      && Linked(hash, strings, next, idx[..], tags[..], chains)
      && WellFormed(Slots(strings, refs))
      && freed == LeastFree(Slots(strings, refs))
    }

    ghost function Abs(): Table
      reads this
      requires |refs| == |strings|
    {
      Slots(strings, refs)
    }

    constructor (hash: Ptr -> Hash)
      ensures Valid() && Abs() == [] && this.hash == hash && fresh(idx) && fresh(tags)
    {
      this.hash := hash;
      strings, next, refs, freed := [], [], [], -1;
      idx := new int[BUCKETS];
      tags := new bv8[BUCKETS / 8](_ => 0);
      chains := seq(BUCKETS, _ => []);
      new;
      assert forall h: Hash :: Tagged(tags[..], h) <==> tags[..][h / 8] & (1 << (h % 8)) != 0;
      assert forall h: Hash :: !Tagged(tags[..], h) by { forall h: Hash ensures !Tagged(tags[..], h) { NoBit(h % 8); } }
    }

    /** The chain walk of store_prog_string. */
    method Search(p: Ptr) returns (i: int, link: int)
      requires Valid() && p != NULL
      ensures i == Find(Abs(), p, 0) && link == Link(chains[hash(p)], 0)
    {
      var h := hash(p);
      ghost var chain := chains[h];
      assert ChainOk(hash, strings, next, chain, h);
      if tags[h / 8] & (1 << (h % 8)) == 0 {
        assert !Tagged(tags[..], h);
        return -1, -1;
      }
      assert Tagged(tags[..], h);
      link := idx[h];
      assert idx[..][h] == chain[0];
      i := Along(p, link, chain);
      if i >= 0 {
        FindLive(Abs(), i);
      }
    }

    /** The loop, along the links. */
    method Along(p: Ptr, link: int, ghost chain: seq<nat>) returns (i: int)
      requires link == Link(chain, 0)
      requires forall m | 0 <= m < |chain| :: chain[m] < |next| == |strings| && next[chain[m]] == Link(chain, m + 1)
      ensures i == -1 || (0 <= i < |strings| && strings[i] == p)
      ensures i == -1 ==> forall m | 0 <= m < |chain| :: strings[chain[m]] != p
    {
      i := link;
      ghost var k := 0;
      while i >= 0
        invariant k <= |chain| && i == Link(chain, k)
        invariant forall m | 0 <= m < k :: strings[chain[m]] != p
        decreases |chain| - k
      {
        if strings[i] == p {
          return;
        }
        i := next[i];
        k := k + 1;
      }
    }

    /** The cursor scan of store_prog_string, once slot `i` is taken. */
    method NextFree(i: nat) returns (f: int)
      requires i < |strings|
      ensures f == -1 || (i < f < |strings| && strings[f] == NULL)
      ensures forall j | i < j < (if f == -1 then |strings| else f) :: strings[j] != NULL
    {
      f := i + 1;
      while f < |strings| && strings[f] != NULL
        invariant i < f <= |strings| && forall j | i < j < f :: strings[j] != NULL
      {
        f := f + 1;
      }
      if f >= |strings| {
        f := -1;
      }
    }

    /** store_prog_string */
    method Store(p: Ptr) returns (i: nat)
      requires Valid() && p != NULL
      modifies this, idx, tags
      ensures Valid()
      ensures Abs() == Stored(old(Abs()), p) && i == StoreIndex(old(Abs()), p)
    {
      var found, link := Search(p);
      if found >= 0 {
        i := found;
        Bump(i, p);
      } else if freed >= 0 {
        i := freed;
        Reuse(p, link);
      } else {
        i := |strings|;
        Grow(p, link);
      }
    }

    method Bump(i: nat, p: Ptr)
      requires Valid() && p != NULL && i == Find(Abs(), p, 0)
      modifies this`refs
      ensures Valid() && Abs() == Stored(old(Abs()), p)
    {
      var newRefs := refs[i := refs[i] + 1];
      BumpIs(strings, refs, i, p, newRefs);
      SetRefs(newRefs);
    }

    method SetRefs(newRefs: seq<nat>)
      requires Valid() && |newRefs| == |refs|
      requires WellFormed(Slots(strings, newRefs)) && LeastFree(Slots(strings, newRefs)) == freed
      modifies this`refs
      ensures Valid() && Abs() == Slots(strings, newRefs)
    {
      refs := newRefs;
    }

    method Reuse(p: Ptr, link: int)
      requires Valid() && p != NULL && Find(Abs(), p, 0) == -1 && freed >= 0 && link == Link(chains[hash(p)], 0)
      modifies this, idx, tags
      ensures Valid() && Abs() == Stored(old(Abs()), p)
    {
      var i := freed;
      ghost var t := Abs();
      StoreKeeps(t, p);
      StoredIs(strings, refs, p);
      var f := NextFree(i);
      Enter(i, p, link, strings[i := p], next[i := link], refs[i := 1]);
      freed := f;
      FreeIs(Abs(), f);
    }

    method Grow(p: Ptr, link: int)
      requires Valid() && p != NULL && Find(Abs(), p, 0) == -1 && freed < 0 && link == Link(chains[hash(p)], 0)
      modifies this, idx, tags
      ensures Valid() && Abs() == Stored(old(Abs()), p)
    {
      ghost var t := Abs();
      StoreKeeps(t, p);
      StoredIs(strings, refs, p);
      Enter(|strings|, p, link, strings + [p], next + [link], refs + [1]);
      FreeIs(Abs(), -1);
    }

    /** Writes the new entry `i` and makes it the head of its chain. */
    method Enter(i: nat, p: Ptr, link: int, newStrings: seq<Ptr>, newNext: seq<int>, newRefs: seq<nat>)
      requires |refs| == |strings| && Linked(hash, strings, next, idx[..], tags[..], chains)
      requires p != NULL && link == Link(chains[hash(p)], 0) && i <= |strings| && (i < |strings| ==> strings[i] == NULL)
      requires newStrings == (if i < |strings| then strings[i := p] else strings + [p])
      requires newNext == (if i < |strings| then next[i := link] else next + [link])
      requires newRefs == (if i < |strings| then refs[i := 1] else refs + [1])
      modifies this, idx, tags
      ensures Linked(hash, strings, next, idx[..], tags[..], chains)
      ensures strings == newStrings && next == newNext && refs == newRefs && freed == old(freed)
    {
      var h := hash(p);
      LinkFront(hash, strings, next, idx[..], tags[..], chains, i, p, newStrings, newNext);
      SetBucket(h, i);
      strings, next, refs := newStrings, newNext, newRefs;
      chains := chains[h := [i] + chains[h]];
    }

    /** Sets the tag bit and the head of bucket `h`. */
    method SetBucket(h: Hash, i: int)
      requires idx.Length == BUCKETS && tags.Length == BUCKETS / 8
      modifies idx, tags
      ensures idx[..] == old(idx[..])[h := i] && tags[..] == SetTag(old(tags[..]), h)
    {
      tags[h / 8] := tags[h / 8] | (1 << (h % 8));
      idx[h] := i;
    }

    /** free_prog_string.  An index outside the table is an error and changes nothing. */
    method Free(num: int) returns (ok: bool)
      requires Valid() && (0 <= num < |strings| ==> strings[num] != NULL)
      modifies this, idx, tags
      ensures Valid() && ok == (0 <= num < |old(strings)|)
      ensures Abs() == if ok then Freed(old(Abs()), num) else old(Abs())
    {
      if num < 0 || num >= |strings| {
        return false;
      }
      ok := true;
      if refs[num] - 1 >= 1 {
        Drop(num);
      } else {
        Remove(num);
      }
    }

    method Drop(num: nat)
      requires Valid() && num < |strings| && strings[num] != NULL && refs[num] > 1
      modifies this`refs
      ensures Valid() && Abs() == Freed(old(Abs()), num)
    {
      DropIs(strings, refs, num);
      SetRefs(refs[num := refs[num] - 1]);
    }

    /** Finds the entry before `num` in its chain. */
    method Predecessor(num: nat) returns (prv: int, ghost k: nat)
      requires Valid() && num < |strings| && strings[num] != NULL
      ensures var chain := chains[hash(strings[num])];
              k < |chain| && chain[k] == num && prv == if k == 0 then -1 else chain[k - 1]
    {
      var h := hash(strings[num]);
      ghost var chain := chains[h];
      assert ChainOk(hash, strings, next, chain, h) && num in chain;
      ghost var at :| 0 <= at < |chain| && chain[at] == num;
      assert Tagged(tags[..], h) && idx[..][h] == chain[0];
      prv, k := StepTo(num, idx[h], chain, at);
    }

    /** The loop, along the links. */
    method StepTo(num: nat, first: int, ghost chain: seq<nat>, ghost at: nat) returns (prv: int, ghost k: nat)
      requires at < |chain| && chain[at] == num && first == chain[0]
      requires forall m | 0 <= m < |chain| :: chain[m] < |next| && next[chain[m]] == Link(chain, m + 1)
      ensures k < |chain| && chain[k] == num && prv == if k == 0 then -1 else chain[k - 1]
    {
      prv := -1;
      var i := first;
      k := 0;
      while i != num
        invariant k <= at && i == chain[k] && prv == if k == 0 then -1 else chain[k - 1]
        decreases at - k
      {
        assert next[chain[k]] == Link(chain, k + 1);
        prv := i;
        i := next[i];
        k := k + 1;
      }
    }

    method Remove(num: nat)
      requires Valid() && num < |strings| && strings[num] != NULL && refs[num] == 1
      modifies this, idx, tags
      ensures Valid() && Abs() == Freed(old(Abs()), num)
    {
      var prv, k := Predecessor(num);
      if num < |strings| - 1 {
        Clear(num, prv, k);
      } else {
        Shrink(num, prv, k);
      }
    }

    method Clear(num: nat, prv: int, ghost k: nat)
      requires Valid() && num < |strings| - 1 && strings[num] != NULL && refs[num] == 1
      requires var c := chains[hash(strings[num])]; k < |c| && c[k] == num && prv == if k == 0 then -1 else c[k - 1]
      modifies this, idx, tags
      ensures Valid() && Abs() == Freed(old(Abs()), num)
    {
      var h := hash(strings[num]);
      assert ChainOk(hash, strings, next, chains[h], h);
      var newNext := if prv == -1 then next else next[prv := next[num]];
      RemoveIs(strings, refs, num);
      UnlinkAt(hash, strings, next, idx[..], tags[..], chains, h, k, strings[num := NULL], newNext, prv);
      Install(h, prv == -1, next[num], strings[num := NULL], newNext, refs,
              if num < freed || freed == -1 then num else freed, chains[h := Without(chains[h], k)]);
    }

    method Shrink(num: nat, prv: int, ghost k: nat)
      requires Valid() && num == |strings| - 1 && strings[num] != NULL && refs[num] == 1
      requires var c := chains[hash(strings[num])]; k < |c| && c[k] == num && prv == if k == 0 then -1 else c[k - 1]
      modifies this, idx, tags
      ensures Valid() && Abs() == Freed(old(Abs()), num)
    {
      var h := hash(strings[num]);
      assert ChainOk(hash, strings, next, chains[h], h);
      var newNext := if prv == -1 then next else next[prv := next[num]];
      RemoveIs(strings, refs, num);
      UnlinkAt(hash, strings, next, idx[..], tags[..], chains, h, k, strings[..num], newNext[..num], prv);
      Install(h, prv == -1, next[num], strings[..num], newNext[..num], refs[..num], freed, chains[h := Without(chains[h], k)]);
    }

    /** Writes the blocks back, with `head` as the new head of bucket `h` if it changes. */
    method Install(h: Hash, atHead: bool, head: int, newStrings: seq<Ptr>, newNext: seq<int>, newRefs: seq<nat>, newFreed: int, ghost newChains: seq<seq<nat>>)
      requires |newRefs| == |newStrings| && idx.Length == BUCKETS && tags.Length == BUCKETS / 8
      requires Linked(hash, newStrings, newNext, NewHeads(idx[..], h, atHead, head), NewTags(tags[..], h, atHead, head), newChains)
      requires WellFormed(Slots(newStrings, newRefs)) && newFreed == LeastFree(Slots(newStrings, newRefs))
      modifies this, idx, tags
      ensures Valid() && Abs() == Slots(newStrings, newRefs)
    {
      if atHead {
        MoveHead(h, head);
      }
      strings, next, refs, freed := newStrings, newNext, newRefs, newFreed;
      chains := newChains;
    }

    /** Makes `i` the head of bucket `h`, or clears the tag bit if there is none. */
    method MoveHead(h: Hash, i: int)
      requires idx.Length == BUCKETS && tags.Length == BUCKETS / 8
      modifies idx, tags
      ensures idx[..] == old(idx[..])[h := i]
      ensures tags[..] == if i == -1 then ClearTag(old(tags[..]), h) else old(tags[..])
    {
      idx[h] := i;
      if i == -1 {
        tags[h / 8] := tags[h / 8] & !(1 << (h % 8));
      }
    }
  }

  function NewHeads(idx: seq<int>, h: Hash, atHead: bool, head: int): seq<int>
    requires |idx| == BUCKETS
  {
    if atHead then idx[h := head] else idx
  }

  function NewTags(tags: seq<bv8>, h: Hash, atHead: bool, head: int): seq<bv8>
    requires |tags| == BUCKETS / 8
  {
    if atHead && head == -1 then ClearTag(tags, h) else tags
  }

  /** `Unlink`, in the terms of the code. */
  lemma UnlinkAt(hash: Ptr -> Hash, strings: seq<Ptr>, next: seq<int>, idx: seq<int>, tags: seq<bv8>, chains: seq<seq<nat>>,
                 h: Hash, k: nat, strings': seq<Ptr>, next': seq<int>, prv: int)
    requires Linked(hash, strings, next, idx, tags, chains) && k < |chains[h]|
    requires prv == if k == 0 then -1 else chains[h][k - 1]
    requires chains[h][k] < |next| && -1 <= prv < |next|
    requires var i := chains[h][k]; var n := if prv == -1 then next else next[prv := next[i]];
             if i < |strings| - 1 then strings' == strings[i := NULL] && next' == n else strings' == strings[..i] && next' == n[..i]
    ensures var head := next[chains[h][k]];
            Linked(hash, strings', next', NewHeads(idx, h, prv == -1, head), NewTags(tags, h, prv == -1, head), chains[h := Without(chains[h], k)])
  {
    assert ChainOk(hash, strings, next, chains[h], h);
    var head := next[chains[h][k]];
    assert k == 0 && head == -1 <==> |chains[h]| == 1;
    Unlink(hash, strings, next, idx, tags, chains, h, k, strings', next',
           NewHeads(idx, h, prv == -1, head), NewTags(tags, h, prv == -1, head), chains[h := Without(chains[h], k)]);
  }

  lemma DropIs(strings: seq<Ptr>, refs: seq<nat>, i: nat)
    requires |refs| == |strings| && WellFormed(Slots(strings, refs)) && Live(Slots(strings, refs), i) && refs[i] > 1
    ensures var t, u := Slots(strings, refs), Slots(strings, refs[i := refs[i] - 1]);
            u == Freed(t, i) && WellFormed(u) && LeastFree(u) == LeastFree(t)
  {
    var t := Slots(strings, refs);
    FreeKeeps(t, i);
    SameFree(t, Slots(strings, refs[i := refs[i] - 1]));
  }

  lemma RemoveIs(strings: seq<Ptr>, refs: seq<nat>, i: nat)
    requires |refs| == |strings| && WellFormed(Slots(strings, refs)) && Live(Slots(strings, refs), i) && refs[i] == 1
    ensures var t := Slots(strings, refs); var f := LeastFree(t); var last := i == |strings| - 1;
            var u := if last then Slots(strings[..i], refs[..i]) else Slots(strings[i := NULL], refs);
            u == Freed(t, i) && WellFormed(u) &&
            LeastFree(u) == if !last && (i < f || f == -1) then i else f
  {
    var t := Slots(strings, refs);
    var f := LeastFree(t);
    FreeKeeps(t, i);
    if i == |strings| - 1 {
      assert Slots(strings[..i], refs[..i]) == t[..i];
      FreeIs(t[..i], f);
    } else {
      assert Slots(strings[i := NULL], refs) == t[i := FREE];
      FreeIs(t[i := FREE], if i < f || f == -1 then i else f);
    }
  }

  lemma FreeIs(t: Table, f: int)
    requires f == -1 || (0 <= f < |t| && t[f].str == NULL)
    requires forall j | 0 <= j < (if f == -1 then |t| else f) :: t[j].str != NULL
    ensures LeastFree(t) == f
  {
  }

  lemma NoBit(i: nat)
    requires i < 8
    ensures !Bit(0, i)
  {
  }

  lemma SameFree(t: Table, u: Table)
    requires |t| == |u| && forall i | 0 <= i < |t| :: t[i].str == u[i].str
    ensures LeastFree(t) == LeastFree(u)
  {
    var i, j := LeastFree(t), LeastFree(u);
    if i >= 0 { assert u[i].str == NULL; }
    if j >= 0 { assert t[j].str == NULL; }
  }
}
