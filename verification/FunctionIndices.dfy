/** The final function indices and flags of a program (handle_functions in
  src/compiler/internal/compiler.cc), and that they make the program one whose functions
  can be found again (`FunctionLookup.Ok`). */
module FunctionIndices {
  import opened Programs
  import opened FunctionLookup
  import opened Overloads
  import opened FunctionTable

  // ---------------------------------------------------------------------------
  // Sorting the own functions
  // ---------------------------------------------------------------------------

  /** The first key of compare_funcs; the second one is the address of the name. */
  function Class(f: Func): nat {
    if f.removed then 3 else if f.name == INIT then 2 else if IsSpecial(f.name) then 1 else 0
  }

  /** What qsort leaves in func_index_map. */
  predicate SortedOrder(funcs: seq<Func>, order: seq<nat>) {
    && |order| == |funcs|
    && (forall i | 0 <= i < |order| :: order[i] < |funcs|)
    && (forall u: nat | u < |funcs| :: u in order)
    && (forall i, j | 0 <= i < j < |order| :: order[i] != order[j])
    && (forall i, j | 0 <= i < j < |order| && order[i] < |funcs| && order[j] < |funcs| :: Class(funcs[order[i]]) <= Class(funcs[order[j]]))
  }

  /** comp_sorted_funcs inverts func_index_map. */
  predicate Inverse(order: seq<nat>, sorted: seq<nat>) {
    && |sorted| == |order|
    && (forall i | 0 <= i < |order| :: order[i] < |order| && sorted[order[i]] == i)
    && (forall u | 0 <= u < |sorted| :: sorted[u] < |order| && order[sorted[u]] == u)
  }

  /** Functions that are kept: those before the first removed one. */
  predicate KeptCount(funcs: seq<Func>, order: seq<nat>, n: nat) {
    && n <= |order|
    && (forall i | 0 <= i < |order| :: order[i] < |funcs| && (funcs[order[i]].removed <==> i >= n))
  }

  method InvertOrder(order: seq<nat>) returns (sorted: seq<nat>)
    requires forall i | 0 <= i < |order| :: order[i] < |order|
    requires forall u: nat | u < |order| :: u in order
    requires forall i, j | 0 <= i < j < |order| :: order[i] != order[j]
    ensures Inverse(order, sorted)
  {
    var a := new nat[|order|](_ => 0);
    var i := |order|;
    while i > 0
      invariant 0 <= i <= |order| && forall j | i <= j < |order| :: a[order[j]] == j
    {
      i := i - 1;
      a[order[i]] := i;
    }
    sorted := a[..];
    forall u: nat | u < |sorted| ensures sorted[u] < |order| && order[sorted[u]] == u {
      assert u in order;
      var j :| 0 <= j < |order| && order[j] == u;
    }
  }

  method CountKept(funcs: seq<Func>, order: seq<nat>) returns (n: nat)
    requires SortedOrder(funcs, order)
    ensures KeptCount(funcs, order, n)
  {
    n := |order|;
    while n > 0 && funcs[order[n - 1]].removed
      invariant n <= |order| && forall i | n <= i < |order| :: funcs[order[i]].removed
    {
      n := n - 1;
    }
    forall i | 0 <= i < n ensures !funcs[order[i]].removed {
      assert Class(funcs[order[i]]) <= Class(funcs[order[n - 1]]);
    }
  }

  // ---------------------------------------------------------------------------
  // Flags
  // ---------------------------------------------------------------------------

  /** The final index of a candidate. */
  function Final(t: Tables, sorted: seq<nat>, d: Def): nat {
    match d
    case Inh(k, i, _, _) => (if k < |t.inherits| then t.inherits[k].offset else 0) + i
    case Own(u, _, _) => Total(t.inherits) + (if u < |sorted| then sorted[u] else 0)
  }

  function EntryOf(d: Def): Entry {
    match d
    case Inh(_, _, _, noCode) => Entry(true, noCode, false)
    case Own(_, noCode, isPrivate) => Entry(false, noCode, isPrivate)
  }

  /** The entry is of a function that comes from where the candidate does, and has code and
    is private if and only if it has and is. */
  predicate HasFlagsOf(e: Entry, d: Def) {
    && e.Entry? && (e.inherited <==> d.Inh?) && (e.noCode <==> d.noCode) && (e.isPrivate <==> d.Own? && d.isPrivate)
  }

  /** What prog_flags says about the candidates of one name. */
  ghost predicate ChainFlagged(t: Tables, sorted: seq<nat>, flags: seq<Entry>, chain: seq<Def>, n: nat)
    requires n <= |chain|
  {
    n > 0 ==>
      && Final(t, sorted, chain[0]) < |flags| && HasFlagsOf(flags[Final(t, sorted, chain[0])], chain[0])
      && (forall m | 0 < m < n :: Final(t, sorted, chain[m]) < |flags|)
      && (forall m | 0 < m < n && Final(t, sorted, chain[m]) != Final(t, sorted, chain[0]) ::
            flags[Final(t, sorted, chain[m])] == Alias(Final(t, sorted, chain[0])))
  }

  /** Candidates at the same final index have the same name. */
  lemma FinalInjective(t: Tables, sorted: seq<nat>, d: Def, name: Name, e: Def, other: Name)
    requires Contiguous(t.inherits) && |sorted| == |t.funcs|
    requires forall u, v | 0 <= u < v < |sorted| :: sorted[u] != sorted[v]
    requires DefOk(t, d, name) && DefOk(t, e, other) && Final(t, sorted, d) == Final(t, sorted, e)
    ensures name == other && d.Inh? == e.Inh?
    ensures d.Inh? ==> d.parent == e.parent && d.index == e.index
    ensures d.Own? ==> d.u == e.u
  {
    FinalInRange(t, sorted, d, name);
    FinalInRange(t, sorted, e, other);
    if d.Inh? && e.Inh? {
      assert InSegment(t.inherits, d.parent, Final(t, sorted, d));
      assert InSegment(t.inherits, e.parent, Final(t, sorted, d));
      ParentUnique(t.inherits, Final(t, sorted, d));
    }
  }

  lemma FinalInRange(t: Tables, sorted: seq<nat>, d: Def, name: Name)
    requires Contiguous(t.inherits) && |sorted| == |t.funcs| && DefOk(t, d, name)
    ensures d.Inh? ==> Final(t, sorted, d) < Total(t.inherits) && Parent(t.inherits, Final(t, sorted, d)) == d.parent
    ensures d.Own? ==> Final(t, sorted, d) == Total(t.inherits) + sorted[d.u]
  {
    if d.Inh? {
      assert InSegment(t.inherits, d.parent, Final(t, sorted, d));
      ContiguousTiles(t.inherits);
      ParentUnique(t.inherits, Final(t, sorted, d));
    }
  }

  lemma FlagFrame(t: Tables, sorted: seq<nat>, flags: seq<Entry>, chain: seq<Def>, n: nat, x: nat, e: Entry)
    requires n <= |chain| && x < |flags| && ChainFlagged(t, sorted, flags, chain, n)
    requires forall m | 0 <= m < n :: Final(t, sorted, chain[m]) != x
    ensures ChainFlagged(t, sorted, flags[x := e], chain, n)
  {
  }

  /** The first `i` names are done. */
  ghost predicate EarlierFlagged(t: Tables, sorted: seq<nat>, flags: seq<Entry>, i: nat)
    requires DefsOk(t) && i <= |t.defs|
  {
    forall j | 0 <= j < i :: ChainFlagged(t, sorted, flags, t.chains[t.defs[j]], |t.chains[t.defs[j]]|)
  }

  /** Writing for one name leaves what was written for the others. */
  lemma OthersFramed(t: Tables, sorted: seq<nat>, flags: seq<Entry>, i: nat, d: Def, e: Entry)
    requires ChainsOk(t) && DefsOk(t) && Contiguous(t.inherits) && |sorted| == |t.funcs|
    requires forall u, v | 0 <= u < v < |sorted| :: sorted[u] != sorted[v]
    requires i < |t.defs| && d in t.chains[t.defs[i]] && Final(t, sorted, d) < |flags|
    requires EarlierFlagged(t, sorted, flags, i)
    ensures EarlierFlagged(t, sorted, flags[Final(t, sorted, d) := e], i)
  {
    forall j | 0 <= j < i
      ensures ChainFlagged(t, sorted, flags[Final(t, sorted, d) := e], t.chains[t.defs[j]], |t.chains[t.defs[j]]|)
    {
      var chain := t.chains[t.defs[j]];
      forall m | 0 <= m < |chain| ensures Final(t, sorted, chain[m]) != Final(t, sorted, d) {
        assert chain[m] in chain;
        if Final(t, sorted, chain[m]) == Final(t, sorted, d) {
          FinalInjective(t, sorted, chain[m], t.defs[j], d, t.defs[i]);
        }
      }
      FlagFrame(t, sorted, flags, chain, |chain|, Final(t, sorted, d), e);
    }
  }

  /** The loop of handle_functions that fills prog_flags. */
  method FillFlags(t: Tables, sorted: seq<nat>) returns (flags: seq<Entry>)
    requires ChainsOk(t) && DefsOk(t) && Contiguous(t.inherits) && |sorted| == |t.funcs|
    requires forall u, v | 0 <= u < v < |sorted| :: sorted[u] != sorted[v]
    requires forall u | 0 <= u < |sorted| :: sorted[u] < |t.funcs|
    ensures |flags| == Total(t.inherits) + |t.funcs|
    ensures forall name <- t.chains :: ChainFlagged(t, sorted, flags, t.chains[name], |t.chains[name]|)
  {
    var a := new Entry[Total(t.inherits) + |t.funcs|](_ => Entry(false, false, false));
    for i := 0 to |t.defs|
      invariant EarlierFlagged(t, sorted, a[..], i)
    {
      FillChain(t, sorted, a, i);
    }
    flags := a[..];
    forall name <- t.chains ensures ChainFlagged(t, sorted, flags, t.chains[name], |t.chains[name]|) {
      assert name in t.defs;
    }
  }

  method FillChain(t: Tables, sorted: seq<nat>, a: array<Entry>, i: nat)
    requires ChainsOk(t) && DefsOk(t) && Contiguous(t.inherits) && |sorted| == |t.funcs|
    requires forall u, v | 0 <= u < v < |sorted| :: sorted[u] != sorted[v]
    requires forall u | 0 <= u < |sorted| :: sorted[u] < |t.funcs|
    requires i < |t.defs| && a.Length == Total(t.inherits) + |t.funcs|
    requires EarlierFlagged(t, sorted, a[..], i)
    modifies a
    ensures EarlierFlagged(t, sorted, a[..], i + 1)
  {
    var chain := t.chains[t.defs[i]];
    FinalInRange(t, sorted, chain[0], t.defs[i]);
    var final := Final(t, sorted, chain[0]);
    OthersFramed(t, sorted, a[..], i, chain[0], EntryOf(chain[0]));
    Put(a, final, EntryOf(chain[0]));
    for m := 1 to |chain|
      invariant ChainFlagged(t, sorted, a[..], chain, m)
      invariant EarlierFlagged(t, sorted, a[..], i)
    {
      PutAlias(t, sorted, a, i, chain, m);
    }
  }

  method PutAlias(t: Tables, sorted: seq<nat>, a: array<Entry>, ghost i: nat, chain: seq<Def>, m: nat)
    requires ChainsOk(t) && DefsOk(t) && Contiguous(t.inherits) && |sorted| == |t.funcs|
    requires forall u, v | 0 <= u < v < |sorted| :: sorted[u] != sorted[v]
    requires forall u | 0 <= u < |sorted| :: sorted[u] < |t.funcs|
    requires i < |t.defs| && chain == t.chains[t.defs[i]] && 0 < m < |chain|
    requires a.Length == Total(t.inherits) + |t.funcs|
    requires ChainFlagged(t, sorted, a[..], chain, m) && EarlierFlagged(t, sorted, a[..], i)
    modifies a
    ensures ChainFlagged(t, sorted, a[..], chain, m + 1) && EarlierFlagged(t, sorted, a[..], i)
  {
    FinalInRange(t, sorted, chain[m], t.defs[i]);
    var final, index := Final(t, sorted, chain[0]), Final(t, sorted, chain[m]);
    if index != final {
      OthersFramed(t, sorted, a[..], i, chain[m], Alias(final));
      Put(a, index, Alias(final));
    }
  }

  method Put(a: array<Entry>, i: nat, e: Entry)
    requires i < a.Length
    modifies a
    ensures a[..] == old(a[..])[i := e]
  {
    a[i] := e;
  }

  // ---------------------------------------------------------------------------
  // The compiled program
  // ---------------------------------------------------------------------------

  ghost predicate Listed(t: Tables, order: seq<nat>, n: nat, p: Program) {
    && p.inherits == t.inherits && p.lastInherited == Total(t.inherits)
    && n <= |order| && (forall i | 0 <= i < n :: order[i] < |t.funcs|)
    && |p.functions| == n && (forall i | 0 <= i < n :: p.functions[i] == t.funcs[order[i]].name)
  }

  /** What epilog puts into the program: the own functions that are kept, in sorted order. */
  ghost predicate IsCompiled(t: Tables, order: seq<nat>, sorted: seq<nat>, n: nat, flags: seq<Entry>, p: Program) {
    && SortedOrder(t.funcs, order) && Inverse(order, sorted) && KeptCount(t.funcs, order, n)
    && Listed(t, order, n, p)
    && |flags| == p.lastInherited + |t.funcs| && p.flags == flags[..p.lastInherited + n]
    && (forall name <- t.chains :: ChainFlagged(t, sorted, flags, t.chains[name], |t.chains[name]|))
  }

  /** The entry of A_FUNCTIONS at sorted position `i` is the choice for its name. */
  lemma KeptIsChoice(t: Tables, order: seq<nat>, n: nat, i: nat)
    requires Complete(t) && SortedOrder(t.funcs, order) && KeptCount(t.funcs, order, n) && i < n
    ensures order[i] < |t.funcs| && IsChoice(t, order[i]) && !t.funcs[order[i]].removed
  {
    assert t.funcs[order[i]].removed <==> !IsChoice(t, order[i]);
  }

  /** A choice is no alias, and if it is an own function it is kept. */
  lemma HeadFacts(t: Tables, name: Name)
    requires Complete(t) && name in t.chains
    ensures t.chains[name] != []
    ensures var d := t.chains[name][0];
            DefOk(t, d, name) && !IsAlias(d) && (d.Own? ==> d.u < |t.funcs| && !t.funcs[d.u].removed)
  {
    var d := t.chains[name][0];
    assert d in t.chains[name];
    CompleteHasNoAlias(t);
    if d.Own? { assert IsChoice(t, d.u); }
  }

  /** The final index of a kept candidate is inside the program's tables, under its name. */
  lemma Placed(t: Tables, order: seq<nat>, sorted: seq<nat>, n: nat, p: Program, d: Def, name: Name)
    requires Contiguous(t.inherits) && Inverse(order, sorted) && KeptCount(t.funcs, order, n) && |order| == |t.funcs|
    requires Listed(t, order, n, p)
    requires DefOk(t, d, name) && (d.Own? ==> d.u < |t.funcs| && !t.funcs[d.u].removed)
    ensures var f := Final(t, sorted, d); f < p.lastInherited + n && NameAt(p, f) == name
  {
    FinalInRange(t, sorted, d, name);
    if d.Own? {
      assert t.funcs[order[sorted[d.u]]].removed <==> sorted[d.u] >= n;
    } else {
      LiftName(p, d.parent, d.index);
    }
  }

  /** A choice is inside the program's tables, under its name. */
  lemma HeadPlaced(t: Tables, order: seq<nat>, sorted: seq<nat>, n: nat, flags: seq<Entry>, p: Program, name: Name)
    requires Complete(t) && Contiguous(t.inherits) && IsCompiled(t, order, sorted, n, flags, p) && name in t.chains
    ensures t.chains[name] != []
    ensures var d := t.chains[name][0]; var f := Final(t, sorted, d);
            DefOk(t, d, name) && !IsAlias(d) && f < p.lastInherited + n && HasFlagsOf(p.flags[f], d) && NameAt(p, f) == name
  {
    HeadFacts(t, name);
    Placed(t, order, sorted, n, p, t.chains[name][0], name);
    assert ChainFlagged(t, sorted, flags, t.chains[name], |t.chains[name]|);
  }

  /** A candidate's index has the flags of the choice or is an alias of it. */
  lemma FlaggedAt(t: Tables, sorted: seq<nat>, flags: seq<Entry>, name: Name, m: nat)
    requires Contiguous(t.inherits) && |sorted| == |t.funcs| && name in t.chains && m < |t.chains[name]|
    requires forall u, v | 0 <= u < v < |sorted| :: sorted[u] != sorted[v]
    requires ChainFlagged(t, sorted, flags, t.chains[name], |t.chains[name]|)
    requires DefOk(t, t.chains[name][0], name) && DefOk(t, t.chains[name][m], name)
    ensures var d, c := t.chains[name][0], t.chains[name][m];
            var f, i := Final(t, sorted, d), Final(t, sorted, c);
            i < |flags| && (if i == f then c.Inh? == d.Inh? && (c.Inh? ==> d.parent == c.parent && d.index == c.index)
                            else flags[i] == Alias(f))
  {
    var d, c := t.chains[name][0], t.chains[name][m];
    if Final(t, sorted, d) == Final(t, sorted, c) {
      FinalInjective(t, sorted, d, name, c, name);
    }
  }

  /** Which candidate an inherited index is. */
  lemma CandidateOf(t: Tables, p: Program, i: nat) returns (name: Name, m: nat)
    requires Complete(t) && Contiguous(t.inherits) && p.inherits == t.inherits && p.lastInherited == Total(t.inherits)
    requires i < p.lastInherited
    ensures InParent(p, i) && name == NameAt(p, i) && name in t.chains && m < |t.chains[name]|
    ensures var k := Parent(t.inherits, i); var q := t.inherits[k].prog; var d := t.chains[name][m];
            && DefOk(t, d, name) && d.Inh? && d.parent == k && d.index == i - t.inherits[k].offset
            && Ok(q) && d.index < Copied(q) && d.index < |q.flags| && NameAt(q, d.index) == name
  {
    ParentUnique(t.inherits, i);
    var k := Parent(t.inherits, i);
    var j := i - t.inherits[k].offset;
    assert Registered(t, k, j);
    LiftName(p, k, j);
    name := NameAt(p, i);
    m :| 0 <= m < |t.chains[name]| && t.chains[name][m].Inh? && t.chains[name][m].parent == k && t.chains[name][m].index == j;
    assert t.chains[name][m] in t.chains[name];
  }

  lemma Distinct(order: seq<nat>, sorted: seq<nat>)
    requires Inverse(order, sorted)
    ensures forall u, v | 0 <= u < v < |sorted| :: sorted[u] != sorted[v]
  {
  }

  lemma InheritedEntry(t: Tables, order: seq<nat>, sorted: seq<nat>, n: nat, flags: seq<Entry>, p: Program, i: nat)
    requires Complete(t) && Contiguous(t.inherits) && IsCompiled(t, order, sorted, n, flags, p) && i < p.lastInherited
    ensures PointsToHead(t, sorted, p, i) && EntryOk(p, i)
  {
    var name, m := CandidateOf(t, p, i);
    InheritedFlag(t, order, sorted, n, flags, p, i, name, m);
    InheritedOk(t, sorted, p, i, name, m);
  }

  lemma InheritedFlag(t: Tables, order: seq<nat>, sorted: seq<nat>, n: nat, flags: seq<Entry>, p: Program, i: nat, name: Name, m: nat)
    requires Complete(t) && Contiguous(t.inherits) && IsCompiled(t, order, sorted, n, flags, p) && i < p.lastInherited
    requires name in t.chains && m < |t.chains[name]| && DefOk(t, t.chains[name][m], name)
    requires Final(t, sorted, t.chains[name][m]) == i && t.chains[name][m].Inh?
    ensures FlagsLead(t, sorted, p, i, name, m)
  {
    HeadPlaced(t, order, sorted, n, flags, p, name);
    Distinct(order, sorted);
    assert ChainFlagged(t, sorted, flags, t.chains[name], |t.chains[name]|);
    FlaggedAt(t, sorted, flags, name, m);
  }

  /** The flag of candidate `m`, at index `i`, leads to the choice. */
  ghost predicate FlagsLead(t: Tables, sorted: seq<nat>, p: Program, i: nat, name: Name, m: nat) {
    && i < |p.flags| && name in t.chains && m < |t.chains[name]|
    && var d, c := t.chains[name][0], t.chains[name][m]; var f := Final(t, sorted, d);
       && DefOk(t, d, name) && !IsAlias(d) && c.Inh?
       && f < |p.flags| && HasFlagsOf(p.flags[f], d) && NameAt(p, f) == name
       && (if i == f then d.Inh? && d.parent == c.parent && d.index == c.index else p.flags[i] == Alias(f))
  }

  lemma InheritedOk(t: Tables, sorted: seq<nat>, p: Program, i: nat, name: Name, m: nat)
    requires p.inherits == t.inherits && Contiguous(p.inherits) && p.lastInherited == Total(p.inherits)
    requires i < p.lastInherited <= |p.flags| && name == NameAt(p, i) && name in t.chains && m < |t.chains[name]|
    requires InParent(p, i)
    requires FlagsLead(t, sorted, p, i, name, m)
    requires t.chains[name][m].parent == Parent(p.inherits, i)
    requires t.chains[name][m].index == i - p.inherits[Parent(p.inherits, i)].offset
    ensures PointsToHead(t, sorted, p, i) && EntryOk(p, i)
  {
  }

  lemma OwnEntry(t: Tables, order: seq<nat>, sorted: seq<nat>, n: nat, flags: seq<Entry>, p: Program, i: nat)
    requires Complete(t) && Contiguous(t.inherits) && IsCompiled(t, order, sorted, n, flags, p)
    requires p.lastInherited <= i < |p.flags|
    ensures PointsToHead(t, sorted, p, i) && EntryOk(p, i)
  {
    OwnFlag(t, order, sorted, n, flags, p, i);
  }

  /** An own index is that of a choice. */
  lemma OwnFlag(t: Tables, order: seq<nat>, sorted: seq<nat>, n: nat, flags: seq<Entry>, p: Program, i: nat)
    requires Complete(t) && Contiguous(t.inherits) && IsCompiled(t, order, sorted, n, flags, p)
    requires p.lastInherited <= i < |p.flags|
    ensures var name := NameAt(p, i);
            && name in t.chains && t.chains[name] != [] && t.chains[name][0].Own?
            && Final(t, sorted, t.chains[name][0]) == i && HasFlagsOf(p.flags[i], t.chains[name][0])
  {
    KeptIsChoice(t, order, n, i - p.lastInherited);
    HeadPlaced(t, order, sorted, n, flags, p, t.funcs[order[i - p.lastInherited]].name);
  }

  /** No parent's initialiser is among the inherited functions. */
  lemma InitNotInherited(t: Tables, p: Program, i: nat)
    requires Complete(t) && Contiguous(t.inherits) && p.inherits == t.inherits && p.lastInherited == Total(t.inherits)
    requires i < p.lastInherited
    ensures NameAt(p, i) != INIT
  {
    var name, m := CandidateOf(t, p, i);
  }

  /** The initialiser, if there is one, is the last kept function. */
  lemma InitIsLast(t: Tables, order: seq<nat>, sorted: seq<nat>, n: nat, flags: seq<Entry>, p: Program, i: nat)
    requires Complete(t) && IsCompiled(t, order, sorted, n, flags, p)
    requires p.lastInherited <= i < |p.flags| && NameAt(p, i) == INIT
    ensures i == |p.flags| - 1
  {
    var v := i - p.lastInherited;
    KeptIsChoice(t, order, n, v);
    KeptIsChoice(t, order, n, n - 1);
    OnlyOneInit(t, order, v, n - 1);
  }

  /** Nothing is sorted behind a kept initialiser but removed functions. */
  lemma OnlyOneInit(t: Tables, order: seq<nat>, v: nat, last: nat)
    requires SortedOrder(t.funcs, order) && v <= last < |order|
    requires order[v] < |t.funcs| && IsChoice(t, order[v]) && t.funcs[order[v]].name == INIT && !t.funcs[order[v]].removed
    requires order[last] < |t.funcs| && IsChoice(t, order[last]) && !t.funcs[order[last]].removed
    ensures v == last
  {
  }

  /** The flag of an index is that of the present choice for its name, or an alias of it. */
  ghost predicate PointsToHead(t: Tables, sorted: seq<nat>, p: Program, i: nat)
    requires i < |p.flags|
  {
    var name := NameAt(p, i);
    && name in t.chains && t.chains[name] != []
    && var f := Final(t, sorted, t.chains[name][0]);
       && f < |p.flags| && HasFlagsOf(p.flags[f], t.chains[name][0])
       && (if i == f then p.flags[i].Entry? else p.flags[i] == Alias(f))
  }

  /** What handle_functions and epilog make of complete tables is a program in which every
    function can be found; every index leads in at most one hop to the choice for its name. */
  lemma CompiledIsOk(t: Tables, order: seq<nat>, sorted: seq<nat>, n: nat, flags: seq<Entry>, p: Program)
    requires Complete(t) && Contiguous(t.inherits) && IsCompiled(t, order, sorted, n, flags, p)
    ensures Ok(p)
    ensures forall i: nat | i < |p.flags| :: PointsToHead(t, sorted, p, i)
  {
    forall i: nat | i < |p.flags|
      ensures EntryOk(p, i) && PointsToHead(t, sorted, p, i)
      ensures NameAt(p, i) == INIT ==> i >= p.lastInherited && i == |p.flags| - 1
    {
      if i < p.lastInherited {
        InheritedEntry(t, order, sorted, n, flags, p, i);
        InitNotInherited(t, p, i);
      } else {
        OwnEntry(t, order, sorted, n, flags, p, i);
        if NameAt(p, i) == INIT { InitIsLast(t, order, sorted, n, flags, p, i); }
      }
    }
  }

  /** The remap of default arguments in epilog: for a kept function of an ordinary name and a
    kept default-argument function, the new index names the same function, and is not the 0
    that stands for "no default". */
  lemma RemapKeepsFunction(t: Tables, order: seq<nat>, sorted: seq<nat>, n: nat, flags: seq<Entry>, p: Program, f: nat, findex: nat)
    requires IsCompiled(t, order, sorted, n, flags, p)
    requires f < |t.funcs| && !t.funcs[f].removed && !IsSpecial(t.funcs[f].name)
    requires findex < |t.funcs| && !t.funcs[findex].removed && IsSpecial(t.funcs[findex].name)
    ensures 0 < sorted[findex] < |p.functions| && p.functions[sorted[findex]] == t.funcs[findex].name
  {
    var i, j := sorted[f], sorted[findex];
    assert order[i] == f && order[j] == findex;
    assert t.funcs[order[i]].removed <==> i >= n;
    assert t.funcs[order[j]].removed <==> j >= n;
    assert Class(t.funcs[f]) == 0 < Class(t.funcs[findex]);
    assert i < j;
  }

  /** The name has an entry, with the flags of its choice. */
  ghost predicate HasEntry(t: Tables, p: Program, name: Name)
    requires name in t.chains && t.chains[name] != []
  {
    exists i: nat | i < |p.flags| :: NameAt(p, i) == name && HasFlagsOf(p.flags[i], t.chains[name][0])
  }

  lemma NamesPlaced(t: Tables, order: seq<nat>, sorted: seq<nat>, n: nat, flags: seq<Entry>, p: Program)
    requires Complete(t) && Contiguous(t.inherits) && IsCompiled(t, order, sorted, n, flags, p)
    ensures forall name <- t.chains :: t.chains[name] != [] && HasEntry(t, p, name)
  {
    forall name <- t.chains ensures t.chains[name] != [] && HasEntry(t, p, name) {
      HeadPlaced(t, order, sorted, n, flags, p, name);
      var f := Final(t, sorted, t.chains[name][0]);
      assert NameAt(p, f) == name && HasFlagsOf(p.flags[f], t.chains[name][0]);
    }
  }

  /** handle_functions, and the part of epilog that fills function_table and function_flags;
    `order` is what qsort returned. */
  method HandleFunctions(t: Tables, order: seq<nat>)
    returns (p: Program, sorted: seq<nat>, n: nat, flags: seq<Entry>)
    requires Complete(t) && Contiguous(t.inherits) && SortedOrder(t.funcs, order)
    ensures IsCompiled(t, order, sorted, n, flags, p) && Ok(p)
    ensures forall i: nat | i < |p.flags| :: PointsToHead(t, sorted, p, i)
    ensures forall name <- t.chains :: t.chains[name] != [] && HasEntry(t, p, name)
  {
    sorted := InvertOrder(order);
    n := CountKept(t.funcs, order);
    flags := FillFlags(t, sorted);
    var table := seq(n, i requires 0 <= i < n => t.funcs[order[i]].name);
    p := Program(t.inherits, Total(t.inherits), table, flags[..Total(t.inherits) + n]);
    CompiledIsOk(t, order, sorted, n, flags, p);
    NamesPlaced(t, order, sorted, n, flags, p);
  }
}
