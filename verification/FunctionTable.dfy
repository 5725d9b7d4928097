/** The compiler's function tables: entering the functions of inherited programs
  (copy_functions), defining own ones (define_new_function), and the final index maps and
  flags (handle_functions), all in src/compiler/internal/compiler.cc. */
module FunctionTable {
  import opened Programs
  import opened FunctionLookup
  import opened Overloads

  /** An entry of A_FUNCTIONS; `removed` is the address ADDRESS_MAX. */
  datatype Func = Func(name: Name, removed: bool)

  /** `defs` are the names in A_FUNCTION_DEFS order; the identifier table and the `next`
    links make up `chains`. */
  datatype Tables = Tables(inherits: seq<Inherit>, funcs: seq<Func>, defs: seq<Name>, chains: map<Name, seq<Def>>)

  /** The `i`-th function copied from the parent has the name and these flags. */
  predicate InheritedIs(p: Program, i: nat, name: Name, alias: bool, noCode: bool) {
    && i < Copied(p) && i < |p.flags| && NameAt(p, i) == name
    && alias == p.flags[i].Alias? && (!alias ==> noCode == p.flags[i].noCode)
  }

  ghost predicate DefOk(t: Tables, d: Def, name: Name) {
    match d
    case Inh(k, i, alias, noCode) =>
      k < |t.inherits| && InheritedIs(t.inherits[k].prog, i, name, alias, noCode)
    case Own(u, _, _) => u < |t.funcs| && t.funcs[u].name == name
  }

  ghost predicate ChainsOk(t: Tables) {
    forall name <- t.chains :: t.chains[name] != [] && forall d <- t.chains[name] :: DefOk(t, d, name)
  }

  /** A_FUNCTION_DEFS has one entry for each name. */
  ghost predicate DefsOk(t: Tables) {
    && (forall name :: name in t.defs <==> name in t.chains)
    && (forall i, j | 0 <= i < j < |t.defs| :: t.defs[i] != t.defs[j])
  }

  predicate Holds(chain: seq<Def>, k: nat, i: nat) {
    exists m | 0 <= m < |chain| :: chain[m].Inh? && chain[m].parent == k && chain[m].index == i
  }

  /** The `i`-th function of the `k`-th parent is in the chain of its name. */
  ghost predicate Registered(t: Tables, k: nat, i: nat)
    requires k < |t.inherits|
  {
    var name := NameAt(t.inherits[k].prog, i);
    name in t.chains && Holds(t.chains[name], k, i)
  }

  /** How many functions of the `k`-th parent have been copied. */
  function Progress(t: Tables, done: nat, k: nat): nat
    requires k < |t.inherits|
  {
    if k == |t.inherits| - 1 then done else Copied(t.inherits[k].prog)
  }

  predicate IsChoice(t: Tables, u: nat)
    requires u < |t.funcs|
  {
    var name := t.funcs[u].name;
    name in t.chains && t.chains[name] != [] && t.chains[name][0].Own? && t.chains[name][0].u == u
  }

  /** An alias is the present choice only while there is nothing but aliases, and until the
    function it stands for is copied. */
  ghost predicate HeadOk(t: Tables, done: nat, chain: seq<Def>) {
    && chain != []
    && (IsAlias(chain[0]) ==>
          && (forall d <- chain :: IsAlias(d))
          && var d := chain[0];
             && 0 <= d.parent == |t.inherits| - 1 && d.index < |t.inherits[d.parent].prog.flags|
             && var e := t.inherits[d.parent].prog.flags[d.index]; e.Alias? && e.to >= done)
  }

  ghost predicate HeadsOk(t: Tables, done: nat) {
    forall name <- t.chains :: HeadOk(t, done, t.chains[name])
  }

  ghost predicate AllRegistered(t: Tables, done: nat) {
    forall k: nat, i: nat | k < |t.inherits| && i < Progress(t, done, k) :: Registered(t, k, i)
  }

  /** An own function is removed iff it is not, or no longer, the choice for its name. */
  ghost predicate FuncsOk(t: Tables) {
    forall u: nat | u < |t.funcs| :: t.funcs[u].name in t.chains && (t.funcs[u].removed <==> !IsChoice(t, u))
  }

  ghost predicate ParentsOk(t: Tables, done: nat) {
    && (forall k | 0 <= k < |t.inherits| :: Ok(t.inherits[k].prog))
    && (t.inherits != [] ==> done <= Copied(t.inherits[|t.inherits| - 1].prog))
  }

  ghost predicate Inv(t: Tables, done: nat) {
    ChainsOk(t) && DefsOk(t) && ParentsOk(t, done) && AllRegistered(t, done) && FuncsOk(t) && HeadsOk(t, done)
  }

  function Finished(t: Tables): nat {
    if t.inherits == [] then 0 else Copied(t.inherits[|t.inherits| - 1].prog)
  }

  /** All parents copied. */
  ghost predicate Complete(t: Tables) { Inv(t, Finished(t)) }

  // ---------------------------------------------------------------------------
  // copy_functions
  // ---------------------------------------------------------------------------

  /** Every alias leads to an entry that is none. */
  predicate AliasesIn(p: Program) {
    forall i | 0 <= i < |p.flags| && p.flags[i].Alias? :: p.flags[i].to < |p.flags| && p.flags[p.flags[i].to].Entry?
  }

  lemma OkAliasesIn(p: Program)
    requires Ok(p)
    ensures AliasesIn(p) && Copied(p) <= |p.flags|
  {
    forall i | 0 <= i < |p.flags| && p.flags[i].Alias?
      ensures p.flags[i].to < |p.flags| && p.flags[p.flags[i].to].Entry?
    {
      assert EntryOk(p, i);
    }
  }

  /** The candidate a parent's entry is; an alias has the flags of what it leads to. */
  function ParentCandidate(p: Program, k: nat, i: nat): Def
    requires AliasesIn(p) && i < |p.flags|
  {
    var e := p.flags[i];
    Inh(k, i, e.Alias?, if e.Alias? then p.flags[e.to].noCode else e.noCode)
  }

  function Beaten(funcs: seq<Func>, chain: seq<Def>, d: Def): seq<Func>
    requires chain != [] && d.Inh?
  {
    if Replaces(chain[0], d) && chain[0].Own? && chain[0].u < |funcs| then
      funcs[chain[0].u := funcs[chain[0].u].(removed := true)]
    else funcs
  }

  /** One turn of the loop of copy_functions: copy_new_function or overload_function. */
  function CopyOne(t: Tables, name: Name, d: Def): Tables
    requires d.Inh? && (name in t.chains ==> t.chains[name] != [])
  {
    if name !in t.chains then t.(defs := t.defs + [name], chains := t.chains[name := [d]])
    else t.(funcs := Beaten(t.funcs, t.chains[name], d), chains := t.chains[name := Overload(t.chains[name], d)])
  }

  lemma CopyKeepsChains(t: Tables, i: nat, p: Program, d: Def)
    requires Inv(t, i) && t.inherits != [] && i < Copied(p) && p == t.inherits[|t.inherits| - 1].prog
    requires i < |p.flags| && Ok(p) && AliasesIn(p) && d == ParentCandidate(p, |t.inherits| - 1, i)
    ensures ChainsOk(CopyOne(t, NameAt(p, i), d))
  {
    var name := NameAt(p, i);
    var u := CopyOne(t, name, d);
    assert DefOk(u, d, name);
    forall c <- u.chains ensures u.chains[c] != [] && forall e <- u.chains[c] :: DefOk(u, e, c) {
      forall e <- u.chains[c] ensures DefOk(u, e, c) {
        assert e == d || (c in t.chains && e in t.chains[c]);
      }
    }
  }

  lemma OverloadHolds(chain: seq<Def>, d: Def, k: nat, i: nat)
    requires chain != [] && d.Inh?
    ensures Holds(chain, k, i) ==> Holds(Overload(chain, d), k, i)
    ensures Holds(Overload(chain, d), d.parent, d.index)
    ensures forall e :: e in Overload(chain, d) <==> e in chain || e == d
  {
    var o := Overload(chain, d);
    var r := Replaces(chain[0], d);
    if Holds(chain, k, i) {
      var m :| 0 <= m < |chain| && chain[m].Inh? && chain[m].parent == k && chain[m].index == i;
      assert o[if r || m > 0 then m + 1 else 0] == chain[m];
    }
    assert o[if r then 0 else 1] == d;
    forall e | e in chain ensures e in o {
      var m :| 0 <= m < |chain| && chain[m] == e;
      assert o[if r || m > 0 then m + 1 else 0] == chain[m];
    }
  }

  lemma CopyRegisters(t: Tables, i: nat, p: Program, d: Def)
    requires AllRegistered(t, i) && t.inherits != [] && p == t.inherits[|t.inherits| - 1].prog
    requires (forall name <- t.chains :: t.chains[name] != []) && d.Inh? && d.parent == |t.inherits| - 1 && d.index == i
    ensures AllRegistered(CopyOne(t, NameAt(p, i), d), i + 1)
  {
    var name := NameAt(p, i);
    var u := CopyOne(t, name, d);
    forall k: nat, j: nat | k < |u.inherits| && j < Progress(u, i + 1, k) ensures Registered(u, k, j) {
      if name in t.chains { OverloadHolds(t.chains[name], d, k, j); }
      if k == |t.inherits| - 1 && j == i {
        assert name !in t.chains ==> u.chains[name][0] == d;
      } else {
        assert Registered(t, k, j);
      }
    }
  }

  lemma CopyKeepsFuncs(t: Tables, name: Name, d: Def)
    requires ChainsOk(t) && FuncsOk(t) && d.Inh?
    ensures FuncsOk(CopyOne(t, name, d))
  {
    var v := CopyOne(t, name, d);
    forall u: nat | u < |v.funcs| ensures v.funcs[u].name in v.chains && (v.funcs[u].removed <==> !IsChoice(v, u)) {
      assert t.funcs[u].removed <==> !IsChoice(t, u);
      if name in t.chains {
        assert DefOk(t, t.chains[name][0], name);
      }
    }
  }

  lemma CopyKeepsHeads(t: Tables, i: nat, p: Program, d: Def)
    requires Inv(t, i) && t.inherits != [] && i < Copied(p) && p == t.inherits[|t.inherits| - 1].prog
    requires i < |p.flags| && Ok(p) && AliasesIn(p) && d == ParentCandidate(p, |t.inherits| - 1, i)
    ensures HeadsOk(CopyOne(t, NameAt(p, i), d), i + 1)
  {
    var name := NameAt(p, i);
    var v := CopyOne(t, name, d);
    forall c <- v.chains ensures HeadOk(v, i + 1, v.chains[c]) {
      if c == name {
        CopyKeepsOwnHead(t, i, p, d);
      } else {
        OtherHead(t, i, p, c);
      }
    }
  }

  lemma OtherHead(t: Tables, i: nat, p: Program, c: Name)
    requires HeadsOk(t, i) && ChainsOk(t) && t.inherits != [] && p == t.inherits[|t.inherits| - 1].prog
    requires Ok(p) && c in t.chains && c != NameAt(p, i)
    ensures HeadOk(t, i + 1, t.chains[c])
  {
    assert HeadOk(t, i, t.chains[c]);
    var h := t.chains[c][0];
    if IsAlias(h) {
      assert DefOk(t, h, c);
      assert EntryOk(p, h.index);
    }
  }

  /** Behind a function that has been copied no alias is the choice. */
  lemma TargetCopied(t: Tables, done: nat, p: Program, to: nat)
    requires Inv(t, done) && t.inherits != [] && p == t.inherits[|t.inherits| - 1].prog
    requires to < done && to < |p.flags| && p.flags[to].Entry?
    ensures var name := NameAt(p, to); name in t.chains && t.chains[name] != [] && !IsAlias(t.chains[name][0])
  {
    var name := NameAt(p, to);
    var k := |t.inherits| - 1;
    assert Registered(t, k, to);
    var m :| 0 <= m < |t.chains[name]| && t.chains[name][m].Inh? && t.chains[name][m].parent == k && t.chains[name][m].index == to;
    assert t.chains[name][m] in t.chains[name];
    assert DefOk(t, t.chains[name][m], name);
    assert HeadOk(t, done, t.chains[name]);
  }

  lemma CopyKeepsOwnHead(t: Tables, i: nat, p: Program, d: Def)
    requires Inv(t, i) && t.inherits != [] && i < Copied(p) && p == t.inherits[|t.inherits| - 1].prog
    requires i < |p.flags| && Ok(p) && AliasesIn(p) && d == ParentCandidate(p, |t.inherits| - 1, i)
    ensures var v := CopyOne(t, NameAt(p, i), d); HeadOk(v, i + 1, v.chains[NameAt(p, i)])
  {
    var name := NameAt(p, i);
    assert EntryOk(p, i);
    if d.alias && p.flags[i].to < i { TargetCopied(t, i, p, p.flags[i].to); }
    if name in t.chains {
      assert HeadOk(t, i, t.chains[name]);
      OverloadHead(t, i, t.chains[name], d);
    }
  }

  lemma OverloadHead(t: Tables, i: nat, chain: seq<Def>, d: Def)
    requires HeadOk(t, i, chain) && d.Inh? && d.parent == |t.inherits| - 1
    requires d.alias ==> (d.index < |t.inherits[d.parent].prog.flags| &&
      var e := t.inherits[d.parent].prog.flags[d.index]; e.Alias? && (IsAlias(chain[0]) ==> e.to >= i + 1))
    ensures HeadOk(t, i + 1, Overload(chain, d))
  {
    OverloadHolds(chain, d, 0, 0);
  }

  lemma CopyKeepsDefs(t: Tables, name: Name, d: Def)
    requires DefsOk(t) && ChainsOk(t) && d.Inh?
    ensures DefsOk(CopyOne(t, name, d))
  {
  }

  lemma CopyKeeps(t: Tables, i: nat, p: Program, d: Def)
    requires Inv(t, i) && t.inherits != [] && i < Copied(p) && p == t.inherits[|t.inherits| - 1].prog
    requires i < |p.flags| && Ok(p) && AliasesIn(p) && d == ParentCandidate(p, |t.inherits| - 1, i)
    ensures Inv(CopyOne(t, NameAt(p, i), d), i + 1)
  {
    CopyKeepsChains(t, i, p, d);
    CopyKeepsDefs(t, NameAt(p, i), d);
    CopyRegisters(t, i, p, d);
    CopyKeepsFuncs(t, NameAt(p, i), d);
    CopyKeepsHeads(t, i, p, d);
  }

  /** What an alias leads to is copied like the alias itself. */
  lemma InitIsNoTarget(p: Program, i: nat)
    requires Ok(p) && i < Copied(p) && i < |p.flags| && p.flags[i].Alias?
    ensures p.flags[i].to < Copied(p)
  {
    assert EntryOk(p, i);
  }

  /** Once a parent is copied no alias is left as a choice. */
  lemma CompleteHasNoAlias(t: Tables)
    requires Complete(t)
    ensures forall name <- t.chains :: t.chains[name] != [] && !IsAlias(t.chains[name][0])
  {
    forall name <- t.chains ensures t.chains[name] != [] && !IsAlias(t.chains[name][0]) {
      assert HeadOk(t, Finished(t), t.chains[name]);
      var d := t.chains[name][0];
      assert DefOk(t, d, name);
      if IsAlias(d) {
        InitIsNoTarget(t.inherits[d.parent].prog, d.index);
        assert false;
      }
    }
  }

  lemma StartParent(t: Tables, inh: Inherit)
    requires Complete(t) && Ok(inh.prog)
    ensures Inv(t.(inherits := t.inherits + [inh]), 0)
  {
    CompleteHasNoAlias(t);
    var u := t.(inherits := t.inherits + [inh]);
    forall name <- u.chains, d <- u.chains[name] ensures DefOk(u, d, name) { assert DefOk(t, d, name); }
    forall k: nat, i: nat | k < |u.inherits| && i < Progress(u, 0, k) ensures Registered(u, k, i) {
      assert Registered(t, k, i);
    }
    forall v: nat | v < |u.funcs| ensures u.funcs[v].name in u.chains && (u.funcs[v].removed <==> !IsChoice(u, v)) {
      assert t.funcs[v].removed <==> !IsChoice(t, v);
    }
    forall name <- u.chains ensures HeadOk(u, 0, u.chains[name]) {}
  }

  // ---------------------------------------------------------------------------
  // define_new_function
  // ---------------------------------------------------------------------------

  datatype Defined = Defined(verdict: Verdict, tables: Tables, u: nat)

  function DefineNew(t: Tables, name: Name, kind: Kind, isPrivate: bool): Defined
    requires name in t.chains ==> t.chains[name] != []
  {
    var n := |t.funcs|;
    var more := t.funcs + [Func(name, false)];
    if name !in t.chains then
      var d := Own(n, kind != Definition, isPrivate);
      Defined(Accepted, t.(funcs := more, defs := t.defs + [name], chains := t.chains[name := [d]]), n)
    else
      var chain := t.chains[name];
      var verdict := Judge(chain[0], kind);
      if verdict != Accepted then Defined(verdict, t, 0)
      else
        // an own prototype is overwritten, so its entry of A_FUNCTIONS is used again
        var u := if chain[0].Own? then chain[0].u else n;
        var d := Own(u, kind != Definition, isPrivate);
        Defined(Accepted, t.(funcs := if chain[0].Own? then t.funcs else more, chains := t.chains[name := [d] + chain]), u)
  }

  lemma DefineKeeps(t: Tables, done: nat, name: Name, kind: Kind, isPrivate: bool)
    requires Inv(t, done)
    ensures Inv(DefineNew(t, name, kind, isPrivate).tables, done)
  {
    DefineKeepsChains(t, name, kind, isPrivate);
    DefineKeepsRegistered(t, done, name, kind, isPrivate);
    DefineKeepsDefs(t, name, kind, isPrivate);
    DefineKeepsFuncs(t, name, kind, isPrivate);
    var v := DefineNew(t, name, kind, isPrivate).tables;
    forall c <- v.chains ensures HeadOk(v, done, v.chains[c]) {
      if c in t.chains { assert HeadOk(t, done, t.chains[c]); }
    }
  }

  lemma DefineKeepsChains(t: Tables, name: Name, kind: Kind, isPrivate: bool)
    requires ChainsOk(t)
    ensures ChainsOk(DefineNew(t, name, kind, isPrivate).tables)
  {
    var v := DefineNew(t, name, kind, isPrivate).tables;
    if name in t.chains { assert DefOk(t, t.chains[name][0], name); }
    forall c <- v.chains, e <- v.chains[c] ensures DefOk(v, e, c) {
      if c in t.chains && e in t.chains[c] { assert DefOk(t, e, c); } else { assert e == v.chains[name][0]; }
    }
  }

  lemma DefineKeepsDefs(t: Tables, name: Name, kind: Kind, isPrivate: bool)
    requires DefsOk(t) && ChainsOk(t)
    ensures DefsOk(DefineNew(t, name, kind, isPrivate).tables)
  {
  }

  lemma DefineKeepsRegistered(t: Tables, done: nat, name: Name, kind: Kind, isPrivate: bool)
    requires AllRegistered(t, done) && forall c <- t.chains :: t.chains[c] != []
    ensures AllRegistered(DefineNew(t, name, kind, isPrivate).tables, done)
  {
    var v := DefineNew(t, name, kind, isPrivate).tables;
    forall k: nat, i: nat | k < |v.inherits| && i < Progress(v, done, k) ensures Registered(v, k, i) {
      assert Registered(t, k, i);
      if name in t.chains { PushHolds(t.chains[name], v.chains[name][0], k, i); }
    }
  }

  lemma PushHolds(chain: seq<Def>, d: Def, k: nat, i: nat)
    ensures Holds(chain, k, i) ==> Holds([d] + chain, k, i)
  {
    if Holds(chain, k, i) {
      var m :| 0 <= m < |chain| && chain[m].Inh? && chain[m].parent == k && chain[m].index == i;
      assert ([d] + chain)[m + 1] == chain[m];
    }
  }

  lemma DefineKeepsFuncs(t: Tables, name: Name, kind: Kind, isPrivate: bool)
    requires ChainsOk(t) && FuncsOk(t)
    ensures FuncsOk(DefineNew(t, name, kind, isPrivate).tables)
  {
    var v := DefineNew(t, name, kind, isPrivate).tables;
    if name in t.chains { assert DefOk(t, t.chains[name][0], name); }
    forall u: nat | u < |v.funcs| ensures v.funcs[u].name in v.chains && (v.funcs[u].removed <==> !IsChoice(v, u)) {
      if u < |t.funcs| { assert t.funcs[u].removed <==> !IsChoice(t, u); }
    }
  }
}
