/** The compiler's tables as they change while a program is compiled: inherit statements
  (rule_inheritence in src/compiler/internal/grammar_rules.cc, copy_functions in
  src/compiler/internal/compiler.cc), function definitions and prototypes
  (define_new_function), and the program at the end (handle_functions, epilog). */
module CompilerTables {
  import opened Programs
  import opened FunctionLookup
  import opened Overloads
  import opened FunctionTable
  import opened FunctionIndices

  predicate NonEmpty(t: Tables) { forall name <- t.chains :: t.chains[name] != [] }

  predicate Copyable(p: Program) { AliasesIn(p) && Copied(p) <= |p.flags| }

  /** The functions of the `k`-th parent `p` from the `i`-th on are entered. */
  function CopyFrom(t: Tables, p: Program, k: nat, i: nat): Tables
    requires NonEmpty(t) && Copyable(p)
    decreases Copied(p) - i
  {
    if i >= Copied(p) then t else CopyFrom(Next(t, p, k, i), p, k, i + 1)
  }

  predicate LastParent(t: Tables, p: Program, k: nat) { |t.inherits| == k + 1 && t.inherits[k].prog == p }

  lemma CopyStep(t: Tables, p: Program, k: nat, i: nat) returns (u: Tables)
    requires LastParent(t, p, k) && Copyable(p) && NonEmpty(t) && Inv(t, i) && i < Copied(p)
    ensures Ok(p) && u == CopyOne(t, NameAt(p, i), ParentCandidate(p, k, i))
    ensures LastParent(u, p, k) && NonEmpty(u) && Inv(u, i + 1) && u.inherits == t.inherits
  {
    u := CopyOne(t, NameAt(p, i), ParentCandidate(p, k, i));
    CopyKeeps(t, i, p, ParentCandidate(p, k, i));
  }

  lemma DoneIsComplete(t: Tables, p: Program, k: nat, i: nat)
    requires LastParent(t, p, k) && Inv(t, i) && i >= Copied(p)
    ensures Complete(t)
  {
    assert ParentsOk(t, i);
    assert Finished(t) == i;
  }

  /** One turn of the loop. */
  function Next(t: Tables, p: Program, k: nat, i: nat): Tables
    requires NonEmpty(t) && Copyable(p) && i < Copied(p)
  {
    CopyOne(t, NameAt(p, i), ParentCandidate(p, k, i))
  }

  /** What every turn keeps holds at the end. */
  lemma {:induction false} CopyFromKept(kept: (Tables, nat) -> bool, t: Tables, p: Program, k: nat, i: nat)
    requires NonEmpty(t) && Copyable(p) && i <= Copied(p) && kept(t, i)
    requires forall u, j: nat | NonEmpty(u) && j < Copied(p) && kept(u, j) :: kept(Next(u, p, k, j), j + 1)
    ensures kept(CopyFrom(t, p, k, i), Copied(p))
    decreases Copied(p) - i
  {
    if i < Copied(p) {
      assert kept(Next(t, p, k, i), i + 1);
      CopyFromKept(kept, Next(t, p, k, i), p, k, i + 1);
    }
  }

  lemma CopyFromKeeps(t: Tables, p: Program, k: nat)
    requires LastParent(t, p, k) && Copyable(p) && NonEmpty(t) && Inv(t, 0)
    ensures Complete(CopyFrom(t, p, k, 0)) && CopyFrom(t, p, k, 0).inherits == t.inherits
  {
    var kept := (u: Tables, j: nat) => u.inherits == t.inherits && Inv(u, j);
    forall u, j: nat | NonEmpty(u) && j < Copied(p) && kept(u, j) ensures kept(Next(u, p, k, j), j + 1) {
      var v := CopyStep(u, p, k, j);
    }
    CopyFromKept(kept, t, p, k, 0);
    DoneIsComplete(CopyFrom(t, p, k, 0), p, k, Copied(p));
  }

  function Begin(t: Tables, prog: Program, isPrivate: bool): Tables {
    var offset := if t.inherits == [] then 0 else NextOffset(t.inherits[|t.inherits| - 1]);
    t.(inherits := t.inherits + [Inherit(prog, offset, isPrivate)])
  }

  function Inheriting(t: Tables, prog: Program, isPrivate: bool): (r: Tables)
    requires Complete(t) && Ok(prog)
    ensures Complete(r) && r.inherits == Begin(t, prog, isPrivate).inherits
  {
    InheritingKeeps(t, prog, isPrivate);
    CopyFrom(Begin(t, prog, isPrivate), prog, |t.inherits|, 0)
  }

  lemma InheritingKeeps(t: Tables, prog: Program, isPrivate: bool)
    requires Complete(t) && Ok(prog)
    ensures NonEmpty(Begin(t, prog, isPrivate)) && Copyable(prog)
    ensures Complete(CopyFrom(Begin(t, prog, isPrivate), prog, |t.inherits|, 0))
    ensures CopyFrom(Begin(t, prog, isPrivate), prog, |t.inherits|, 0).inherits == Begin(t, prog, isPrivate).inherits
  {
    BeginKeeps(t, prog, isPrivate);
    CopyFromKeeps(Begin(t, prog, isPrivate), prog, |t.inherits|);
  }

  lemma BeginKeeps(t: Tables, prog: Program, isPrivate: bool)
    requires Complete(t) && Ok(prog)
    ensures NonEmpty(Begin(t, prog, isPrivate)) && Copyable(prog) && Inv(Begin(t, prog, isPrivate), 0)
    ensures LastParent(Begin(t, prog, isPrivate), prog, |t.inherits|)
  {
    StartParent(t, Begin(t, prog, isPrivate).inherits[|t.inherits|]);
    OkAliasesIn(prog);
  }

  datatype Statement =
    | InheritStatement(prog: Program, isPrivate: bool)
    | FunctionStatement(name: Name, kind: Kind, isPrivate: bool)

  ghost predicate ParentsAreOk(stmts: seq<Statement>) {
    forall s <- stmts :: s.InheritStatement? ==> Ok(s.prog)
  }

  lemma DefineKeepsComplete(t: Tables, name: Name, kind: Kind, isPrivate: bool)
    requires Complete(t)
    ensures Complete(DefineNew(t, name, kind, isPrivate).tables)
    ensures DefineNew(t, name, kind, isPrivate).tables.inherits == t.inherits
  {
    DefineKeeps(t, Finished(t), name, kind, isPrivate);
  }

  function ChainAt(t: Tables, name: Name): seq<Def> { if name in t.chains then t.chains[name] else [] }

  /** The declaration is in front of the name's chain, nothing else is different there, and
    the entry of A_FUNCTIONS it is given is one of the name that is kept. */
  ghost predicate Entered(t: Tables, v: Tables, name: Name, u: nat, kind: Kind, isPrivate: bool) {
    && v.inherits == t.inherits
    && ChainAt(v, name) == [Own(u, kind != Definition, isPrivate)] + ChainAt(t, name)
    && (forall other | other != name :: ChainAt(v, other) == ChainAt(t, other))
    && u < |v.funcs| && v.funcs[u] == Func(name, false)
  }

  lemma DefineEnters(t: Tables, name: Name, kind: Kind, isPrivate: bool)
    requires ChainsOk(t) && FuncsOk(t)
    ensures var r := DefineNew(t, name, kind, isPrivate);
            if r.verdict == Accepted then Entered(t, r.tables, name, r.u, kind, isPrivate) else r.tables == t
  {
    if name in t.chains && t.chains[name][0].Own? {
      var d := t.chains[name][0];
      assert d in t.chains[name] && DefOk(t, d, name);
      assert IsChoice(t, d.u);
    }
  }

  function Step(t: Tables, s: Statement): (r: Tables)
    requires Complete(t) && LaidOut(t.inherits) && (s.InheritStatement? ==> Ok(s.prog))
    ensures Complete(r) && LaidOut(r.inherits)
  {
    match s
    case InheritStatement(prog, isPrivate) =>
      BeginLaidOut(t, prog, isPrivate);
      Inheriting(t, prog, isPrivate)
    case FunctionStatement(name, kind, isPrivate) =>
      DefineKeepsComplete(t, name, kind, isPrivate);
      DefineNew(t, name, kind, isPrivate).tables
  }

  lemma BeginLaidOut(t: Tables, prog: Program, isPrivate: bool)
    requires LaidOut(t.inherits)
    ensures LaidOut(Begin(t, prog, isPrivate).inherits)
  {
  }

  const EMPTY := Tables([], [], [], map[])

  /** The tables after a sequence of statements. */
  function Compile(stmts: seq<Statement>): (t: Tables)
    requires ParentsAreOk(stmts)
    ensures Complete(t) && LaidOut(t.inherits)
    decreases |stmts|
  {
    if stmts == [] then EMPTY
    else
      var n := |stmts| - 1;
      assert forall s <- stmts[..n] :: s in stmts;
      assert stmts[n] in stmts;
      Step(Compile(stmts[..n]), stmts[n])
  }

  /** However inherit statements, prototypes and definitions are mixed, the program is one
    in which each function can be found, unless a parent other than the last has a
    default-argument function for its last one. */
  lemma AnyProgramIsOk(stmts: seq<Statement>, order: seq<nat>, sorted: seq<nat>, n: nat, flags: seq<Entry>, p: Program)
    requires ParentsAreOk(stmts)
    requires forall k | 0 <= k < |Compile(stmts).inherits| - 1 :: !Short(Compile(stmts).inherits[k].prog)
    requires IsCompiled(Compile(stmts), order, sorted, n, flags, p)
    ensures Ok(p) && forall i: nat | i < |p.flags| :: PointsToHead(Compile(stmts), sorted, p, i)
  {
    ContiguousIffNoneShort(Compile(stmts).inherits);
    CompiledIsOk(Compile(stmts), order, sorted, n, flags, p);
  }

  // ---------------------------------------------------------------------------
  // The choice is the maximum
  // ---------------------------------------------------------------------------

  ghost predicate HeadMax(chain: seq<Def>) { chain != [] && forall d <- chain :: Rank(d) <= Rank(chain[0]) }

  /** No candidate for a name ranks above the choice. */
  ghost predicate HeadsMax(t: Tables) { forall name <- t.chains :: HeadMax(t.chains[name]) }

  lemma OverloadMax(chain: seq<Def>, d: Def)
    requires HeadMax(chain) && d.Inh?
    ensures HeadMax(Overload(chain, d))
  {
    OverloadHolds(chain, d, 0, 0);
    var o := Overload(chain, d);
    forall e <- o ensures Rank(e) <= Rank(o[0]) { assert e in chain || e == d; }
  }

  lemma CopyFromMax(t: Tables, p: Program, k: nat)
    requires NonEmpty(t) && Copyable(p) && HeadsMax(t)
    ensures HeadsMax(CopyFrom(t, p, k, 0))
  {
    var kept := (u: Tables, j: nat) => HeadsMax(u);
    forall u, j: nat | NonEmpty(u) && j < Copied(p) && kept(u, j) ensures kept(Next(u, p, k, j), j + 1) {
      CopyOneMax(u, NameAt(p, j), ParentCandidate(p, k, j));
    }
    CopyFromKept(kept, t, p, k, 0);
  }

  lemma CopyOneMax(t: Tables, name: Name, d: Def)
    requires HeadsMax(t) && d.Inh?
    ensures HeadsMax(CopyOne(t, name, d))
  {
    if name in t.chains { OverloadMax(t.chains[name], d); }
  }

  lemma DefineMax(t: Tables, name: Name, kind: Kind, isPrivate: bool)
    requires HeadsMax(t) && (kind == Undefined ==> name !in t.chains)
    ensures HeadsMax(DefineNew(t, name, kind, isPrivate).tables)
  {
  }

  /** A name is only entered as undefined, because it is called, when it is new. */
  ghost predicate Legal(stmts: seq<Statement>)
    decreases |stmts|
  {
    && ParentsAreOk(stmts)
    && (stmts != [] ==>
          var n := |stmts| - 1;
          && Legal(stmts[..n])
          && (stmts[n].FunctionStatement? && stmts[n].kind == Undefined ==> stmts[n].name !in Compile(stmts[..n]).chains))
  }

  /** After any sequence of statements the choice for each name is a candidate of the highest
    rank; `FunctionIndices.CompiledIsOk` leads every index of the name to it. */
  lemma {:induction false} ChoiceIsMax(stmts: seq<Statement>)
    requires Legal(stmts)
    ensures HeadsMax(Compile(stmts))
    decreases |stmts|
  {
    if stmts != [] {
      var n := |stmts| - 1;
      var t := Compile(stmts[..n]);
      ChoiceIsMax(stmts[..n]);
      match stmts[n]
      case InheritStatement(prog, isPrivate) =>
        assert stmts[n] in stmts;
        BeginKeeps(t, prog, isPrivate);
        CopyFromMax(Begin(t, prog, isPrivate), prog, |t.inherits|);
      case FunctionStatement(name, kind, isPrivate) =>
        DefineMax(t, name, kind, isPrivate);
    }
  }

  // ---------------------------------------------------------------------------
  // The tables updated in place
  // ---------------------------------------------------------------------------

  class Compiler {
    var inherits: seq<Inherit>            // A_INHERITS
    var funcs: seq<Func>                  // A_FUNCTIONS
    var defs: seq<Name>                   // A_FUNCTION_DEFS
    var chains: map<Name, seq<Def>>       // the identifiers' function_num and the next links

    function Abs(): Tables reads this { Tables(inherits, funcs, defs, chains) }

    constructor ()
      ensures Abs() == EMPTY && Complete(Abs())
    {
      inherits, funcs, defs, chains := [], [], [], map[];
    }

    /** copy_new_function or overload_function */
    method Enter(name: Name, d: Def)
      requires d.Inh? && (name in chains ==> chains[name] != [])
      modifies this
      ensures Abs() == CopyOne(old(Abs()), name, d)
    {
      if name !in chains {
        defs := defs + [name];
        chains := chains[name := [d]];
      } else {
        var cur := chains[name][0];
        if Replaces(cur, d) {
          if cur.Own? && cur.u < |funcs| {
            funcs := funcs[cur.u := funcs[cur.u].(removed := true)];
          }
          chains := chains[name := [d] + chains[name]];
        } else {
          chains := chains[name := [cur, d] + chains[name][1..]];
        }
      }
    }

    /** copy_functions */
    method CopyFunctions(from: Program)
      requires inherits != [] && LastParent(Abs(), from, |inherits| - 1)
      requires Copyable(from) && NonEmpty(Abs()) && Inv(Abs(), 0)
      modifies this
      ensures Abs() == CopyFrom(old(Abs()), from, |old(inherits)| - 1, 0)
    {
      ghost var k: nat := |inherits| - 1;
      ghost var goal := CopyFrom(Abs(), from, k, 0);
      var count := |from.flags|;
      if |from.functions| > 0 && from.functions[|from.functions| - 1] == INIT {
        count := count - 1;
      }
      CountIsCopied(Abs(), from, k);
      for i := 0 to count
        invariant count == Copied(from) && NonEmpty(Abs()) && LastParent(Abs(), from, k) && Inv(Abs(), i)
        invariant CopyFrom(Abs(), from, k, i) == goal
      {
        CopyFunction(from, i, k);
      }
    }

    lemma CountIsCopied(t: Tables, from: Program, k: nat)
      requires LastParent(t, from, k) && Inv(t, 0)
      ensures |from.flags| == from.lastInherited + |from.functions|
    {
    }

    method CopyFunction(from: Program, i: nat, ghost k: nat)
      requires LastParent(Abs(), from, k) && Copyable(from) && NonEmpty(Abs()) && Inv(Abs(), i) && i < Copied(from)
      modifies this
      ensures inherits == old(inherits) && NonEmpty(Abs()) && Inv(Abs(), i + 1)
      ensures CopyFrom(Abs(), from, k, i + 1) == CopyFrom(old(Abs()), from, k, i)
    {
      ghost var u := CopyStep(Abs(), from, k, i);
      var prog, index := FindFuncEntry(from, i);
      Enter(prog.functions[index], ParentCandidate(from, |inherits| - 1, i));
    }

    /** rule_inheritence */
    method RuleInheritence(prog: Program, isPrivate: bool)
      requires Complete(Abs()) && Ok(prog)
      modifies this
      ensures Abs() == Inheriting(old(Abs()), prog, isPrivate) && Complete(Abs())
    {
      var offset := 0;
      if inherits != [] {
        offset := OffsetAfter(inherits[|inherits| - 1]);
      }
      BeginKeeps(Abs(), prog, isPrivate);
      InheritingKeeps(Abs(), prog, isPrivate);
      AddInherit(Inherit(prog, offset, isPrivate));
      CopyFunctions(prog);
    }

    method OffsetAfter(prev: Inherit) returns (offset: nat)
      ensures offset == NextOffset(prev)
    {
      var n := |prev.prog.functions|;
      offset := prev.offset + n + prev.prog.lastInherited;
      if n > 0 && prev.prog.functions[n - 1] != "" && prev.prog.functions[n - 1][0] == SPECIAL {
        offset := offset - 1;
      }
    }

    method AddInherit(inh: Inherit)
      modifies this
      ensures Abs() == old(Abs()).(inherits := old(inherits) + [inh])
    {
      inherits := inherits + [inh];
    }

    /** define_new_function; the index is that of A_FUNCTIONS. */
    method DefineNewFunction(name: Name, kind: Kind, isPrivate: bool) returns (verdict: Verdict, u: nat)
      requires Complete(Abs())
      modifies this
      ensures Defined(verdict, Abs(), u) == DefineNew(old(Abs()), name, kind, isPrivate) && Complete(Abs())
      ensures if verdict == Accepted then Entered(old(Abs()), Abs(), name, u, kind, isPrivate) else Abs() == old(Abs())
    {
      ghost var t := Abs();
      DefineEnters(t, name, kind, isPrivate);
      DefineKeepsComplete(t, name, kind, isPrivate);
      if name !in chains {
        u := DefineFirst(name, kind, isPrivate);
        verdict := Accepted;
      } else {
        assert HeadOk(t, Finished(t), chains[name]);
        verdict, u := Redefine(name, kind, isPrivate);
      }
    }

    method DefineFirst(name: Name, kind: Kind, isPrivate: bool) returns (u: nat)
      requires name !in chains
      modifies this
      ensures Defined(Accepted, Abs(), u) == DefineNew(old(Abs()), name, kind, isPrivate)
    {
      u := |funcs|;
      funcs := funcs + [Func(name, false)];
      defs := defs + [name];
      chains := chains[name := [Own(u, kind != Definition, isPrivate)]];
    }

    method Redefine(name: Name, kind: Kind, isPrivate: bool) returns (verdict: Verdict, u: nat)
      requires name in chains && chains[name] != []
      modifies this
      ensures Defined(verdict, Abs(), u) == DefineNew(old(Abs()), name, kind, isPrivate)
    {
      var cur := chains[name][0];
      verdict, u := Judge(cur, kind), 0;
      if verdict == Accepted {
        if cur.Own? {
          u := cur.u;
        } else {
          u := |funcs|;
          funcs := funcs + [Func(name, false)];
        }
        chains := chains[name := [Own(u, kind != Definition, isPrivate)] + chains[name]];
      }
    }

    /** handle_functions and the function tables of epilog */
    method Finish(order: seq<nat>)
      returns (p: Program, ghost sorted: seq<nat>, ghost n: nat, ghost flags: seq<Entry>)
      requires Complete(Abs()) && LaidOut(inherits) && SortedOrder(funcs, order)
      requires forall k | 0 <= k < |inherits| - 1 :: !Short(inherits[k].prog)
      ensures IsCompiled(Abs(), order, sorted, n, flags, p) && Ok(p)
      ensures forall i: nat | i < |p.flags| :: PointsToHead(Abs(), sorted, p, i)
    {
      ContiguousIffNoneShort(inherits);
      p, sorted, n, flags := HandleFunctions(Abs(), order);
    }
  }
}
