/** What the statements of a program say about each of its function names: which declarations
  are refused, which function the name ends up with, and its flags in the compiled program
  (define_new_function, overload_function and handle_functions in
  src/compiler/internal/compiler.cc). */
module StatementHistory {
  import opened Programs
  import opened FunctionLookup
  import opened Overloads
  import opened FunctionTable
  import opened FunctionIndices
  import opened CompilerTables

  // ---------------------------------------------------------------------------
  // The statements
  // ---------------------------------------------------------------------------

  predicate IsOf(s: Statement, name: Name) { s.FunctionStatement? && s.name == name }

  predicate Declares(stmts: seq<Statement>, name: Name) { exists s <- stmts :: IsOf(s, name) }

  predicate Defines(stmts: seq<Statement>, name: Name) { exists s <- stmts :: IsOf(s, name) && s.kind == Definition }

  /** One of the functions copied from the program, from the `i`-th on, has the name. */
  predicate Gives(p: Program, name: Name, i: nat) { exists j | i <= j < Copied(p) :: NameAt(p, j) == name }

  predicate CodeAt(p: Program, name: Name, j: nat) {
    NameAt(p, j) == name && j < |p.flags| && p.flags[j].Entry? && !p.flags[j].noCode
  }

  predicate GivesCode(p: Program, name: Name, i: nat) { exists j | i <= j < Copied(p) :: CodeAt(p, name, j) }

  predicate Inherits(stmts: seq<Statement>, name: Name) {
    exists s <- stmts :: s.InheritStatement? && Gives(s.prog, name, 0)
  }

  predicate InheritsCode(stmts: seq<Statement>, name: Name) {
    exists s <- stmts :: s.InheritStatement? && GivesCode(s.prog, name, 0)
  }

  lemma OneMore(stmts: seq<Statement>, name: Name)
    requires stmts != []
    ensures var n := |stmts| - 1; var b, s := stmts[..n], stmts[n];
            && (Declares(stmts, name) <==> Declares(b, name) || IsOf(s, name))
            && (Defines(stmts, name) <==> Defines(b, name) || (IsOf(s, name) && s.kind == Definition))
            && (Inherits(stmts, name) <==> Inherits(b, name) || (s.InheritStatement? && Gives(s.prog, name, 0)))
            && (InheritsCode(stmts, name) <==> InheritsCode(b, name) || (s.InheritStatement? && GivesCode(s.prog, name, 0)))
  {
    var n := |stmts| - 1;
    forall s ensures s in stmts <==> s in stmts[..n] || s == stmts[n] { assert stmts == stmts[..n] + [stmts[n]]; }
  }

  /** The inherit statements, in order. */
  function Parents(stmts: seq<Statement>): seq<Statement> {
    if stmts == [] then []
    else
      var n := |stmts| - 1;
      Parents(stmts[..n]) + if stmts[n].InheritStatement? then [stmts[n]] else []
  }

  predicate FromStatement(inh: Inherit, s: Statement) {
    s.InheritStatement? && inh.prog == s.prog && inh.isPrivate == s.isPrivate
  }

  /** The list of parents is that of the inherit statements, each with its program and its
    modifier, laid out one behind the other. */
  lemma {:induction false} InheritsAre(stmts: seq<Statement>)
    requires ParentsAreOk(stmts)
    ensures MatchParents(Compile(stmts).inherits, Parents(stmts)) && LaidOut(Compile(stmts).inherits)
    decreases |stmts|
  {
    if stmts != [] {
      var n := |stmts| - 1;
      LastIsOk(stmts);
      InheritsAre(stmts[..n]);
      StepInherits(Compile(stmts[..n]), stmts[n], Parents(stmts[..n]));
    }
  }

  ghost predicate MatchParents(inh: seq<Inherit>, parents: seq<Statement>) {
    |inh| == |parents| && forall k | 0 <= k < |inh| :: FromStatement(inh[k], parents[k])
  }

  lemma StepInherits(t: Tables, s: Statement, parents: seq<Statement>)
    requires Complete(t) && LaidOut(t.inherits) && (s.InheritStatement? ==> Ok(s.prog)) && MatchParents(t.inherits, parents)
    ensures MatchParents(Step(t, s).inherits, parents + if s.InheritStatement? then [s] else [])
  {
    match s
    case InheritStatement(prog, isPrivate) => assert Step(t, s) == Inheriting(t, prog, isPrivate);
    case FunctionStatement(f, kind, isPrivate) => DefineKeepsComplete(t, f, kind, isPrivate);
  }

  // ---------------------------------------------------------------------------
  // The events of a name
  // ---------------------------------------------------------------------------

  /** What copying the parent's functions from the `i`-th on means for a name. */
  function CopyEvents(p: Program, k: nat, name: Name, i: nat): seq<Event>
    requires Copyable(p)
    decreases Copied(p) - i
  {
    if i >= Copied(p) then []
    else (if NameAt(p, i) == name then [Copy(ParentCandidate(p, k, i))] else []) + CopyEvents(p, k, name, i + 1)
  }

  /** What a statement means for a name; a definition of a name that is `defined` is an error
    and means nothing. */
  function EventsOf(t: Tables, s: Statement, name: Name, defined: bool): seq<Event>
    requires NonEmpty(t) && (s.InheritStatement? ==> Copyable(s.prog))
  {
    match s
    case InheritStatement(prog, _) => CopyEvents(prog, |t.inherits|, name, 0)
    case FunctionStatement(n, kind, isPrivate) =>
      if n != name || (defined && kind != Prototype) then []
      else [Define(DefineNew(t, name, kind, isPrivate).u, kind, isPrivate)]
  }

  lemma CompleteIsNonEmpty(t: Tables)
    requires Complete(t)
    ensures NonEmpty(t)
  {
  }

  lemma LastIsOk(stmts: seq<Statement>)
    requires ParentsAreOk(stmts) && stmts != []
    ensures var n := |stmts| - 1;
            ParentsAreOk(stmts[..n]) && (stmts[n].InheritStatement? ==> Ok(stmts[n].prog) && Copyable(stmts[n].prog))
  {
    var n := |stmts| - 1;
    assert forall s <- stmts[..n] :: s in stmts;
    assert stmts[n] in stmts;
    if stmts[n].InheritStatement? { OkAliasesIn(stmts[n].prog); }
  }

  /** Everything that happens to a name, in order. */
  ghost function Events(stmts: seq<Statement>, name: Name): seq<Event>
    requires ParentsAreOk(stmts)
    decreases |stmts|
  {
    if stmts == [] then []
    else
      var n := |stmts| - 1;
      LastIsOk(stmts);
      CompleteIsNonEmpty(Compile(stmts[..n]));
      Events(stmts[..n], name) + EventsOf(Compile(stmts[..n]), stmts[n], name, Defines(stmts[..n], name))
  }

  predicate HasDefinition(events: seq<Event>) { exists e <- events :: IsDefinition(Candidate(e)) }

  predicate HasOwn(events: seq<Event>) { exists e <- events :: Candidate(e).Own? }

  predicate InheritedCode(d: Def) { d.Inh? && !d.alias && !d.noCode }

  predicate HasInheritedCode(events: seq<Event>) { exists e <- events :: InheritedCode(Candidate(e)) }

  lemma HasAppend(a: seq<Event>, b: seq<Event>)
    ensures HasDefinition(a + b) <==> HasDefinition(a) || HasDefinition(b)
    ensures HasOwn(a + b) <==> HasOwn(a) || HasOwn(b)
    ensures HasInheritedCode(a + b) <==> HasInheritedCode(a) || HasInheritedCode(b)
  {
    assert forall e :: e in a + b <==> e in a || e in b;
  }

  lemma {:induction false} CopyEventsSay(p: Program, k: nat, name: Name, i: nat)
    requires Copyable(p)
    ensures var es := CopyEvents(p, k, name, i);
            && (es != [] <==> Gives(p, name, i)) && (HasInheritedCode(es) <==> GivesCode(p, name, i))
            && !HasOwn(es) && !HasDefinition(es)
    decreases Copied(p) - i
  {
    if i < Copied(p) {
      CopyEventsSay(p, k, name, i + 1);
      var one := if NameAt(p, i) == name then [Copy(ParentCandidate(p, k, i))] else [];
      HasAppend(one, CopyEvents(p, k, name, i + 1));
      assert Gives(p, name, i) <==> NameAt(p, i) == name || Gives(p, name, i + 1);
      assert GivesCode(p, name, i) <==> CodeAt(p, name, i) || GivesCode(p, name, i + 1);
      OneEvent(one);
    }
  }

  lemma OneEvent(one: seq<Event>)
    requires |one| <= 1
    ensures HasInheritedCode(one) <==> one != [] && InheritedCode(Candidate(one[0]))
    ensures HasDefinition(one) <==> one != [] && IsDefinition(Candidate(one[0]))
    ensures HasOwn(one) <==> one != [] && Candidate(one[0]).Own?
  {
  }

  /** The events say of a name what the statements do. */
  ghost predicate Agree(stmts: seq<Statement>, name: Name, events: seq<Event>) {
    && (events != [] <==> Declares(stmts, name) || Inherits(stmts, name))
    && (HasDefinition(events) <==> Defines(stmts, name))
    && (HasOwn(events) <==> Declares(stmts, name))
    && (HasInheritedCode(events) <==> InheritsCode(stmts, name))
  }

  lemma {:induction false} EventsSay(stmts: seq<Statement>, name: Name)
    requires ParentsAreOk(stmts)
    ensures Agree(stmts, name, Events(stmts, name))
    decreases |stmts|
  {
    if stmts != [] {
      var n := |stmts| - 1;
      LastIsOk(stmts);
      EventsSay(stmts[..n], name);
      OneMore(stmts, name);
      CompleteIsNonEmpty(Compile(stmts[..n]));
      var more := EventsOf(Compile(stmts[..n]), stmts[n], name, Defines(stmts[..n], name));
      HasAppend(Events(stmts[..n], name), more);
      if stmts[n].InheritStatement? {
        CopyEventsSay(stmts[n].prog, |Compile(stmts[..n]).inherits|, name, 0);
      } else {
        OneEvent(more);
      }
    }
  }

  // ---------------------------------------------------------------------------
  // The choice is the winner of the whole history
  // ---------------------------------------------------------------------------

  /** One more event. */
  lemma ChainOfMore(events: seq<Event>, e: Event)
    requires IsRun(events) && Possible(ChainOf(events), e)
    ensures IsRun(events + [e]) && ChainOf(events + [e]) == Apply(ChainOf(events), e)
  {
    assert (events + [e])[..|events|] == events;
  }

  /** The events make the chain. */
  ghost predicate Makes(events: seq<Event>, chain: seq<Def>) { IsRun(events) && ChainOf(events) == chain }

  lemma Assoc(a: seq<Event>, b: seq<Event>, c: seq<Event>)
    ensures a + b + c == a + (b + c) && a + [] == a
  {
  }

  lemma {:induction false} CopyChain(t: Tables, p: Program, k: nat, i: nat, name: Name, events: seq<Event>)
    requires NonEmpty(t) && Copyable(p) && Makes(events, ChainAt(t, name))
    ensures Makes(events + CopyEvents(p, k, name, i), ChainAt(CopyFrom(t, p, k, i), name))
    decreases Copied(p) - i
  {
    if i >= Copied(p) {
      Assoc(events, [], []);
    } else {
      var d := ParentCandidate(p, k, i);
      var one := if NameAt(p, i) == name then [Copy(d)] else [];
      CopyOneChain(t, NameAt(p, i), d, name, events, one);
      CopyChain(CopyOne(t, NameAt(p, i), d), p, k, i + 1, name, events + one);
      Assoc(events, one, CopyEvents(p, k, name, i + 1));
    }
  }

  lemma CopyOneChain(t: Tables, n: Name, d: Def, name: Name, events: seq<Event>, one: seq<Event>)
    requires NonEmpty(t) && d.Inh? && Makes(events, ChainAt(t, name))
    requires one == if n == name then [Copy(d)] else []
    ensures NonEmpty(CopyOne(t, n, d)) && Makes(events + one, ChainAt(CopyOne(t, n, d), name))
  {
    if n == name { ChainOfMore(events, Copy(d)); } else { assert events + one == events; }
  }

  predicate NoAlias(t: Tables) { forall name <- t.chains :: t.chains[name] != [] && !IsAlias(t.chains[name][0]) }

  predicate ChoiceDefined(t: Tables, name: Name) {
    name in t.chains && t.chains[name] != [] && IsDefinition(t.chains[name][0])
  }

  lemma DefineChain(t: Tables, name: Name, kind: Kind, isPrivate: bool, other: Name, events: seq<Event>)
    requires NonEmpty(t) && NoAlias(t) && (kind == Undefined ==> name !in t.chains) && Makes(events, ChainAt(t, other))
    ensures Makes(events + EventsOf(t, FunctionStatement(name, kind, isPrivate), other, ChoiceDefined(t, other)),
                  ChainAt(DefineNew(t, name, kind, isPrivate).tables, other))
  {
    var more := EventsOf(t, FunctionStatement(name, kind, isPrivate), other, ChoiceDefined(t, other));
    if more == [] {
      assert events + more == events;
    } else {
      ChainOfMore(events, more[0]);
      assert more == [more[0]];
    }
  }

  /** The chain of a name is the one its history makes. */
  lemma {:induction false} ChainIsOfEvents(stmts: seq<Statement>, name: Name)
    requires Legal(stmts)
    ensures Makes(Events(stmts, name), ChainAt(Compile(stmts), name))
    decreases |stmts|, 0
  {
    if stmts != [] {
      var n := |stmts| - 1;
      var t := Compile(stmts[..n]);
      ChainIsOfEvents(stmts[..n], name);
      assert stmts[n] in stmts;
      match stmts[n]
      case InheritStatement(prog, isPrivate) =>
        BeginKeeps(t, prog, isPrivate);
        CopyChain(Begin(t, prog, isPrivate), prog, |t.inherits|, 0, name, Events(stmts[..n], name));
      case FunctionStatement(f, kind, isPrivate) =>
        CompleteIsNonEmpty(t);
        CompleteHasNoAlias(t);
        ChoiceSays(stmts[..n], name);
        DefineChain(t, f, kind, isPrivate, name, Events(stmts[..n], name));
    }
  }

  /** After any sequence of statements the choice for a name is the winner among all its
    candidates: of the highest rank, ties going to the later one. */
  lemma ChoiceWinsHistory(stmts: seq<Statement>, name: Name)
    requires Legal(stmts) && name in Compile(stmts).chains
    ensures Events(stmts, name) != [] && IsRun(Events(stmts, name))
    ensures Compile(stmts).chains[name] != []
    ensures Compile(stmts).chains[name][0] == Winner(Candidates(Events(stmts, name)))
    decreases |stmts|, 1
  {
    ChainIsOfEvents(stmts, name);
    CompleteIsNonEmpty(Compile(stmts));
    ChoiceIsWinner(Events(stmts, name));
  }

  /** A winner has the best that any candidate has. */
  lemma WinnerSays(events: seq<Event>)
    requires events != [] && !IsAlias(Winner(Candidates(events)))
    ensures var d := Winner(Candidates(events));
            && (IsDefinition(d) <==> HasDefinition(events))
            && (!d.noCode <==> HasDefinition(events) || HasInheritedCode(events))
            && (d.Own? <==> HasDefinition(events) || (HasOwn(events) && !HasInheritedCode(events)))
  {
    var j := WinnerIsMax(Candidates(events));
    var d := Candidate(events[j]);
    forall e | e in events ensures Rank(Candidate(e)) <= Rank(d) {
      var i :| 0 <= i < |events| && events[i] == e;
      assert Candidates(events)[i] == Candidate(e);
    }
  }

  /** What the choice for a name is, from the statements alone. */
  ghost predicate ChoiceIs(stmts: seq<Statement>, name: Name, d: Def) {
    && (IsDefinition(d) <==> Defines(stmts, name))
    && (!d.noCode <==> Defines(stmts, name) || InheritsCode(stmts, name))
    && (d.Own? <==> Defines(stmts, name) || (Declares(stmts, name) && !InheritsCode(stmts, name)))
  }

  /** There is a choice for every name that is declared or inherited.  It has code exactly if
    the name is defined or a function with code is inherited; it is an own function exactly if
    the name is defined, or declared and nothing with code is inherited. */
  lemma ChoiceSays(stmts: seq<Statement>, name: Name)
    requires Legal(stmts)
    ensures name in Compile(stmts).chains <==> Declares(stmts, name) || Inherits(stmts, name)
    ensures name in Compile(stmts).chains ==>
              Compile(stmts).chains[name] != [] && ChoiceIs(stmts, name, Compile(stmts).chains[name][0])
    ensures Defines(stmts, name) <==> ChoiceDefined(Compile(stmts), name)
    decreases |stmts|, 2
  {
    EventsSay(stmts, name);
    ChainIsOfEvents(stmts, name);
    CompleteHasNoAlias(Compile(stmts));
    if name in Compile(stmts).chains {
      ChoiceWinsHistory(stmts, name);
      WinnerSays(Events(stmts, name));
    }
  }

  // ---------------------------------------------------------------------------
  // Verdicts
  // ---------------------------------------------------------------------------

  /** A definition is refused exactly if the name is already defined by a statement; a
    prototype is ignored exactly if it is, or a function with code is inherited; nothing else
    goes wrong. */
  lemma VerdictIs(stmts: seq<Statement>, name: Name, kind: Kind, isPrivate: bool)
    requires Legal(stmts)
    ensures name in Compile(stmts).chains ==> Compile(stmts).chains[name] != []
    ensures var v := DefineNew(Compile(stmts), name, kind, isPrivate).verdict;
            v == if kind != Prototype then (if Defines(stmts, name) then Redeclared else Accepted)
                 else if Defines(stmts, name) || InheritsCode(stmts, name) then Ignored else Accepted
  {
    ChoiceSays(stmts, name);
    CompleteHasNoAlias(Compile(stmts));
    if InheritsCode(stmts, name) { CodeIsInherited(stmts, name); }
  }

  lemma CodeIsInherited(stmts: seq<Statement>, name: Name)
    requires InheritsCode(stmts, name)
    ensures Inherits(stmts, name)
  {
    var s :| s in stmts && s.InheritStatement? && GivesCode(s.prog, name, 0);
    var j :| 0 <= j < Copied(s.prog) && CodeAt(s.prog, name, j);
    assert Gives(s.prog, name, 0);
  }

  // ---------------------------------------------------------------------------
  // The flags of the program
  // ---------------------------------------------------------------------------

  /** The `j`-th statement is the last declaration of the name that no definition precedes. */
  predicate DecidedBy(stmts: seq<Statement>, name: Name, j: nat) {
    && j < |stmts| && IsOf(stmts[j], name) && !Defines(stmts[..j], name)
    && (forall l | j < l < |stmts| && IsOf(stmts[l], name) :: Defines(stmts[..l], name))
  }

  lemma DecidedMore(stmts: seq<Statement>, name: Name, j: nat)
    requires stmts != [] && DecidedBy(stmts[..|stmts| - 1], name, j)
    requires IsOf(stmts[|stmts| - 1], name) ==> Defines(stmts[..|stmts| - 1], name)
    ensures DecidedBy(stmts, name, j)
  {
    var n := |stmts| - 1;
    assert forall l | 0 <= l <= n :: stmts[..n][..l] == stmts[..l];
    forall l | j < l < |stmts| && IsOf(stmts[l], name) ensures Defines(stmts[..l], name) {
      if l < n { assert stmts[..n][l] == stmts[l]; }
    }
  }

  /** Copying does not make an own function the choice. */
  lemma CopyKeepsOwnChoice(t: Tables, p: Program, k: nat, name: Name)
    requires NonEmpty(t) && Copyable(p)
    ensures var c := ChainAt(CopyFrom(t, p, k, 0), name);
            c != [] && c[0].Own? ==> ChainAt(t, name) != [] && c[0] == ChainAt(t, name)[0]
  {
    var kept := (u: Tables, j: nat) =>
      ChainAt(u, name) != [] && ChainAt(u, name)[0].Own? ==> ChainAt(t, name) != [] && ChainAt(u, name)[0] == ChainAt(t, name)[0];
    CopyFromKept(kept, t, p, k, 0);
  }

  ghost predicate OwnChoice(t: Tables, name: Name, s: Statement) {
    && s.FunctionStatement? && ChainAt(t, name) != [] && ChainAt(t, name)[0].Own?
    && (ChainAt(t, name)[0].noCode <==> s.kind != Definition) && (ChainAt(t, name)[0].isPrivate <==> s.isPrivate)
  }

  /** An own function stays the choice. */
  ghost predicate SameOwn(t: Tables, u: Tables, name: Name) {
    ChainAt(u, name) != [] && ChainAt(u, name)[0].Own? ==> ChainAt(t, name) != [] && ChainAt(u, name)[0] == ChainAt(t, name)[0]
  }

  /** A statement leaves an own choice as it is, unless it is a declaration of the name that
    no definition precedes; then that is the choice. */
  lemma LastDecides(stmts: seq<Statement>, name: Name)
    requires Legal(stmts) && stmts != [] && ChainAt(Compile(stmts), name) != [] && ChainAt(Compile(stmts), name)[0].Own?
    ensures var n := |stmts| - 1;
            if IsOf(stmts[n], name) && !Defines(stmts[..n], name) then OwnChoice(Compile(stmts), name, stmts[n])
            else SameOwn(Compile(stmts[..n]), Compile(stmts), name)
  {
    var n := |stmts| - 1;
    var t := Compile(stmts[..n]);
    LastIsOk(stmts);
    match stmts[n]
    case InheritStatement(prog, isPrivate) =>
      BeginKeeps(t, prog, isPrivate);
      CopyKeepsOwnChoice(Begin(t, prog, isPrivate), prog, |t.inherits|, name);
    case FunctionStatement(f, kind, isPrivate) =>
      DeclarationDecides(stmts[..n], f, kind, isPrivate, name);
  }

  lemma DeclarationDecides(stmts: seq<Statement>, f: Name, kind: Kind, isPrivate: bool, name: Name)
    requires Legal(stmts) && Complete(Compile(stmts))
    ensures f in Compile(stmts).chains ==> Compile(stmts).chains[f] != []
    ensures var t := Compile(stmts); var u := DefineNew(t, f, kind, isPrivate).tables;
            if f == name && !Defines(stmts, name) then
              ChainAt(u, name) != [] && ChainAt(u, name)[0].Own? ==> OwnChoice(u, name, FunctionStatement(f, kind, isPrivate))
            else SameOwn(t, u, name)
  {
    VerdictIs(stmts, f, kind, isPrivate);
    ChoiceSays(stmts, name);
    DefineEnters(Compile(stmts), f, kind, isPrivate);
  }

  /** An own choice is what the deciding statement declares. */
  lemma {:induction false} OwnIsDecided(stmts: seq<Statement>, name: Name) returns (j: nat)
    requires Legal(stmts) && ChainAt(Compile(stmts), name) != [] && ChainAt(Compile(stmts), name)[0].Own?
    ensures DecidedBy(stmts, name, j) && OwnChoice(Compile(stmts), name, stmts[j])
    decreases |stmts|
  {
    var n := |stmts| - 1;
    assert stmts != [];
    LastDecides(stmts, name);
    if IsOf(stmts[n], name) && !Defines(stmts[..n], name) {
      j := n;
    } else {
      j := OwnIsDecided(stmts[..n], name);
      DecidedMore(stmts, name, j);
    }
  }

  /** The flags of the function that an index of the program leads to. */
  ghost predicate FlagsAre(stmts: seq<Statement>, name: Name, p: Program, f: nat) {
    && f < |p.flags| && p.flags[f].Entry? && NameAt(p, f) == name
    && (p.flags[f].noCode <==> !Defines(stmts, name) && !InheritsCode(stmts, name))
    && (p.flags[f].inherited <==> f < p.lastInherited)
    && (f < p.lastInherited <==> !Defines(stmts, name) && (Declares(stmts, name) ==> InheritsCode(stmts, name)))
    && (p.flags[f].isPrivate ==> f >= p.lastInherited)
    && (f >= p.lastInherited ==>
          exists j: nat | j < |stmts| :: DecidedBy(stmts, name, j) && (p.flags[f].isPrivate <==> stmts[j].isPrivate))
  }

  /** The flags in the compiled program, from the statements alone: an index leads, in at most
    one hop, to a function without code exactly if no statement defines the name and none
    inherits it with code; to an own function exactly if the name is defined, or declared and
    not inherited with code; and that is private exactly if the declaration that decides is. */
  lemma FlagsSay(stmts: seq<Statement>, order: seq<nat>, sorted: seq<nat>, n: nat, flags: seq<Entry>, p: Program, i: nat)
    requires Legal(stmts) && forall k | 0 <= k < |Compile(stmts).inherits| - 1 :: !Short(Compile(stmts).inherits[k].prog)
    requires IsCompiled(Compile(stmts), order, sorted, n, flags, p) && i < |p.flags|
    ensures FlagsAre(stmts, NameAt(p, i), p, if p.flags[i].Alias? then p.flags[i].to else i)
  {
    AnyProgramIsOk(stmts, order, sorted, n, flags, p);
    assert PointsToHead(Compile(stmts), sorted, p, i) && EntryOk(p, i);
    var f := if p.flags[i].Alias? then p.flags[i].to else i;
    assert EntryOk(p, f);
    var name := NameAt(p, i);
    ChoiceSays(stmts, name);
    var d := Compile(stmts).chains[name][0];
    assert HasFlagsOf(p.flags[f], d);
    if d.Own? {
      var j := OwnIsDecided(stmts, name);
      assert DecidedBy(stmts, name, j) && (p.flags[f].isPrivate <==> stmts[j].isPrivate);
    }
  }

  /** And every name that is declared or inherited has an index. */
  lemma EveryNameHasIndex(stmts: seq<Statement>, order: seq<nat>, sorted: seq<nat>, n: nat, flags: seq<Entry>, p: Program, name: Name)
    returns (i: nat)
    requires Legal(stmts) && forall k | 0 <= k < |Compile(stmts).inherits| - 1 :: !Short(Compile(stmts).inherits[k].prog)
    requires IsCompiled(Compile(stmts), order, sorted, n, flags, p)
    requires Declares(stmts, name) || Inherits(stmts, name)
    ensures i < |p.flags| && NameAt(p, i) == name && p.flags[i].Entry?
  {
    ContiguousIffNoneShort(Compile(stmts).inherits);
    ChoiceSays(stmts, name);
    HeadPlaced(Compile(stmts), order, sorted, n, flags, p, name);
    i := Final(Compile(stmts), sorted, Compile(stmts).chains[name][0]);
  }
}
