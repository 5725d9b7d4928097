/** Which of several functions of one name a program ends up with
  (overload_function and define_new_function in src/compiler/internal/compiler.cc). */
module Overloads {

  /** A candidate: the `index`-th function of the `parent`-th inherited program, or own
    function `u`.  An inherited alias entry is never the function itself. */
  datatype Def =
    | Inh(parent: nat, index: nat, alias: bool, noCode: bool)
    | Own(u: nat, noCode: bool, isPrivate: bool)

  predicate IsAlias(d: Def) { d.Inh? && d.alias }

  /** The documented order: inherited prototypes, own prototypes, inherited definitions,
    own definitions; aliases below all of them. */
  function Rank(d: Def): int {
    if IsAlias(d) then -1 else (if d.noCode then 0 else 2) + (if d.Own? then 1 else 0)
  }

  /** The decision of overload_function, on the flags of the present choice `cur` and of the
    inherited candidate `cand`. */
  predicate Replaces(cur: Def, cand: Def)
    requires cand.Inh?
  {
    if IsAlias(cur) then true
    else if cand.alias then false
    else if !cand.noCode then cur.noCode || cur.Inh?
    else cur.noCode && cur.Inh?
  }

  /** The chain of a name: the present choice first.  A loser goes second. */
  function Overload(chain: seq<Def>, d: Def): seq<Def>
    requires chain != [] && d.Inh?
  {
    if Replaces(chain[0], d) then [d] + chain else [chain[0], d] + chain[1..]
  }

  datatype Kind = Prototype | Undefined | Definition

  datatype Verdict = Redeclared | Inconsistent | Ignored | Accepted

  /** What define_new_function decides, given the present choice. */
  function Judge(cur: Def, kind: Kind): Verdict {
    if IsAlias(cur) then Inconsistent
    else if cur.Own? && !cur.noCode && kind != Prototype then Redeclared
    else if kind == Prototype && !cur.noCode then Ignored
    else Accepted
  }

  // ---------------------------------------------------------------------------
  // The outcome, whatever the order of events
  // ---------------------------------------------------------------------------

  /** The last of the highest-ranked candidates. */
  function Winner(history: seq<Def>): Def
    requires history != []
  {
    var n := |history| - 1;
    if n == 0 then history[0]
    else var w := Winner(history[..n]); if Rank(history[n]) >= Rank(w) then history[n] else w
  }

  /** None ranks above the `j`-th, and none after it as high. */
  predicate LastMax(history: seq<Def>, j: nat) {
    && j < |history|
    && (forall i | 0 <= i < j :: Rank(history[i]) <= Rank(history[j]))
    && (forall i | j < i < |history| :: Rank(history[i]) < Rank(history[j]))
  }

  lemma {:induction false} WinnerIsMax(history: seq<Def>) returns (j: nat)
    requires history != []
    ensures LastMax(history, j) && Winner(history) == history[j]
  {
    var n := |history| - 1;
    j := 0;
    if n > 0 {
      j := WinnerIsMax(history[..n]);
      if Rank(history[n]) >= Rank(history[j]) {
        NewMax(history, j);
        j := n;
      } else {
        assert forall i | 0 <= i < n :: history[..n][i] == history[i];
      }
    }
  }

  lemma NewMax(history: seq<Def>, j: nat)
    requires history != [] && LastMax(history[..|history| - 1], j)
    requires Rank(history[|history| - 1]) >= Rank(history[j])
    ensures LastMax(history, |history| - 1)
  {
    forall i | 0 <= i < |history| - 1 ensures Rank(history[i]) <= Rank(history[|history| - 1]) {
      assert history[..|history| - 1][i] == history[i];
    }
  }

  /** An event of the compilation that concerns the name. */
  datatype Event = Copy(d: Def) | Define(u: nat, kind: Kind, isPrivate: bool)

  function Candidate(e: Event): Def {
    match e
    case Copy(d) => d
    case Define(u, kind, isPrivate) => Own(u, kind != Definition, isPrivate)
  }

  predicate IsDefinition(d: Def) { d.Own? && !d.noCode }

  /** The event is one the rest of the compiler can produce: an inherited candidate, or a
    definition or prototype that is no error.  A name is only defined as merely called if it
    is new. */
  predicate Possible(chain: seq<Def>, e: Event) {
    match e
    case Copy(d) => d.Inh?
    case Define(_, kind, _) =>
      chain == [] || (!IsAlias(chain[0]) && kind != Undefined && (kind == Definition ==> !IsDefinition(chain[0])))
  }

  function Apply(chain: seq<Def>, e: Event): seq<Def>
    requires Possible(chain, e)
  {
    if chain == [] then [Candidate(e)]
    else match e
      case Copy(d) => Overload(chain, d)
      case Define(_, kind, _) => if kind == Prototype && !chain[0].noCode then chain else [Candidate(e)] + chain
  }

  predicate IsRun(events: seq<Event>)
    decreases |events|, 0
  {
    events == [] || (IsRun(events[..|events| - 1]) && Possible(ChainOf(events[..|events| - 1]), events[|events| - 1]))
  }

  /** The chain after a sequence of events. */
  function ChainOf(events: seq<Event>): seq<Def>
    requires IsRun(events)
    decreases |events|, 1
  {
    if events == [] then [] else Apply(ChainOf(events[..|events| - 1]), events[|events| - 1])
  }

  function Candidates(events: seq<Event>): (ds: seq<Def>)
    ensures |ds| == |events| && forall i | 0 <= i < |ds| :: ds[i] == Candidate(events[i])
  {
    seq(|events|, i requires 0 <= i < |events| => Candidate(events[i]))
  }

  /** After any sequence of inherited copies, prototypes and definitions, the present choice
    is the maximum of the documented order, ties going to the later one. */
  lemma {:induction false} ChoiceIsWinner(events: seq<Event>)
    requires IsRun(events) && events != []
    ensures ChainOf(events) != [] && ChainOf(events)[0] == Winner(Candidates(events))
  {
    var n := |events| - 1;
    var before := events[..n];
    assert Candidates(events)[..n] == Candidates(before);
    if n > 0 { ChoiceIsWinner(before); }
  }
}
