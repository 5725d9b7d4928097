/** Who snoops whom (new_set_snoop, query_snooping and remove_interactive in src/comm.cc,
  destruct_object in src/vm/internal/simulate.cc, exec() in
  src/packages/core/interactive.cc). */
module Snooping {
  import opened Wrappers

  type Obj = nat

  /** `users` are the interactive objects in the order of the list of users, `over` is
    snooped_by where it is not null, `snooping` the objects with O_SNOOP. */
  datatype State = State(users: seq<Obj>, over: map<Obj, Obj>, snooping: set<Obj>, destructed: set<Obj>)

  // ---------------------------------------------------------------------------
  // Chains of snoopers
  // ---------------------------------------------------------------------------

  type Rank = Obj -> nat

  /** Every snooper ranks below its victim. */
  ghost predicate Ranked(over: map<Obj, Obj>, rank: Rank) { forall x <- over :: rank(over[x]) < rank(x) }

  ghost predicate Acyclic(over: map<Obj, Obj>) { exists rank: Rank :: Ranked(over, rank) }

  /** The object reached after `n` snoopers. */
  function Steps(over: map<Obj, Obj>, x: Obj, n: nat): Option<Obj>
    decreases n
  {
    if n == 0 then Some(x) else if x in over then Steps(over, over[x], n - 1) else None
  }

  lemma {:induction false} StepsRank(over: map<Obj, Obj>, rank: Rank, x: Obj, n: nat)
    requires Ranked(over, rank) && Steps(over, x, n).Some?
    ensures rank(Steps(over, x, n).value) <= rank(x) - n
    decreases n
  {
    if n > 0 { StepsRank(over, rank, over[x], n - 1); }
  }

  /** Without a cycle nobody snoops himself, by however many others. */
  lemma AcyclicNoCycle(over: map<Obj, Obj>, x: Obj, n: nat)
    requires Acyclic(over) && n > 0
    ensures Steps(over, x, n) != Some(x)
  {
    var rank: Rank :| Ranked(over, rank);
    if Steps(over, x, n) == Some(x) { StepsRank(over, rank, x, n); }
  }

  /** `x` is `v`, or snooped by way of others by it. */
  ghost predicate Reaches(over: map<Obj, Obj>, x: Obj, v: Obj) { exists n: nat :: Steps(over, x, n) == Some(v) }

  lemma ReachesStep(over: map<Obj, Obj>, x: Obj, v: Obj)
    ensures Reaches(over, x, v) <==> x == v || (x in over && Reaches(over, over[x], v))
  {
    if Reaches(over, x, v) {
      var n: nat :| Steps(over, x, n) == Some(v);
      if n > 0 { assert Steps(over, over[x], n - 1) == Some(v); }
    }
    if x == v {
      assert Steps(over, x, 0) == Some(v);
    } else if x in over && Reaches(over, over[x], v) {
      var n: nat :| Steps(over, over[x], n) == Some(v);
      assert Steps(over, x, n + 1) == Some(v);
    }
  }

  /** A new snooper keeps the graph acyclic exactly if the victim is not above it. */
  lemma LinkAcyclicIff(m: map<Obj, Obj>, victim: Obj, who: Obj)
    requires Acyclic(m) && victim !in m
    ensures Acyclic(m[victim := who]) <==> !Reaches(m, who, victim)
  {
    if Reaches(m, who, victim) {
      var n: nat :| Steps(m, who, n) == Some(victim);
      StepsExtend(m, victim, who, who, n);
      assert Steps(m[victim := who], victim, n + 1) == Some(victim);
      if Acyclic(m[victim := who]) { AcyclicNoCycle(m[victim := who], victim, n + 1); }
    } else {
      var rank: Rank :| Ranked(m, rank);
      var up: Rank := x => rank(x) + if Reaches(m, x, victim) then rank(who) + 1 else 0;
      var next := m[victim := who];
      forall x {:trigger next[x]} | x in next ensures up(next[x]) < up(x) {
        ReachesStep(m, x, victim);
      }
      assert Ranked(next, up);
    }
  }

  lemma {:induction false} StepsExtend(m: map<Obj, Obj>, victim: Obj, who: Obj, x: Obj, n: nat)
    requires victim !in m && Steps(m, x, n).Some?
    ensures Steps(m[victim := who], x, n) == Steps(m, x, n)
    decreases n
  {
    if n > 0 { StepsExtend(m, victim, who, m[x], n - 1); }
  }

  lemma FewerAcyclic(m: map<Obj, Obj>, s: set<Obj>)
    requires Acyclic(m)
    ensures Acyclic(m - s)
  {
    var rank: Rank :| Ranked(m, rank);
    assert Ranked(m - s, rank);
  }

  // ---------------------------------------------------------------------------
  // Operations
  // ---------------------------------------------------------------------------

  function Victims(over: map<Obj, Obj>, ob: Obj): set<Obj> { set x <- over | over[x] == ob }

  /** Stop snooping: the flag is tested first. */
  function Stopped(s: State, ob: Obj): State {
    if ob in s.snooping then s.(over := s.over - Victims(s.over, ob), snooping := s.snooping - {ob}) else s
  }

  /** The snooper of `victim`, if any, loses its flag. */
  function Unflagged(s: State, victim: Obj): State {
    if victim in s.over then s.(snooping := s.snooping - {s.over[victim]}) else s
  }

  datatype Outcome = Refused | Done | NotInteractive

  ghost function SetSnoop(s: State, who: Obj, victim: Option<Obj>): (Outcome, State) {
    if who in s.destructed || (victim.Some? && victim.value in s.destructed) then (Refused, s)
    else if victim.None? then (Done, Stopped(s, who))
    else if victim.value !in s.users then (NotInteractive, s)
    else if Reaches(s.over, who, victim.value) then (Refused, s)
    else
      var t := Unflagged(Stopped(s, who), victim.value);
      (Done, t.(snooping := t.snooping + {who}, over := t.over[victim.value := who]))
  }

  function Without(users: seq<Obj>, ob: Obj): seq<Obj> {
    if users == [] then [] else if users[0] == ob then users[1..] else [users[0]] + Without(users[1..], ob)
  }

  /** remove_interactive */
  function Left(s: State, ob: Obj): State {
    if ob in s.users then
      var t := Unflagged(s, ob);
      t.(users := Without(s.users, ob), over := t.over - {ob})
    else s
  }

  /** destruct_object */
  function Destructed(s: State, ob: Obj): State {
    var t := Left(Stopped(s, ob), ob);
    t.(destructed := t.destructed + {ob})
  }

  function Replace(users: seq<Obj>, ob: Obj, from: Obj): seq<Obj> {
    if users == [] then [] else if users[0] == from then [ob] + users[1..] else [users[0]] + Replace(users[1..], ob, from)
  }

  /** exec(): the connection of `from`, with its snooped_by, becomes that of `ob`. */
  function Execed(s: State, ob: Obj, from: Obj): State {
    if ob in s.users || from !in s.users then s
    else s.(users := Replace(s.users, ob, from), over := if from in s.over then (s.over - {from})[ob := s.over[from]] else s.over)
  }

  datatype Op =
    | Connect(ob: Obj)
    | Snoop(ob: Obj, victim: Option<Obj>)
    | Leave(ob: Obj)
    | Destruct(ob: Obj)
    | Exec(ob: Obj, from: Obj)

  ghost function Do(s: State, op: Op): State {
    match op
    case Connect(ob) => if ob in s.users then s else s.(users := s.users + [ob])
    case Snoop(who, victim) => SetSnoop(s, who, victim).1
    case Leave(ob) => Left(s, ob)
    case Destruct(ob) => Destructed(s, ob)
    case Exec(ob, from) => Execed(s, ob, from)
  }

  // ---------------------------------------------------------------------------
  // What is kept
  // ---------------------------------------------------------------------------

  /** Only users are snooped, a snooper has one victim, and O_SNOOP is set iff it has. */
  ghost predicate Consistent(s: State) {
    && NoDuplicates(s.users)
    && (forall x <- s.over :: x in s.users)
    && (forall x, y | x in s.over && y in s.over && s.over[x] == s.over[y] :: x == y)
    && (forall ob :: ob in s.snooping <==> HasVictim(s.over, ob))
  }

  predicate HasVictim(over: map<Obj, Obj>, ob: Obj) { exists x <- over :: over[x] == ob }

  predicate NoDuplicates(users: seq<Obj>) { forall i, j | 0 <= i < j < |users| :: users[i] != users[j] }

  lemma ConsDistinct(x: Obj, users: seq<Obj>)
    ensures NoDuplicates(users) && x !in users ==> NoDuplicates([x] + users)
  {
  }

  lemma {:induction false} WithoutUsers(users: seq<Obj>, ob: Obj)
    requires NoDuplicates(users)
    ensures forall x :: x in Without(users, ob) <==> x in users && x != ob
    ensures NoDuplicates(Without(users, ob))
  {
    if users != [] {
      WithoutUsers(users[1..], ob);
      ConsDistinct(users[0], Without(users[1..], ob));
    }
  }

  lemma {:induction false} ReplaceUsers(users: seq<Obj>, ob: Obj, from: Obj)
    requires NoDuplicates(users)
    requires ob !in users
    ensures forall x :: x in Replace(users, ob, from) <==> (x in users && x != from) || (x == ob && from in users)
    ensures NoDuplicates(Replace(users, ob, from))
  {
    if users != [] {
      ReplaceUsers(users[1..], ob, from);
      ConsDistinct(ob, users[1..]);
      ConsDistinct(users[0], Replace(users[1..], ob, from));
    }
  }

  lemma StopKeeps(s: State, ob: Obj)
    requires Consistent(s)
    ensures Consistent(Stopped(s, ob)) && ob !in Stopped(s, ob).snooping
  {
    var t := Stopped(s, ob);
    forall x ensures x in t.snooping <==> HasVictim(t.over, x) {
      if HasVictim(s.over, x) {
        var v :| v in s.over && s.over[v] == x;
        if x != ob { assert t.over[v] == x; }
      }
    }
  }

  lemma LeaveKeeps(s: State, ob: Obj)
    requires Consistent(s)
    ensures Consistent(Left(s, ob))
  {
    var t := Left(s, ob);
    WithoutUsers(s.users, ob);
    forall x ensures x in t.snooping <==> HasVictim(t.over, x) {
      if HasVictim(s.over, x) {
        var v :| v in s.over && s.over[v] == x;
        if v != ob { assert v in t.over && t.over[v] == x; }
      }
    }
  }

  lemma SnoopKeeps(s: State, who: Obj, victim: Obj)
    requires Consistent(s) && who !in s.snooping && victim in s.users
    ensures var t := Unflagged(s, victim);
            Consistent(t.(snooping := t.snooping + {who}, over := t.over[victim := who]))
  {
    var t := Unflagged(s, victim);
    var u := t.(snooping := t.snooping + {who}, over := t.over[victim := who]);
    assert !HasVictim(s.over, who);
    forall x ensures x in u.snooping <==> HasVictim(u.over, x) {
      if HasVictim(s.over, x) {
        var v :| v in s.over && s.over[v] == x;
        if v != victim { assert u.over[v] == x; }
      }
      assert u.over[victim] == who;
    }
  }

  lemma ExecKeeps(s: State, ob: Obj, from: Obj)
    requires Consistent(s)
    ensures Consistent(Execed(s, ob, from))
  {
    if ob !in s.users && from in s.users {
      var t := Execed(s, ob, from);
      ReplaceUsers(s.users, ob, from);
      forall x ensures x in t.snooping <==> HasVictim(t.over, x) {
        if HasVictim(s.over, x) {
          var v :| v in s.over && s.over[v] == x;
          assert t.over[if v == from then ob else v] == x;
        }
        if HasVictim(t.over, x) {
          var v :| v in t.over && t.over[v] == x;
          assert s.over[if v == ob then from else v] == x;
        }
      }
    }
  }

  /** Every operation, exec() included, keeps O_SNOOP and the victims consistent. */
  lemma StepKeeps(s: State, op: Op)
    requires Consistent(s)
    ensures Consistent(Do(s, op))
  {
    match op
    case Connect(ob) =>
    case Snoop(who, victim) =>
      StopKeeps(s, who);
      if victim.Some? && SetSnoop(s, who, victim).0 == Done { SnoopKeeps(Stopped(s, who), who, victim.value); }
    case Leave(ob) => LeaveKeeps(s, ob);
    case Destruct(ob) =>
      StopKeeps(s, ob);
      LeaveKeeps(Stopped(s, ob), ob);
    case Exec(ob, from) => ExecKeeps(s, ob, from);
  }

  // ---------------------------------------------------------------------------
  // What each operation changes
  // ---------------------------------------------------------------------------

  predicate LinkTo(over: map<Obj, Obj>, x: Obj, ob: Obj) { x in over && over[x] == ob }

  /** `who` snoops nobody, and nothing else is different. */
  ghost predicate Stops(s: State, t: State, who: Obj) {
    && t.users == s.users && t.destructed == s.destructed
    && t.over == s.over - (set x <- s.over | LinkTo(s.over, x, who))
    && (forall ob :: ob in t.snooping <==> ob in s.snooping && ob != who)
  }

  /** `who` snoops `victim` and nobody else, the former snooper of `victim` nobody, and nothing
    else is different. */
  ghost predicate Snoops(s: State, t: State, who: Obj, victim: Obj) {
    && t.users == s.users && t.destructed == s.destructed
    && t.over == (s.over - set x <- s.over | LinkTo(s.over, x, who))[victim := who] && who in t.snooping
    && (forall ob | ob != who :: ob in t.snooping <==> ob in s.snooping && !LinkTo(s.over, victim, ob))
  }

  /** The list without its one entry `ob`. */
  ghost predicate OneGone(users: seq<Obj>, ob: Obj, rest: seq<Obj>) {
    exists i | 0 <= i < |users| :: users[i] == ob && rest == users[..i] + users[i + 1..]
  }

  /** `ob` is no user and not snooped, its snooper snoops nobody, and nothing else is
    different. */
  ghost predicate Leaves(s: State, t: State, ob: Obj) {
    && t.destructed == s.destructed && OneGone(s.users, ob, t.users) && ob !in t.users
    && t.over == s.over - {ob}
    && (forall x :: x in t.snooping <==> x in s.snooping && !LinkTo(s.over, ob, x))
  }

  ghost predicate LeavesIfUser(s: State, t: State, ob: Obj) { if ob in s.users then Leaves(s, t, ob) else t == s }

  lemma StopStops(s: State, who: Obj)
    requires Consistent(s)
    ensures Stops(s, Stopped(s, who), who)
  {
    if who !in s.snooping { assert !HasVictim(s.over, who); }
  }

  lemma SnoopSnoops(s: State, who: Obj, victim: Obj)
    requires Consistent(s)
    ensures var t := Unflagged(Stopped(s, who), victim);
            Snoops(s, t.(snooping := t.snooping + {who}, over := t.over[victim := who]), who, victim)
  {
    StopStops(s, who);
  }

  lemma {:induction false} WithoutIs(users: seq<Obj>, ob: Obj) returns (i: nat)
    requires ob in users
    ensures i < |users| && users[i] == ob && Without(users, ob) == users[..i] + users[i + 1..]
  {
    if users[0] == ob {
      i := 0;
    } else {
      i := WithoutIs(users[1..], ob);
      i := i + 1;
    }
  }

  lemma LeftLeaves(s: State, ob: Obj)
    requires Consistent(s)
    ensures LeavesIfUser(s, Left(s, ob), ob)
  {
    if ob in s.users { UserGone(s.users, ob); }
  }

  lemma UserGone(users: seq<Obj>, ob: Obj)
    requires NoDuplicates(users) && ob in users
    ensures OneGone(users, ob, Without(users, ob)) && ob !in Without(users, ob)
  {
    WithoutUsers(users, ob);
    var i := WithoutIs(users, ob);
  }

  /** A destructed object is no user, snoops nobody and is not snooped; who snooped it snoops
    nobody; all other links are kept. */
  lemma DestructedLeavesNoTrace(s: State, ob: Obj)
    requires Consistent(s)
    ensures NoTrace(s, Destructed(s, ob), ob)
  {
    var u := Stopped(s, ob);
    StopStops(s, ob);
    StopKeeps(s, ob);
    LeftLeaves(u, ob);
    NoTraceLeft(s, u, Left(u, ob), ob);
  }

  ghost predicate NoTrace(s: State, t: State, ob: Obj) {
    && t.destructed == s.destructed + {ob} && ob !in t.users && ob !in t.snooping
    && (if ob in s.users then OneGone(s.users, ob, t.users) else t.users == s.users)
    && t.over == s.over - {ob} - (set x <- s.over | LinkTo(s.over, x, ob))
    && (forall x :: x in t.snooping <==> x in s.snooping && x != ob && !LinkTo(s.over, ob, x))
  }

  lemma NoTraceLeft(s: State, u: State, t: State, ob: Obj)
    requires Stops(s, u, ob) && LeavesIfUser(u, t, ob) && (ob in s.over ==> ob in s.users)
    ensures NoTrace(s, t.(destructed := t.destructed + {ob}), ob)
  {
    LinksMinus(s.over, (set x <- s.over | LinkTo(s.over, x, ob)), ob);
    assert ob !in u.snooping;
    if ob in s.users { assert ob !in t.snooping; }
  }

  lemma LinksMinus(m: map<Obj, Obj>, gone: set<Obj>, ob: Obj)
    ensures m - gone - {ob} == m - {ob} - gone
    ensures ob !in m ==> m - gone == m - {ob} - gone
  {
    assert (m - gone - {ob}).Keys == (m - {ob} - gone).Keys;
    if ob !in m { assert m - {ob} == m; }
  }

  lemma {:induction false} ReplaceIs(users: seq<Obj>, ob: Obj, from: Obj) returns (i: nat)
    requires from in users
    ensures i < |users| && users[i] == from && Replace(users, ob, from) == users[i := ob]
  {
    if users[0] == from {
      i := 0;
    } else {
      i := ReplaceIs(users[1..], ob, from);
      i := i + 1;
    }
  }

  /** exec() puts the object in the place of the other, and under its snooper; the snooping
    they do themselves stays with them. */
  lemma ExecTakesOver(s: State, ob: Obj, from: Obj) returns (i: nat)
    requires Consistent(s)
    ensures ob in s.users || from !in s.users ==> Execed(s, ob, from) == s
    ensures ob !in s.users && from in s.users ==>
              var t := Execed(s, ob, from);
              && i < |s.users| && s.users[i] == from && t.users == s.users[i := ob]
              && (forall x :: LinkTo(t.over, ob, x) <==> LinkTo(s.over, from, x))
              && t.over - {ob} == s.over - {from}
              && t.snooping == s.snooping && t.destructed == s.destructed
  {
    i := 0;
    if ob !in s.users && from in s.users { i := ReplaceIs(s.users, ob, from); }
  }

  // ---------------------------------------------------------------------------
  // No cycles
  // ---------------------------------------------------------------------------

  lemma {:induction false} ReachesFewer(m: map<Obj, Obj>, s: set<Obj>, x: Obj, v: Obj, n: nat)
    requires Steps(m - s, x, n) == Some(v)
    ensures Reaches(m, x, v)
    decreases n
  {
    ReachesStep(m, x, v);
    if n > 0 { ReachesFewer(m, s, (m - s)[x], v, n - 1); }
  }

  /** Snooping, leaving and destructing never make a cycle. */
  lemma StepAcyclic(s: State, op: Op)
    requires Acyclic(s.over) && !op.Exec?
    ensures Acyclic(Do(s, op).over)
  {
    match op
    case Connect(ob) =>
    case Snoop(who, victim) =>
      FewerAcyclic(s.over, Victims(s.over, who));
      if victim.Some? && SetSnoop(s, who, victim).0 == Done {
        SnoopAcyclic(s, Stopped(s, who).over, who, victim.value);
      }
    case Leave(ob) => FewerAcyclic(s.over, {ob});
    case Destruct(ob) =>
      FewerAcyclic(s.over, Victims(s.over, ob));
      FewerAcyclic(Stopped(s, ob).over, {ob});
  }

  lemma SnoopAcyclic(s: State, m: map<Obj, Obj>, who: Obj, victim: Obj)
    requires m == Stopped(s, who).over && Acyclic(m) && !Reaches(s.over, who, victim)
    ensures Acyclic(m[victim := who])
  {
    var gone := Victims(s.over, who) + {victim};
    var k := m - {victim};
    FewerAcyclic(m, {victim});
    if Reaches(k, who, victim) {
      var n: nat :| Steps(k, who, n) == Some(victim);
      assert k == if who in s.snooping then s.over - gone else s.over - {victim};
      ReachesFewer(s.over, if who in s.snooping then gone else {victim}, who, victim, n);
    }
    LinkAcyclicIff(k, victim, who);
    assert k[victim := who] == m[victim := who];
  }

  /** exec() keeps the graph acyclic exactly if the object that takes over the connection is
    not at the top of the chain of its snoopers. */
  lemma ExecAcyclicIff(s: State, ob: Obj, from: Obj)
    requires Consistent(s) && Acyclic(s.over) && ob !in s.users && from in s.users
    ensures Acyclic(Execed(s, ob, from).over) <==> !(from in s.over && Reaches(s.over, s.over[from], ob))
  {
    if from in s.over {
      var m := s.over - {from};
      var top := s.over[from];
      FewerAcyclic(s.over, {from});
      LinkAcyclicIff(m, ob, top);
      if Reaches(m, top, ob) {
        var n: nat :| Steps(m, top, n) == Some(ob);
        ReachesFewer(s.over, {from}, top, ob, n);
      }
      if Reaches(s.over, top, ob) {
        var n: nat :| Steps(s.over, top, n) == Some(ob);
        AvoidsFrom(s.over, from, top, ob, n, 1);
      }
    }
  }

  /** The chain above `from` does not come back to it. */
  lemma {:induction false} AvoidsFrom(over: map<Obj, Obj>, from: Obj, x: Obj, ob: Obj, n: nat, k: nat)
    requires Acyclic(over) && Steps(over, x, n) == Some(ob) && k > 0 && Steps(over, from, k) == Some(x)
    ensures Reaches(over - {from}, x, ob)
    decreases n
  {
    AcyclicNoCycle(over, from, k);
    ReachesStep(over - {from}, x, ob);
    if n > 0 {
      StepsAppend(over, from, k);
      AvoidsFrom(over, from, over[x], ob, n - 1, k + 1);
    }
  }

  lemma {:induction false} StepsAppend(over: map<Obj, Obj>, x: Obj, k: nat)
    requires Steps(over, x, k).Some? && Steps(over, x, k).value in over
    ensures Steps(over, x, k + 1) == Some(over[Steps(over, x, k).value])
    decreases k
  {
    if k > 0 { StepsAppend(over, over[x], k - 1); }
  }

  // ---------------------------------------------------------------------------
  // Runs
  // ---------------------------------------------------------------------------

  ghost function After(s: State, ops: seq<Op>): State
    decreases |ops|
  {
    if ops == [] then s else Do(After(s, ops[..|ops| - 1]), ops[|ops| - 1])
  }

  /** exec() does not put an object under its own snooping. */
  ghost predicate Safe(s: State, op: Op) {
    op.Exec? && op.ob !in s.users && op.from in s.over ==> !Reaches(s.over, s.over[op.from], op.ob)
  }

  ghost predicate AllSafe(s: State, ops: seq<Op>)
    decreases |ops|
  {
    ops != [] ==> AllSafe(s, ops[..|ops| - 1]) && Safe(After(s, ops[..|ops| - 1]), ops[|ops| - 1])
  }

  const START := State([], map[], {}, {})

  lemma {:induction false} RunKeeps(ops: seq<Op>)
    ensures Consistent(After(START, ops))
    ensures AllSafe(START, ops) ==> Acyclic(After(START, ops).over)
    decreases |ops|
  {
    if ops == [] {
      assert Ranked(START.over, (x: Obj) => 0);
    } else {
      var before, op := ops[..|ops| - 1], ops[|ops| - 1];
      var s := After(START, before);
      RunKeeps(before);
      StepKeeps(s, op);
      if AllSafe(START, ops) {
        if op.Exec? {
          if op.ob !in s.users && op.from in s.users { ExecAcyclicIff(s, op.ob, op.from); }
        } else {
          StepAcyclic(s, op);
        }
      }
    }
  }

  /** The failing case: 1, not interactive, snoops 2 and takes over its connection.  Then 1
    snoops itself, and the walk against loops goes round from 1 for ever. */
  lemma ExecMakesLoop(n: nat)
    ensures var s := After(START, [Connect(2), Snoop(1, Some(2)), Exec(1, 2)]);
            Steps(s.over, 1, n) == Some(1)
  {
    var ops := [Connect(2), Snoop(1, Some(2)), Exec(1, 2)];
    var a := After(START, [Connect(2)]);
    assert ops[..2] == [Connect(2), Snoop(1, Some(2))] && ops[..2][..1] == [Connect(2)] && [Connect(2)][..0] == [];
    assert a == State([2], map[], {}, {});
    ReachesStep(a.over, 1, 2);
    var b := After(START, ops[..2]);
    assert b.over == map[2 := 1] && b.users == [2];
    assert After(START, ops).over == map[1 := 1];
    LoopForEver(n);
  }

  lemma {:induction false} LoopForEver(n: nat)
    ensures Steps(map[1 := 1], 1, n) == Some(1)
  {
    if n > 0 { LoopForEver(n - 1); }
  }

  // ---------------------------------------------------------------------------
  // The functions of comm.cc
  // ---------------------------------------------------------------------------

  class Server {
    var users: seq<Obj>
    var snoopedBy: map<Obj, Obj>
    var snooping: set<Obj>      // O_SNOOP
    var destructed: set<Obj>    // O_DESTRUCTED

    function Abs(): State reads this { State(users, snoopedBy, snooping, destructed) }

    constructor ()
      ensures Abs() == START
    {
      users, snoopedBy, snooping, destructed := [], map[], {}, {};
    }

    /** The walk against snooping loops; acyclicity is what makes it end. */
    method WouldLoop(who: Obj, victim: Obj) returns (loop: bool)
      requires Acyclic(snoopedBy)
      ensures loop <==> Reaches(snoopedBy, who, victim)
    {
      ghost var rank: Rank :| Ranked(snoopedBy, rank);
      var tmp := Some(who);
      while tmp.Some?
        invariant Reaches(snoopedBy, who, victim) <==> tmp.Some? && Reaches(snoopedBy, tmp.value, victim)
        decreases if tmp.Some? then rank(tmp.value) + 1 else 0
      {
        ReachesStep(snoopedBy, tmp.value, victim);
        if tmp.value == victim {
          return true;
        }
        tmp := if tmp.value in snoopedBy then Some(snoopedBy[tmp.value]) else None;
      }
      loop := false;
    }

    /** "Stop snoop", as in destruct_object; the loop of users_foreach. */
    method StopSnoop(who: Obj)
      requires Consistent(Abs())
      modifies this`snoopedBy, this`snooping
      ensures Abs() == Stopped(old(Abs()), who) && Stops(old(Abs()), Abs(), who)
    {
      StopStops(Abs(), who);
      if who in snooping {
        ClearVictims(who);
        snooping := snooping - {who};
      }
    }

    method ClearVictims(who: Obj)
      requires Consistent(Abs())
      modifies this`snoopedBy
      ensures snoopedBy == old(snoopedBy) - Victims(old(snoopedBy), who)
    {
      ghost var was := snoopedBy;
      for i := 0 to |users|
        invariant forall x :: x in snoopedBy <==> x in was && (was[x] == who ==> x !in users[..i])
        invariant forall x <- snoopedBy :: snoopedBy[x] == was[x]
      {
        assert users[..i + 1] == users[..i] + [users[i]];
        if users[i] in snoopedBy && snoopedBy[users[i]] == who {
          snoopedBy := snoopedBy - {users[i]};
        }
      }
      assert users[..|users|] == users;
    }

    /** new_set_snoop */
    method NewSetSnoop(who: Obj, victim: Option<Obj>) returns (outcome: Outcome)
      requires Consistent(Abs()) && Acyclic(snoopedBy)
      modifies this`snoopedBy, this`snooping
      ensures (outcome, Abs()) == SetSnoop(old(Abs()), who, victim)
      ensures Consistent(Abs()) && Acyclic(snoopedBy)
      ensures outcome == Done <==>
                && who !in destructed && (victim.Some? ==> victim.value !in destructed)
                && (victim.Some? ==> victim.value in users && !Reaches(old(snoopedBy), who, victim.value))
      ensures outcome == NotInteractive <==>
                who !in destructed && victim.Some? && victim.value !in destructed && victim.value !in users
      ensures if outcome != Done then Abs() == old(Abs())
              else if victim.None? then Stops(old(Abs()), Abs(), who)
              else Snoops(old(Abs()), Abs(), who, victim.value)
    {
      StopStops(Abs(), who);
      if victim.Some? { SnoopSnoops(Abs(), who, victim.value); }
      StepKeeps(Abs(), Snoop(who, victim));
      StepAcyclic(Abs(), Snoop(who, victim));
      if who in destructed || (victim.Some? && victim.value in destructed) {
        return Refused;
      }
      if victim == None {
        StopSnoop(who);
        return Done;
      }
      if victim.value !in users {
        return NotInteractive;
      }
      var loop := WouldLoop(who, victim.value);
      if loop {
        return Refused;
      }
      StopSnoop(who);
      if victim.value in snoopedBy {
        snooping := snooping - {snoopedBy[victim.value]};
      }
      snooping := snooping + {who};
      snoopedBy := snoopedBy[victim.value := who];
      outcome := Done;
    }

    /** query_snooping always finds the victim. */
    method QuerySnooping(ob: Obj) returns (victim: Option<Obj>)
      requires Consistent(Abs())
      ensures victim.Some? <==> ob in snooping
      ensures victim.Some? ==> victim.value in snoopedBy && snoopedBy[victim.value] == ob
      ensures ob in snooping <==> HasVictim(snoopedBy, ob)
    {
      if ob !in snooping {
        return None;
      }
      for i := 0 to |users|
        invariant forall j | 0 <= j < i :: users[j] in snoopedBy ==> snoopedBy[users[j]] != ob
      {
        if users[i] in snoopedBy && snoopedBy[users[i]] == ob {
          return Some(users[i]);
        }
      }
      assert false;
    }

    /** The snoop part of remove_interactive. */
    method RemoveInteractive(ob: Obj)
      requires Consistent(Abs()) && Acyclic(snoopedBy)
      modifies this`snoopedBy, this`snooping, this`users
      ensures Abs() == Left(old(Abs()), ob) && Consistent(Abs()) && Acyclic(snoopedBy)
      ensures LeavesIfUser(old(Abs()), Abs(), ob)
    {
      LeftLeaves(Abs(), ob);
      LeaveKeeps(Abs(), ob);
      FewerAcyclic(snoopedBy, {ob});
      if ob in users {
        Disconnect(ob);
      }
    }

    method Disconnect(ob: Obj)
      requires ob in users
      modifies this`snoopedBy, this`snooping, this`users
      ensures Abs() == Left(old(Abs()), ob)
    {
      if ob in snoopedBy {
        snooping := snooping - {snoopedBy[ob]};
        snoopedBy := snoopedBy - {ob};
      } else {
        assert snoopedBy - {ob} == snoopedBy;
      }
      users := Without(users, ob);
    }
  }
}
