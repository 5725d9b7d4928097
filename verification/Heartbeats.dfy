/** The heartbeat queues of one thread (src/base/internal/heartbeat_thread.cc).  Objects
  register through modify_heartbeat, as set_heart_beat does. */
module Heartbeats {

  type Obj = nat

  datatype Ref = Null | To(ob: Obj)

  /** `time` and `ticks` are 16-bit: time_to_heart_beat and heart_beat_ticks. */
  datatype Entry = Entry(ob: Ref, time: int, ticks: int)

  /** Conversion to a 16-bit integer. */
  function Short(x: int): int { (x + 0x8000) % 0x1_0000 - 0x8000 }

  datatype State = State(active: seq<Entry>, waiting: seq<Entry>)

  /** What the loop sees of an object when it comes to it: whether it is still to have
    heartbeats (the flag is set and the object not destructed), whether its program has the
    function, and whether the gate is open. */
  datatype Seen = Seen(on: bool, defined: bool, gate: bool)
  type View = Obj -> Seen

  // ---------------------------------------------------------------------------
  // Operations
  // ---------------------------------------------------------------------------

  /** The first entry of an object, or the length. */
  function IndexOf(q: seq<Entry>, ob: Obj): (i: nat)
    ensures i <= |q| && (i < |q| ==> q[i].ob == To(ob)) && forall j | 0 <= j < i :: q[j].ob != To(ob)
  {
    if q == [] || q[0].ob == To(ob) then 0 else 1 + IndexOf(q[1..], ob)
  }

  predicate Listed(q: seq<Entry>, ob: Obj) { IndexOf(q, ob) < |q| }

  function Set(q: seq<Entry>, ob: Obj, t: int): seq<Entry> {
    var i := IndexOf(q, ob);
    if i < |q| then q[i := q[i].(time := t, ticks := t)] else q
  }

  /** modify_heartbeat */
  function Modified(s: State, ob: Obj, interval: int): State {
    var t := Short(interval);
    if Listed(s.active, ob) then s.(active := Set(s.active, ob, t))
    else if Listed(s.waiting, ob) then s.(waiting := Set(s.waiting, ob, t))
    else s.(waiting := s.waiting + [Entry(To(ob), t, t)])
  }

  function Cleared(q: seq<Entry>, ob: Obj): (r: seq<Entry>)
    ensures |r| == |q| && forall i | 0 <= i < |q| :: r[i] == if q[i].ob == To(ob) then q[i].(ob := Null) else q[i]
  {
    seq(|q|, i requires 0 <= i < |q| => if q[i].ob == To(ob) then q[i].(ob := Null) else q[i])
  }

  /** remove_heartbeat */
  function Removed(s: State, ob: Obj): State {
    State(Cleared(s.active, ob), Cleared(s.waiting, ob))
  }

  predicate Kept(e: Entry, see: View) { e.ob.To? && see(e.ob.ob).on }

  /** Whether the count of an entry runs out now. */
  predicate Due(e: Entry) { Short(e.ticks - 1) <= 0 }

  function Ticked(e: Entry): Entry { e.(ticks := if Due(e) then e.time else Short(e.ticks - 1)) }

  predicate Calls(e: Entry, see: View) {
    Kept(e, see) && Due(e) && see(e.ob.ob).defined && see(e.ob.ob).gate
  }

  /** One cycle over a queue: what is kept for the next one, and who is called. */
  function Survivors(q: seq<Entry>, see: View): seq<Entry> {
    if q == [] then [] else (if Kept(q[0], see) then [Ticked(q[0])] else []) + Survivors(q[1..], see)
  }

  function Called(q: seq<Entry>, see: View): seq<Obj> {
    if q == [] then [] else (if Calls(q[0], see) then [q[0].ob.ob] else []) + Called(q[1..], see)
  }

  /** process_heartbeats */
  function Cycled(s: State, see: View): State { State([], Survivors(s.active + s.waiting, see)) }

  datatype Op = Modify(ob: Obj, interval: int) | Remove(ob: Obj) | Cycle(see: View)

  function Do(s: State, op: Op): State {
    match op
    case Modify(ob, interval) => Modified(s, ob, interval)
    case Remove(ob) => Removed(s, ob)
    case Cycle(see) => Cycled(s, see)
  }

  function After(s: State, ops: seq<Op>): State
    decreases |ops|
  {
    if ops == [] then s else Do(After(s, ops[..|ops| - 1]), ops[|ops| - 1])
  }

  const START := State([], [])

  // ---------------------------------------------------------------------------
  // One entry for each object
  // ---------------------------------------------------------------------------

  function All(s: State): seq<Entry> { s.active + s.waiting }

  predicate Once(q: seq<Entry>) { forall i, j | 0 <= i < j < |q| && q[i].ob.To? :: q[i].ob != q[j].ob }

  /** The entry of an object. */
  function Lookup(q: seq<Entry>, ob: Obj): (e: Entry)
    ensures e == if Listed(q, ob) then q[IndexOf(q, ob)] else Entry(Null, 0, 0)
  {
    if Listed(q, ob) then q[IndexOf(q, ob)] else Entry(Null, 0, 0)
  }

  lemma LookupUnique(q: seq<Entry>, i: nat)
    requires Once(q) && i < |q| && q[i].ob.To?
    ensures Lookup(q, q[i].ob.ob) == q[i]
  {
  }

  lemma {:induction false} LookupAppend(p: seq<Entry>, q: seq<Entry>, ob: Obj)
    ensures Lookup(p + q, ob) == if Listed(p, ob) then Lookup(p, ob) else Lookup(q, ob)
    ensures Listed(p + q, ob) <==> Listed(p, ob) || Listed(q, ob)
    ensures IndexOf(p + q, ob) == if Listed(p, ob) then IndexOf(p, ob) else |p| + IndexOf(q, ob)
  {
    if p == [] {
      assert p + q == q;
    } else {
      assert (p + q)[1..] == p[1..] + q;
      LookupAppend(p[1..], q, ob);
    }
  }

  lemma {:induction false} SurvivorsOnce(q: seq<Entry>, see: View)
    requires Once(q)
    ensures Once(Survivors(q, see))
    ensures forall e <- Survivors(q, see) :: e.ob.To? && exists j | 0 <= j < |q| :: q[j].ob == e.ob
  {
    if q != [] {
      SurvivorsOnce(q[1..], see);
      var r := Survivors(q[1..], see);
      forall e <- Survivors(q, see) ensures e.ob.To? && exists j | 0 <= j < |q| :: q[j].ob == e.ob {
        if e in r {
          var j :| 0 <= j < |q[1..]| && q[1..][j].ob == e.ob;
          assert q[j + 1].ob == e.ob;
        }
      }
      forall i | 0 <= i < |r| ensures r[i].ob != q[0].ob {
        assert r[i] in r;
        var j :| 0 <= j < |q[1..]| && q[1..][j].ob == r[i].ob;
        assert q[j + 1].ob == r[i].ob;
      }
    }
  }

  /** modify_heartbeat changes the object's one entry or adds it at the end. */
  lemma ModifyAll(s: State, ob: Obj, interval: int)
    ensures var q, t, i := All(s), Short(interval), IndexOf(All(s), ob);
            All(Modified(s, ob, interval)) == if i < |q| then q[i := Entry(To(ob), t, t)] else q + [Entry(To(ob), t, t)]
  {
    LookupAppend(s.active, s.waiting, ob);
  }

  lemma StepKeepsOnce(s: State, op: Op)
    requires Once(All(s))
    ensures Once(All(Do(s, op)))
  {
    match op
    case Modify(ob, interval) =>
      ModifyAll(s, ob, interval);
    case Remove(ob) =>
      assert All(Removed(s, ob)) == Cleared(All(s), ob);
    case Cycle(see) =>
      SurvivorsOnce(All(s), see);
  }

  /** In any run each object has at most one entry in the two queues. */
  lemma {:induction false} RunKeepsOnce(s: State, ops: seq<Op>)
    requires Once(All(s))
    ensures Once(All(After(s, ops)))
    decreases |ops|
  {
    if ops != [] {
      RunKeepsOnce(s, ops[..|ops| - 1]);
      StepKeepsOnce(After(s, ops[..|ops| - 1]), ops[|ops| - 1]);
    }
  }

  // ---------------------------------------------------------------------------
  // What one cycle does to one object
  // ---------------------------------------------------------------------------

  lemma {:induction false} CycleLookup(q: seq<Entry>, see: View, ob: Obj)
    requires Once(q)
    ensures var e := Lookup(q, ob);
            && Lookup(Survivors(q, see), ob) == (if Kept(e, see) then Ticked(e) else Entry(Null, 0, 0))
            && multiset(Called(q, see))[ob] == (if Calls(e, see) then 1 else 0)
  {
    if q != [] {
      var rest := q[1..];
      CycleLookup(rest, see, ob);
      if q[0].ob == To(ob) {
        assert !Listed(rest, ob);
      }
      var first := if Kept(q[0], see) then [Ticked(q[0])] else [];
      LookupAppend(first, Survivors(rest, see), ob);
    }
  }

  lemma OtherOps(s: State, op: Op, ob: Obj)
    requires Once(All(s)) && (op.Modify? || op.Remove?) && op.ob != ob
    ensures Lookup(All(Do(s, op)), ob) == Lookup(All(s), ob)
  {
    var u := Do(s, op);
    StepKeepsOnce(s, op);
    var q, r := All(s), All(u);
    var i := IndexOf(q, ob);
    if op.Remove? { assert r == Cleared(q, op.ob); } else { ModifyAll(s, op.ob, op.interval); }
    if i < |q| {
      assert r[i] == q[i];
      LookupUnique(r, i);
    } else {
      assert forall j | 0 <= j < |r| :: r[j].ob != To(ob);
    }
  }

  // ---------------------------------------------------------------------------
  // Every n-th cycle
  // ---------------------------------------------------------------------------

  /** How many cycles lie between two calls, given time_to_heart_beat. */
  function Period(time: int): (p: nat)
    ensures p > 0
  {
    if time > 0 then time else if time == -0x8000 then 0x8000 else 1
  }

  /** The interval is kept exactly from 1 to 32768; outside, the conversion to 16 bits
    changes it, and a negative count but the least is always run out. */
  lemma PeriodIsInterval(n: int)
    ensures Period(Short(n)) == n <==> 1 <= n <= 0x8000
  {
  }

  /** The count after `j` cycles. */
  function Count(time: int, j: nat): int {
    if j % Period(time) == 0 then time else Period(time) - j % Period(time)
  }

  lemma CountStep(time: int, j: nat)
    requires -0x8000 <= time < 0x8000
    ensures var e := Entry(Null, time, Count(time, j));
            Ticked(e).ticks == Count(time, j + 1) && (Due(e) <==> (j + 1) % Period(time) == 0)
  {
    var p := Period(time);
    var r := j % p;
    assert (j + 1) % p == if r + 1 == p then 0 else r + 1 by {
      NextMod(j, p);
    }
  }

  lemma NextMod(j: nat, p: nat)
    requires p > 0
    ensures (j + 1) % p == if j % p + 1 == p then 0 else j % p + 1
  {
    var d, r := j / p, j % p;
    assert j == p * d + r;
    if r + 1 == p {
      assert j + 1 == p * (d + 1);
      ModOf(d + 1, 0, p);
    } else {
      ModOf(d, r + 1, p);
    }
  }

  lemma ModOf(d: nat, r: nat, p: nat)
    requires r < p
    ensures (p * d + r) % p == r
  {
    var x := p * d + r;
    var e, s := x / p, x % p;
    assert x == p * e + s;
    if d > e {
      AtLeast(p, d - e);
    } else if d < e {
      AtLeast(p, e - d);
    }
    assert p * (d - e) == p * d - p * e && p * (e - d) == p * e - p * d;
  }

  lemma {:induction false} AtLeast(p: nat, k: nat)
    requires k >= 1
    ensures p * k >= p
  {
    if k > 1 { AtLeast(p, k - 1); }
  }

  function Cycles(ops: seq<Op>): nat {
    if ops == [] then 0 else Cycles(ops[..|ops| - 1]) + if ops[|ops| - 1].Cycle? then 1 else 0
  }

  /** Nothing in the run registers or removes the object, and no cycle finds it off. */
  ghost predicate Undisturbed(ops: seq<Op>, ob: Obj) {
    forall op <- ops :: match op case Cycle(see) => see(ob).on case _ => op.ob != ob
  }

  lemma {:induction false} CountAfter(s: State, ops: seq<Op>, ob: Obj, t: int)
    requires Once(All(s)) && -0x8000 <= t < 0x8000
    requires Lookup(All(s), ob) == Entry(To(ob), t, t) && Undisturbed(ops, ob)
    ensures Once(All(After(s, ops)))
    ensures Lookup(All(After(s, ops)), ob) == Entry(To(ob), t, Count(t, Cycles(ops)))
    decreases |ops|
  {
    if ops != [] {
      var n := |ops| - 1;
      var u := After(s, ops[..n]);
      assert forall op <- ops[..n] :: op in ops;
      CountAfter(s, ops[..n], ob, t);
      StepKeepsOnce(u, ops[n]);
      assert ops[n] in ops;
      CountStepOp(u, ops[n], ob, t, Cycles(ops[..n]));
    }
  }

  lemma CountStepOp(s: State, op: Op, ob: Obj, t: int, j: nat)
    requires Once(All(s)) && -0x8000 <= t < 0x8000 && Undisturbed([op], ob)
    requires Lookup(All(s), ob) == Entry(To(ob), t, Count(t, j))
    ensures Lookup(All(Do(s, op)), ob) == Entry(To(ob), t, Count(t, if op.Cycle? then j + 1 else j))
  {
    assert op in [op];
    match op
    case Cycle(see) =>
      CycleLookup(All(s), see, ob);
      CountStep(t, j);
      assert All(Do(s, op)) == Survivors(All(s), see);
    case _ =>
      OtherOps(s, op, ob);
  }

  lemma ModifyRegisters(s: State, ob: Obj, interval: int)
    requires Once(All(s))
    ensures Lookup(All(Modified(s, ob, interval)), ob) == Entry(To(ob), Short(interval), Short(interval))
  {
    ModifyAll(s, ob, interval);
    StepKeepsOnce(s, Modify(ob, interval));
    LookupUnique(All(Modified(s, ob, interval)), IndexOf(All(s), ob));
  }

  /** After an object has registered, in any run that leaves it alone, it is called in every
    `Period`-th cycle and only then, once, if the gate is open and it has the function; the
    gate does not disturb the count. */
  lemma CalledEveryNthCycle(s: State, ob: Obj, interval: int, ops: seq<Op>, see: View)
    requires Once(All(s)) && Undisturbed(ops, ob) && see(ob).on
    ensures var u := After(Modified(s, ob, interval), ops);
            var j := Cycles(ops) + 1;
            multiset(Called(All(u), see))[ob] ==
              if j % Period(Short(interval)) == 0 && see(ob).defined && see(ob).gate then 1 else 0
  {
    var s1 := Modified(s, ob, interval);
    StepKeepsOnce(s, Modify(ob, interval));
    ModifyRegisters(s, ob, interval);
    CountAfter(s1, ops, ob, Short(interval));
    NextCall(All(After(s1, ops)), ob, Short(interval), Cycles(ops), see);
  }

  lemma NextCall(q: seq<Entry>, ob: Obj, t: int, j: nat, see: View)
    requires Once(q) && Lookup(q, ob) == Entry(To(ob), t, Count(t, j)) && -0x8000 <= t < 0x8000 && see(ob).on
    ensures multiset(Called(q, see))[ob] == if (j + 1) % Period(t) == 0 && see(ob).defined && see(ob).gate then 1 else 0
  {
    CountStep(t, j);
    CycleLookup(q, see, ob);
  }

  // ---------------------------------------------------------------------------
  // Removed objects
  // ---------------------------------------------------------------------------

  predicate Absent(q: seq<Entry>, ob: Obj) { forall i | 0 <= i < |q| :: q[i].ob != To(ob) }

  /** The object is removed, or a cycle finds it off. */
  ghost predicate Drops(op: Op, ob: Obj) {
    match op case Modify(_, _) => false case Remove(o) => o == ob case Cycle(see) => !see(ob).on
  }

  lemma {:induction false} CycleAbsent(q: seq<Entry>, see: View, ob: Obj)
    requires Absent(q, ob) || !see(ob).on
    ensures Absent(Survivors(q, see), ob)
  {
    if q != [] { CycleAbsent(q[1..], see, ob); }
  }

  lemma {:induction false} AbsentNotCalled(q: seq<Entry>, see: View, ob: Obj)
    requires Absent(q, ob)
    ensures ob !in Called(q, see)
  {
    if q != [] { AbsentNotCalled(q[1..], see, ob); }
  }

  lemma StepAbsent(s: State, op: Op, ob: Obj)
    requires Drops(op, ob) || (Absent(All(s), ob) && !(op.Modify? && op.ob == ob))
    ensures Absent(All(Do(s, op)), ob)
  {
    match op
    case Modify(o, interval) => ModifyAll(s, o, interval);
    case Remove(o) => assert All(Removed(s, o)) == Cleared(All(s), o);
    case Cycle(see) => CycleAbsent(All(s), see, ob);
  }

  lemma {:induction false} RunAbsent(s: State, ops: seq<Op>, ob: Obj)
    requires Absent(All(s), ob) && forall op <- ops :: !(op.Modify? && op.ob == ob)
    ensures Absent(All(After(s, ops)), ob)
    decreases |ops|
  {
    if ops != [] {
      var n := |ops| - 1;
      assert ops[n] in ops && forall op <- ops[..n] :: op in ops;
      RunAbsent(s, ops[..n], ob);
      StepAbsent(After(s, ops[..n]), ops[n], ob);
    }
  }

  /** Once an object is removed, or a cycle finds it off or destructed, it has no entry in
    either queue and is called in no cycle until it registers again. */
  lemma NotCalledAfterRemoval(s: State, op: Op, ob: Obj, ops: seq<Op>, see: View)
    requires Drops(op, ob) && forall later <- ops :: !(later.Modify? && later.ob == ob)
    ensures Absent(All(After(Do(s, op), ops)), ob)
    ensures ob !in Called(All(After(Do(s, op), ops)), see)
  {
    StepAbsent(s, op, ob);
    RunAbsent(Do(s, op), ops, ob);
    AbsentNotCalled(All(After(Do(s, op), ops)), see, ob);
  }

  // ---------------------------------------------------------------------------
  // The queues updated in place
  // ---------------------------------------------------------------------------

  lemma {:induction false} SurvivorsAppend(p: seq<Entry>, q: seq<Entry>, see: View)
    ensures Survivors(p + q, see) == Survivors(p, see) + Survivors(q, see)
  {
    if p == [] {
      assert p + q == q;
    } else {
      assert (p + q)[1..] == p[1..] + q;
      SurvivorsAppend(p[1..], q, see);
      Assoc(if Kept(p[0], see) then [Ticked(p[0])] else [], Survivors(p[1..], see), Survivors(q, see));
    }
  }

  lemma Assoc<T>(a: seq<T>, b: seq<T>, c: seq<T>)
    ensures a + (b + c) == a + b + c
  {
  }

  lemma {:induction false} CalledAppend(p: seq<Entry>, q: seq<Entry>, see: View)
    ensures Called(p + q, see) == Called(p, see) + Called(q, see)
  {
    if p == [] {
      assert p + q == q;
    } else {
      assert (p + q)[1..] == p[1..] + q;
      CalledAppend(p[1..], q, see);
      Assoc(if Calls(p[0], see) then [p[0].ob.ob] else [], Called(p[1..], see), Called(q, see));
    }
  }

  class HeartbeatThread {
    var heartbeats: seq<Entry>
    var heartbeatsNext: seq<Entry>

    function Abs(): State reads this { State(heartbeats, heartbeatsNext) }

    constructor ()
      ensures Abs() == START
    {
      heartbeats, heartbeatsNext := [], [];
    }

    method AddHeartbeat(ob: Obj, interval: int)
      modifies this
      ensures Abs() == old(Abs()).(waiting := old(heartbeatsNext) + [Entry(To(ob), Short(interval), Short(interval))])
    {
      heartbeatsNext := heartbeatsNext + [Entry(To(ob), Short(interval), Short(interval))];
    }

    /** The loop both queues are searched with. */
    static method ClearAll(q: seq<Entry>, ob: Obj) returns (r: seq<Entry>)
      ensures r == Cleared(q, ob)
    {
      r := q;
      for i := 0 to |q|
        invariant |r| == |q|
        invariant forall j | 0 <= j < |q| :: r[j] == if j < i then Cleared(q, ob)[j] else q[j]
      {
        if r[i].ob == To(ob) {
          r := r[i := r[i].(ob := Null)];
        }
      }
    }

    method RemoveHeartbeat(ob: Obj)
      modifies this
      ensures Abs() == Removed(old(Abs()), ob)
    {
      heartbeats := ClearAll(heartbeats, ob);
      heartbeatsNext := ClearAll(heartbeatsNext, ob);
    }

    static method Search(q: seq<Entry>, ob: Obj) returns (i: nat)
      ensures i == IndexOf(q, ob)
    {
      i := 0;
      while i < |q| && q[i].ob != To(ob)
        invariant i <= |q| && forall j | 0 <= j < i :: q[j].ob != To(ob)
      {
        i := i + 1;
      }
    }

    method ModifyHeartbeat(ob: Obj, interval: int)
      modifies this
      ensures Abs() == Modified(old(Abs()), ob, interval)
    {
      var t := Short(interval);
      var i := Search(heartbeats, ob);
      if i < |heartbeats| {
        heartbeats := heartbeats[i := heartbeats[i].(time := t, ticks := t)];
        return;
      }
      i := Search(heartbeatsNext, ob);
      if i < |heartbeatsNext| {
        heartbeatsNext := heartbeatsNext[i := heartbeatsNext[i].(time := t, ticks := t)];
        return;
      }
      AddHeartbeat(ob, interval);
    }

    /** process_heartbeats; `called` are the objects whose heart_beat() is called. */
    method ProcessHeartbeats(see: View) returns (called: seq<Obj>)
      modifies this
      ensures Abs() == Cycled(old(Abs()), see) && called == Called(All(old(Abs())), see)
    {
      heartbeats := heartbeats + heartbeatsNext;
      heartbeatsNext := [];
      called := [];
      ghost var q := heartbeats;
      ghost var n := 0;
      while heartbeats != []
        invariant n <= |q| && heartbeats == q[n..]
        invariant heartbeatsNext == Survivors(q[..n], see) && called == Called(q[..n], see)
        decreases |heartbeats|
      {
        var hb := heartbeats[0];
        SurvivorsAppend(q[..n], [hb], see);
        CalledAppend(q[..n], [hb], see);
        assert q[..n + 1] == q[..n] + [hb];
        n := n + 1;
        heartbeats := heartbeats[1..];
        var called1 := Visit(hb, see);
        called := called + called1;
      }
      assert q[..n] == q;
    }

    /** The body of the loop, behind the pop. */
    method Visit(hb: Entry, see: View) returns (called: seq<Obj>)
      modifies this`heartbeatsNext
      ensures heartbeatsNext == old(heartbeatsNext) + Survivors([hb], see) && called == Called([hb], see)
    {
      called := [];
      if hb.ob == Null || !see(hb.ob.ob).on {
        return;
      }
      var ch := hb.(ticks := Short(hb.ticks - 1));
      if ch.ticks > 0 {
        heartbeatsNext := heartbeatsNext + [ch];
        return;
      }
      ch := ch.(ticks := ch.time);
      heartbeatsNext := heartbeatsNext + [ch];
      if see(hb.ob.ob).defined && see(hb.ob.ob).gate {
        called := [hb.ob.ob];
      }
    }
  }
}
