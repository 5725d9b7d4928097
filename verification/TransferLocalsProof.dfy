/** Meaning preservation of the dying-variable pass. */
module TransferLocalsProof {
  import opened TransferLocals

  // ---------------------------------------------------------------------------
  // Facts about the walk
  // ---------------------------------------------------------------------------

  lemma ForgetTwice(m: map<nat, nat>, s: set<nat>, t: set<nat>)
    ensures m - s - t == m - (s + t)
  {
  }

  /** Inside a loop or a conditional nothing is recorded and nothing is transferred: the
    walk only forgets the locals it meets. */
  lemma {:induction false} VisitNested(e: Node, w: Walk)
    ensures Visit(e, true, w) == Walk(w.refs - Touches(e), w.done)
    decreases e, 0
  {
    match e
    case Nil | Local(_, _) | LocalLvalue(_) | Jump(_) =>
    case Op(_, args) => VisitNested(args, w);
    case Pair(a, b) =>
      VisitNested(a, w); VisitNested(b, Visit(a, true, w)); ForgetTwice(w.refs, Touches(a), Touches(b));
    case Assign(rhs, lv) =>
      VisitNested(rhs, w); VisitNested(lv, Visit(rhs, true, w)); ForgetTwice(w.refs, Touches(rhs), Touches(lv));
    case Update(_, rhs, lv) =>
      VisitNested(rhs, w); VisitNested(lv, Visit(rhs, true, w)); ForgetTwice(w.refs, Touches(rhs), Touches(lv));
    case VoidAssignLocal(_, rhs) => VisitNested(rhs, w);
    case ShortCircuit(_, l, r) => VisitNested(l, w); VisitBranch(r, Visit(l, true, w), w.refs, Touches(l));
    case LogicalAssign(_, lv, rhs) => VisitNested(lv, w); VisitBranch(rhs, Visit(lv, true, w), w.refs, Touches(lv));
    case If(c, t, f) =>
      VisitNested(c, w);
      VisitBranch(t, Visit(c, true, w), w.refs, Touches(c));
      VisitBranch(f, Visit(t, true, Visit(c, true, w)), w.refs, Touches(c) + Touches(t));
    case Loop(_, body, inc, test) =>
      VisitNested(body, w);
      VisitBranch(inc, Visit(body, true, w), w.refs, Touches(body));
      VisitBranch(test, Visit(inc, true, Visit(body, true, w)), w.refs, Touches(body) + Touches(inc));
    case Switch(_, sel, body) => VisitNested(sel, w); VisitBranch(body, Visit(sel, true, w), w.refs, Touches(sel));
    case Return(r) => VisitNested(r, w);
    case Catch(b) => VisitNested(b, w);
  }

  lemma {:induction false} VisitBranch(e: Node, w: Walk, refs: map<nat, nat>, gone: set<nat>)
    requires w.refs == refs - gone
    ensures Visit(e, true, w) == Walk(refs - (gone + Touches(e)), w.done)
    decreases e, 1
  {
    VisitNested(e, w);
    ForgetTwice(refs, gone, Touches(e));
  }

  /** A recorded read is not yet a transfer. */
  ghost predicate Sound(w: Walk) { w.done !! Recorded(w) }

  /** The walk invents no reads, takes no transfer back, and records only reads that are
    not transfers. */
  lemma {:induction false} VisitKeeps(e: Node, nested: bool, w: Walk)
    requires Distinct(e) && Sound(w) && Reads(e) !! Possible(w)
    ensures var w' := Visit(e, nested, w);
            Sound(w') && w.done <= w'.done && Possible(w') <= Possible(w) + Reads(e)
  {
    if nested {
      VisitNested(e, w);
    } else {
      match e
      case Nil | Local(_, _) | LocalLvalue(_) | Jump(_) =>
      case Op(_, args) => VisitKeeps(args, false, w);
      case Pair(a, b) => VisitKeeps(a, false, w); VisitKeeps(b, false, Visit(a, false, w));
      case Assign(rhs, lv) =>
        VisitKeeps(rhs, false, w);
        VisitKeeps(lv, false, Visit(rhs, false, w));
      case Update(_, rhs, lv) => VisitKeeps(rhs, false, w); VisitKeeps(lv, false, Visit(rhs, false, w));
      case VoidAssignLocal(_, rhs) => VisitKeeps(rhs, false, w);
      case ShortCircuit(_, l, r) => VisitKeeps(l, false, w); VisitNested(r, Visit(l, false, w));
      case LogicalAssign(_, lv, rhs) => VisitKeeps(lv, false, w); VisitNested(rhs, Visit(lv, false, w));
      case If(c, t, f) =>
        VisitKeeps(c, false, w);
        VisitNested(t, Visit(c, false, w));
        VisitNested(f, Visit(t, true, Visit(c, false, w)));
      case Loop(_, body, inc, test) =>
        VisitNested(body, w);
        VisitNested(inc, Visit(body, true, w));
        VisitNested(test, Visit(inc, true, Visit(body, true, w)));
      case Switch(_, sel, body) => VisitKeeps(sel, false, w); VisitNested(body, Visit(sel, false, w));
      case Return(r) => VisitKeeps(r, false, w);
      case Catch(b) => VisitKeeps(b, false, w);
    }
  }

  // ---------------------------------------------------------------------------
  // Code without transfers does not see locals it does not touch
  // ---------------------------------------------------------------------------

  ghost predicate AgreeExcept(A: Env, B: Env, D: set<nat>) {
    forall x: nat :: x !in D ==> Get(A, x) == Get(B, x)
  }

  ghost predicate SameExcept(p: Result, q: Result, D: set<nat>) {
    p.out == q.out && p.tr == q.tr && AgreeExcept(p.env, q.env, D)
  }

  lemma ExecuteBlind(h: Host, op: int, lv: Node, path: seq<int>, operands: seq<int>, D: set<nat>, A: Env, B: Env, tr: Trace)
    requires (forall x <- Root(lv) :: x !in D) && AgreeExcept(A, B, D)
    ensures SameExcept(Execute(h, op, Root(lv), path, operands, A, tr), Execute(h, op, Root(lv), path, operands, B, tr), D)
  {
  }

  /** `e` has no transfers and touches none of the locals in `D`, on which alone the two
    frames may differ: both runs do the same, and still differ on `D` alone. */
  lemma {:induction false} Blind(h: Host, T: set<Read>, fuel: nat, e: Node, D: set<nat>, A: Env, B: Env, tr: Trace)
    requires Reads(e) !! T && Touches(e) !! D && AgreeExcept(A, B, D)
    ensures SameExcept(Eval(h, {}, fuel, e, A, tr), Eval(h, T, fuel, e, B, tr), D)
    decreases fuel, e, 3
  {
    match e
    case Nil | LocalLvalue(_) | Jump(_) | Local(_, _) =>
    case Op(_, _) | VoidAssignLocal(_, _) | Return(_) | Catch(_) => BlindUnary(h, T, fuel, e, D, A, B, tr);
    case Pair(_, _) | ShortCircuit(_, _, _) | If(_, _, _) => BlindBranch(h, T, fuel, e, D, A, B, tr);
    case Assign(_, _) => BlindAssign(h, T, fuel, e, D, A, B, tr);
    case Update(_, _, _) => BlindUpdate(h, T, fuel, e, D, A, B, tr);
    case LogicalAssign(_, _, _) => BlindLogical(h, T, fuel, e, D, A, B, tr);
    case Loop(testFirst, _, _, _) => BlindTurn(h, T, fuel, e, testFirst, D, A, B, tr);
    case Switch(_, _, _) => BlindSwitch(h, T, fuel, e, D, A, B, tr);
  }

  lemma {:induction false} BlindUnary(h: Host, T: set<Read>, fuel: nat, e: Node, D: set<nat>, A: Env, B: Env, tr: Trace)
    requires e.Op? || e.VoidAssignLocal? || e.Return? || e.Catch?
    requires Reads(e) !! T && Touches(e) !! D && AgreeExcept(A, B, D)
    ensures SameExcept(Eval(h, {}, fuel, e, A, tr), Eval(h, T, fuel, e, B, tr), D)
    decreases fuel, e, 2
  {
    match e
    case Op(op, args) =>
      Blind(h, T, fuel, args, D, A, B, tr);
      var p, q := Eval(h, {}, fuel, args, A, tr), Eval(h, T, fuel, args, B, tr);
      if p.out.Normal? { ExecuteBlind(h, op, Nil, [], p.out.vs, D, p.env, q.env, p.tr); }
    case VoidAssignLocal(_, rhs) => Blind(h, T, fuel, rhs, D, A, B, tr);
    case Return(r) => Blind(h, T, fuel, r, D, A, B, tr);
    case Catch(b) => Blind(h, T, fuel, b, D, A, B, tr);
  }

  lemma {:induction false} BlindBranch(h: Host, T: set<Read>, fuel: nat, e: Node, D: set<nat>, A: Env, B: Env, tr: Trace)
    requires e.Pair? || e.ShortCircuit? || e.If?
    requires Reads(e) !! T && Touches(e) !! D && AgreeExcept(A, B, D)
    ensures SameExcept(Eval(h, {}, fuel, e, A, tr), Eval(h, T, fuel, e, B, tr), D)
    decreases fuel, e, 2
  {
    match e
    case Pair(a, b) => Blind2(h, T, fuel, e, a, b, D, A, B, tr);
    case ShortCircuit(_, l, r) => Blind2(h, T, fuel, e, l, r, D, A, B, tr);
    case If(c, t, f) =>
      Blind2(h, T, fuel, e, c, t, D, A, B, tr);
      Blind2(h, T, fuel, e, c, f, D, A, B, tr);
  }

  lemma {:induction false} Blind2(h: Host, T: set<Read>, fuel: nat, e: Node, a: Node, b: Node, D: set<nat>, A: Env, B: Env, tr: Trace)
    requires a < e && b < e
    requires Reads(a) !! T && Reads(b) !! T && Touches(a) !! D && Touches(b) !! D && AgreeExcept(A, B, D)
    ensures SameExcept(Eval(h, {}, fuel, a, A, tr), Eval(h, T, fuel, a, B, tr), D)
    ensures var p, q := Eval(h, {}, fuel, a, A, tr), Eval(h, T, fuel, a, B, tr);
            SameExcept(Eval(h, {}, fuel, b, p.env, p.tr), Eval(h, T, fuel, b, q.env, q.tr), D)
    decreases fuel, e, 1
  {
    Blind(h, T, fuel, a, D, A, B, tr);
    var p, q := Eval(h, {}, fuel, a, A, tr), Eval(h, T, fuel, a, B, tr);
    Blind(h, T, fuel, b, D, p.env, q.env, p.tr);
  }

  lemma {:induction false} BlindAssign(h: Host, T: set<Read>, fuel: nat, e: Node, D: set<nat>, A: Env, B: Env, tr: Trace)
    requires e.Assign?
    requires Reads(e) !! T && Touches(e) !! D && AgreeExcept(A, B, D)
    ensures SameExcept(Eval(h, {}, fuel, e, A, tr), Eval(h, T, fuel, e, B, tr), D)
    decreases fuel, e, 2
  {
    Blind(h, T, fuel, e.rhs, D, A, B, tr);
    var p, q := Eval(h, {}, fuel, e.rhs, A, tr), Eval(h, T, fuel, e.rhs, B, tr);
    if p.out.Normal? && !e.lv.LocalLvalue? {
      Blind(h, T, fuel, e.lv, D, p.env, q.env, p.tr);
      var p1, q1 := Eval(h, {}, fuel, e.lv, p.env, p.tr), Eval(h, T, fuel, e.lv, q.env, q.tr);
      if p1.out.Normal? { ExecuteBlind(h, F_ASSIGN, e.lv, p1.out.vs, p.out.vs, D, p1.env, q1.env, p1.tr); }
    }
  }

  lemma {:induction false} BlindUpdate(h: Host, T: set<Read>, fuel: nat, e: Node, D: set<nat>, A: Env, B: Env, tr: Trace)
    requires e.Update?
    requires Reads(e) !! T && Touches(e) !! D && AgreeExcept(A, B, D)
    ensures SameExcept(Eval(h, {}, fuel, e, A, tr), Eval(h, T, fuel, e, B, tr), D)
    decreases fuel, e, 2
  {
    Blind(h, T, fuel, e.rhs, D, A, B, tr);
    var p, q := Eval(h, {}, fuel, e.rhs, A, tr), Eval(h, T, fuel, e.rhs, B, tr);
    if p.out.Normal? {
      Blind(h, T, fuel, e.lv, D, p.env, q.env, p.tr);
      var p1, q1 := Eval(h, {}, fuel, e.lv, p.env, p.tr), Eval(h, T, fuel, e.lv, q.env, q.tr);
      if p1.out.Normal? { ExecuteBlind(h, e.op, e.lv, p1.out.vs, p.out.vs, D, p1.env, q1.env, p1.tr); }
    }
  }

  lemma {:induction false} BlindSwitch(h: Host, T: set<Read>, fuel: nat, e: Node, D: set<nat>, A: Env, B: Env, tr: Trace)
    requires e.Switch?
    requires Reads(e) !! T && Touches(e) !! D && AgreeExcept(A, B, D)
    ensures SameExcept(Eval(h, {}, fuel, e, A, tr), Eval(h, T, fuel, e, B, tr), D)
    decreases fuel, e, 2
  {
    Blind(h, T, fuel, e.sel, D, A, B, tr);
    var p, q := Eval(h, {}, fuel, e.sel, A, tr), Eval(h, T, fuel, e.sel, B, tr);
    if p.out.Normal? {
      BlindEnter(h, T, fuel, e.body, h.entry(e.kind, Top(p.out.vs)), D, p.env, q.env, p.tr);
    }
  }

  lemma {:induction false} BlindLogical(h: Host, T: set<Read>, fuel: nat, e: Node, D: set<nat>, A: Env, B: Env, tr: Trace)
    requires e.LogicalAssign?
    requires Reads(e) !! T && Touches(e) !! D && AgreeExcept(A, B, D)
    ensures SameExcept(Eval(h, {}, fuel, e, A, tr), Eval(h, T, fuel, e, B, tr), D)
    decreases fuel, e, 2
  {
    var lv, rhs := e.lv, e.rhs;
    Blind(h, T, fuel, lv, D, A, B, tr);
    var p, q := Eval(h, {}, fuel, lv, A, tr), Eval(h, T, fuel, lv, B, tr);
    if p.out.Normal? {
      ExecuteBlind(h, e.kind, lv, p.out.vs, [], D, p.env, q.env, p.tr);
      var p1, q1 := Execute(h, e.kind, Root(lv), p.out.vs, [], p.env, p.tr), Execute(h, e.kind, Root(lv), p.out.vs, [], q.env, q.tr);
      Blind(h, T, fuel, rhs, D, p1.env, q1.env, p1.tr);
      var p2, q2 := Eval(h, {}, fuel, rhs, p1.env, p1.tr), Eval(h, T, fuel, rhs, q1.env, q1.tr);
      if p2.out.Normal? { ExecuteBlind(h, F_ASSIGN, lv, p.out.vs, p2.out.vs, D, p2.env, q2.env, p2.tr); }
    }
  }

  lemma {:induction false} BlindTurn(h: Host, T: set<Read>, fuel: nat, e: Node, atTest: bool, D: set<nat>, A: Env, B: Env, tr: Trace)
    requires e.Loop?
    requires Reads(e) !! T && Touches(e) !! D && AgreeExcept(A, B, D)
    ensures SameExcept(Turn(h, {}, fuel, e, atTest, A, tr), Turn(h, T, fuel, e, atTest, B, tr), D)
    decreases fuel, e, 2
  {
    if fuel == 0 {
    } else if atTest {
      Blind(h, T, fuel, e.test, D, A, B, tr);
      var p1, q1 := Eval(h, {}, fuel, e.test, A, tr), Eval(h, T, fuel, e.test, B, tr);
      BlindTurn(h, T, fuel - 1, e, false, D, p1.env, q1.env, p1.tr);
    } else {
      Blind2(h, T, fuel, e, e.body, e.inc, D, A, B, tr);
      var p1, q1 := Eval(h, {}, fuel, e.body, A, tr), Eval(h, T, fuel, e.body, B, tr);
      var p2, q2 := Eval(h, {}, fuel, e.inc, p1.env, p1.tr), Eval(h, T, fuel, e.inc, q1.env, q1.tr);
      BlindTurn(h, T, fuel - 1, e, true, D, p2.env, q2.env, p2.tr);
    }
  }

  lemma {:induction false} BlindEnter(h: Host, T: set<Read>, fuel: nat, body: Node, k: nat, D: set<nat>, A: Env, B: Env, tr: Trace)
    requires Reads(body) !! T && Touches(body) !! D && AgreeExcept(A, B, D)
    ensures SameExcept(Enter(h, {}, fuel, body, k, A, tr), Enter(h, T, fuel, body, k, B, tr), D)
    decreases fuel, body, 4
  {
    if k == 0 {
      Blind(h, T, fuel, body, D, A, B, tr);
    } else if body.Pair? {
      BlindEnter(h, T, fuel, body.b, k - 1, D, A, B, tr);
    }
  }

  // ---------------------------------------------------------------------------
  // Simulation of the original code by the optimised code
  // ---------------------------------------------------------------------------

  /** The walk, arriving with `w`, makes no transfer inside a `catch`: an error there could
    skip the assignment that justified it.  A `catch` in a loop or conditional always
    qualifies, and so does every tree without one. */
  predicate CatchSafe(e: Node, w: Walk) {
    match e
    case Op(_, args) => CatchSafe(args, w)
    case Pair(a, b) => CatchSafe(a, w) && CatchSafe(b, Visit(a, false, w))
    case Assign(rhs, lv) => CatchSafe(rhs, w) && CatchSafe(lv, Visit(rhs, false, w))
    case Update(_, rhs, lv) => CatchSafe(rhs, w) && CatchSafe(lv, Visit(rhs, false, w))
    case VoidAssignLocal(x, rhs) => CatchSafe(rhs, w)
    case ShortCircuit(_, l, _) => CatchSafe(l, w)
    case LogicalAssign(_, lv, _) => CatchSafe(lv, w)
    case If(c, _, _) => CatchSafe(c, w)
    case Switch(_, sel, _) => CatchSafe(sel, w)
    case Return(r) => CatchSafe(r, w)
    case Catch(b) => CatchSafe(b, w) && Visit(b, false, w).done == w.done
    case _ => true
  }

  /** The locals a transfer may have emptied at this point of the walk. */
  ghost function Stale(T: set<Read>, w: Walk): set<nat> {
    set x | x in w.refs && (x, w.refs[x]) in T
  }

  /** No transfer in `T` known when `e` has been walked was given up during it. */
  ghost predicate Kept(T: set<Read>, w: Walk, e: Node, w': Walk) {
    T * (Possible(w) + Reads(e)) <= Possible(w')
  }

  ghost predicate Pre(T: set<Read>, e: Node, w: Walk, A: Env, B: Env) {
    && Distinct(e) && CatchSafe(e, w) && Sound(w) && Reads(e) !! Possible(w)
    && Kept(T, w, e, Visit(e, false, w))
    && AgreeExcept(A, B, Stale(T, w))
  }

  ghost predicate Post(T: set<Read>, e: Node, w: Walk, p: Result, q: Result) {
    && p.out == q.out && p.tr == q.tr
    && (p.out.Normal? || Visit(e, false, w).done == w.done ==> AgreeExcept(p.env, q.env, Stale(T, Visit(e, false, w))))
  }

  /** Where no transfer is made, a stale local stays stale. */
  lemma StaleStays(T: set<Read>, w: Walk, e: Node, w': Walk)
    requires Sound(w) && Kept(T, w, e, w') && w'.done == w.done
    ensures Stale(T, w) <= Stale(T, w')
  {
    forall x | x in Stale(T, w) ensures x in Stale(T, w') {
      assert (x, w.refs[x]) in Possible(w);
      assert (x, w.refs[x]) in Recorded(w);
      assert (x, w.refs[x]) in Possible(w');
    }
  }

  lemma RootForgotten(lv: Node, nested: bool, w: Walk)
    ensures forall x <- Root(lv) :: x !in Visit(lv, nested, w).refs
  {
  }

  /** `Kept` splits over two parts walked one after the other. */
  lemma KeptSplit(T: set<Read>, w: Walk, a: Node, b: Node, nested: bool, w2: Walk)
    requires Distinct(a) && Distinct(b) && Reads(a) !! Reads(b) && Sound(w) && Reads(a) + Reads(b) !! Possible(w)
    requires w2 == Visit(b, nested, Visit(a, false, w))
    requires T * (Possible(w) + Reads(a) + Reads(b)) <= Possible(w2)
    ensures var w1 := Visit(a, false, w);
            Sound(w1) && Reads(b) !! Possible(w1) && Kept(T, w, a, w1) && Kept(T, w1, b, w2) && w.done <= w1.done <= w2.done
  {
    VisitKeeps(a, false, w);
    VisitKeeps(b, nested, Visit(a, false, w));
  }

  /** A part inside a loop or conditional neither holds a transfer nor sees a stale local. */
  lemma Screened(T: set<Read>, e: Node, w: Walk, w': Walk)
    requires Sound(w) && Reads(e) !! Possible(w) && w' == Visit(e, true, w) && Kept(T, w, e, w')
    ensures Reads(e) !! T && Touches(e) !! Stale(T, w) && Stale(T, w) <= Stale(T, w') && Sound(w')
  {
    VisitNested(e, w);
    StaleStays(T, w, e, w');
  }

  /** Walks `a`, then `b` inside a conditional. */
  lemma {:induction false} SimThenBranch(h: Host, T: set<Read>, fuel: nat, a: Node, b: Node, w: Walk, A: Env, B: Env, tr: Trace)
    requires Distinct(a) && Distinct(b) && Reads(a) !! Reads(b) && CatchSafe(a, w) && Sound(w)
    requires Reads(a) + Reads(b) !! Possible(w) && AgreeExcept(A, B, Stale(T, w))
    requires T * (Possible(w) + Reads(a) + Reads(b)) <= Possible(Visit(b, true, Visit(a, false, w)))
    ensures Post(T, a, w, Eval(h, {}, fuel, a, A, tr), Eval(h, T, fuel, a, B, tr))
    ensures var w1 := Visit(a, false, w);
            Reads(b) !! T && Touches(b) !! Stale(T, w1) && Stale(T, w1) <= Stale(T, Visit(b, true, w1))
            && Visit(b, true, w1).done == w1.done
    decreases fuel, a, 4
  {
    var w1 := Visit(a, false, w);
    KeptSplit(T, w, a, b, true, Visit(b, true, w1));
    Sim(h, T, fuel, a, w, A, B, tr);
    Screened(T, b, w1, Visit(b, true, w1));
    VisitNested(b, w1);
  }

  /** Walks `a`, then `b`. */
  lemma {:induction false} SimThen(h: Host, T: set<Read>, fuel: nat, e: Node, a: Node, b: Node, w: Walk, A: Env, B: Env, tr: Trace)
    requires a < e && b < e
    requires Distinct(a) && Distinct(b) && Reads(a) !! Reads(b) && CatchSafe(a, w) && CatchSafe(b, Visit(a, false, w)) && Sound(w)
    requires Reads(a) + Reads(b) !! Possible(w) && AgreeExcept(A, B, Stale(T, w))
    requires T * (Possible(w) + Reads(a) + Reads(b)) <= Possible(Visit(b, false, Visit(a, false, w)))
    ensures var p, q := Eval(h, {}, fuel, a, A, tr), Eval(h, T, fuel, a, B, tr);
            Post(T, a, w, p, q) &&
            (p.out.Normal? ==> Post(T, b, Visit(a, false, w), Eval(h, {}, fuel, b, p.env, p.tr), Eval(h, T, fuel, b, q.env, q.tr)))
    ensures var w1 := Visit(a, false, w); var w2 := Visit(b, false, w1);
            w.done <= w1.done <= w2.done && (w2.done == w1.done ==> Stale(T, w1) <= Stale(T, w2))
    decreases fuel, e, 1
  {
    var w1 := Visit(a, false, w);
    KeptSplit(T, w, a, b, false, Visit(b, false, w1));
    Sim(h, T, fuel, a, w, A, B, tr);
    var p, q := Eval(h, {}, fuel, a, A, tr), Eval(h, T, fuel, a, B, tr);
    if p.out.Normal? { Sim(h, T, fuel, b, w1, p.env, q.env, p.tr); }
    if Visit(b, false, w1).done == w1.done {
      StaleStays(T, w1, b, Visit(b, false, w1));
    }
  }

  /** The optimised code follows the original code, and their frames differ only in locals
    whose recorded read is a transfer. */
  lemma {:induction false} Sim(h: Host, T: set<Read>, fuel: nat, e: Node, w: Walk, A: Env, B: Env, tr: Trace)
    requires Pre(T, e, w, A, B)
    ensures Post(T, e, w, Eval(h, {}, fuel, e, A, tr), Eval(h, T, fuel, e, B, tr))
    decreases fuel, e, 3
  {
    match e
    case Nil | Jump(_) | LocalLvalue(_) | Local(_, _) | Loop(_, _, _, _) => SimLeaf(h, T, fuel, e, w, A, B, tr);
    case Op(_, _) | Return(_) | Catch(_) => SimUnary(h, T, fuel, e, w, A, B, tr);
    case VoidAssignLocal(_, _) | Assign(_, _) | Update(_, _, _) => SimAssigning(h, T, fuel, e, w, A, B, tr);
    case Pair(a, b) => SimThen(h, T, fuel, e, a, b, w, A, B, tr);
    case ShortCircuit(_, _, _) | If(_, _, _) => SimBranch(h, T, fuel, e, w, A, B, tr);
    case LogicalAssign(_, _, _) => SimLogical(h, T, fuel, e, w, A, B, tr);
    case Switch(_, _, _) => SimSwitch(h, T, fuel, e, w, A, B, tr);
  }

  lemma SimLeaf(h: Host, T: set<Read>, fuel: nat, e: Node, w: Walk, A: Env, B: Env, tr: Trace)
    requires e.Nil? || e.Jump? || e.LocalLvalue? || e.Local? || e.Loop?
    requires Pre(T, e, w, A, B)
    ensures Post(T, e, w, Eval(h, {}, fuel, e, A, tr), Eval(h, T, fuel, e, B, tr))
  {
    match e
    case Local(_, _) => SimLocal(h, T, fuel, e, w, A, B, tr);
    case LocalLvalue(_) => StaleStays(T, w, e, Visit(e, false, w));
    case Loop(_, _, _, _) =>
      Screened(T, e, w, Visit(e, true, w));
      Blind(h, T, fuel, e, Stale(T, w), A, B, tr);
    case _ =>
  }

  lemma {:induction false} SimAssigning(h: Host, T: set<Read>, fuel: nat, e: Node, w: Walk, A: Env, B: Env, tr: Trace)
    requires e.VoidAssignLocal? || e.Assign? || e.Update?
    requires Pre(T, e, w, A, B)
    ensures Post(T, e, w, Eval(h, {}, fuel, e, A, tr), Eval(h, T, fuel, e, B, tr))
    decreases fuel, e, 2, 1
  {
    match e
    case VoidAssignLocal(x, rhs) => SimKill(h, T, fuel, rhs, x, w, A, B, tr);
    case Update(op, rhs, lv) => SimStore(h, T, fuel, e, op, rhs, lv, w, A, B, tr);
    case Assign(rhs, lv) =>
      if lv.LocalLvalue? { SimAssignLocal(h, T, fuel, e, w, A, B, tr); }
      else { SimStore(h, T, fuel, e, F_ASSIGN, rhs, lv, w, A, B, tr); }
  }

  lemma StillPossible(T: set<Read>, w: Walk, x: nat)
    requires x in Stale(T, w)
    ensures (x, w.refs[x]) in T * Possible(w)
    ensures Sound(w) ==> (x, w.refs[x]) !in w.done
  {
    assert (x, w.refs[x]) in Recorded(w);
  }

  lemma SimLocal(h: Host, T: set<Read>, fuel: nat, e: Node, w: Walk, A: Env, B: Env, tr: Trace)
    requires e.Local? && Pre(T, e, w, A, B)
    ensures Post(T, e, w, Eval(h, {}, fuel, e, A, tr), Eval(h, T, fuel, e, B, tr))
  {
    var w' := Visit(e, false, w);
    var x := e.x;
    if x in Stale(T, w) { StillPossible(T, w, x); assert false; }
    forall y | y in Stale(T, w) ensures y in Stale(T, w') {}
  }

  lemma {:induction false} SimUnary(h: Host, T: set<Read>, fuel: nat, e: Node, w: Walk, A: Env, B: Env, tr: Trace)
    requires e.Op? || e.Return? || e.Catch?
    requires Pre(T, e, w, A, B)
    ensures Post(T, e, w, Eval(h, {}, fuel, e, A, tr), Eval(h, T, fuel, e, B, tr))
    decreases fuel, e, 2, 0
  {
    match e
    case Op(_, args) => Sim(h, T, fuel, args, w, A, B, tr);
    case Return(r) => Sim(h, T, fuel, r, w, A, B, tr);
    case Catch(b) => Sim(h, T, fuel, b, w, A, B, tr);
  }

  /** A kill that makes no transfer changes nothing. */
  lemma NoKill(w: Walk, w1: Walk, x: nat)
    requires Sound(w1) && w.done <= w1.done && Kill(w1, x).done == w.done
    ensures Kill(w1, x) == w1 && w1.done == w.done
  {
    assert forall y | y in w1.refs :: (y, w1.refs[y]) in Recorded(w1);
  }

  /** A direct assignment brings the two frames together again at the local. */
  lemma {:induction false} SimKill(h: Host, T: set<Read>, fuel: nat, rhs: Node, x: nat, w: Walk, A: Env, B: Env, tr: Trace)
    requires Distinct(rhs) && CatchSafe(rhs, w) && Sound(w) && Reads(rhs) !! Possible(w) && AgreeExcept(A, B, Stale(T, w))
    requires T * (Possible(w) + Reads(rhs)) <= Possible(Kill(Visit(rhs, false, w), x))
    ensures var p, q := Eval(h, {}, fuel, rhs, A, tr), Eval(h, T, fuel, rhs, B, tr);
            var w2 := Kill(Visit(rhs, false, w), x);
            && p.out == q.out && p.tr == q.tr
            && (p.out.Normal? ==> AgreeExcept(p.env, q.env, Stale(T, w2) + {x}))
            && (!p.out.Normal? && w2.done == w.done ==> AgreeExcept(p.env, q.env, Stale(T, w2)))
    decreases fuel, rhs, 4
  {
    var w1 := Visit(rhs, false, w);
    var w2 := Kill(w1, x);
    assert Possible(w2) <= Possible(w1);
    Sim(h, T, fuel, rhs, w, A, B, tr);
    VisitKeeps(rhs, false, w);
    if w2.done == w.done { NoKill(w, w1, x); }
    forall y | y in Stale(T, w1) && y != x ensures y in Stale(T, w2) {}
  }

  lemma {:induction false} SimAssignLocal(h: Host, T: set<Read>, fuel: nat, e: Node, w: Walk, A: Env, B: Env, tr: Trace)
    requires e.Assign? && e.lv.LocalLvalue?
    requires Pre(T, e, w, A, B)
    ensures Post(T, e, w, Eval(h, {}, fuel, e, A, tr), Eval(h, T, fuel, e, B, tr))
    decreases fuel, e, 2, 0
  {
    var wk := Kill(Visit(e.rhs, false, w), e.lv.x);
    assert Visit(e, false, w) == wk by { assert wk.refs - {e.lv.x} == wk.refs; }
    assert Reads(e) == Reads(e.rhs);
    SimKill(h, T, fuel, e.rhs, e.lv.x, w, A, B, tr);
  }

  lemma {:induction false} SimStore(h: Host, T: set<Read>, fuel: nat, e: Node, op: int, rhs: Node, lv: Node, w: Walk, A: Env, B: Env, tr: Trace)
    requires e == Update(op, rhs, lv) || (op == F_ASSIGN && !lv.LocalLvalue? && e == Assign(rhs, lv))
    requires Pre(T, e, w, A, B)
    ensures Post(T, e, w, Eval(h, {}, fuel, e, A, tr), Eval(h, T, fuel, e, B, tr))
    decreases fuel, e, 2, 0
  {
    SimThen(h, T, fuel, e, rhs, lv, w, A, B, tr);
    var p, q := Eval(h, {}, fuel, rhs, A, tr), Eval(h, T, fuel, rhs, B, tr);
    if p.out.Normal? {
      var p1, q1 := Eval(h, {}, fuel, lv, p.env, p.tr), Eval(h, T, fuel, lv, q.env, q.tr);
      if p1.out.Normal? {
        var w1 := Visit(rhs, false, w);
        RootForgotten(lv, false, w1);
        ExecuteBlind(h, op, lv, p1.out.vs, p.out.vs, Stale(T, Visit(lv, false, w1)), p1.env, q1.env, p1.tr);
      }
    }
  }

  lemma {:induction false} SimBranch(h: Host, T: set<Read>, fuel: nat, e: Node, w: Walk, A: Env, B: Env, tr: Trace)
    requires e.ShortCircuit? || e.If?
    requires Pre(T, e, w, A, B)
    ensures Post(T, e, w, Eval(h, {}, fuel, e, A, tr), Eval(h, T, fuel, e, B, tr))
    decreases fuel, e, 2, 0
  {
    var c := if e.If? then e.c else e.l;
    var b := if e.If? then Pair(e.t, e.e) else e.r;
    SimThenBranch(h, T, fuel, c, b, w, A, B, tr);
    var p, q := Eval(h, {}, fuel, c, A, tr), Eval(h, T, fuel, c, B, tr);
    if p.out.Normal? {
      var D := Stale(T, Visit(c, false, w));
      if e.If? {
        Blind(h, T, fuel, if h.taken(0, Top(p.out.vs)) then e.t else e.e, D, p.env, q.env, p.tr);
      } else {
        Blind(h, T, fuel, e.r, D, p.env, q.env, p.tr);
      }
    }
  }

  lemma {:induction false} SimSwitch(h: Host, T: set<Read>, fuel: nat, e: Node, w: Walk, A: Env, B: Env, tr: Trace)
    requires e.Switch?
    requires Pre(T, e, w, A, B)
    ensures Post(T, e, w, Eval(h, {}, fuel, e, A, tr), Eval(h, T, fuel, e, B, tr))
    decreases fuel, e, 2, 0
  {
    SimThenBranch(h, T, fuel, e.sel, e.body, w, A, B, tr);
    var p, q := Eval(h, {}, fuel, e.sel, A, tr), Eval(h, T, fuel, e.sel, B, tr);
    if p.out.Normal? {
      BlindEnter(h, T, fuel, e.body, h.entry(e.kind, Top(p.out.vs)), Stale(T, Visit(e.sel, false, w)), p.env, q.env, p.tr);
    }
  }

  lemma {:induction false} SimLogical(h: Host, T: set<Read>, fuel: nat, e: Node, w: Walk, A: Env, B: Env, tr: Trace)
    requires e.LogicalAssign?
    requires Pre(T, e, w, A, B)
    ensures Post(T, e, w, Eval(h, {}, fuel, e, A, tr), Eval(h, T, fuel, e, B, tr))
    decreases fuel, e, 2, 0
  {
    var lv, rhs := e.lv, e.rhs;
    SimThenBranch(h, T, fuel, lv, rhs, w, A, B, tr);
    var D := Stale(T, Visit(lv, false, w));
    RootForgotten(lv, false, w);
    var p, q := Eval(h, {}, fuel, lv, A, tr), Eval(h, T, fuel, lv, B, tr);
    if p.out.Normal? {
      ExecuteBlind(h, e.kind, lv, p.out.vs, [], D, p.env, q.env, p.tr);
      var p1, q1 := Execute(h, e.kind, Root(lv), p.out.vs, [], p.env, p.tr), Execute(h, e.kind, Root(lv), p.out.vs, [], q.env, q.tr);
      Blind(h, T, fuel, rhs, D, p1.env, q1.env, p1.tr);
      var p2, q2 := Eval(h, {}, fuel, rhs, p1.env, p1.tr), Eval(h, T, fuel, rhs, q1.env, q1.tr);
      if p2.out.Normal? { ExecuteBlind(h, F_ASSIGN, lv, p.out.vs, p2.out.vs, D, p2.env, q2.env, p2.tr); }
    }
  }

  /** The pass preserves meaning: on every input and every host, with any bound on loop
    turns, the optimised body gives the same outcome and executes the same opcodes on the
    same operands in the same order, whatever a transfer leaves in its local. */
  lemma Preservation(h: Host, fuel: nat, e: Node, env: Env, tr: Trace)
    requires Distinct(e) && CatchSafe(e, Walk(map[], {}))
    ensures var p, q := Eval(h, {}, fuel, e, env, tr), Eval(h, Transfers(e), fuel, e, env, tr);
            p.out == q.out && p.tr == q.tr
  {
    Sim(h, Transfers(e), fuel, e, Walk(map[], {}), env, env, tr);
  }

  // ---------------------------------------------------------------------------
  // A machine whose transfers copy
  // ---------------------------------------------------------------------------

  /** F_TRANSFER_LOCAL leaves the local as it is, as the interpreter has it. */
  ghost predicate Copies(h: Host) { forall v :: h.leave(v) == v }

  /** Then transfers change nothing at all, in any tree, wherever they are. */
  lemma {:induction false} CopyingPreserves(h: Host, T: set<Read>, fuel: nat, e: Node, env: Env, tr: Trace)
    requires Copies(h)
    ensures Eval(h, T, fuel, e, env, tr) == Eval(h, {}, fuel, e, env, tr)
    decreases fuel, e, 2
  {
    match e
    case Nil | Local(_, _) | LocalLvalue(_) | Jump(_) =>
    case Op(_, _) | Return(_) | Catch(_) | VoidAssignLocal(_, _) => CopyingUnary(h, T, fuel, e, env, tr);
    case Pair(_, _) | Assign(_, _) | Update(_, _, _) | ShortCircuit(_, _, _) | If(_, _, _) =>
      CopyingBinary(h, T, fuel, e, env, tr);
    case Loop(testFirst, _, _, _) => CopyingTurn(h, T, fuel, e, testFirst, env, tr);
    case LogicalAssign(_, _, _) | Switch(_, _, _) => CopyingSelect(h, T, fuel, e, env, tr);
  }

  lemma {:induction false} CopyingUnary(h: Host, T: set<Read>, fuel: nat, e: Node, env: Env, tr: Trace)
    requires Copies(h) && (e.Op? || e.Return? || e.Catch? || e.VoidAssignLocal?)
    ensures Eval(h, T, fuel, e, env, tr) == Eval(h, {}, fuel, e, env, tr)
    decreases fuel, e, 1
  {
    match e
    case Op(_, args) => CopyingPreserves(h, T, fuel, args, env, tr);
    case Return(r) => CopyingPreserves(h, T, fuel, r, env, tr);
    case Catch(b) => CopyingPreserves(h, T, fuel, b, env, tr);
    case VoidAssignLocal(_, rhs) => CopyingPreserves(h, T, fuel, rhs, env, tr);
  }

  lemma {:induction false} CopyingBinary(h: Host, T: set<Read>, fuel: nat, e: Node, env: Env, tr: Trace)
    requires Copies(h) && (e.Pair? || e.Assign? || e.Update? || e.ShortCircuit? || e.If?)
    ensures Eval(h, T, fuel, e, env, tr) == Eval(h, {}, fuel, e, env, tr)
    decreases fuel, e, 1
  {
    match e
    case Pair(a, b) => CopyingThen(h, T, fuel, e, a, b, env, tr);
    case Assign(a, b) => CopyingThen(h, T, fuel, e, a, b, env, tr);
    case Update(_, a, b) => CopyingThen(h, T, fuel, e, a, b, env, tr);
    case ShortCircuit(_, a, b) => CopyingThen(h, T, fuel, e, a, b, env, tr);
    case If(c, t, f) =>
      CopyingThen(h, T, fuel, e, c, t, env, tr);
      CopyingThen(h, T, fuel, e, c, f, env, tr);
  }

  lemma {:induction false} CopyingSelect(h: Host, T: set<Read>, fuel: nat, e: Node, env: Env, tr: Trace)
    requires Copies(h) && (e.LogicalAssign? || e.Switch?)
    ensures Eval(h, T, fuel, e, env, tr) == Eval(h, {}, fuel, e, env, tr)
    decreases fuel, e, 1
  {
    var a := if e.Switch? then e.sel else e.lv;
    CopyingPreserves(h, T, fuel, a, env, tr);
    var p := Eval(h, T, fuel, a, env, tr);
    if p.out.Normal? {
      if e.Switch? {
        CopyingEnter(h, T, fuel, e.body, h.entry(e.kind, Top(p.out.vs)), p.env, p.tr);
      } else {
        var c := Execute(h, e.kind, Root(a), p.out.vs, [], p.env, p.tr);
        CopyingPreserves(h, T, fuel, e.rhs, c.env, c.tr);
      }
    }
  }

  lemma {:induction false} CopyingThen(h: Host, T: set<Read>, fuel: nat, e: Node, a: Node, b: Node, env: Env, tr: Trace)
    requires Copies(h) && a < e && b < e
    ensures Eval(h, T, fuel, a, env, tr) == Eval(h, {}, fuel, a, env, tr)
    ensures var r := Eval(h, T, fuel, a, env, tr);
            Eval(h, T, fuel, b, r.env, r.tr) == Eval(h, {}, fuel, b, r.env, r.tr)
    decreases fuel, e, 0
  {
    CopyingPreserves(h, T, fuel, a, env, tr);
    var r := Eval(h, T, fuel, a, env, tr);
    CopyingPreserves(h, T, fuel, b, r.env, r.tr);
  }

  lemma {:induction false} CopyingTurn(h: Host, T: set<Read>, fuel: nat, e: Node, atTest: bool, env: Env, tr: Trace)
    requires Copies(h) && e.Loop?
    ensures Turn(h, T, fuel, e, atTest, env, tr) == Turn(h, {}, fuel, e, atTest, env, tr)
    decreases fuel, e, 1
  {
    if fuel > 0 && atTest {
      CopyingPreserves(h, T, fuel, e.test, env, tr);
      var r := Eval(h, T, fuel, e.test, env, tr);
      CopyingTurn(h, T, fuel - 1, e, false, r.env, r.tr);
    } else if fuel > 0 {
      CopyingThen(h, T, fuel, e, e.body, e.inc, env, tr);
      var r := Eval(h, T, fuel, e.body, env, tr);
      var s := Eval(h, T, fuel, e.inc, r.env, r.tr);
      CopyingTurn(h, T, fuel - 1, e, true, s.env, s.tr);
    }
  }

  lemma {:induction false} CopyingEnter(h: Host, T: set<Read>, fuel: nat, body: Node, k: nat, env: Env, tr: Trace)
    requires Copies(h)
    ensures Enter(h, T, fuel, body, k, env, tr) == Enter(h, {}, fuel, body, k, env, tr)
    decreases fuel, body, 3
  {
    if k == 0 {
      CopyingPreserves(h, T, fuel, body, env, tr);
    } else if body.Pair? {
      CopyingEnter(h, T, fuel, body.b, k - 1, env, tr);
    }
  }

  // ---------------------------------------------------------------------------
  // A machine whose transfers do not
  // ---------------------------------------------------------------------------

  /** Opcode 2 fails and the others do not. */
  ghost predicate FailsAtTwo(h: Host) {
    && (forall ev, tr :: h.run(ev, tr).Error? <==> ev.op == 2)
    && (forall v, tr :: h.fetch(v, tr) == v)
  }

  const GUARDED: Node := Catch(Assign(Op(2, Nil), LocalLvalue(0)))

  /** `f(x); catch(x = g()); return x` */
  const UNSAFE: Node := Pair(Op(1, Local(0, 10)), Pair(GUARDED, Return(Local(0, 11))))

  lemma UnsafeTransfers()
    ensures Transfers(UNSAFE) == {(0, 10), (0, 11)}
  {
    var w1 := Visit(Op(1, Local(0, 10)), false, Walk(map[], {}));
    assert w1.refs == map[0 := 10];
    var w2 := Visit(GUARDED, false, w1);
    assert w2 == Walk(map[], {(0, 10)});
  }

  /** `f(x)` gives the local up, or not. */
  lemma UnsafeCall(h: Host, e: Node, T: set<Read>, fuel: nat, env: Env, tr: Trace)
    requires FailsAtTwo(h) && e == UNSAFE.a && (T == {} || T == {(0, 10), (0, 11)})
    ensures var r := Eval(h, T, fuel, e, env, tr);
            r.out.Normal? && Get(r.env, 0) == if T == {} then Get(env, 0) else h.leave(Get(env, 0))
  {
    assert Eval(h, T, fuel, e.args, env, tr).out == Normal([Get(env, 0)]);
  }

  /** `catch(x = g())` leaves it so. */
  lemma UnsafeCatch(h: Host, e: Node, T: set<Read>, fuel: nat, env: Env, tr: Trace)
    requires FailsAtTwo(h) && e == GUARDED
    ensures var s := Eval(h, T, fuel, e, env, tr); s.out.Normal? && s.env == env
  {
    var d := Eval(h, T, fuel, e.e.rhs, env, tr);
    assert d.out.Failed? && d.env == env by {
      assert Eval(h, T, fuel, Nil, env, tr).env == env;
    }
    assert Eval(h, T, fuel, e.e, env, tr) == d;
  }

  lemma UnsafeRun(h: Host, e: Node, T: set<Read>, fuel: nat, env: Env, tr: Trace)
    requires FailsAtTwo(h) && e == UNSAFE && (T == {} || T == {(0, 10), (0, 11)})
    ensures Eval(h, T, fuel, e, env, tr).out == Returned(if T == {} then Get(env, 0) else h.leave(Get(env, 0)))
  {
    UnsafeCall(h, e.a, T, fuel, env, tr);
    var r := Eval(h, T, fuel, e.a, env, tr);
    UnsafeCatch(h, e.b.a, T, fuel, r.env, r.tr);
    var s := Eval(h, T, fuel, e.b.a, r.env, r.tr);
    assert Eval(h, T, fuel, e.b.b, s.env, s.tr).out == Returned(Get(s.env, 0));
  }

  /** Outside the fragment of `Preservation` meaning depends on the transfer: where `g()`
    fails, this body returns the same exactly on the inputs whose local a transfer leaves as
    it is.  Were a transfer to clear the local, as the comment over the pass has it, that
    would be those where it is 0 already. */
  lemma UnsafePreservedIff(h: Host, e: Node, fuel: nat, env: Env, tr: Trace)
    requires FailsAtTwo(h) && e == UNSAFE
    ensures Distinct(e) && !CatchSafe(e, Walk(map[], {}))
    ensures Eval(h, {}, fuel, e, env, tr).out == Returned(Get(env, 0))
    ensures Eval(h, Transfers(e), fuel, e, env, tr).out == Eval(h, {}, fuel, e, env, tr).out
       <==> h.leave(Get(env, 0)) == Get(env, 0)
  {
    UnsafeTransfers();
    UnsafeRun(h, e, {}, fuel, env, tr);
    UnsafeRun(h, e, Transfers(e), fuel, env, tr);
    UnsafeIsDistinct(e);
    UnsafeIsNotSafe(e);
  }

  /** The walk arrives at the catch with the read of the call recorded, and transfers it. */
  lemma GuardedIsNotSafe(e: Node, w: Walk)
    requires e == GUARDED && w == Walk(map[0 := 10], {})
    ensures !CatchSafe(e, w)
  {
    assert Kill(w, 0).done == {(0, 10)};
    assert Visit(e.e.rhs, false, w) == w;
    assert Visit(e.e, false, w).done == {(0, 10)};
  }

  lemma UnsafeIsDistinct(e: Node)
    requires e == UNSAFE
    ensures Distinct(e)
  {
    assert Reads(e.a) == {(0, 10)} && Reads(e.b) == {(0, 11)};
  }

  lemma UnsafeIsNotSafe(e: Node)
    requires e == UNSAFE
    ensures !CatchSafe(e, Walk(map[], {}))
  {
    var w := Visit(e.a, false, Walk(map[], {}));
    assert w.refs == map[0 := 10];
    GuardedIsNotSafe(e.b.a, w);
    assert !CatchSafe(e.b, w);
  }
}
