/** Which reads the dying-variable pass turns into transfers, said without the pass.

  A function body is flattened into the marks its walk meets.  A read becomes a transfer
  exactly when it lies outside loops and conditionals and the next mark of its local, if
  there is one, is a direct assignment. */
module TransferLocalsMarks {
  import opened TransferLocals

  datatype Mark =
    | ReadAt(x: nat, id: nat)   // a read outside loops and conditionals
    | Touch(x: nat)             // any other read, or the address of the local
    | KillAt(x: nat)            // a direct assignment outside loops and conditionals

  function Marks(e: Node, nested: bool): seq<Mark> {
    match e
    case Nil => []
    case Local(x, id) => if nested then [Touch(x)] else [ReadAt(x, id)]
    case LocalLvalue(x) => [Touch(x)]
    case Op(_, args) => Marks(args, nested)
    case Pair(a, b) => Marks(a, nested) + Marks(b, nested)
    case Assign(rhs, lv) =>
      Marks(rhs, nested) + (if lv.LocalLvalue? && !nested then [KillAt(lv.x)] else []) + Marks(lv, nested)
    case Update(_, rhs, lv) => Marks(rhs, nested) + Marks(lv, nested)
    case VoidAssignLocal(x, rhs) => Marks(rhs, nested) + (if nested then [] else [KillAt(x)])
    case ShortCircuit(_, l, r) => Marks(l, nested) + Marks(r, true)
    case LogicalAssign(_, lv, rhs) => Marks(lv, nested) + Marks(rhs, true)
    case If(c, t, f) => Marks(c, nested) + Marks(t, true) + Marks(f, true)
    case Loop(_, body, inc, test) => Marks(body, true) + Marks(inc, true) + Marks(test, true)
    case Switch(_, sel, body) => Marks(sel, nested) + Marks(body, true)
    case Jump(_) => []
    case Return(r) => Marks(r, nested)
    case Catch(b) => Marks(b, nested)
  }

  /** `i` is a read that is the last mark of its local before `j`. */
  predicate LastBefore(ms: seq<Mark>, i: nat, j: nat) {
    i < j <= |ms| && ms[i].ReadAt? && forall k | i < k < j :: ms[k].x != ms[i].x
  }

  predicate RecordedBy(ms: seq<Mark>, r: Read) {
    exists i: nat | i < |ms| :: ms[i] == ReadAt(r.0, r.1) && LastBefore(ms, i, |ms|)
  }

  predicate KilledBy(ms: seq<Mark>, r: Read) {
    exists i: nat, j: nat | i < j < |ms| :: ms[i] == ReadAt(r.0, r.1) && LastBefore(ms, i, j) && ms[j] == KillAt(r.0)
  }

  function Step(w: Walk, m: Mark): Walk {
    match m
    case ReadAt(x, id) => w.(refs := w.refs[x := id])
    case Touch(x) => w.(refs := w.refs - {x})
    case KillAt(x) => Kill(w, x)
  }

  function Fold(w: Walk, ms: seq<Mark>): Walk {
    if |ms| == 0 then w else Step(Fold(w, ms[..|ms| - 1]), ms[|ms| - 1])
  }

  lemma {:induction false} FoldConcat(w: Walk, a: seq<Mark>, b: seq<Mark>)
    ensures Fold(w, a + b) == Fold(Fold(w, a), b)
  {
    if |b| == 0 {
      assert a + b == a;
    } else {
      assert (a + b)[..|a + b| - 1] == a + b[..|b| - 1];
      FoldConcat(w, a, b[..|b| - 1]);
    }
  }

  lemma {:induction false} VisitIsFold(e: Node, nested: bool, w: Walk)
    ensures Visit(e, nested, w) == Fold(w, Marks(e, nested))
    decreases e, 1
  {
    match e
    case Nil | Jump(_) =>
    case Local(_, _) | LocalLvalue(_) => assert Fold(w, Marks(e, nested)[..0]) == w;
    case Op(_, args) => VisitIsFold(args, nested, w);
    case Pair(a, b) => VisitIsFold2(e, a, nested, b, nested, w);
    case Assign(_, _) => VisitIsFoldAssign(e, nested, w);
    case Update(_, rhs, lv) => VisitIsFold2(e, rhs, nested, lv, nested, w);
    case VoidAssignLocal(x, rhs) =>
      VisitIsFold(rhs, nested, w);
      assert Fold(Visit(rhs, nested, w), [KillAt(x)][..0]) == Visit(rhs, nested, w);
      FoldConcat(w, Marks(rhs, nested), if nested then [] else [KillAt(x)]);
    case ShortCircuit(_, l, r) => VisitIsFold2(e, l, nested, r, true, w);
    case LogicalAssign(_, lv, rhs) => VisitIsFold2(e, lv, nested, rhs, true, w);
    case If(c, t, f) => VisitIsFold3(e, c, nested, t, true, f, true, w);
    case Loop(_, body, inc, test) => VisitIsFold3(e, body, true, inc, true, test, true, w);
    case Switch(_, sel, body) => VisitIsFold2(e, sel, nested, body, true, w);
    case Return(r) => VisitIsFold(r, nested, w);
    case Catch(b) => VisitIsFold(b, nested, w);
  }

  lemma {:induction false} VisitIsFoldAssign(e: Node, nested: bool, w: Walk)
    requires e.Assign?
    ensures Visit(e, nested, w) == Fold(w, Marks(e, nested))
    decreases e, 0
  {
    var rhs, lv := e.rhs, e.lv;
    VisitIsFold(rhs, nested, w);
    var kill := if lv.LocalLvalue? && !nested then [KillAt(lv.x)] else [];
    var w1 := Visit(rhs, nested, w);
    FoldConcat(w, Marks(rhs, nested), kill);
    assert kill != [] ==> Fold(w1, kill[..0]) == w1;
    FoldConcat(w, Marks(rhs, nested) + kill, Marks(lv, nested));
    VisitIsFold(lv, nested, Fold(w1, kill));
  }

  lemma {:induction false} VisitIsFold3(e: Node, a: Node, m: bool, b: Node, n: bool, c: Node, o: bool, w: Walk)
    requires a < e && b < e && c < e
    ensures Visit(c, o, Visit(b, n, Visit(a, m, w))) == Fold(w, Marks(a, m) + Marks(b, n) + Marks(c, o))
    decreases e, 0
  {
    VisitIsFold(a, m, w);
    VisitIsFold(b, n, Visit(a, m, w));
    VisitIsFold(c, o, Visit(b, n, Visit(a, m, w)));
    FoldConcat(w, Marks(a, m), Marks(b, n));
    FoldConcat(w, Marks(a, m) + Marks(b, n), Marks(c, o));
  }

  lemma {:induction false} VisitIsFold2(e: Node, a: Node, m: bool, b: Node, n: bool, w: Walk)
    requires a < e && b < e
    ensures Visit(b, n, Visit(a, m, w)) == Fold(w, Marks(a, m) + Marks(b, n))
    decreases e, 0
  {
    VisitIsFold(a, m, w);
    VisitIsFold(b, n, Visit(a, m, w));
    FoldConcat(w, Marks(a, m), Marks(b, n));
  }

  // ---------------------------------------------------------------------------
  // The walk records, and transfers, exactly the reads described above
  // ---------------------------------------------------------------------------

  lemma {:induction false} FoldDescribed(ms: seq<Mark>, r: Read)
    ensures var w := Fold(Walk(map[], {}), ms);
            (r in Recorded(w) <==> RecordedBy(ms, r)) && (r in w.done <==> KilledBy(ms, r))
  {
    if |ms| > 0 {
      var n := |ms| - 1;
      FoldDescribed(ms[..n], r);
      StepDescribed(Fold(Walk(map[], {}), ms[..n]), ms[n], r);
      RecordedStep(ms, r);
      KilledStep(ms, r);
    }
  }

  lemma StepDescribed(w: Walk, m: Mark, r: Read)
    ensures r in Recorded(Step(w, m)) <==> m == ReadAt(r.0, r.1) || (m.x != r.0 && r in Recorded(w))
    ensures r in Step(w, m).done <==> r in w.done || (m == KillAt(r.0) && r in Recorded(w))
  {
    var w' := Step(w, m);
    assert r in Recorded(w) <==> r.0 in w.refs && w.refs[r.0] == r.1;
    assert r in Recorded(w') <==> r.0 in w'.refs && w'.refs[r.0] == r.1;
  }

  lemma RecordedStep(ms: seq<Mark>, r: Read)
    requires |ms| > 0
    ensures var n := |ms| - 1; var m := ms[n];
            RecordedBy(ms, r) <==> m == ReadAt(r.0, r.1) || (m.x != r.0 && RecordedBy(ms[..n], r))
  {
    var n := |ms| - 1;
    if RecordedBy(ms, r) && ms[n] != ReadAt(r.0, r.1) {
      var i: nat :| i < |ms| && ms[i] == ReadAt(r.0, r.1) && LastBefore(ms, i, |ms|);
      assert LastBefore(ms[..n], i, n);
    }
    if ms[n].x != r.0 && RecordedBy(ms[..n], r) {
      var i: nat :| i < n && ms[..n][i] == ReadAt(r.0, r.1) && LastBefore(ms[..n], i, n);
      assert forall k | i < k < |ms| :: k < n ==> ms[k] == ms[..n][k];
      assert LastBefore(ms, i, |ms|);
    }
    if ms[n] == ReadAt(r.0, r.1) {
      assert LastBefore(ms, n, |ms|);
    }
  }

  lemma KilledStep(ms: seq<Mark>, r: Read)
    requires |ms| > 0
    ensures var n := |ms| - 1;
            KilledBy(ms, r) <==> KilledBy(ms[..n], r) || (ms[n] == KillAt(r.0) && RecordedBy(ms[..n], r))
  {
    var n := |ms| - 1;
    var us := ms[..n];
    if KilledBy(ms, r) {
      var i: nat, j: nat :| i < j < |ms| && ms[i] == ReadAt(r.0, r.1) && LastBefore(ms, i, j) && ms[j] == KillAt(r.0);
      assert us[i] == ReadAt(r.0, r.1) && LastBefore(us, i, j);
      if j < n { assert us[j] == KillAt(r.0); }
    }
    if KilledBy(us, r) {
      var i: nat, j: nat :| i < j < n && us[i] == ReadAt(r.0, r.1) && LastBefore(us, i, j) && us[j] == KillAt(r.0);
      assert forall k | i < k < j :: ms[k] == us[k];
      assert LastBefore(ms, i, j);
    }
    if ms[n] == KillAt(r.0) && RecordedBy(us, r) {
      var i: nat :| i < n && us[i] == ReadAt(r.0, r.1) && LastBefore(us, i, n);
      assert forall k | i < k < n :: ms[k] == us[k];
      assert LastBefore(ms, i, n);
    }
  }

  /** Exactly which reads become transfers. */
  lemma TransfersDescribed(e: Node, r: Read)
    ensures var ms := Marks(e, false); r in Transfers(e) <==> RecordedBy(ms, r) || KilledBy(ms, r)
  {
    VisitIsFold(e, false, Walk(map[], {}));
    FoldDescribed(Marks(e, false), r);
  }
}
