/** The dying-variable pass in the form the compiler runs it: a recursive walk over the
  tree that updates last_local_refs and optimizer_state and rewrites opcodes in place. */
module Optimizer {
  import opened TransferLocals
  import opened TransferLocalsProof

  datatype Opcode = F_LOCAL | F_TRANSFER_LOCAL

  /** Every local mentioned in `e` has a slot in a frame of `n` locals. */
  predicate InFrame(e: Node, n: nat) {
    match e
    case Nil | Jump(_) => true
    case Local(x, _) => x < n
    case LocalLvalue(x) => x < n
    case Op(_, args) => InFrame(args, n)
    case Pair(a, b) => InFrame(a, n) && InFrame(b, n)
    case Assign(rhs, lv) => InFrame(rhs, n) && InFrame(lv, n)
    case Update(_, rhs, lv) => InFrame(rhs, n) && InFrame(lv, n)
    case VoidAssignLocal(x, rhs) => x < n && InFrame(rhs, n)
    case ShortCircuit(_, l, r) => InFrame(l, n) && InFrame(r, n)
    case LogicalAssign(_, lv, rhs) => InFrame(lv, n) && InFrame(rhs, n)
    case If(c, t, f) => InFrame(c, n) && InFrame(t, n) && InFrame(f, n)
    case Loop(_, body, inc, test) => InFrame(body, n) && InFrame(inc, n) && InFrame(test, n)
    case Switch(_, sel, body) => InFrame(sel, n) && InFrame(body, n)
    case Return(r) => InFrame(r, n)
    case Catch(b) => InFrame(b, n)
  }

  class FunctionOptimizer {
    const lastLocalRefs: array<int>   // a node address, or -1
    const opcode: array<Opcode>       // by node address
    var inLoop: bool                  // OPTIMIZER_IN_LOOP
    var inCond: bool                  // OPTIMIZER_IN_COND
    ghost const readNodes: set<Read>      // the read nodes of the function

    ghost predicate Valid()
      reads lastLocalRefs
    {
      && (forall r <- readNodes :: r.0 < lastLocalRefs.Length && r.1 < opcode.Length)
      && (forall r <- readNodes, s <- readNodes :: r.1 == s.1 ==> r == s)
      && (forall x: nat | x < lastLocalRefs.Length :: -1 <= lastLocalRefs[x])
      && (forall x: nat | x < lastLocalRefs.Length :: lastLocalRefs[x] != -1 ==> (x, lastLocalRefs[x]) in readNodes)
    }

    ghost function Abs(): Walk
      reads lastLocalRefs, opcode
      requires Valid()
    {
      Walk(map x: nat | x < lastLocalRefs.Length && lastLocalRefs[x] != -1 :: lastLocalRefs[x],
           set r | r in readNodes && opcode[r.1] == F_TRANSFER_LOCAL)
    }

    /** optimizer_start_function */
    constructor (n: nat, opcode: array<Opcode>, ghost nodes: set<Read>)
      requires forall r <- nodes :: r.0 < n && r.1 < opcode.Length && opcode[r.1] == F_LOCAL
      requires forall r <- nodes, s <- nodes :: r.1 == s.1 ==> r == s
      ensures Valid() && this.opcode == opcode && readNodes == nodes && fresh(lastLocalRefs) && lastLocalRefs.Length == n
      ensures Abs() == Walk(map[], {}) && !inLoop && !inCond
    {
      lastLocalRefs := new int[n](_ => -1);
      this.opcode := opcode;
      readNodes := nodes;
      inLoop, inCond := false, false;
    }

    ghost predicate Ready(e: Node)
      reads lastLocalRefs, opcode
    {
      && Valid() && Distinct(e) && InFrame(e, lastLocalRefs.Length) && Reads(e) <= readNodes
      && Sound(Abs()) && Reads(e) !! Possible(Abs())
    }

    method SetTransfer(x: nat)
      requires Valid() && x < lastLocalRefs.Length
      modifies opcode, lastLocalRefs
      ensures Valid() && Abs() == Kill(old(Abs()), x)
    {
      if lastLocalRefs[x] != -1 {
        ghost var w := Abs();
        opcode[lastLocalRefs[x]] := F_TRANSFER_LOCAL;
        lastLocalRefs[x] := -1;
        assert Abs().refs == w.refs - {x};
        assert Abs().done == w.done + {(x, w.refs[x])};
      }
    }

    method Record(x: nat, id: nat)
      requires Valid() && (x, id) in readNodes
      modifies lastLocalRefs
      ensures Valid() && Abs() == old(Abs()).(refs := old(Abs()).refs[x := id])
    {
      ghost var w := Abs();
      lastLocalRefs[x] := id;
      assert Abs().refs == w.refs[x := id];
    }

    method Forget(x: nat)
      requires Valid() && x < lastLocalRefs.Length
      modifies lastLocalRefs
      ensures Valid() && Abs() == old(Abs()).(refs := old(Abs()).refs - {x})
    {
      ghost var w := Abs();
      lastLocalRefs[x] := -1;
      assert Abs().refs == w.refs - {x};
    }

    /** optimize */
    method Optimize(e: Node)
      requires Ready(e)
      modifies this`inLoop, this`inCond, opcode, lastLocalRefs
      ensures Valid() && inLoop == old(inLoop) && inCond == old(inCond)
      ensures Abs() == Visit(e, inLoop || inCond, old(Abs()))
      decreases e, 3
    {
      match e
      case Nil | Jump(_) =>
      case Local(x, id) => if !(inLoop || inCond) { Record(x, id); } else { Forget(x); }
      case LocalLvalue(x) => Forget(x);
      case Op(_, args) => Optimize(args);
      case Pair(a, b) => OptimizeBoth(e, a, b);
      case Assign(_, _) => OptimizeAssign(e);
      case Update(_, rhs, lv) => OptimizeBoth(e, rhs, lv);
      case VoidAssignLocal(x, rhs) =>
        Optimize(rhs);
        if !(inLoop || inCond) {
          SetTransfer(x);
        }
      case ShortCircuit(_, l, r) => OptimizeThenBranch(e, l, r);
      case LogicalAssign(_, lv, rhs) => OptimizeThenBranch(e, lv, rhs);
      case If(_, _, _) => OptimizeIf(e);
      case Loop(_, _, _, _) => OptimizeLoop(e);
      case Switch(_, sel, body) => OptimizeThenBranch(e, sel, body);
      case Return(r) => Optimize(r);
      case Catch(b) => Optimize(b);
    }

    method OptimizeAssign(e: Node)
      requires e.Assign? && Ready(e)
      modifies this`inLoop, this`inCond, opcode, lastLocalRefs
      ensures Valid() && inLoop == old(inLoop) && inCond == old(inCond)
      ensures Abs() == Visit(e, inLoop || inCond, old(Abs()))
      decreases e, 0
    {
      ghost var w := Abs();
      Optimize(e.rhs);
      VisitKeeps(e.rhs, inLoop || inCond, w);
      if e.lv.LocalLvalue? {
        assert InFrame(e.lv, lastLocalRefs.Length);
        if !(inLoop || inCond) {
          SetTransfer(e.lv.x);
        }
      }
      Optimize(e.lv);
    }

    method OptimizeIf(e: Node)
      requires e.If? && Ready(e)
      modifies this`inLoop, this`inCond, opcode, lastLocalRefs
      ensures Valid() && inLoop == old(inLoop) && inCond == old(inCond)
      ensures Abs() == Visit(e, inLoop || inCond, old(Abs()))
      decreases e, 2
    {
      ghost var w := Abs();
      OptimizeThenBranch(e, e.c, e.t);
      VisitKeeps(e.c, inLoop || inCond, w);
      VisitKeeps(e.t, true, Visit(e.c, inLoop || inCond, w));
      OptimizeBranch(e, e.e);
    }

    /** Walks `a`, then `b` as part of a conditional. */
    method OptimizeThenBranch(ghost e: Node, a: Node, b: Node)
      requires a < e && b < e
      requires Ready(a) && Ready(b) && Reads(a) !! Reads(b)
      modifies this`inLoop, this`inCond, opcode, lastLocalRefs
      ensures Valid() && inLoop == old(inLoop) && inCond == old(inCond)
      ensures Abs() == Visit(b, true, Visit(a, inLoop || inCond, old(Abs())))
      decreases e, 1
    {
      ghost var w := Abs();
      Optimize(a);
      VisitKeeps(a, inLoop || inCond, w);
      OptimizeBranch(e, b);
    }

    method OptimizeBoth(ghost e: Node, a: Node, b: Node)
      requires a < e && b < e
      requires Ready(a) && Ready(b) && Reads(a) !! Reads(b)
      modifies this`inLoop, this`inCond, opcode, lastLocalRefs
      ensures Valid() && inLoop == old(inLoop) && inCond == old(inCond)
      ensures Abs() == Visit(b, inLoop || inCond, Visit(a, inLoop || inCond, old(Abs())))
      decreases e, 0
    {
      ghost var w := Abs();
      Optimize(a);
      VisitKeeps(a, inLoop || inCond, w);
      Optimize(b);
    }

    /** Sets OPTIMIZER_IN_COND around `b` and restores it. */
    method OptimizeBranch(ghost e: Node, b: Node)
      requires b < e && Ready(b)
      modifies this`inLoop, this`inCond, opcode, lastLocalRefs
      ensures Valid() && inLoop == old(inLoop) && inCond == old(inCond)
      ensures Abs() == Visit(b, true, old(Abs()))
      decreases e, 0
    {
      var saved := inCond;
      inCond := true;
      Optimize(b);
      inCond := saved;
    }

    /** Sets OPTIMIZER_IN_LOOP around the parts of a loop and restores it. */
    method OptimizeLoop(e: Node)
      requires e.Loop? && Ready(e)
      modifies this`inLoop, this`inCond, opcode, lastLocalRefs
      ensures Valid() && inLoop == old(inLoop) && inCond == old(inCond)
      ensures Abs() == Visit(e, true, old(Abs()))
      decreases e, 0
    {
      ghost var w := Abs();
      var saved := inLoop;
      inLoop := true;
      Optimize(e.body);
      VisitKeeps(e.body, true, w);
      ghost var w1 := Abs();
      Optimize(e.inc);
      VisitKeeps(e.inc, true, w1);
      Optimize(e.test);
      inLoop := saved;
    }

    /** optimizer_end_function: what is still recorded when the function ends is dead. */
    method EndFunction()
      requires Valid()
      modifies opcode
      ensures Valid() && Abs().done == Possible(old(Abs()))
    {
      ghost var w := Abs();
      for i := 0 to lastLocalRefs.Length
        invariant Valid()
        invariant forall r <- readNodes ::
          opcode[r.1] == F_TRANSFER_LOCAL <==> r in w.done || (r.0 < i && lastLocalRefs[r.0] == r.1)
      {
        if lastLocalRefs[i] != -1 {
          opcode[lastLocalRefs[i]] := F_TRANSFER_LOCAL;
        }
      }
      forall r ensures r in Recorded(w) <==> r in readNodes && lastLocalRefs[r.0] == r.1 {
        if r in Recorded(w) { assert r.0 in w.refs && w.refs[r.0] == r.1; }
        if r in readNodes && lastLocalRefs[r.0] == r.1 { assert r.0 in w.refs && w.refs[r.0] == r.1; }
      }
    }
  }

  /** The optimising half of generate_function.  Afterwards exactly the reads in
    `Transfers(e)` are transfers, so that `Preservation` is about the code emitted. */
  method GenerateFunction(e: Node, n: nat, opcode: array<Opcode>, pragmaOptimize: bool)
    requires Distinct(e) && InFrame(e, n)
    requires forall r <- Reads(e) :: r.0 < n && r.1 < opcode.Length && opcode[r.1] == F_LOCAL
    requires forall r <- Reads(e), s <- Reads(e) :: r.1 == s.1 ==> r == s
    modifies opcode
    ensures forall r <- Reads(e) ::
      opcode[r.1] == F_TRANSFER_LOCAL <==> pragmaOptimize && r in Transfers(e)
  {
    if pragmaOptimize {
      var o := new FunctionOptimizer(n, opcode, Reads(e));
      o.Optimize(e);
      VisitKeeps(e, false, Walk(map[], {}));
      o.EndFunction();
      assert forall r <- Reads(e) :: opcode[r.1] == F_TRANSFER_LOCAL <==> r in o.Abs().done;
    }
  }
}
