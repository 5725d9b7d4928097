/** The dying-variable pass of the LPC compiler (src/compiler/internal/generate.cc).

  The pass walks the parse tree of one function in emission order.  It remembers, per
  local variable, the last read it met outside every loop and conditional, and turns
  that read into a transfer (read, then give the local up) when the local is next
  overwritten, or when the function ends.

  The tree is a value; the opcode of a read node, which the pass rewrites through a
  pointer, is named by the node's address `id`.
*/
module TransferLocals {

  // ---------------------------------------------------------------------------
  // Parse trees
  // ---------------------------------------------------------------------------

  /** A node pushes a (possibly empty) sequence of values, as the generated code does.
    `Op` stands for every opcode whose children are only walked in order: unary, binary
    and ternary operators, calls, efuns, function constructors, and, with no operands,
    constants.  Its operands are a `Pair` chain.  An lvalue is `LocalLvalue`, an `Op`
    (a global), or a `Pair` of an index and the lvalue it indexes. */
  datatype Node =
    | Nil
    | Local(x: nat, id: nat)
    | LocalLvalue(x: nat)
    | Op(op: int, args: Node)
    | Pair(a: Node, b: Node)
    | Assign(rhs: Node, lv: Node)
    | Update(op: int, rhs: Node, lv: Node)
    | VoidAssignLocal(x: nat, rhs: Node)
    | ShortCircuit(kind: int, l: Node, r: Node)
    | LogicalAssign(kind: int, lv: Node, rhs: Node)
    | If(c: Node, t: Node, e: Node)
    | Loop(testFirst: bool, body: Node, inc: Node, test: Node)
    | Switch(kind: int, sel: Node, body: Node)
    | Jump(isBreak: bool)
    | Return(e: Node)
    | Catch(e: Node)

  /** The address of a read node, with the local it reads. */
  type Read = (nat, nat)

  function Reads(e: Node): set<Read> {
    match e
    case Nil => {}
    case Local(x, id) => {(x, id)}
    case LocalLvalue(_) => {}
    case Op(_, args) => Reads(args)
    case Pair(a, b) => Reads(a) + Reads(b)
    case Assign(rhs, lv) => Reads(rhs) + Reads(lv)
    case Update(_, rhs, lv) => Reads(rhs) + Reads(lv)
    case VoidAssignLocal(_, rhs) => Reads(rhs)
    case ShortCircuit(_, l, r) => Reads(l) + Reads(r)
    case LogicalAssign(_, lv, rhs) => Reads(lv) + Reads(rhs)
    case If(c, t, f) => Reads(c) + Reads(t) + Reads(f)
    case Loop(_, body, inc, test) => Reads(body) + Reads(inc) + Reads(test)
    case Switch(_, sel, body) => Reads(sel) + Reads(body)
    case Jump(_) => {}
    case Return(r) => Reads(r)
    case Catch(b) => Reads(b)
  }

  /** Locals that are read, or whose address is taken, somewhere in `e`. */
  function Touches(e: Node): set<nat> {
    match e
    case Nil => {}
    case Local(x, _) => {x}
    case LocalLvalue(x) => {x}
    case Op(_, args) => Touches(args)
    case Pair(a, b) => Touches(a) + Touches(b)
    case Assign(rhs, lv) => Touches(rhs) + Touches(lv)
    case Update(_, rhs, lv) => Touches(rhs) + Touches(lv)
    case VoidAssignLocal(_, rhs) => Touches(rhs)
    case ShortCircuit(_, l, r) => Touches(l) + Touches(r)
    case LogicalAssign(_, lv, rhs) => Touches(lv) + Touches(rhs)
    case If(c, t, f) => Touches(c) + Touches(t) + Touches(f)
    case Loop(_, body, inc, test) => Touches(body) + Touches(inc) + Touches(test)
    case Switch(_, sel, body) => Touches(sel) + Touches(body)
    case Jump(_) => {}
    case Return(r) => Touches(r)
    case Catch(b) => Touches(b)
  }

  /** Every node of a parse tree is allocated once. */
  predicate Distinct(e: Node) {
    match e
    case Nil => true
    case Local(_, _) => true
    case LocalLvalue(_) => true
    case Op(_, args) => Distinct(args)
    case Pair(a, b) => Distinct(a) && Distinct(b) && Reads(a) !! Reads(b)
    case Assign(rhs, lv) => Distinct(rhs) && Distinct(lv) && Reads(rhs) !! Reads(lv)
    case Update(_, rhs, lv) => Distinct(rhs) && Distinct(lv) && Reads(rhs) !! Reads(lv)
    case VoidAssignLocal(_, rhs) => Distinct(rhs)
    case ShortCircuit(_, l, r) => Distinct(l) && Distinct(r) && Reads(l) !! Reads(r)
    case LogicalAssign(_, lv, rhs) => Distinct(lv) && Distinct(rhs) && Reads(lv) !! Reads(rhs)
    case If(c, t, f) =>
      Distinct(c) && Distinct(t) && Distinct(f) && Reads(c) !! Reads(t) && Reads(c) + Reads(t) !! Reads(f)
    case Loop(_, body, inc, test) =>
      Distinct(body) && Distinct(inc) && Distinct(test) && Reads(body) !! Reads(inc) && Reads(body) + Reads(inc) !! Reads(test)
    case Switch(_, sel, body) => Distinct(sel) && Distinct(body) && Reads(sel) !! Reads(body)
    case Jump(_) => true
    case Return(r) => Distinct(r)
    case Catch(b) => Distinct(b)
  }

  // ---------------------------------------------------------------------------
  // What the generated code does
  // ---------------------------------------------------------------------------

  type Env = map<nat, int>

  function Get(env: Env, x: nat): int { if x in env then env[x] else 0 }

  /** Everything outside the frame is a function of the history of executed opcodes. */
  datatype Event = Event(op: int, base: seq<int>, path: seq<int>, operands: seq<int>)
  type Trace = seq<Event>

  datatype Reply = Done(push: seq<int>, stored: int) | Error(code: int)

  /** The rest of the machine: what an opcode answers, what reading a variable that may
    hold a destructed object gives, how branches and switches decide, and what a transfer
    leaves behind in the local.  Nothing is assumed of any of them. */
  datatype Host = Host(
    run: (Event, Trace) -> Reply,
    fetch: (int, Trace) -> int,
    taken: (int, int) -> bool,
    entry: (int, int) -> nat,
    leave: int -> int)

  datatype Outcome =
    | Normal(vs: seq<int>)
    | Returned(v: int)
    | Failed(code: int)
    | Broke
    | Continued
    | OutOfFuel

  datatype Result = Result(out: Outcome, env: Env, tr: Trace)

  function Top(vs: seq<int>): int { if |vs| == 0 then 0 else vs[|vs| - 1] }

  /** The local an lvalue node ends in, if any. */
  function Root(lv: Node): seq<nat>
    ensures |Root(lv)| <= 1
    ensures forall x <- Root(lv) :: x in Touches(lv)
  {
    match lv
    case LocalLvalue(x) => [x]
    case Pair(_, b) => Root(b)
    case _ => []
  }

  /** Executes one opcode on `operands`; through an lvalue it also reads and replaces the
    local the lvalue is rooted in. */
  function Execute(h: Host, op: int, root: seq<nat>, path: seq<int>, operands: seq<int>, env: Env, tr: Trace): Result {
    var base := if |root| == 0 then [] else [Get(env, root[0])];
    var ev := Event(op, base, path, operands);
    match h.run(ev, tr)
    case Error(code) => Result(Failed(code), env, tr + [ev])
    case Done(push, stored) =>
      Result(Normal(push), if |root| == 0 then env else env[root[0] := stored], tr + [ev])
  }

  const F_ASSIGN := 0

  /** Evaluates `e` when the reads in `T` have become transfers.  `fuel` bounds the turns
    of every loop. */
  function Eval(h: Host, T: set<Read>, fuel: nat, e: Node, env: Env, tr: Trace): Result
    decreases fuel, e, 1
  {
    match e
    case Nil => Result(Normal([]), env, tr)
    case Local(x, id) =>
      var v := h.fetch(Get(env, x), tr);
      Result(Normal([v]), env[x := if (x, id) in T then h.leave(v) else v], tr)
    case LocalLvalue(_) => Result(Normal([]), env, tr)
    case Op(op, args) =>
      var r := Eval(h, T, fuel, args, env, tr);
      if !r.out.Normal? then r else Execute(h, op, [], [], r.out.vs, r.env, r.tr)
    case Pair(a, b) =>
      var r := Eval(h, T, fuel, a, env, tr);
      if !r.out.Normal? then r else
      var s := Eval(h, T, fuel, b, r.env, r.tr);
      if !s.out.Normal? then s else Result(Normal(r.out.vs + s.out.vs), s.env, s.tr)
    case Assign(rhs, lv) =>
      var r := Eval(h, T, fuel, rhs, env, tr);
      if !r.out.Normal? then r else
      if lv.LocalLvalue? then Result(r.out, r.env[lv.x := Top(r.out.vs)], r.tr) else
      var s := Eval(h, T, fuel, lv, r.env, r.tr);
      if !s.out.Normal? then s else Execute(h, F_ASSIGN, Root(lv), s.out.vs, r.out.vs, s.env, s.tr)
    case Update(op, rhs, lv) =>
      var r := Eval(h, T, fuel, rhs, env, tr);
      if !r.out.Normal? then r else
      var s := Eval(h, T, fuel, lv, r.env, r.tr);
      if !s.out.Normal? then s else Execute(h, op, Root(lv), s.out.vs, r.out.vs, s.env, s.tr)
    case VoidAssignLocal(x, rhs) =>
      var r := Eval(h, T, fuel, rhs, env, tr);
      if !r.out.Normal? then r else Result(Normal([]), r.env[x := Top(r.out.vs)], r.tr)
    case ShortCircuit(kind, l, r) =>
      var s := Eval(h, T, fuel, l, env, tr);
      if !s.out.Normal? || h.taken(kind, Top(s.out.vs)) then s else Eval(h, T, fuel, r, s.env, s.tr)
    case LogicalAssign(kind, lv, rhs) =>
      var p := Eval(h, T, fuel, lv, env, tr);
      if !p.out.Normal? then p else
      var c := Execute(h, kind, Root(lv), p.out.vs, [], p.env, p.tr);
      if !c.out.Normal? || h.taken(kind, Top(c.out.vs)) then c else
      var r := Eval(h, T, fuel, rhs, c.env, c.tr);
      if !r.out.Normal? then r else Execute(h, F_ASSIGN, Root(lv), p.out.vs, r.out.vs, r.env, r.tr)
    case If(c, t, f) =>
      var r := Eval(h, T, fuel, c, env, tr);
      if !r.out.Normal? then r else
      Eval(h, T, fuel, if h.taken(0, Top(r.out.vs)) then t else f, r.env, r.tr)
    case Loop(testFirst, _, _, _) => Turn(h, T, fuel, e, testFirst, env, tr)
    case Switch(kind, sel, body) =>
      var r := Eval(h, T, fuel, sel, env, tr);
      if !r.out.Normal? then r else
      var s := Enter(h, T, fuel, body, h.entry(kind, Top(r.out.vs)), r.env, r.tr);
      if s.out.Broke? then s.(out := Normal([])) else s
    case Jump(isBreak) => Result(if isBreak then Broke else Continued, env, tr)
    case Return(r) =>
      var s := Eval(h, T, fuel, r, env, tr);
      if !s.out.Normal? then s else s.(out := Returned(Top(s.out.vs)))
    case Catch(b) =>
      var s := Eval(h, T, fuel, b, env, tr);
      if s.out.Failed? then s.(out := Normal([s.out.code]))
      else if s.out.Normal? then s.(out := Normal([0])) else s
  }

  /** One turn of a loop, entered at its test or at its body. */
  function Turn(h: Host, T: set<Read>, fuel: nat, e: Node, atTest: bool, env: Env, tr: Trace): Result
    requires e.Loop?
    decreases fuel, e, 0
  {
    if fuel == 0 then Result(OutOfFuel, env, tr)
    else if atTest then
      var r := Eval(h, T, fuel, e.test, env, tr);
      if !r.out.Normal? then r
      else if e.test.Nil? || h.taken(0, Top(r.out.vs)) then Turn(h, T, fuel - 1, e, false, r.env, r.tr)
      else r.(out := Normal([]))
    else
      var r := Eval(h, T, fuel, e.body, env, tr);
      if r.out.Broke? then r.(out := Normal([]))
      else if !r.out.Normal? && !r.out.Continued? then r else
      var s := Eval(h, T, fuel, e.inc, r.env, r.tr);
      if !s.out.Normal? then s else Turn(h, T, fuel - 1, e, true, s.env, s.tr)
  }

  /** The statements of a switch block from the `k`-th on. */
  function Enter(h: Host, T: set<Read>, fuel: nat, body: Node, k: nat, env: Env, tr: Trace): Result
    decreases fuel, body, 2
  {
    if k == 0 then Eval(h, T, fuel, body, env, tr)
    else if body.Pair? then Enter(h, T, fuel, body.b, k - 1, env, tr)
    else Result(Normal([]), env, tr)
  }

  // ---------------------------------------------------------------------------
  // The pass, as a function
  // ---------------------------------------------------------------------------

  /** `refs` is last_local_refs without its null entries; `done` the reads made transfers. */
  datatype Walk = Walk(refs: map<nat, nat>, done: set<Read>)

  /** A direct assignment outside loops and conditionals kills the local. */
  function Kill(w: Walk, x: nat): Walk {
    if x in w.refs then Walk(w.refs - {x}, w.done + {(x, w.refs[x])}) else w
  }

  /** `nested` says that optimizer_state is non-zero. */
  function Visit(e: Node, nested: bool, w: Walk): Walk {
    match e
    case Nil => w
    case Local(x, id) => w.(refs := if nested then w.refs - {x} else w.refs[x := id])
    case LocalLvalue(x) => w.(refs := w.refs - {x})
    case Op(_, args) => Visit(args, nested, w)
    case Pair(a, b) => Visit(b, nested, Visit(a, nested, w))
    case Assign(rhs, lv) =>
      var w1 := Visit(rhs, nested, w);
      Visit(lv, nested, if lv.LocalLvalue? && !nested then Kill(w1, lv.x) else w1)
    case Update(_, rhs, lv) => Visit(lv, nested, Visit(rhs, nested, w))
    case VoidAssignLocal(x, rhs) =>
      var w1 := Visit(rhs, nested, w);
      if nested then w1 else Kill(w1, x)
    case ShortCircuit(_, l, r) => Visit(r, true, Visit(l, nested, w))
    case LogicalAssign(_, lv, rhs) => Visit(rhs, true, Visit(lv, nested, w))
    case If(c, t, f) => Visit(f, true, Visit(t, true, Visit(c, nested, w)))
    case Loop(_, body, inc, test) => Visit(test, true, Visit(inc, true, Visit(body, true, w)))
    case Switch(_, sel, body) => Visit(body, true, Visit(sel, nested, w))
    case Jump(_) => w
    case Return(r) => Visit(r, nested, w)
    case Catch(b) => Visit(b, nested, w)
  }

  function Recorded(w: Walk): set<Read> { set x | x in w.refs :: (x, w.refs[x]) }

  /** Reads that are, or may still become, transfers. */
  function Possible(w: Walk): set<Read> { w.done + Recorded(w) }

  /** The reads the pass turns into transfers in a function body. */
  function Transfers(e: Node): set<Read> { Possible(Visit(e, false, Walk(map[], {}))) }
}
