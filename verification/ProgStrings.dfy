/** The table of strings a program under compilation refers to, as a plain list of slots,
  and what sequences of stores and frees do to it (src/compiler/internal/compiler.cc).

  A string is its shared-string pointer: `SharedStrings` says why equal contents are equal
  pointers.  The null pointer is 0. */
module ProgStrings {
  type Ptr = nat
  const NULL: Ptr := 0

  /** A free slot holds NULL and count 0. */
  datatype Slot = Slot(str: Ptr, count: nat)
  const FREE := Slot(NULL, 0)

  type Table = seq<Slot>

  predicate Live(t: Table, i: int) { 0 <= i < |t| && t[i].str != NULL }

  predicate WellFormed(t: Table) {
    && (forall i | 0 <= i < |t| :: if t[i].str == NULL then t[i] == FREE else t[i].count > 0)
    && (forall i, j | 0 <= i < |t| && 0 <= j < |t| && Live(t, i) && Live(t, j) :: t[i].str == t[j].str ==> i == j)
  }

  /** The least index of a slot holding `p` from `from` on, or -1. */
  function Find(t: Table, p: Ptr, from: nat): (i: int)
    ensures i == -1 || (from <= i < |t| && t[i].str == p)
    ensures forall j | from <= j < |t| && (i == -1 || j < i) :: t[j].str != p
    decreases |t| - from
  {
    if from >= |t| then -1 else if t[from].str == p then from else Find(t, p, from + 1)
  }

  /** What freed_string holds. */
  function LeastFree(t: Table): int { Find(t, NULL, 0) }

  function StoreIndex(t: Table, p: Ptr): nat {
    var i := Find(t, p, 0);
    if i >= 0 then i else if LeastFree(t) >= 0 then LeastFree(t) else |t|
  }

  function Stored(t: Table, p: Ptr): Table {
    var i := StoreIndex(t, p);
    if Find(t, p, 0) >= 0 then t[i := Slot(p, t[i].count + 1)]
    else if i < |t| then t[i := Slot(p, 1)]
    else t + [Slot(p, 1)]
  }

  /** The last slot is dropped rather than left free. */
  function Freed(t: Table, i: nat): Table
    requires Live(t, i)
  {
    if t[i].count > 1 then t[i := Slot(t[i].str, t[i].count - 1)]
    else if i == |t| - 1 then t[..i]
    else t[i := FREE]
  }

  /** How often the string is referred to. */
  function CountOf(t: Table, p: Ptr): nat {
    var i := Find(t, p, 0);
    if i >= 0 then t[i].count else 0
  }

  // ---------------------------------------------------------------------------
  // Runs
  // ---------------------------------------------------------------------------

  datatype Op = Store(p: Ptr) | Free(i: nat)

  /** Only a live index is freed, and the null pointer is not stored. */
  predicate Allowed(t: Table, op: Op) {
    match op case Store(p) => p != NULL case Free(i) => Live(t, i)
  }

  function Do(t: Table, op: Op): Table
    requires Allowed(t, op)
  {
    match op case Store(p) => Stored(t, p) case Free(i) => Freed(t, i)
  }

  predicate IsRun(t: Table, ops: seq<Op>)
    decreases |ops|
  {
    ops == [] || (Allowed(t, ops[0]) && IsRun(Do(t, ops[0]), ops[1..]))
  }

  function After(t: Table, ops: seq<Op>): Table
    requires IsRun(t, ops)
    decreases |ops|
  {
    if ops == [] then t else After(Do(t, ops[0]), ops[1..])
  }

  /** Stores of `p` minus frees of its index. */
  function Balance(t: Table, ops: seq<Op>, p: Ptr): int
    requires IsRun(t, ops)
    decreases |ops|
  {
    if ops == [] then 0 else
    (match ops[0]
     case Store(q) => if q == p then 1 else 0
     case Free(i) => if t[i].str == p then -1 else 0)
    + Balance(Do(t, ops[0]), ops[1..], p)
  }

  lemma FindLive(t: Table, i: nat)
    requires WellFormed(t) && Live(t, i)
    ensures Find(t, t[i].str, 0) == i
  {
  }

  lemma StepKeeps(t: Table, op: Op)
    requires WellFormed(t) && Allowed(t, op)
    ensures WellFormed(Do(t, op))
  {
    match op
    case Store(p) => StoreKeeps(t, p);
    case Free(i) => FreeKeeps(t, i);
  }

  /** Writing a slot keeps the table well formed if no other slot holds the string. */
  lemma WriteKeeps(t: Table, i: nat, s: Slot)
    requires WellFormed(t) && i <= |t|
    requires if s.str == NULL then s == FREE else s.count > 0 && forall j | Live(t, j) && j != i :: t[j].str != s.str
    ensures WellFormed(if i < |t| then t[i := s] else t + [s])
  {
    var u := if i < |t| then t[i := s] else t + [s];
    assert u[i] == s && forall j | 0 <= j < |t| && j != i :: u[j] == t[j];
  }

  lemma StoreKeeps(t: Table, p: Ptr)
    requires WellFormed(t) && p != NULL
    ensures WellFormed(Stored(t, p))
  {
    var i := StoreIndex(t, p);
    var f := Find(t, p, 0);
    assert forall j | Live(t, j) && j != i :: t[j].str != p;
    WriteKeeps(t, i, if f >= 0 then Slot(p, t[i].count + 1) else Slot(p, 1));
  }

  lemma FreeKeeps(t: Table, i: nat)
    requires WellFormed(t) && Live(t, i)
    ensures WellFormed(Freed(t, i))
  {
    if t[i].count > 1 {
      WriteKeeps(t, i, Slot(t[i].str, t[i].count - 1));
    } else if i < |t| - 1 {
      WriteKeeps(t, i, FREE);
    }
  }

  lemma StepCounts(t: Table, op: Op, p: Ptr)
    requires WellFormed(t) && Allowed(t, op) && p != NULL
    ensures CountOf(Do(t, op), p) == CountOf(t, p) + Balance(t, [op], p)
    ensures forall i | Live(t, i) && t[i].str == p && CountOf(Do(t, op), p) > 0 :: Live(Do(t, op), i) && Do(t, op)[i].str == p
  {
    var u := Do(t, op);
    StepKeeps(t, op);
    assert [op][1..] == [];
    assert Balance(u, [], p) == 0;
    var i := Find(t, p, 0);
    var j := Find(u, p, 0);
    if op.Free? { FindLive(t, op.i); }
    if i >= 0 && i < |u| && u[i].str == p { FindLive(u, i); }
    if op == Store(p) { FindLive(u, StoreIndex(t, p)); }
  }

  /** The count of a string is its stores minus its frees. */
  lemma {:induction false} CountIsBalance(t: Table, ops: seq<Op>, p: Ptr)
    requires WellFormed(t) && IsRun(t, ops) && p != NULL
    ensures WellFormed(After(t, ops))
    ensures CountOf(After(t, ops), p) == CountOf(t, p) + Balance(t, ops, p)
    decreases |ops|
  {
    if ops != [] {
      var u := Do(t, ops[0]);
      StepKeeps(t, ops[0]);
      StepCounts(t, ops[0], p);
      assert [ops[0]][1..] == [];
      CountIsBalance(u, ops[1..], p);
    }
  }

  /** The string stays stored at every point of the run. */
  predicate Persists(t: Table, ops: seq<Op>, p: Ptr)
    requires IsRun(t, ops)
    decreases |ops|
  {
    CountOf(t, p) > 0 && (ops != [] ==> Persists(Do(t, ops[0]), ops[1..], p))
  }

  /** A string keeps its index until it is last freed. */
  lemma {:induction false} IndexStable(t: Table, ops: seq<Op>, i: nat)
    requires WellFormed(t) && Live(t, i) && IsRun(t, ops) && Persists(t, ops, t[i].str)
    ensures Live(After(t, ops), i) && After(t, ops)[i].str == t[i].str
    decreases |ops|
  {
    if ops != [] {
      StepKeeps(t, ops[0]);
      StepCounts(t, ops[0], t[i].str);
      IndexStable(Do(t, ops[0]), ops[1..], i);
    }
  }

  // ---------------------------------------------------------------------------
  // The size of the table
  // ---------------------------------------------------------------------------

  /** The number of different strings stored. */
  function Size(t: Table): (n: nat)
    ensures n <= |t|
  {
    if t == [] then 0 else Size(t[..|t| - 1]) + if t[|t| - 1].str != NULL then 1 else 0
  }

  /** The most strings that are stored at any one time. */
  function Peak(t: Table, ops: seq<Op>): nat
    requires IsRun(t, ops)
    decreases |ops|
  {
    if ops == [] then Size(t)
    else var later := Peak(Do(t, ops[0]), ops[1..]); if later < Size(t) then Size(t) else later
  }

  lemma {:induction false} FullSize(t: Table)
    requires forall i | 0 <= i < |t| :: Live(t, i)
    ensures Size(t) == |t|
  {
    if t != [] {
      assert Live(t, |t| - 1) && forall i | 0 <= i < |t| - 1 :: Live(t, i) && t[..|t| - 1][i] == t[i];
      FullSize(t[..|t| - 1]);
    }
  }

  /** The table only grows when all its slots are in use. */
  lemma GrowsWhenFull(t: Table, op: Op)
    requires WellFormed(t) && Allowed(t, op)
    ensures |Do(t, op)| <= |t| || (|Do(t, op)| == |t| + 1 == Size(Do(t, op)))
  {
    var u := Do(t, op);
    if |u| > |t| {
      assert forall i | 0 <= i < |t| :: Live(t, i) && u[i] == t[i];
      FullSize(u);
    }
  }

  /** Freed slots are used again: the table is never longer than the number of strings that
    were stored at one time. */
  lemma {:induction false} NoLongerThanPeak(t: Table, ops: seq<Op>)
    requires WellFormed(t) && IsRun(t, ops)
    ensures |After(t, ops)| <= |t| || |After(t, ops)| <= Peak(t, ops)
    decreases |ops|
  {
    if ops != [] {
      var u := Do(t, ops[0]);
      StepKeeps(t, ops[0]);
      GrowsWhenFull(t, ops[0]);
      NoLongerThanPeak(u, ops[1..]);
      PeakNow(u, ops[1..]);
    }
  }

  lemma PeakNow(t: Table, ops: seq<Op>)
    requires IsRun(t, ops)
    ensures Size(t) <= Peak(t, ops)
  {
  }

  /** A new string takes the least free slot; a string that is last freed leaves its slot free,
    or, if that is the last one, the table shorter.  No other slot is touched. */
  lemma StepChangesOne(t: Table, op: Op)
    requires WellFormed(t) && Allowed(t, op)
    ensures op.Store? && CountOf(t, op.p) == 0 ==>
              var i := StoreIndex(t, op.p); !Live(t, i) && (forall j | 0 <= j < i :: Live(t, j)) && Live(Do(t, op), i)
    ensures op.Free? ==> (Live(Do(t, op), op.i) <==> t[op.i].count > 1)
    ensures op.Free? ==> |Do(t, op)| == if t[op.i].count == 1 && op.i == |t| - 1 then |t| - 1 else |t|
    ensures forall j | 0 <= j < |t| && j != (if op.Store? then StoreIndex(t, op.p) else op.i) :: j < |Do(t, op)| && Do(t, op)[j] == t[j]
  {
  }
}
