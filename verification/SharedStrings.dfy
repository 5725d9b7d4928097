/** Interned strings (src/base/internal/stralloc.cc) as a map from contents to blocks, and
  what every sequence of make_shared_string, ref_string and free_string keeps.  Strings are
  no longer than the maximum, so they are stored whole. */
module SharedStrings {

  /** `refs` is the 16-bit count; 0 is a count that has wrapped around. */
  datatype Rec<B> = Rec(block: B, refs: nat)

  type Table<B> = map<string, Rec<B>>

  const WRAP := 0x1_0000

  /** REFS(b)++ behind `if (REFS(b))` */
  function Bump(refs: nat): nat { if refs == 0 then 0 else (refs + 1) % WRAP }

  function Bumped<B>(t: Table<B>, s: string): Table<B>
    requires s in t
  {
    t[s := t[s].(refs := Bump(t[s].refs))]
  }

  /** make_shared_string; `fresh` is the block the allocator gives if one is needed. */
  function Made<B>(t: Table<B>, s: string, fr: B): Table<B> {
    if s in t then Bumped(t, s) else t[s := Rec(fr, 1)]
  }

  function Freed<B>(t: Table<B>, s: string): Table<B>
    requires s in t
  {
    if t[s].refs == 0 then t
    else if t[s].refs > 1 then t[s := t[s].(refs := t[s].refs - 1)]
    else t - {s}
  }

  // ---------------------------------------------------------------------------
  // Runs
  // ---------------------------------------------------------------------------

  /** A result somebody holds: the block, and the contents it was made from. */
  datatype Handle<B> = Handle(block: B, text: string)

  /** The table, the references handed out and not returned, and the strings that have had
    `WRAP` of them at once. */
  datatype State<!B(==)> = State(table: Table<B>, held: multiset<Handle<B>>, worn: set<string>)

  datatype Op<B> = Make(text: string, fr: B) | Ref(r: Handle<B>) | Free(r: Handle<B>)

  /** The allocator does not give out a block in use; only a held reference is copied or
    returned. */
  predicate Allowed<B(==)>(s: State<B>, op: Op<B>) {
    match op
    case Make(_, fr) => forall x <- s.table :: s.table[x].block != fr
    case Ref(r) => r in s.held && r.text in s.table
    case Free(r) => r in s.held && r.text in s.table
  }

  function Hold<B(==)>(s: State<B>, t: Table<B>, r: Handle<B>): State<B> {
    State(t, s.held + multiset{r}, if s.held[r] + 1 == WRAP then s.worn + {r.text} else s.worn)
  }

  function Do<B(==)>(s: State<B>, op: Op<B>): State<B>
    requires Allowed(s, op)
  {
    match op
    case Make(text, fr) => var t := Made(s.table, text, fr); Hold(s, t, Handle(t[text].block, text))
    case Ref(r) => Hold(s, Bumped(s.table, r.text), r)
    case Free(r) => State(Freed(s.table, r.text), s.held - multiset{r}, s.worn)
  }

  ghost predicate IsRun<B>(s: State<B>, ops: seq<Op<B>>)
    decreases |ops|
  {
    ops == [] || (Allowed(s, ops[0]) && IsRun(Do(s, ops[0]), ops[1..]))
  }

  function After<B(==)>(s: State<B>, ops: seq<Op<B>>): State<B>
    requires IsRun(s, ops)
    decreases |ops|
  {
    if ops == [] then s else After(Do(s, ops[0]), ops[1..])
  }

  function Start<B(==)>(): State<B> { State(map[], multiset{}, {}) }

  /** A held result is in the table under its contents. */
  predicate HeldOk<B(==)>(s: State<B>) {
    forall r <- s.held :: r.text in s.table && s.table[r.text].block == r.block
  }

  predicate BlocksDistinct<B(==)>(t: Table<B>) {
    forall x, y | x in t && y in t && t[x].block == t[y].block :: x == y
  }

  /** The count is the number of references held, unless there have been too many. */
  predicate CountOk<B(==)>(s: State<B>, x: string)
    requires x in s.table
  {
    var n := s.held[Handle(s.table[x].block, x)];
    if x in s.worn then s.table[x].refs == 0 else s.table[x].refs == n && 0 < n < WRAP
  }

  predicate CountsOk<B(==)>(s: State<B>) {
    (forall x <- s.worn :: x in s.table) && (forall x <- s.table :: CountOk(s, x))
  }

  predicate Inv<B(==)>(s: State<B>) { HeldOk(s) && BlocksDistinct(s.table) && CountsOk(s) }

  lemma HoldKeeps<B>(s: State<B>, r: Handle<B>)
    requires Inv(s) && r.text in s.table && s.table[r.text].block == r.block
    ensures Inv(Hold(s, Bumped(s.table, r.text), r))
  {
    var u := Hold(s, Bumped(s.table, r.text), r);
    forall x <- u.table ensures CountOk(u, x) {
      assert u.table[x].block == s.table[x].block;
      assert CountOk(s, x);
      if x == r.text {
        assert Handle(s.table[x].block, x) == r && u.held[r] == s.held[r] + 1;
      }
    }
  }

  lemma AddKeeps<B>(s: State<B>, text: string, fr: B)
    requires Inv(s) && text !in s.table && Allowed(s, Make(text, fr))
    ensures Inv(Do(s, Make(text, fr)))
  {
    var u := Do(s, Make(text, fr));
    var r := Handle(fr, text);
    assert r !in s.held;
    forall x <- u.table ensures CountOk(u, x) {
      if x != text { assert CountOk(s, x); }
    }
  }

  lemma FreeKeeps<B>(s: State<B>, r: Handle<B>)
    requires Inv(s) && r in s.held
    ensures Inv(Do(s, Free(r)))
  {
    var u := Do(s, Free(r));
    assert CountOk(s, r.text) && u.held[r] == s.held[r] - 1;
    forall q <- u.held ensures q.text in u.table && u.table[q.text].block == q.block {
      assert q in s.held;
    }
    FreeKeepsCounts(s, r);
  }

  lemma FreeKeepsCounts<B>(s: State<B>, r: Handle<B>)
    requires CountsOk(s) && r in s.held && r.text in s.table && s.table[r.text].block == r.block
    ensures CountsOk(Do(s, Free(r)))
  {
    var u := Do(s, Free(r));
    forall x <- u.table ensures CountOk(u, x) {
      assert CountOk(s, x);
      var q := Handle(s.table[x].block, x);
      assert u.held[q] == if x == r.text then s.held[q] - 1 else s.held[q];
    }
    forall x <- u.worn ensures x in u.table { assert CountOk(s, x); }
  }

  lemma StepKeeps<B>(s: State<B>, op: Op<B>)
    requires Inv(s) && Allowed(s, op)
    ensures Inv(Do(s, op))
  {
    match op
    case Make(text, fr) =>
      if text in s.table { HoldKeeps(s, Handle(s.table[text].block, text)); } else { AddKeeps(s, text, fr); }
    case Ref(r) => HoldKeeps(s, r);
    case Free(r) => FreeKeeps(s, r);
  }

  lemma {:induction false} RunKeeps<B>(s: State<B>, ops: seq<Op<B>>)
    requires Inv(s) && IsRun(s, ops)
    ensures Inv(After(s, ops))
    decreases |ops|
  {
    if ops != [] {
      StepKeeps(s, ops[0]);
      RunKeeps(Do(s, ops[0]), ops[1..]);
    }
  }

  /** After any run two held results are the same block exactly if their contents are equal. */
  lemma SameBlockIffEqual<B>(ops: seq<Op<B>>, q: Handle<B>, r: Handle<B>)
    requires IsRun(Start(), ops) && q in After(Start(), ops).held && r in After(Start(), ops).held
    ensures q.block == r.block <==> q.text == r.text
  {
    RunKeeps(Start(), ops);
  }

  predicate IsHeld<B(==)>(s: State<B>, text: string) { exists r <- s.held :: r.text == text }

  /** After any run a string is in the table exactly if a reference to it is held or once
    `WRAP` of them were; its count is the number held, or 0 for ever after a wrap. */
  lemma RemovedWithLastReference<B>(ops: seq<Op<B>>, text: string)
    requires IsRun(Start(), ops)
    ensures var s := After(Start(), ops);
            && (text in s.table <==> IsHeld(s, text) || text in s.worn)
            && (text in s.table ==> CountOk(s, text))
  {
    RunKeeps(Start(), ops);
    var s := After(Start(), ops);
    if text in s.table && text !in s.worn { assert CountOk(s, text) && Handle(s.table[text].block, text) in s.held; }
  }

  lemma StepWorn<B>(s: State<B>, op: Op<B>, text: string)
    requires CountsOk(s) && Allowed(s, op) && text in s.worn
    ensures var u := Do(s, op); text in u.worn && text in u.table && u.table[text] == s.table[text]
  {
    assert CountOk(s, text);
  }

  /** A worn string is never removed, and keeps its block. */
  lemma {:induction false} WornStays<B>(s: State<B>, ops: seq<Op<B>>, text: string)
    requires Inv(s) && IsRun(s, ops) && text in s.worn
    ensures var u := After(s, ops); text in u.worn && text in u.table && u.table[text] == s.table[text]
    decreases |ops|
  {
    if ops != [] {
      StepKeeps(s, ops[0]);
      StepWorn(s, ops[0], text);
      WornStays(Do(s, ops[0]), ops[1..], text);
    }
  }

  /** Returning every reference that was handed out empties the table, if none has wrapped. */
  lemma AllReturned<B>(ops: seq<Op<B>>)
    requires IsRun(Start(), ops) && After(Start(), ops).held == multiset{}
    ensures forall text :: text in After(Start(), ops).table <==> text in After(Start(), ops).worn
  {
    forall text ensures text in After(Start(), ops).table <==> text in After(Start(), ops).worn {
      RemovedWithLastReference(ops, text);
    }
  }
}
