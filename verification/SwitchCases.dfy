/** Switch statements over integers, from the case labels to the jump: sorting and overlap
  check (prepare_cases in src/compiler/internal/compiler.cc), the table that is emitted
  (src/compiler/internal/icode.cc), and its search at run time (f_switch in
  src/packages/ops/ops.cc).

  Addresses are relative to the switch, as in the table; keys are in the range of LPC_INT. */
module SwitchCases {

  datatype Case =
    | Number(key: int, addr: nat)
    | Range(lo: int, hi: int, addr: nat)

  datatype Kind = Numbers | Ranges

  function Lo(c: Case): int { if c.Number? then c.key else c.lo }
  function Hi(c: Case): int { if c.Number? then c.key else c.hi }
  predicate Covers(c: Case, s: int) { Lo(c) <= s <= Hi(c) }

  /** The grammar drops a range whose bounds are the wrong way round; no code is at the
    first addresses, which hold the header of the table. */
  predicate WellFormed(cases: seq<Case>) {
    forall c <- cases :: Lo(c) <= Hi(c) && c.addr > 1
  }

  predicate SortedByKey(cases: seq<Case>) { forall i, j | 0 <= i < j < |cases| :: Lo(cases[i]) <= Lo(cases[j]) }

  ghost predicate Overlap(c: Case, d: Case) { exists s: int :: Covers(c, s) && Covers(d, s) }

  ghost predicate Disjoint(cases: seq<Case>) { forall i, j | 0 <= i < j < |cases| :: !Overlap(cases[i], cases[j]) }

  /** No case starts before an earlier one ends. */
  predicate InOrder(cases: seq<Case>) { forall i, j | 0 <= i < j < |cases| :: Hi(cases[i]) <= Lo(cases[j]) }

  /** What a switch means: the code of a case that covers the value, or else the default. */
  predicate Meant(cases: seq<Case>, s: int, default: nat, offset: nat) {
    if exists c <- cases :: Covers(c, s) then exists c <- cases :: Covers(c, s) && c.addr == offset
    else offset == default
  }

  /** Disjoint cases leave no choice. */
  lemma MeantIsUnique(cases: seq<Case>, s: int, default: nat, a: nat, b: nat)
    requires Disjoint(cases) && Meant(cases, s, default, a) && Meant(cases, s, default, b)
    ensures a == b
  {
    if c, d :| c in cases && d in cases && Covers(c, s) && Covers(d, s) && c.addr == a && d.addr == b {
      var i :| 0 <= i < |cases| && cases[i] == c;
      var j :| 0 <= j < |cases| && cases[j] == d;
      if i < j { assert Overlap(cases[i], cases[j]); } else if j < i { assert Overlap(cases[j], cases[i]); }
    }
  }

  // ---------------------------------------------------------------------------
  // prepare_cases
  // ---------------------------------------------------------------------------

  predicate AdjacentApart(cases: seq<Case>, n: nat)
    requires n <= |cases|
  {
    forall i | 0 < i < n :: Hi(cases[i - 1]) < Lo(cases[i])
  }

  lemma {:induction false} ApartInOrder(cases: seq<Case>, i: nat, j: nat)
    requires WellFormed(cases) && AdjacentApart(cases, |cases|) && i < j < |cases|
    ensures Hi(cases[i]) < Lo(cases[j])
    decreases j
  {
    if i < j - 1 {
      ApartInOrder(cases, i, j - 1);
      assert cases[j - 1] in cases;
    }
  }

  /** Comparing neighbours of the sorted cases finds out about all pairs. */
  lemma DisjointIffApart(cases: seq<Case>)
    requires WellFormed(cases) && SortedByKey(cases)
    ensures Disjoint(cases) <==> AdjacentApart(cases, |cases|)
    ensures Disjoint(cases) ==> InOrder(cases)
  {
    if AdjacentApart(cases, |cases|) {
      ApartDisjoint(cases);
    } else {
      var i :| 0 < i < |cases| && Hi(cases[i - 1]) >= Lo(cases[i]);
      assert Lo(cases[i - 1]) <= Lo(cases[i]) && cases[i] in cases;
      MeetsNext(cases[i - 1], cases[i]);
    }
  }

  lemma MeetsNext(c: Case, d: Case)
    requires Lo(c) <= Lo(d) <= Hi(c) && Lo(d) <= Hi(d)
    ensures Overlap(c, d)
  {
    assert Covers(c, Lo(d)) && Covers(d, Lo(d));
  }

  lemma ApartDisjoint(cases: seq<Case>)
    requires WellFormed(cases) && AdjacentApart(cases, |cases|)
    ensures Disjoint(cases) && InOrder(cases)
  {
    forall i, j | 0 <= i < j < |cases|
      ensures !Overlap(cases[i], cases[j]) && Hi(cases[i]) <= Lo(cases[j])
    {
      ApartInOrder(cases, i, j);
    }
  }

  predicate Consecutive(cases: seq<Case>, n: nat)
    requires n <= |cases|
  {
    && (forall i | 0 <= i < n :: cases[i].Number?)
    && (forall i | 0 < i < n :: Lo(cases[i]) == Hi(cases[i - 1]) + 1)
  }

  /** The loop of prepare_cases. */
  method CompareNeighbours(cases: seq<Case>, kind: Kind) returns (overlap: bool, direct: bool)
    requires cases != []
    ensures overlap <==> kind == Ranges && !AdjacentApart(cases, |cases|)
    ensures direct <==> Consecutive(cases, |cases|)
  {
    overlap, direct := false, true;
    var lastKey := Hi(cases[0]);
    if cases[0].Range? {
      direct := false;
    }
    for i := 1 to |cases|
      invariant lastKey == Hi(cases[i - 1])
      invariant overlap <==> kind == Ranges && !AdjacentApart(cases, i)
      invariant direct <==> Consecutive(cases, i)
    {
      var thisKey := Lo(cases[i]);
      if kind == Ranges && thisKey <= lastKey {
        overlap := true;
      }
      if cases[i].Range? {
        lastKey := cases[i].hi;
        direct := false;
      } else {
        if lastKey + 1 != thisKey {
          direct := false;
        }
        lastKey := thisKey;
      }
    }
  }

  /** Whether "Overlapping cases" is reported. */
  ghost predicate Reported(cases: seq<Case>, kind: Kind) { kind == Ranges && !Disjoint(cases) }

  /** Two labels in a row are equal. */
  predicate EqualLabels(cases: seq<Case>) { exists i | 0 < i < |cases| :: Lo(cases[i]) == Lo(cases[i - 1]) }

  /** Cases that overlap go unreported exactly in a switch without ranges that has equal
    labels. */
  lemma UnreportedIff(cases: seq<Case>, kind: Kind)
    requires WellFormed(cases) && SortedByKey(cases)
    requires kind == Numbers ==> forall c <- cases :: c.Number?
    ensures !Disjoint(cases) && !Reported(cases, kind) <==> kind == Numbers && EqualLabels(cases)
  {
    DisjointIffApart(cases);
    if kind == Numbers {
      forall i | 0 <= i < |cases| ensures Hi(cases[i]) == Lo(cases[i]) { assert cases[i] in cases; }
    }
  }

  /** The failing input: `case k` twice is not reported, and either may be jumped to. */
  lemma EqualLabelsUnreported(cases: seq<Case>, k: int, a: nat, b: nat, default: nat)
    requires a > 1 && b > 1 && cases == [Number(k, a), Number(k, b)]
    ensures WellFormed(cases) && SortedByKey(cases) && !Disjoint(cases) && !Reported(cases, Numbers)
    ensures Meant(cases, k, default, a) && Meant(cases, k, default, b)
  {
    assert cases[1].key == cases[0].key;
    assert cases[0] in cases && cases[1] in cases;
    assert Covers(cases[0], k) && Covers(cases[1], k);
    UnreportedIff(cases, Numbers);
  }

  /** prepare_cases, after the sort and past the default.  `overlap` is whether "Overlapping
    cases" was reported, `direct` whether the switch became NODE_SWITCH_DIRECT. */
  method PrepareCases(cases: seq<Case>, kind: Kind) returns (overlap: bool, direct: bool)
    requires cases != [] && WellFormed(cases) && SortedByKey(cases)
    requires kind == Numbers ==> forall c <- cases :: c.Number?
    ensures overlap <==> Reported(cases, kind)
    ensures !overlap ==> InOrder(cases)
    ensures direct <==> kind == Numbers && Consecutive(cases, |cases|)
  {
    overlap, direct := CompareNeighbours(cases, kind);
    direct := direct && kind == Numbers;
    DisjointIffApart(cases);
  }

  // ---------------------------------------------------------------------------
  // The table
  // ---------------------------------------------------------------------------

  /** A key and an address; the address 1 marks the lower bound of a range, whose upper
    bound is the next entry. */
  datatype Entry = Entry(key: int, addr: nat)

  const MARK := 1

  function EntriesOf(c: Case): seq<Entry> {
    match c
    case Number(key, addr) => [Entry(key, addr)]
    case Range(lo, hi, addr) => [Entry(lo, MARK), Entry(hi, addr)]
  }

  function Entries(cases: seq<Case>): seq<Entry> {
    if cases == [] then [] else EntriesOf(cases[0]) + Entries(cases[1..])
  }

  function Pow2(k: nat): (r: nat)
    ensures r >= 1
  {
    if k == 0 then 1 else 2 * Pow2(k - 1)
  }

  lemma EntriesAppend(cases: seq<Case>, c: Case)
    ensures Entries(cases + [c]) == Entries(cases) + EntriesOf(c)
  {
    if cases != [] {
      assert (cases + [c])[1..] == cases[1..] + [c];
    }
  }

  /** The loops of icode.cc that emit the entries and find the size class. */
  method BuildTable(cases: seq<Case>) returns (table: seq<Entry>, i: nat)
    ensures table == Entries(cases)
    ensures Pow2(i) <= |table| < Pow2(i + 1) || (table == [] && i == 0)
  {
    table := [];
    for j := 0 to |cases|
      invariant table == Entries(cases[..j])
    {
      EntriesAppend(cases[..j], cases[j]);
      assert cases[..j + 1] == cases[..j] + [cases[j]];
      match cases[j] {
        case Number(key, addr) => table := table + [Entry(key, addr)];
        case Range(lo, hi, addr) => table := table + [Entry(lo, MARK)] + [Entry(hi, addr)];
      }
    }
    assert cases[..|cases|] == cases;
    var powerOfTwo := 1;
    i := 0;
    while powerOfTwo * 2 <= |table|
      invariant powerOfTwo == Pow2(i) && (powerOfTwo <= |table| || i == 0)
      decreases |table| - powerOfTwo
    {
      powerOfTwo := powerOfTwo * 2;
      i := i + 1;
    }
  }

  /** The keys of the table are sorted, and a mark is never last. */
  predicate TableOk(t: seq<Entry>) {
    && (forall i, j | 0 <= i < j < |t| :: t[i].key <= t[j].key)
    && (forall i | 0 <= i < |t| && t[i].addr <= MARK :: i + 1 < |t| && t[i].addr == MARK && t[i + 1].addr > MARK)
  }

  lemma {:induction false} EntriesOk(cases: seq<Case>)
    requires WellFormed(cases) && InOrder(cases)
    ensures TableOk(Entries(cases)) && (cases != [] ==> Entries(cases) != [])
    ensures forall j | 0 <= j < |Entries(cases)| :: Entries(cases)[j].key >= Lo(cases[0])
  {
    if cases != [] {
      EntriesOk(cases[1..]);
      assert cases[0] in cases;
      PrependOk(cases[0], Entries(cases[1..]));
    }
  }

  lemma PrependOk(c: Case, t: seq<Entry>)
    requires Lo(c) <= Hi(c) && c.addr > 1 && TableOk(t) && forall j | 0 <= j < |t| :: t[j].key >= Hi(c)
    ensures TableOk(EntriesOf(c) + t)
    ensures forall j | 0 <= j < |EntriesOf(c) + t| :: (EntriesOf(c) + t)[j].key >= Lo(c)
  {
  }

  /** The entry with the searched key leads to a case that covers it. */
  lemma {:induction false} EntryHit(cases: seq<Case>, j: nat)
    requires WellFormed(cases) && InOrder(cases) && j < |Entries(cases)|
    ensures var t := Entries(cases); t[j].addr <= MARK ==> j + 1 < |t|
    ensures var t := Entries(cases);
            exists c <- cases :: Covers(c, t[j].key) && c.addr == if t[j].addr <= MARK then t[j + 1].addr else t[j].addr
  {
    var t := Entries(cases);
    var n := |EntriesOf(cases[0])|;
    assert cases[0] in cases;
    if j < n {
      assert Covers(cases[0], t[j].key) && cases[0].addr == if t[j].addr <= MARK then t[j + 1].addr else t[j].addr;
    } else {
      EntryHit(cases[1..], j - n);
      var c :| c in cases[1..] && Covers(c, t[j].key) && c.addr == if t[j].addr <= MARK then t[j + 1].addr else t[j].addr;
      assert c in cases;
    }
  }

  /** Between two entries a value is covered by a range that starts with the first one, or
    not at all.  `j` entries are below the value. */
  lemma {:induction false} EntryMiss(cases: seq<Case>, s: int, j: nat)
    requires WellFormed(cases) && InOrder(cases) && j <= |Entries(cases)|
    requires j > 0 ==> Entries(cases)[j - 1].key < s
    requires j < |Entries(cases)| ==> s < Entries(cases)[j].key
    decreases |cases|, 1
    ensures var t := Entries(cases);
            if j > 0 && t[j - 1].addr <= MARK then j < |t| && exists c <- cases :: Covers(c, s) && c.addr == t[j].addr
            else forall c <- cases :: !Covers(c, s)
  {
    if cases != [] {
      var t := Entries(cases);
      var n := |EntriesOf(cases[0])|;
      assert cases[0] in cases;
      forall i | 0 < i < |cases| ensures Lo(cases[i]) >= Hi(cases[0]) && cases[i] in cases {}
      EntriesOk(cases);
      EntriesOk(cases[1..]);
      if j >= n {
        MissInRest(cases, s, j);
      } else if j == 0 {
        forall c <- cases ensures !Covers(c, s) {
          var i :| 0 <= i < |cases| && cases[i] == c;
        }
      } else {
        assert Covers(cases[0], s) && cases[0].addr == t[j].addr;
      }
    }
  }

  lemma {:induction false} MissInRest(cases: seq<Case>, s: int, j: nat)
    requires WellFormed(cases) && InOrder(cases) && cases != [] && |EntriesOf(cases[0])| <= j <= |Entries(cases)|
    requires Entries(cases)[j - 1].key < s
    requires j < |Entries(cases)| ==> s < Entries(cases)[j].key
    ensures var t := Entries(cases);
            if t[j - 1].addr <= MARK then j < |t| && exists c <- cases :: Covers(c, s) && c.addr == t[j].addr
            else forall c <- cases :: !Covers(c, s)
    decreases |cases|, 0
  {
    var t := Entries(cases);
    var n := |EntriesOf(cases[0])|;
    assert cases[0] in cases;
    EntriesOk(cases);
    assert t[n - 1].key == Hi(cases[0]) && t[n - 1].key <= t[j - 1].key;
    EntryMiss(cases[1..], s, j - n);
    if t[j - 1].addr <= MARK {
      var c :| c in cases[1..] && Covers(c, s) && c.addr == t[j].addr;
      assert c in cases;
    } else {
      forall c <- cases ensures !Covers(c, s) {
        assert c == cases[0] || c in cases[1..];
      }
    }
  }

  // ---------------------------------------------------------------------------
  // f_switch
  // ---------------------------------------------------------------------------

  /** SWITCH_CASE_SIZE: a 64-bit key and a 16-bit address. */
  const SIZE := 10

  const OFF_TAB: seq<nat> := [
    0 * SIZE, 1 * SIZE, 3 * SIZE, 7 * SIZE, 15 * SIZE, 31 * SIZE, 63 * SIZE, 127 * SIZE, 255 * SIZE, 511 * SIZE,
    1023 * SIZE, 2047 * SIZE, 4095 * SIZE]

  /** The bytes around the table, read as entries: before it there is the distance of the
    jump over it, behind it whatever comes next. */
  function Read(table: seq<Entry>, after: seq<Entry>, i: int): Entry
    requires |after| >= 2 && i <= |table| + 1
  {
    if i < 0 then Entry(0, 2 + SIZE * |table|) else (table + after)[i]
  }

  /** What the search gives when there is no table to search. */
  function Stray(after: seq<Entry>, s: int, default: nat): nat
    requires |after| >= 2
  {
    if s < after[0].key then default
    else if s > after[0].key then
      if after[0].addr <= 1 && s <= after[1].key then after[1].addr else default
    else if after[0].addr <= 1 then after[1].addr else after[0].addr
  }

  /** The address of entry `j`, or of the next one if it is a mark. */
  function Jump(t: seq<Entry>, j: nat): nat
    requires TableOk(t) && j < |t|
  {
    if t[j].addr <= MARK then t[j + 1].addr else t[j].addr
  }

  /** The value lies strictly between the first `j` entries and the others. */
  predicate Between(t: seq<Entry>, s: int, j: nat) {
    j <= |t| && (j > 0 ==> t[j - 1].key < s) && (j < |t| ==> s < t[j].key)
  }

  predicate Found(t: seq<Entry>, s: int, default: nat, offset: nat)
    requires TableOk(t)
  {
    || (exists j | 0 <= j < |t| :: t[j].key == s && offset == Jump(t, j))
    || (exists j | 0 <= j <= |t| :: Between(t, s, j) && offset == if j > 0 && t[j - 1].addr <= MARK then t[j].addr else default)
  }

  /** What the search finds is what the switch means. */
  lemma FoundIsMeant(cases: seq<Case>, s: int, default: nat, offset: nat)
    requires WellFormed(cases) && InOrder(cases) && TableOk(Entries(cases)) && Found(Entries(cases), s, default, offset)
    ensures Meant(cases, s, default, offset)
  {
    var t := Entries(cases);
    if j :| 0 <= j < |t| && t[j].key == s && offset == Jump(t, j) {
      EntryHit(cases, j);
    } else {
      var j :| 0 <= j <= |t| && Between(t, s, j) && offset == if j > 0 && t[j - 1].addr <= MARK then t[j].addr else default;
      EntryMiss(cases, s, j);
    }
  }

  /** The value, if it is in the table, is less than `w` entries away from `p`. */
  predicate Near(t: seq<Entry>, s: int, p: int, w: nat) {
    && 0 <= p < |t| && p - w >= -1
    && (p - w >= 0 ==> t[p - w].key < s)
    && (p + w < |t| ==> s < t[p + w].key)
  }

  /** The position `l` and the step `d` are in bytes; a step of less than an entry ends the
    search, and stands for k == 0. */
  predicate Step(d: nat, k: nat) { if k == 0 then d < SIZE else d == SIZE * Pow2(k - 1) }

  lemma Halve(d: nat, k: nat)
    requires k > 0 && Step(d, k)
    ensures d >= SIZE && Step(d / 2, k - 1) && Pow2(k) == 2 * Pow2(k - 1)
  {
  }

  lemma OffTab(i: nat)
    requires i < |OFF_TAB|
    ensures OFF_TAB[i] == SIZE * (Pow2(i) - 1) && Step(if i == 0 then 0 else (OFF_TAB[i] + SIZE) / 2, i)
  {
    assert Pow2(0) == 1 && Pow2(1) == 2 && Pow2(2) == 4 && Pow2(3) == 8 && Pow2(4) == 16;
    assert Pow2(5) == 32 && Pow2(6) == 64 && Pow2(7) == 128 && Pow2(8) == 256;
    assert Pow2(9) == 512 && Pow2(10) == 1024 && Pow2(11) == 2048 && Pow2(12) == 4096;
  }

  /** The last comparisons, when the step has become too small. */
  method Settle(table: seq<Entry>, after: seq<Entry>, p: nat, s: int, default: nat) returns (offset: nat)
    requires TableOk(table) && |after| >= 2 && p <= |table|
    requires if table == [] then p == 0 else Near(table, s, p, 1) && table[p].key != s
    requires table == [] ==> s != after[0].key
    ensures if table == [] then offset == Stray(after, s, default) else Found(table, s, default, offset)
  {
    offset := default;
    if s < Read(table, after, p).key {
      assert table != [] ==> Between(table, s, p);
      if Read(table, after, p - 1).addr <= 1 && s >= Read(table, after, p - 1).key {
        offset := Read(table, after, p).addr;
      }
    } else {
      assert table != [] ==> Between(table, s, p + 1);
      if Read(table, after, p).addr <= 1 && s <= Read(table, after, p + 1).key {
        offset := Read(table, after, p + 1).addr;
      }
    }
  }

  method Hit(table: seq<Entry>, after: seq<Entry>, p: nat, s: int, default: nat) returns (offset: nat)
    requires TableOk(table) && |after| >= 2 && p <= |table|
    requires if table == [] then p == 0 && s == after[0].key else p < |table| && table[p].key == s
    ensures if table == [] then offset == Stray(after, s, default) else Found(table, s, default, offset)
  {
    offset := Read(table, after, p).addr;
    if offset <= 1 {
      offset := Read(table, after, p + 1).addr;
    }
    assert table != [] ==> offset == Jump(table, p);
  }

  lemma MissAtEnd(table: seq<Entry>, s: int, default: nat)
    requires TableOk(table) && table != [] && table[|table| - 1].key < s
    ensures Found(table, s, default, default)
  {
    assert Between(table, s, |table|) && table[|table| - 1].addr > MARK;
  }

  /** A step to the left. */
  lemma Backward(t: seq<Entry>, l: nat, d: nat, s: int, k: nat, p: int)
    requires t != [] && l == SIZE * p && k > 0 && Step(d, k) && Near(t, s, p, Pow2(k)) && s < t[p].key
    ensures d <= l && l - d == SIZE * (p - Pow2(k - 1)) && Step(d / 2, k - 1) && Near(t, s, p - Pow2(k - 1), Pow2(k - 1))
  {
    Halve(d, k);
    NearLeft(t, s, p, k);
  }

  lemma NearLeft(t: seq<Entry>, s: int, p: int, k: nat)
    requires k > 0 && Near(t, s, p, Pow2(k)) && s < t[p].key && Pow2(k) == 2 * Pow2(k - 1)
    ensures Near(t, s, p - Pow2(k - 1), Pow2(k - 1))
  {
  }

  /** The state of the search: `l` is entry `p`, and the value is near it. */
  ghost predicate Going(table: seq<Entry>, s: int, l: nat, d: nat, k: nat, p: nat) {
    && l == SIZE * p && Step(d, k)
    && if table == [] then p == 0 && k == 0 else Near(table, s, p, Pow2(k))
  }

  ghost predicate Answer(table: seq<Entry>, after: seq<Entry>, s: int, default: nat, offset: nat)
    requires TableOk(table) && |after| >= 2
  {
    if table == [] then offset == Stray(after, s, default) else Found(table, s, default, offset)
  }

  /** One turn of the search. */
  method Turn(table: seq<Entry>, after: seq<Entry>, s: int, default: nat, l0: nat, d0: nat, ghost k0: nat, ghost p0: nat)
    returns (done: bool, offset: nat, l: nat, d: nat, ghost k: nat, ghost p: nat)
    requires TableOk(table) && |after| >= 2 && Going(table, s, l0, d0, k0, p0)
    ensures if done then Answer(table, after, s, default, offset) else k < k0 && Going(table, s, l, d, k, p)
  {
    done, offset, l, d, k, p := true, default, l0, d0, k0, p0;
    var at := l / SIZE;
    assert at == p0;
    var r := Read(table, after, at).key;
    if s == r {
      offset := Hit(table, after, at, s, default);
    } else if d < SIZE {
      offset := Settle(table, after, at, s, default);
    } else if s < r {
      Backward(table, l, d, s, k, p);
      done, l, d, k, p := false, l - d, d / 2, k - 1, p - Pow2(k - 1);
    } else {
      l, d, done, k, p := Forward(table, l, d, s, k, p);
      if done {
        MissAtEnd(table, s, default);
      }
    }
  }

  method Search(table: seq<Entry>, after: seq<Entry>, i: nat, s: int, default: nat) returns (offset: nat)
    requires TableOk(table) && |after| >= 2 && i < |OFF_TAB|
    requires Pow2(i) <= |table| < Pow2(i + 1) || (table == [] && i == 0)
    ensures Answer(table, after, s, default, offset)
  {
    OffTab(i);
    var l: nat, d: nat := OFF_TAB[i], (OFF_TAB[i] + SIZE) / 2;
    if d < SIZE {
      d := 0;
    }
    ghost var k: nat, p: nat := i, Pow2(i) - 1;
    var done := false;
    offset := default;
    while !done
      invariant if done then Answer(table, after, s, default, offset) else Going(table, s, l, d, k, p)
      decreases !done, k
    {
      done, offset, l, d, k, p := Turn(table, after, s, default, l, d, k, p);
    }
  }

  /** A step to the right; steps past the end are taken back by halves. */
  method Forward(table: seq<Entry>, l0: nat, d0: nat, s: int, ghost k0: nat, ghost p0: int)
    returns (l: nat, d: nat, done: bool, ghost k: nat, ghost p: nat)
    requires table != [] && l0 == SIZE * p0 && k0 > 0 && Step(d0, k0) && Near(table, s, p0, Pow2(k0)) && table[p0].key < s
    ensures done ==> table[|table| - 1].key < s
    ensures !done ==> k < k0 && Going(table, s, l, d, k, p)
  {
    var end := SIZE * |table|;
    Halve(d0, k0);
    l, d, done, k, p := l0 + d0, d0, false, k0 - 1, p0 + Pow2(k0 - 1);
    while l >= end
      invariant l == SIZE * p && p == p0 + Pow2(k) && k < k0
      invariant d == SIZE * Pow2(k) && (p0 + 2 * Pow2(k) < |table| ==> s < table[p0 + 2 * Pow2(k)].key)
      invariant p0 - Pow2(k) >= -1
      decreases k
    {
      d := d / 2;
      if d < SIZE {
        d := 0;
        break;
      }
      assert d == SIZE * Pow2(k - 1);
      l := l - d;
      k, p := k - 1, p - Pow2(k - 1);
    }
    done := l == end;
    d := d / 2;
  }

  // ---------------------------------------------------------------------------
  // From the labels to the jump
  // ---------------------------------------------------------------------------

  /** The two formats for integers: 0xf0 + `i`, and 0xfe, a table of addresses followed by
    the smallest key. */
  datatype Code = Sorted(table: seq<Entry>, i: nat) | Direct(addrs: seq<nat>, min: int)

  const MAX: int := 0x7fff_ffff_ffff_ffff
  const MIN: int := -0x8000_0000_0000_0000

  predicate IsKey(x: int) { MIN <= x <= MAX }

  /** Subtraction of LPC_INTs. */
  function Minus(x: int, y: int): int {
    var d := x - y;
    if d > MAX then d - 0x1_0000_0000_0000_0000 else if d < MIN then d + 0x1_0000_0000_0000_0000 else d
  }

  /** The compiler refuses distances over USHRT_MAX. */
  predicate Fits(cases: seq<Case>) { |cases| <= 0xffff && SIZE * |Entries(cases)| <= 0xffff }

  ghost predicate CodeOf(cases: seq<Case>, code: Code) {
    match code
    case Sorted(table, i) =>
      && table == Entries(cases) && i < |OFF_TAB|
      && (Pow2(i) <= |table| < Pow2(i + 1) || (table == [] && i == 0))
    case Direct(addrs, min) =>
      && cases != [] && Consecutive(cases, |cases|) && min == Lo(cases[0])
      && |addrs| == |cases| <= 0xffff && forall j | 0 <= j < |cases| :: addrs[j] == cases[j].addr
  }

  lemma {:induction false} Pow2Monotonic(i: nat, j: nat)
    requires i <= j
    ensures Pow2(i) <= Pow2(j)
    decreases j
  {
    if i < j { Pow2Monotonic(i, j - 1); }
  }

  lemma SizeClassInTable(cases: seq<Case>, i: nat)
    requires Fits(cases) && Pow2(i) <= |Entries(cases)|
    ensures i < |OFF_TAB|
  {
    if i >= 13 {
      OffTab(12);
      Pow2Monotonic(13, i);
    }
  }

  /** prepare_cases and code generation. */
  method Compile(cases: seq<Case>, kind: Kind) returns (overlap: bool, code: Code)
    requires WellFormed(cases) && SortedByKey(cases) && Fits(cases)
    requires kind == Numbers ==> forall c <- cases :: c.Number?
    ensures overlap <==> Reported(cases, kind)
    ensures !overlap ==> InOrder(cases)
    ensures CodeOf(cases, code)
    ensures code.Direct? <==> cases != [] && kind == Numbers && Consecutive(cases, |cases|)
  {
    var direct := false;
    overlap := false;
    if cases != [] {
      overlap, direct := PrepareCases(cases, kind);
    }
    if direct {
      var addrs := [];
      for j := 0 to |cases|
        invariant |addrs| == j && forall m | 0 <= m < j :: addrs[m] == cases[m].addr
      {
        addrs := addrs + [cases[j].addr];
      }
      code := Direct(addrs, Lo(cases[0]));
    } else {
      var table, i := BuildTable(cases);
      if table != [] {
        SizeClassInTable(cases, i);
      }
      code := Sorted(table, i);
    }
  }

  /** What a run of the switch does; without any case, the search looks at the code behind
    the table. */
  ghost predicate Outcome(cases: seq<Case>, after: seq<Entry>, s: int, default: nat, offset: nat)
    requires |after| >= 2
  {
    if cases == [] then offset == Stray(after, s, default) else Meant(cases, s, default, offset)
  }

  lemma {:induction false} ConsecutiveKey(cases: seq<Case>, n: nat, j: nat)
    requires j < n <= |cases| && Consecutive(cases, n)
    ensures Lo(cases[j]) == Lo(cases[0]) + j
    decreases j
  {
    if j > 0 { ConsecutiveKey(cases, n, j - 1); }
  }

  /** The lookup table: also when the subtraction wraps around. */
  lemma DirectIsMeant(cases: seq<Case>, s: int, default: nat, offset: nat)
    requires cases != [] && |cases| <= 0xffff && WellFormed(cases) && Consecutive(cases, |cases|)
    requires IsKey(s) && forall c <- cases :: IsKey(Lo(c))
    requires var k := Minus(s, Lo(cases[0]));
             offset == if 0 <= k < |cases| then cases[k].addr else default
    ensures Meant(cases, s, default, offset)
  {
    var k, n := Minus(s, Lo(cases[0])), |cases|;
    assert cases[0] in cases && cases[n - 1] in cases;
    ConsecutiveKey(cases, n, n - 1);
    if 0 <= k < n {
      ConsecutiveKey(cases, n, k);
      assert cases[k] in cases && Covers(cases[k], s);
    } else {
      forall c <- cases ensures !Covers(c, s) {
        var j :| 0 <= j < n && cases[j] == c;
        ConsecutiveKey(cases, n, j);
      }
    }
  }

  /** f_switch on an integer */
  method FSwitch(ghost cases: seq<Case>, code: Code, after: seq<Entry>, s: int, default: nat) returns (offset: nat)
    requires WellFormed(cases) && InOrder(cases) && CodeOf(cases, code) && |after| >= 2
    requires IsKey(s) && forall c <- cases :: IsKey(Lo(c))
    ensures Outcome(cases, after, s, default, offset)
    ensures cases != [] ==> Meant(cases, s, default, offset)
    ensures cases == [] ==> (Meant(cases, s, default, offset) <==> Stray(after, s, default) == default)
  {
    match code {
      case Direct(addrs, min) =>
        var k := Minus(s, min);
        offset := default;
        if k >= 0 && k < |addrs| {
          assert addrs[k] == cases[k].addr;
          if addrs[k] != 0 {
            offset := addrs[k];
          }
        }
        assert forall c <- cases :: c.addr != 0;
        DirectIsMeant(cases, s, default, offset);
      case Sorted(table, i) =>
        EntriesOk(cases);
        offset := Search(table, after, i, s, default);
        if cases != [] {
          FoundIsMeant(cases, s, default, offset);
        }
    }
  }

  /** A switch does what it means, whatever code follows it, exactly if it has a case left.
    It has none if its only labels are ranges that the grammar drops. */
  lemma MeantIffAnyCase(cases: seq<Case>, s: int, default: nat)
    ensures (forall after, offset | |after| >= 2 && Outcome(cases, after, s, default, offset) :: Meant(cases, s, default, offset))
       <==> cases != []
  {
    if cases == [] {
      var after := [Entry(s, default + 2), Entry(s, 0)];
      assert Stray(after, s, default) == default + 2;
      assert Outcome(cases, after, s, default, default + 2);
      assert !Meant(cases, s, default, default + 2);
    }
  }

  /** Where the code behind an empty table leads, if its first bytes are read as an entry with
    the searched key. */
  function FirstJump(after: seq<Entry>): nat
    requires |after| >= 2
  {
    if after[0].addr <= 1 then after[1].addr else after[0].addr
  }

  /** Given the code that follows, a switch does what it means for every value exactly if it
    has a case, or that code happens to read like a jump to the default. */
  lemma MeantIff(cases: seq<Case>, after: seq<Entry>, default: nat)
    requires |after| >= 2 && IsKey(after[0].key)
    ensures (forall s, offset | IsKey(s) && Outcome(cases, after, s, default, offset) :: Meant(cases, s, default, offset))
       <==> cases != [] || FirstJump(after) == default
  {
    if cases == [] {
      var s := after[0].key;
      assert Outcome(cases, after, s, default, FirstJump(after));
    }
  }
}
