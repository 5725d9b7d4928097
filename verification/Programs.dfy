/** Compiled programs: the function index space shared by inherited and own functions
  (src/vm/internal/base/program.h), and how rule_inheritence lays the inherited part out
  (src/compiler/internal/grammar_rules.cc). */
module Programs {
  /** An entry of function_flags: either FUNC_ALIAS with an index, or the flags of a
    function; only the bits the table code looks at are kept, and DECL_PRIVATE only for own
    functions. */
  datatype Entry =
    | Alias(to: nat)
    | Entry(inherited: bool, noCode: bool, isPrivate: bool)

  type Name = string
  const INIT: Name := "#global_init#"
  const SPECIAL := '#'

  datatype Program = Program(
    inherits: seq<Inherit>,
    lastInherited: nat,       // first own index
    functions: seq<Name>,     // function_table
    flags: seq<Entry>)        // function_flags

  datatype Inherit = Inherit(prog: Program, offset: nat, isPrivate: bool)

  predicate IsSpecial(name: Name) { |name| > 0 && name[0] == SPECIAL }

  /** The last own function is the variable initialiser, which is not inherited. */
  predicate EndsInInit(p: Program) { |p.functions| > 0 && p.functions[|p.functions| - 1] == INIT }

  predicate EndsInSpecial(p: Program) { |p.functions| > 0 && IsSpecial(p.functions[|p.functions| - 1]) }

  /** How many entries copy_functions copies from a parent. */
  function Copied(p: Program): nat {
    p.lastInherited + |p.functions| - (if EndsInInit(p) then 1 else 0)
  }

  /** Where rule_inheritence puts the parent after `prev`. */
  function NextOffset(prev: Inherit): nat {
    prev.offset + |prev.prog.functions| + prev.prog.lastInherited - (if EndsInSpecial(prev.prog) then 1 else 0)
  }

  /** The inherits list built by successive inherit statements. */
  predicate LaidOut(inh: seq<Inherit>) {
    && (inh != [] ==> inh[0].offset == 0)
    && (forall k | 0 < k < |inh| :: inh[k].offset == NextOffset(inh[k - 1]))
  }

  /** comp_last_inherited */
  function Total(inh: seq<Inherit>): nat {
    if inh == [] then 0 else inh[|inh| - 1].offset + Copied(inh[|inh| - 1].prog)
  }

  predicate InSegment(inh: seq<Inherit>, k: nat, index: int)
    requires k < |inh|
  {
    inh[k].offset <= index < inh[k].offset + Copied(inh[k].prog)
  }

  /** The last own function of a parent starts with '#' but is not its initialiser: a
    program with default arguments and no initialised global variable. */
  predicate Short(p: Program) { EndsInSpecial(p) && !EndsInInit(p) }

  predicate Covered(inh: seq<Inherit>, index: nat) {
    exists k: nat | k < |inh| :: InSegment(inh, k, index)
  }

  /** The segments partition the inherited indices. */
  ghost predicate Tiles(inh: seq<Inherit>) {
    && (forall k, index: nat | 0 <= k < |inh| && InSegment(inh, k, index) :: index < Total(inh))
    && (forall k, l, index: nat | 0 <= k < l < |inh| && InSegment(inh, k, index) :: !InSegment(inh, l, index))
    && (forall index: nat | index < Total(inh) :: Covered(inh, index))
  }

  /** Each segment starts where the one before ends. */
  predicate Contiguous(inh: seq<Inherit>) {
    && (inh != [] ==> inh[0].offset == 0)
    && (forall k | 0 < k < |inh| :: inh[k].offset == inh[k - 1].offset + Copied(inh[k - 1].prog))
  }

  lemma ContiguousIffNoneShort(inh: seq<Inherit>)
    requires LaidOut(inh)
    ensures Contiguous(inh) <==> forall k | 0 <= k < |inh| - 1 :: !Short(inh[k].prog)
  {
    if Contiguous(inh) {
      forall k | 0 <= k < |inh| - 1 ensures !Short(inh[k].prog) {
        assert inh[k + 1].offset == inh[k].offset + Copied(inh[k].prog);
      }
    }
  }

  lemma {:induction false} Ordered(inh: seq<Inherit>, k: nat, l: nat)
    requires Contiguous(inh) && k < l < |inh|
    ensures inh[k].offset + Copied(inh[k].prog) <= inh[l].offset
    decreases l
  {
    if k < l - 1 { Ordered(inh, k, l - 1); }
  }

  /** The parent whose segment holds the index: the last one that starts at or before it. */
  function Parent(inh: seq<Inherit>, index: nat): (k: nat)
    requires inh != [] && inh[0].offset == 0
    ensures k < |inh| && inh[k].offset <= index
    ensures forall l | k < l < |inh| :: inh[l].offset > index
  {
    ParentBelow(inh, index, |inh| - 1)
  }

  function ParentBelow(inh: seq<Inherit>, index: nat, k: nat): (r: nat)
    requires k < |inh| && inh[0].offset == 0
    ensures r <= k && inh[r].offset <= index
    ensures forall l | r < l <= k :: inh[l].offset > index
  {
    if inh[k].offset <= index then k else ParentBelow(inh, index, k - 1)
  }

  /** Under contiguity, also with empty parents, exactly one parent holds the index. */
  lemma ParentUnique(inh: seq<Inherit>, index: nat)
    requires Contiguous(inh) && index < Total(inh)
    ensures InSegment(inh, Parent(inh, index), index)
    ensures forall k: nat | k < |inh| && InSegment(inh, k, index) :: k == Parent(inh, index)
  {
    var p := Parent(inh, index);
    if p + 1 < |inh| { assert inh[p + 1].offset > index; }
    forall k: nat | k < |inh| && InSegment(inh, k, index) ensures k == p {
      if k < p { Ordered(inh, k, p); }
    }
  }

  lemma EmptyParentsShareOffset(inh: seq<Inherit>, k: nat, l: nat)
    requires LaidOut(inh) && k <= l < |inh| && forall m | k <= m < l :: Copied(inh[m].prog) == 0
    ensures inh[l].offset == inh[k].offset
    decreases l
  {
    if k < l {
      EmptyParentsShareOffset(inh, k, l - 1);
      assert !Short(inh[l - 1].prog);
    }
  }

  /** rule_inheritence partitions the inherited index space exactly when no parent but the
    last is short: its test for the initialiser looks at the first character only, that of
    copy_functions at the whole name. */
  lemma TilesIffNoneShort(inh: seq<Inherit>)
    requires LaidOut(inh)
    ensures Tiles(inh) <==> forall k | 0 <= k < |inh| - 1 :: !Short(inh[k].prog)
  {
    ContiguousIffNoneShort(inh);
    if Contiguous(inh) {
      ContiguousTiles(inh);
    } else {
      var k :| 0 <= k < |inh| - 1 && Short(inh[k].prog);
      ShortParentOverlaps(inh, k);
    }
  }

  lemma ContiguousTiles(inh: seq<Inherit>)
    requires Contiguous(inh)
    ensures Tiles(inh)
  {
    forall k, index: nat | 0 <= k < |inh| && InSegment(inh, k, index) ensures index < Total(inh) {
      if k < |inh| - 1 { Ordered(inh, k, |inh| - 1); }
    }
    forall k, l, index: nat | 0 <= k < l < |inh| && InSegment(inh, k, index) ensures !InSegment(inh, l, index) {
      Ordered(inh, k, l);
    }
    forall index: nat | index < Total(inh) ensures Covered(inh, index) {
      ParentUnique(inh, index);
    }
  }

  lemma ShortParentOverlaps(inh: seq<Inherit>, k: nat)
    requires LaidOut(inh) && k < |inh| - 1 && Short(inh[k].prog)
    ensures !Tiles(inh)
  {
    var index := inh[k].offset + Copied(inh[k].prog) - 1;
    assert InSegment(inh, k, index);
    assert inh[k + 1].offset == index;
    if l :| k < l < |inh| && Copied(inh[l].prog) > 0 {
      var m := FirstNonEmpty(inh, k + 1, l);
      EmptyParentsShareOffset(inh, k + 1, m);
      assert InSegment(inh, m, index);
    } else {
      EmptyParentsShareOffset(inh, k + 1, |inh| - 1);
      assert Total(inh) == index;
    }
  }

  function FirstNonEmpty(inh: seq<Inherit>, k: nat, l: nat): (m: nat)
    requires k <= l < |inh| && Copied(inh[l].prog) > 0
    ensures k <= m <= l && Copied(inh[m].prog) > 0
    ensures forall j | k <= j < m :: Copied(inh[j].prog) == 0
    decreases l - k
  {
    if Copied(inh[k].prog) > 0 then k else FirstNonEmpty(inh, k + 1, l)
  }
}
