/** Finding the program that defines a function, given its index
  (find_func_entry, copy_functions), and its index, given its name
  (find_matching_function). */
module FunctionLookup {
  import opened Programs

  /** FUNC_INHERITED, as the code tests it: an alias entry is not told apart, its lowest
    bit being that of the index it holds. */
  predicate InheritedBit(e: Entry) {
    match e case Alias(to) => to % 2 == 1 case Entry(inherited, _, _) => inherited
  }

  /** The name of the function at an index: own, or that of the parent's function there. */
  function NameAt(p: Program, index: nat): Name
    decreases p
  {
    if index >= p.lastInherited then
      if index - p.lastInherited < |p.functions| then p.functions[index - p.lastInherited] else ""
    else if p.inherits == [] || p.inherits[0].offset != 0 then ""
    else var k := Parent(p.inherits, index); NameAt(p.inherits[k].prog, index - p.inherits[k].offset)
  }

  /** The entry of the parent's table that an inherited index stands for. */
  function ParentEntry(p: Program, index: nat): Entry
    requires index < p.lastInherited && p.inherits != [] && p.inherits[0].offset == 0
    requires var k := Parent(p.inherits, index); index - p.inherits[k].offset < |p.inherits[k].prog.flags|
  {
    var k := Parent(p.inherits, index);
    p.inherits[k].prog.flags[index - p.inherits[k].offset]
  }

  /** What the compiler guarantees of a program (`FunctionIndices.CompiledIsOk`). */
  ghost predicate Ok(p: Program)
    decreases p
  {
    && Contiguous(p.inherits) && p.lastInherited == Total(p.inherits)
    && |p.flags| == p.lastInherited + |p.functions|
    && (forall i | 0 <= i < |p.inherits| :: Ok(p.inherits[i].prog))
    && (forall i | 0 <= i < |p.flags| :: EntryOk(p, i))
    && (forall i | 0 <= i < |p.flags| && NameAt(p, i) == INIT :: i >= p.lastInherited && i == |p.flags| - 1)
  }

  /** A flag says where its function comes from; an inherited function that is not an
    alias is no alias in its parent either; own functions are never aliases; an alias leads in
    one hop to a function of the same name that is not one. */
  ghost predicate EntryOk(p: Program, i: nat)
    requires Contiguous(p.inherits) && p.lastInherited == Total(p.inherits) && i < |p.flags|
  {
    match p.flags[i]
    case Alias(to) => i < p.lastInherited && to < |p.flags| && p.flags[to].Entry? && NameAt(p, to) == NameAt(p, i)
    case Entry(inherited, _, _) =>
      && (inherited <==> i < p.lastInherited)
      && (i < p.lastInherited ==> InParent(p, i) && ParentEntry(p, i).Entry?)
  }

  ghost predicate InParent(p: Program, i: nat) {
    && i < p.lastInherited && p.inherits != [] && p.inherits[0].offset == 0
    && var k := Parent(p.inherits, i); i - p.inherits[k].offset < |p.inherits[k].prog.flags|
  }

  /** Where the walk up the inheritance tree ends. */
  datatype Place = Place(prog: Program, index: int)

  function Walk(p: Program, index: nat): Place
    decreases p
  {
    if index < |p.flags| && InheritedBit(p.flags[index]) && p.inherits != [] && p.inherits[0].offset == 0 then
      var k := Parent(p.inherits, index);
      Walk(p.inherits[k].prog, index - p.inherits[k].offset)
    else Place(p, index - p.lastInherited)
  }

  /** find_func_entry */
  function FindEntry(p: Program, index: nat): Place
    requires index < |p.flags|
  {
    Walk(p, if p.flags[index].Alias? then p.flags[index].to else index)
  }

  lemma {:induction false} WalkFindsName(p: Program, index: nat)
    requires Ok(p) && index < |p.flags| && p.flags[index].Entry?
    ensures var r := Walk(p, index);
            0 <= r.index < |r.prog.functions| && r.prog.functions[r.index] == NameAt(p, index)
    decreases p
  {
    assert EntryOk(p, index);
    if index < p.lastInherited {
      var k := Parent(p.inherits, index);
      WalkFindsName(p.inherits[k].prog, index - p.inherits[k].offset);
    }
  }

  /** The walk ends at a definition of the name the index stands for. */
  lemma EntryHasName(p: Program, index: nat)
    requires Ok(p) && index < |p.flags|
    ensures var r := FindEntry(p, index);
            0 <= r.index < |r.prog.functions| && r.prog.functions[r.index] == NameAt(p, index)
  {
    assert EntryOk(p, index);
    WalkFindsName(p, if p.flags[index].Alias? then p.flags[index].to else index);
  }

  /** The binary search over the inherit list. */
  method SearchParent(inh: seq<Inherit>, index: nat) returns (low: nat)
    requires Contiguous(inh) && index < Total(inh)
    ensures low < |inh| && low == Parent(inh, index)
    ensures InSegment(inh, low, index)
  {
    low := 0;
    var high := |inh| - 1;
    while high > low
      invariant 0 <= low <= high < |inh|
      invariant inh[low].offset <= index
      invariant forall l | high < l < |inh| :: inh[l].offset > index
    {
      var mid := (low + high + 1) / 2;
      if inh[mid].offset > index {
        forall l | mid < l < |inh| ensures inh[l].offset > index { Ordered(inh, mid, l); }
        high := mid - 1;
      } else {
        low := mid;
      }
    }
    ParentUnique(inh, index);
  }

  /** One step of the walk stays inside a well-formed program. */
  lemma WalkStep(p: Program, index: nat)
    requires Ok(p) && index < |p.flags| && p.flags[index].Entry?
    ensures InheritedBit(p.flags[index]) <==> index < p.lastInherited
    ensures index < p.lastInherited ==>
              p.inherits != [] && p.inherits[0].offset == 0 && index < Total(p.inherits) &&
              var k := Parent(p.inherits, index); var q, i := p.inherits[k].prog, index - p.inherits[k].offset;
              Ok(q) && i < |q.flags| && q.flags[i].Entry? && Walk(p, index) == Walk(q, i)
    ensures index >= p.lastInherited ==> Walk(p, index) == Place(p, index - p.lastInherited)
  {
    assert EntryOk(p, index);
  }

  method Up(p: Program, i: nat) returns (q: Program, j: nat)
    requires Ok(p) && i < |p.flags| && p.flags[i].Entry? && InheritedBit(p.flags[i])
    ensures q < p && Ok(q) && j < |q.flags| && q.flags[j].Entry? && Walk(q, j) == Walk(p, i)
  {
    WalkStep(p, i);
    var low := SearchParent(p.inherits, i);
    q, j := p.inherits[low].prog, i - p.inherits[low].offset;
    assert p.inherits[low] in p.inherits;
  }

  /** find_func_entry, and the identical walk of copy_functions. */
  method FindFuncEntry(p: Program, i: nat) returns (prog: Program, index: int)
    requires Ok(p) && i < |p.flags|
    ensures Place(prog, index) == FindEntry(p, i)
    ensures 0 <= index < |prog.functions| && prog.functions[index] == NameAt(p, i)
  {
    EntryHasName(p, i);
    assert EntryOk(p, i);
    prog, index := p, i;
    if prog.flags[index].Alias? {
      index := prog.flags[index].to;
    }
    WalkStep(prog, index);
    ghost var goal := FindEntry(p, i);
    while InheritedBit(prog.flags[index])
      invariant Ok(prog) && 0 <= index < |prog.flags| && prog.flags[index].Entry?
      invariant Walk(prog, index) == goal
      decreases prog
    {
      prog, index := Up(prog, index);
    }
    WalkStep(prog, index);
    index := index - prog.lastInherited;
  }

  // ---------------------------------------------------------------------------
  // From a name to an index
  // ---------------------------------------------------------------------------

  datatype Match = NotFound | Private | Found(index: nat, prog: Program, own: nat)

  /** The first own function of the name, from `i` on, or -1. */
  function OwnIndex(p: Program, name: Name, i: nat): (r: int)
    ensures r == -1 || (i <= r < |p.functions| && p.functions[r] == name)
    ensures forall j | i <= j < |p.functions| && (r == -1 || j < r) :: p.functions[j] != name
    decreases |p.functions| - i
  {
    if i >= |p.functions| then -1 else if p.functions[i] == name then i else OwnIndex(p, name, i + 1)
  }

  /** find_matching_function: own functions first, then the parents from the last to the
    first; the offsets on the way back up are added to the index found. */
  function Matching(p: Program, name: Name): Match
    requires Ok(p)
    decreases p, 1, 0
  {
    var i := OwnIndex(p, name, 0);
    if i >= 0 then
      assert EntryOk(p, p.lastInherited + i);
      var e := p.flags[p.lastInherited + i];
      if e.noCode then NotFound
      else if e.isPrivate then Private
      else Found(p.lastInherited + i, p, i)
    else MatchingParent(p, name, |p.inherits|)
  }

  function MatchingParent(p: Program, name: Name, k: nat): Match
    requires Ok(p) && k <= |p.inherits|
    decreases p, 0, k
  {
    if k == 0 then NotFound else
    match Matching(p.inherits[k - 1].prog, name)
    case NotFound => MatchingParent(p, name, k - 1)
    case Private => Private
    case Found(index, prog, own) =>
      if p.inherits[k - 1].isPrivate then Private else Found(index + p.inherits[k - 1].offset, prog, own)
  }

  /** find_matching_function returns an index of the name it was asked for.  Unless the
    entry there is an alias, no entry on the way up from it is one (`EntryOk`), and the walk
    ends at the very function that was found. */
  lemma {:induction false} MatchingInvertsWalk(p: Program, name: Name)
    requires Ok(p) && name != INIT
    ensures Matching(p, name).Found? ==> MatchOk(p, name, Matching(p, name))
    decreases p, 1, 0
  {
    var i := OwnIndex(p, name, 0);
    if i >= 0 {
      assert EntryOk(p, p.lastInherited + i);
    } else {
      ParentMatchingInvertsWalk(p, name, |p.inherits|);
    }
  }

  ghost predicate MatchOk(p: Program, name: Name, m: Match)
    requires m.Found?
  {
    && m.index < |p.flags| && m.own < |m.prog.functions| && m.prog.functions[m.own] == name
    && NameAt(p, m.index) == name
    && (m.index >= p.lastInherited ==> m.prog == p && m.index == p.lastInherited + m.own)
    && (p.flags[m.index].Entry? ==> Walk(p, m.index) == Place(m.prog, m.own))
  }

  lemma {:induction false} ParentMatchingInvertsWalk(p: Program, name: Name, k: nat)
    requires Ok(p) && name != INIT && k <= |p.inherits|
    ensures MatchingParent(p, name, k).Found? ==>
              MatchOk(p, name, MatchingParent(p, name, k)) && MatchingParent(p, name, k).index < p.lastInherited
    decreases p, 0, k
  {
    if k > 0 {
      var q := p.inherits[k - 1].prog;
      MatchingInvertsWalk(q, name);
      ParentMatchingInvertsWalk(p, name, k - 1);
      if Matching(q, name).Found? {
        LiftMatch(p, name, k - 1, Matching(q, name));
      }
    }
  }

  /** What is found in a parent is found, further on, in the program. */
  lemma LiftMatch(p: Program, name: Name, k: nat, m: Match)
    requires Ok(p) && name != INIT && k < |p.inherits| && m.Found? && MatchOk(p.inherits[k].prog, name, m)
    ensures m.index + p.inherits[k].offset < p.lastInherited
    ensures MatchOk(p, name, m.(index := m.index + p.inherits[k].offset))
  {
    Lift(p, k, m.index);
  }

  /** Adding the parent's offset turns its index of a function into ours. */
  lemma Lift(p: Program, k: nat, i: nat)
    requires Ok(p) && k < |p.inherits| && i < |p.inherits[k].prog.flags| && NameAt(p.inherits[k].prog, i) != INIT
    ensures i + p.inherits[k].offset < p.lastInherited
    ensures NameAt(p, i + p.inherits[k].offset) == NameAt(p.inherits[k].prog, i)
    ensures p.flags[i + p.inherits[k].offset].Entry? ==>
              p.inherits[k].prog.flags[i].Entry? && Walk(p, i + p.inherits[k].offset) == Walk(p.inherits[k].prog, i)
  {
    LiftIndex(p, k, i);
    LiftName(p, k, i);
    assert EntryOk(p, i + p.inherits[k].offset);
    LiftWalk(p, k, i);
  }

  lemma LiftName(p: Program, k: nat, i: nat)
    requires Contiguous(p.inherits) && k < |p.inherits|
    requires i + p.inherits[k].offset < p.lastInherited && Parent(p.inherits, i + p.inherits[k].offset) == k
    ensures NameAt(p, i + p.inherits[k].offset) == NameAt(p.inherits[k].prog, i)
  {
  }

  lemma LiftIndex(p: Program, k: nat, i: nat)
    requires Ok(p) && k < |p.inherits| && i < |p.inherits[k].prog.flags| && NameAt(p.inherits[k].prog, i) != INIT
    ensures i + p.inherits[k].offset < p.lastInherited && Parent(p.inherits, i + p.inherits[k].offset) == k
  {
    var q := p.inherits[k].prog;
    var index := i + p.inherits[k].offset;
    assert i < Copied(q);
    assert InSegment(p.inherits, k, index);
    ContiguousTiles(p.inherits);
    ParentUnique(p.inherits, index);
  }

  lemma LiftWalk(p: Program, k: nat, i: nat)
    requires Contiguous(p.inherits) && p.lastInherited == Total(p.inherits) && k < |p.inherits|
    requires i < |p.inherits[k].prog.flags| && i + p.inherits[k].offset < p.lastInherited <= |p.flags|
    requires Parent(p.inherits, i + p.inherits[k].offset) == k && EntryOk(p, i + p.inherits[k].offset)
    ensures p.flags[i + p.inherits[k].offset].Entry? ==>
              p.inherits[k].prog.flags[i].Entry? && Walk(p, i + p.inherits[k].offset) == Walk(p.inherits[k].prog, i)
  {
  }

  // ---------------------------------------------------------------------------
  // What is found
  // ---------------------------------------------------------------------------

  /** The first own function of the name. */
  predicate IsOwn(p: Program, name: Name, i: nat) {
    i < |p.functions| && p.functions[i] == name && name !in p.functions[..i]
  }

  predicate HasFlags(p: Program, i: nat) { p.lastInherited + i < |p.flags| && p.flags[p.lastInherited + i].Entry? }

  predicate OwnWithCode(p: Program, name: Name) {
    exists i | 0 <= i < |p.functions| :: IsOwn(p, name, i) && HasFlags(p, i) && !p.flags[p.lastInherited + i].noCode
  }

  predicate OwnPrivate(p: Program, name: Name) {
    exists i | 0 <= i < |p.functions| :: IsOwn(p, name, i) && HasFlags(p, i) && p.flags[p.lastInherited + i].isPrivate
  }

  /** Places in the lists of parents, one below the other, that lead past programs without an
    own function of the name to one that has it, with code. */
  predicate Leads(p: Program, name: Name, path: seq<nat>)
    decreases path
  {
    if path == [] then OwnWithCode(p, name)
    else name !in p.functions && path[0] < |p.inherits| && Leads(p.inherits[path[0]].prog, name, path[1..])
  }

  /** The first path comes later in the order of the inherit statements. */
  predicate Later(path: seq<nat>, other: seq<nat>)
    decreases path
  {
    && path != [] && other != []
    && (path[0] > other[0] || (path[0] == other[0] && Later(path[1..], other[1..])))
  }

  predicate InheritsPrivately(p: Program, path: seq<nat>)
    decreases path
  {
    && path != [] && path[0] < |p.inherits|
    && (p.inherits[path[0]].isPrivate || InheritsPrivately(p.inherits[path[0]].prog, path[1..]))
  }

  function At(p: Program, path: seq<nat>): Program
    decreases path
  {
    if path == [] || path[0] >= |p.inherits| then p else At(p.inherits[path[0]].prog, path[1..])
  }

  /** The offsets on the way and the first own index at its end. */
  function Offsets(p: Program, path: seq<nat>): nat
    decreases path
  {
    if path == [] || path[0] >= |p.inherits| then p.lastInherited
    else p.inherits[path[0]].offset + Offsets(p.inherits[path[0]].prog, path[1..])
  }

  predicate Barred(p: Program, name: Name, path: seq<nat>) {
    InheritsPrivately(p, path) || OwnPrivate(At(p, path), name)
  }

  /** The answer for the function the path leads to. */
  predicate IsAnswer(p: Program, name: Name, path: seq<nat>, m: Match) {
    match m
    case NotFound => false
    case Private => Barred(p, name, path)
    case Found(index, prog, own) =>
      && !Barred(p, name, path)
      && prog == At(p, path) && IsOwn(prog, name, own) && index == Offsets(p, path) + own
  }

  predicate Below(path: seq<nat>, k: nat) { path == [] || path[0] < k }

  /** The path leads to a function of the name, and of those through the first `k` parents it
    is the last. */
  ghost predicate IsLast(p: Program, name: Name, path: seq<nat>, k: nat) {
    && Below(path, k) && Leads(p, name, path)
    && (forall other | Below(other, k) && Leads(p, name, other) && other != path :: Later(path, other))
  }

  ghost predicate LeadsNowhere(p: Program, name: Name, k: nat) { forall path | Below(path, k) :: !Leads(p, name, path) }

  /** What `m` says about the name, if the search is restricted to the first `k` parents. */
  ghost predicate Answers(p: Program, name: Name, k: nat, m: Match, path: seq<nat>) {
    if m == NotFound then LeadsNowhere(p, name, k) else IsLast(p, name, path, k) && IsAnswer(p, name, path, m)
  }

  /** find_matching_function finds nothing exactly if no path leads to a function of the name;
    otherwise the path that comes last decides, and the answer is "private" exactly if that
    function, or an inherit statement on the way to it, is. */
  lemma MatchingIs(p: Program, name: Name) returns (path: seq<nat>)
    requires Ok(p)
    ensures Matching(p, name) == NotFound <==> forall other :: !Leads(p, name, other)
    ensures Matching(p, name) != NotFound ==>
              && Leads(p, name, path) && (forall other | Leads(p, name, other) && other != path :: Later(path, other))
              && IsAnswer(p, name, path, Matching(p, name))
  {
    path := MatchingAnswers(p, name);
    forall other ensures Leads(p, name, other) ==> Below(other, |p.inherits|) { LeadsBelow(p, name, other); }
    assert Matching(p, name) == NotFound <==> !Leads(p, name, path) by {
      assert LeadsNowhere(p, name, |p.inherits|) && Below(path, |p.inherits|) ==> !Leads(p, name, path);
    }
  }

  lemma {:induction false} MatchingAnswers(p: Program, name: Name) returns (path: seq<nat>)
    requires Ok(p)
    ensures Answers(p, name, |p.inherits|, Matching(p, name), path)
    decreases p, 1, 0
  {
    path := [];
    if name in p.functions {
      OwnAnswers(p, name, OwnIndex(p, name, 0));
    } else {
      path := ParentAnswers(p, name, |p.inherits|);
    }
  }

  lemma OwnAnswers(p: Program, name: Name, i: int)
    requires Ok(p) && i == OwnIndex(p, name, 0) && name in p.functions
    ensures Answers(p, name, |p.inherits|, Matching(p, name), [])
  {
    var j :| 0 <= j < |p.functions| && p.functions[j] == name;
    FirstOwn(p, name, i);
    assert EntryOk(p, p.lastInherited + i);
    assert forall other | Leads(p, name, other) :: other == [];
  }

  lemma FirstOwn(p: Program, name: Name, i: nat)
    requires i == OwnIndex(p, name, 0)
    ensures IsOwn(p, name, i) && forall j | 0 <= j < |p.functions| && IsOwn(p, name, j) :: j == i
  {
    forall j | i < j <= |p.functions| ensures name in p.functions[..j] { InPrefix(p.functions, i, j); }
  }

  lemma InPrefix(names: seq<Name>, i: nat, j: nat)
    requires i < j <= |names|
    ensures names[i] in names[..j]
  {
    assert names[..j][i] == names[i];
  }

  lemma {:induction false} ParentAnswers(p: Program, name: Name, k: nat) returns (path: seq<nat>)
    requires Ok(p) && k <= |p.inherits| && name !in p.functions
    ensures Answers(p, name, k, MatchingParent(p, name, k), path)
    decreases p, 0, k
  {
    path := [];
    if k > 0 {
      var q := p.inherits[k - 1].prog;
      var sub := MatchingAnswers(q, name);
      if Matching(q, name) == NotFound {
        path := ParentAnswers(p, name, k - 1);
        NoneThrough(p, name, k - 1);
      } else {
        path := [k - 1] + sub;
        LastThrough(p, name, k - 1, sub);
        AnswerThrough(p, name, k - 1, sub, Matching(q, name));
      }
    }
  }

  lemma LeadsBelow(p: Program, name: Name, path: seq<nat>)
    ensures Leads(p, name, path) ==> Below(path, |p.inherits|)
  {
  }

  /** A path that does not go through the `k`-th parent goes through one before it. */
  lemma NoneThrough(p: Program, name: Name, k: nat)
    requires k < |p.inherits| && LeadsNowhere(p.inherits[k].prog, name, |p.inherits[k].prog.inherits|)
    ensures forall path | Leads(p, name, path) && Below(path, k + 1) :: Below(path, k)
  {
    forall path | Leads(p, name, path) && Below(path, k + 1) ensures Below(path, k) {
      if path != [] && path[0] == k { LeadsBelow(p.inherits[k].prog, name, path[1..]); }
    }
  }

  lemma LastThrough(p: Program, name: Name, k: nat, sub: seq<nat>)
    requires k < |p.inherits| && name !in p.functions
    requires IsLast(p.inherits[k].prog, name, sub, |p.inherits[k].prog.inherits|)
    ensures IsLast(p, name, [k] + sub, k + 1)
  {
    var path := [k] + sub;
    assert path[1..] == sub;
    forall other | Below(other, k + 1) && Leads(p, name, other) && other != path ensures Later(path, other) {
      if other[0] == k {
        assert other == [k] + other[1..];
        LeadsBelow(p.inherits[k].prog, name, other[1..]);
      }
    }
  }

  lemma AnswerThrough(p: Program, name: Name, k: nat, sub: seq<nat>, m: Match)
    requires k < |p.inherits| && IsAnswer(p.inherits[k].prog, name, sub, m)
    ensures m == Private || p.inherits[k].isPrivate ==> IsAnswer(p, name, [k] + sub, Private)
    ensures m.Found? && !p.inherits[k].isPrivate ==>
              IsAnswer(p, name, [k] + sub, Found(m.index + p.inherits[k].offset, m.prog, m.own))
  {
    assert ([k] + sub)[1..] == sub;
  }

  // ---------------------------------------------------------------------------
  // A short parent
  // ---------------------------------------------------------------------------

  const PLAIN: Entry := Entry(false, false, false)

  /** The failing case of `TilesIffNoneShort`: a first parent with a default argument and no
    initialiser shares its last index with the first function of the second parent.  Both are
    programs the compiler emits. */
  lemma DefaultArgumentsOverlap(first: Program, second: Program)
    requires first == Program([], 0, ["f", "#__f_x"], [PLAIN, PLAIN]) && second == Program([], 0, ["g"], [PLAIN])
    ensures Ok(first) && Ok(second) && Short(first)
    ensures var inh := [Inherit(first, 0, false), Inherit(second, 1, false)];
            LaidOut(inh) && InSegment(inh, 0, 1) && InSegment(inh, 1, 1)
  {
    assert first.functions[0][0] != INIT[0];
    assert first.functions[1][1] != INIT[1];
    assert second.functions[0][0] != INIT[0];
    assert NextOffset(Inherit(first, 0, false)) == 1;
  }
}
