/** The scan over all objects in batches (look_for_objects_to_swap in src/backend.cc), while
  objects are destructed and created (destruct_object in src/vm/internal/simulate.cc) and the
  destructed ones are freed (remove_destructed_objects in src/vm/internal/vm.cc). */
module ObjectScan {
  import opened Wrappers

  type Obj = nat

  /** `live` is obj_list and `dead` obj_list_destruct; `gone` are the objects that have been
    freed; `saved` is the pointer kept while an object is processed, and by `cursor` between
    two batches. */
  datatype State = State(live: seq<Obj>, dead: seq<Obj>, gone: set<Obj>, saved: Option<Obj>, visited: seq<Obj>)

  function IndexOf(list: seq<Obj>, x: Obj): (i: nat)
    ensures i <= |list| && (i < |list| ==> list[i] == x) && forall j | 0 <= j < i :: list[j] != x
  {
    if list == [] || list[0] == x then 0 else 1 + IndexOf(list[1..], x)
  }

  function Head(list: seq<Obj>): Option<Obj> { if list == [] then None else Some(list[0]) }

  /** The list from an object on. */
  function From(list: seq<Obj>, x: Obj): seq<Obj> { list[IndexOf(list, x)..] }

  /** next_all */
  function Next(list: seq<Obj>, x: Obj): Option<Obj> {
    var i := IndexOf(list, x);
    if i + 1 < |list| then Some(list[i + 1]) else None
  }

  function Without(list: seq<Obj>, x: Obj): seq<Obj> {
    var i := IndexOf(list, x);
    if i < |list| then list[..i] + list[i + 1..] else list
  }

  /** `Visit` and `Skip` are turns of the scan, which reads the saved object. */
  datatype Step = Visit | Skip | Destruct(x: Obj) | Create(x: Obj) | Reap

  predicate Enabled(s: State, a: Step) {
    match a
    case Visit => s.saved.Some? && s.saved.value in s.live
    case Skip => s.saved.Some? && s.saved.value in s.dead && s.saved.value !in s.live
    case Destruct(x) => x in s.live
    case Create(x) => x !in s.live && x !in s.dead && x !in s.gone && x !in s.visited
    case Reap => true
  }

  function Apply(s: State, a: Step): State
    requires Enabled(s, a)
  {
    match a
    case Visit => s.(visited := s.visited + [s.saved.value], saved := Next(s.live, s.saved.value))
    case Skip => s.(saved := Next(s.dead, s.saved.value))
    case Destruct(x) => s.(live := Without(s.live, x), dead := [x] + s.dead)
    case Create(x) => s.(live := [x] + s.live)
    case Reap => s.(dead := [], gone := s.gone + set x <- s.dead)
  }

  predicate IsRun(s: State, steps: seq<Step>)
    decreases |steps|
  {
    steps == [] || (Enabled(s, steps[0]) && IsRun(Apply(s, steps[0]), steps[1..]))
  }

  function After(s: State, steps: seq<Step>): State
    requires IsRun(s, steps)
    decreases |steps|
  {
    if steps == [] then s else After(Apply(s, steps[0]), steps[1..])
  }

  /** A round begins at the head of the list. */
  function Start(live: seq<Obj>, dead: seq<Obj>): State { State(live, dead, {}, Head(live), []) }

  /** The object the saved pointer points at is destructed. */
  predicate Loses(s: State, a: Step) { a.Destruct? && s.saved == Some(a.x) }

  predicate NeverLoses(s: State, steps: seq<Step>)
    requires IsRun(s, steps)
    decreases |steps|
  {
    steps == [] || (!Loses(s, steps[0]) && NeverLoses(Apply(s, steps[0]), steps[1..]))
  }

  // ---------------------------------------------------------------------------
  // The scan that loses nothing
  // ---------------------------------------------------------------------------

  predicate Distinct(list: seq<Obj>) { forall i, j | 0 <= i < j < |list| :: list[i] != list[j] }

  function Left(s: State): seq<Obj> { if s.saved.Some? then From(s.live, s.saved.value) else [] }

  /** What has been visited and what is still to be visited are different objects, each once,
    and no survivor of the start of the round is missing. */
  predicate Inv(s: State, first: seq<Obj>) {
    && Distinct(s.live) && Distinct(s.visited)
    && (s.saved.Some? ==> s.saved.value in s.live)
    && (forall x <- Left(s) :: x !in s.visited)
    && (forall x <- first :: x in s.live ==> x in s.visited || x in Left(s))
    && (forall x <- first :: x in s.live || x in s.dead || x in s.gone)
  }

  lemma FromSplits(list: seq<Obj>, x: Obj)
    requires Distinct(list) && x in list
    ensures From(list, x) == [x] + match Next(list, x) case None => [] case Some(y) => From(list, y)
    ensures forall y | Next(list, x) == Some(y) :: y in list
    ensures x !in From(list, x)[1..]
  {
    var i := IndexOf(list, x);
    if i + 1 < |list| { assert IndexOf(list, list[i + 1]) == i + 1; }
  }

  lemma WithoutElement(list: seq<Obj>, x: Obj)
    requires Distinct(list)
    ensures Distinct(Without(list, x)) && forall y :: y in Without(list, x) <==> y in list && y != x
  {
    var i, w := IndexOf(list, x), Without(list, x);
    if i < |list| {
      forall y | y in list && y != x ensures y in w {
        var j :| 0 <= j < |list| && list[j] == y;
        assert w[if j < i then j else j - 1] == y;
      }
    }
  }

  /** Taking out another element moves the place at most by one. */
  lemma PlaceWithout(list: seq<Obj>, x: Obj, z: Obj)
    requires Distinct(list) && z in list && x != z
    ensures var i, k := IndexOf(list, x), IndexOf(list, z); IndexOf(Without(list, x), z) == if i < k then k - 1 else k
  {
    var i, k, w := IndexOf(list, x), IndexOf(list, z), Without(list, x);
    WithoutElement(list, x);
    assert w[if i < k then k - 1 else k] == z;
  }

  lemma FromWithoutElement(list: seq<Obj>, x: Obj, z: Obj)
    requires Distinct(list) && z in list && x != z
    ensures forall y :: y in From(Without(list, x), z) <==> y in From(list, z) && y != x
  {
    PlaceWithout(list, x, z);
    var i, k := IndexOf(list, x), IndexOf(list, z);
    if i == |list| {
      assert x !in list[k..];
    } else if k < i {
      BehindPlace(list, k, i);
    } else {
      BeforePlace(list, i, k);
    }
  }

  lemma BehindPlace(list: seq<Obj>, k: nat, i: nat)
    requires Distinct(list) && k < i < |list|
    ensures forall y :: y in (list[..i] + list[i + 1..])[k..] <==> y in list[k..] && y != list[i]
  {
    MiddleOut(list[k..], i - k);
    assert (list[..i] + list[i + 1..])[k..] == list[k..][..i - k] + list[k..][i - k + 1..];
  }

  lemma BeforePlace(list: seq<Obj>, i: nat, k: nat)
    requires Distinct(list) && i < k < |list|
    ensures (list[..i] + list[i + 1..])[k - 1..] == list[k..] && list[i] !in list[k..]
  {
  }

  lemma MiddleOut(list: seq<Obj>, i: nat)
    requires Distinct(list) && i < |list|
    ensures forall y :: y in list[..i] + list[i + 1..] <==> y in list && y != list[i]
  {
    assert list == list[..i] + [list[i]] + list[i + 1..];
  }

  lemma VisitKeeps(s: State, first: seq<Obj>)
    requires Inv(s, first) && Enabled(s, Visit)
    ensures Inv(Apply(s, Visit), first)
  {
    var o := s.saved.value;
    var t := Apply(s, Visit);
    FromSplits(s.live, o);
    TailOf(Left(s), o, Left(t));
    assert o !in s.visited;
    AppendDistinct(s.visited, o);
  }

  lemma TailOf(list: seq<Obj>, x: Obj, tail: seq<Obj>)
    requires list == [x] + tail
    ensures list[1..] == tail && forall y :: y in list <==> y == x || y in tail
  {
  }

  lemma AppendDistinct(list: seq<Obj>, x: Obj)
    requires Distinct(list) && x !in list
    ensures Distinct(list + [x])
  {
  }

  lemma DestructKeeps(s: State, first: seq<Obj>, x: Obj)
    requires Inv(s, first) && x in s.live && s.saved != Some(x)
    ensures Inv(Apply(s, Destruct(x)), first)
  {
    WithoutElement(s.live, x);
    if s.saved.Some? { FromWithoutElement(s.live, x, s.saved.value); }
  }

  lemma CreateKeeps(s: State, first: seq<Obj>, x: Obj)
    requires Inv(s, first) && Enabled(s, Create(x))
    ensures Inv(Apply(s, Create(x)), first)
  {
    if s.saved.Some? { FromPrepended(s.live, x, s.saved.value); }
    PrependDistinct(s.live, x);
  }

  lemma FromPrepended(list: seq<Obj>, x: Obj, z: Obj)
    requires z in list && x != z
    ensures From([x] + list, z) == From(list, z)
  {
    assert ([x] + list)[1..] == list;
  }

  lemma PrependDistinct(list: seq<Obj>, x: Obj)
    requires Distinct(list) && x !in list
    ensures Distinct([x] + list)
  {
  }

  lemma StepKeeps(s: State, a: Step, first: seq<Obj>)
    requires Inv(s, first) && Enabled(s, a) && !Loses(s, a)
    ensures Inv(Apply(s, a), first)
  {
    match a
    case Visit => VisitKeeps(s, first);
    case Skip =>
    case Destruct(x) => DestructKeeps(s, first, x);
    case Create(x) => CreateKeeps(s, first, x);
    case Reap =>
  }

  lemma {:induction false} RunKeeps(s: State, steps: seq<Step>, first: seq<Obj>)
    requires Inv(s, first) && IsRun(s, steps) && NeverLoses(s, steps)
    ensures Inv(After(s, steps), first)
    decreases |steps|
  {
    if steps != [] {
      StepKeeps(s, steps[0], first);
      RunKeeps(Apply(s, steps[0]), steps[1..], first);
    }
  }

  lemma StartInv(live: seq<Obj>, dead: seq<Obj>)
    requires Distinct(live)
    ensures Inv(Start(live, dead), live)
    ensures (forall x <- dead :: x !in live) ==> Apart(Start(live, dead))
  {
    if live != [] { assert IndexOf(live, live[0]) == 0; }
  }

  /** However the list is cut into batches and whatever happens in between: if the saved
    object is never destructed, then at the end of the round every object that was there at
    the start and still is has been visited, and none twice. */
  lemma RoundVisitsSurvivors(live: seq<Obj>, dead: seq<Obj>, steps: seq<Step>)
    requires Distinct(live) && IsRun(Start(live, dead), steps) && NeverLoses(Start(live, dead), steps)
    requires After(Start(live, dead), steps).saved == None
    ensures var s := After(Start(live, dead), steps);
            Distinct(s.visited) && forall x <- live :: x in s.live ==> x in s.visited
  {
    StartInv(live, dead);
    RunKeeps(Start(live, dead), steps, live);
  }

  // ---------------------------------------------------------------------------
  // The scan that loses its place
  // ---------------------------------------------------------------------------

  /** The saved object, if there is one, has been destructed. */
  predicate Lost(s: State) {
    s.saved.Some? ==> s.saved.value !in s.live && (s.saved.value in s.dead || s.saved.value in s.gone)
  }

  /** The three kinds of objects do not mix. */
  predicate Apart(s: State) {
    && Distinct(s.live)
    && (forall x <- s.dead :: x !in s.live) && (forall x <- s.gone :: x !in s.live)
    && (forall x <- s.visited :: x in s.live || x in s.dead || x in s.gone)
  }

  lemma StepApart(s: State, a: Step)
    requires Apart(s) && Enabled(s, a)
    ensures Apart(Apply(s, a))
  {
    if a.Destruct? { WithoutElement(s.live, a.x); }
  }

  /** Every run keeps them apart. */
  lemma {:induction false} RunApart(s: State, steps: seq<Step>)
    requires Apart(s) && IsRun(s, steps)
    ensures Apart(After(s, steps))
    decreases |steps|
  {
    if steps != [] {
      StepApart(s, steps[0]);
      RunApart(Apply(s, steps[0]), steps[1..]);
    }
  }

  lemma LostStep(s: State, a: Step)
    requires Apart(s) && Lost(s) && Enabled(s, a)
    ensures Apart(Apply(s, a)) && Lost(Apply(s, a)) && Apply(s, a).visited == s.visited
  {
    StepApart(s, a);
    if a.Destruct? { WithoutElement(s.live, a.x); }
  }

  /** Once its place is among the destructed objects the scan visits nothing more. */
  lemma {:induction false} LostVisitsNothing(s: State, steps: seq<Step>)
    requires Apart(s) && Lost(s) && IsRun(s, steps)
    ensures After(s, steps).visited == s.visited && Lost(After(s, steps)) && NeverLoses(s, steps)
    decreases |steps|
  {
    if steps != [] {
      LostStep(s, steps[0]);
      LostVisitsNothing(Apply(s, steps[0]), steps[1..]);
    }
  }

  lemma LosingLoses(s: State, a: Step)
    requires Apart(s) && Enabled(s, a) && Loses(s, a)
    ensures Apart(Apply(s, a)) && Lost(Apply(s, a)) && Apply(s, a).visited == s.visited
  {
    StepApart(s, a);
    WithoutElement(s.live, a.x);
  }

  /** If the saved object is destructed, everything behind it is left out of the round. */
  lemma LosingMissesRest(s: State, first: seq<Obj>, x: Obj, steps: seq<Step>, y: Obj)
    requires Inv(s, first) && Apart(s) && s.saved == Some(x) && y in Left(s)
    requires IsRun(s, [Destruct(x)] + steps)
    ensures y !in After(s, [Destruct(x)] + steps).visited
  {
    assert ([Destruct(x)] + steps)[1..] == steps;
    LosingLoses(s, Destruct(x));
    LostVisitsNothing(Apply(s, Destruct(x)), steps);
  }

  function Skips(n: nat): seq<Step> { if n == 0 then [] else [Skip] + Skips(n - 1) }

  lemma {:induction false} SkipsThrough(s: State)
    requires s.saved.Some? && s.saved.value in s.dead && Distinct(s.dead) && (forall x <- s.dead :: x !in s.live)
    ensures var n := |From(s.dead, s.saved.value)|;
            IsRun(s, Skips(n)) && After(s, Skips(n)) == s.(saved := None)
    decreases |From(s.dead, s.saved.value)|
  {
    var n := |From(s.dead, s.saved.value)|;
    var t := Apply(s, Skip);
    FromSplits(s.dead, s.saved.value);
    if t.saved.Some? { SkipsThrough(t); }
    RunMore(s, Skip, Skips(n - 1));
  }

  lemma RunMore(s: State, a: Step, steps: seq<Step>)
    requires Enabled(s, a) && IsRun(Apply(s, a), steps)
    ensures IsRun(s, [a] + steps) && After(s, [a] + steps) == After(Apply(s, a), steps)
  {
    assert ([a] + steps)[1..] == steps;
  }

  /** Having lost its place the scan goes, unless it is disturbed, through that object and all
    that were destructed before it, and then the round is over. */
  lemma LostSkipsAllDead(s: State, x: Obj)
    requires Apart(s) && Distinct(s.dead) && s.saved == Some(x) && x in s.live
    ensures var t := Apply(s, Destruct(x)); var n := 1 + |s.dead|;
            IsRun(t, Skips(n)) && After(t, Skips(n)) == t.(saved := None)
  {
    var t := Apply(s, Destruct(x));
    StepApart(s, Destruct(x));
    PrependDistinct(s.dead, x);
    assert IndexOf(t.dead, x) == 0;
    SkipsThrough(t);
  }

  /** Only what was there at the start of the round is visited or to be visited. */
  predicate OnlyFirst(s: State, first: seq<Obj>) {
    (forall x <- s.visited :: x in first) && (s.saved.Some? && s.saved.value in s.live ==> forall x <- Left(s) :: x in first)
  }

  lemma StepOnlyFirst(s: State, a: Step, first: seq<Obj>)
    requires OnlyFirst(s, first) && Apart(s) && Enabled(s, a) && (s.saved.Some? ==> s.saved.value !in s.live ==> Lost(s))
    ensures OnlyFirst(Apply(s, a), first)
    ensures Apply(s, a).saved.Some? && Apply(s, a).saved.value !in Apply(s, a).live ==> Lost(Apply(s, a))
  {
    if s.saved.Some? {
      var z := s.saved.value;
      match a
      case Visit => FromSplits(s.live, z);
      case Skip => LostStep(s, Skip);
      case Destruct(x) =>
        WithoutElement(s.live, x);
        if z in s.live && x != z { FromWithoutElement(s.live, x, z); }
      case Create(x) => if z in s.live { FromPrepended(s.live, x, z); }
      case Reap =>
    }
  }

  lemma {:induction false} RunOnlyFirst(s: State, steps: seq<Step>, first: seq<Obj>)
    requires OnlyFirst(s, first) && Apart(s) && IsRun(s, steps)
    requires s.saved.Some? && s.saved.value !in s.live ==> Lost(s)
    ensures OnlyFirst(After(s, steps), first)
    decreases |steps|
  {
    if steps != [] {
      StepOnlyFirst(s, steps[0], first);
      StepApart(s, steps[0]);
      RunOnlyFirst(Apply(s, steps[0]), steps[1..], first);
    }
  }

  /** What is created during a round is not visited in it. */
  lemma NewNotVisited(live: seq<Obj>, dead: seq<Obj>, steps: seq<Step>)
    requires Distinct(live) && (forall x <- dead :: x !in live) && IsRun(Start(live, dead), steps)
    ensures forall x <- After(Start(live, dead), steps).visited :: x in live
  {
    StartInv(live, dead);
    RunOnlyFirst(Start(live, dead), steps, live);
  }

  /** Some step destructs the saved object, with `y` at it or behind it. */
  predicate MissedBy(s: State, steps: seq<Step>, y: Obj)
    requires IsRun(s, steps)
    decreases |steps|
  {
    steps != [] && ((Loses(s, steps[0]) && y in Left(s)) || MissedBy(Apply(s, steps[0]), steps[1..], y))
  }

  lemma {:induction false} NeverLosesNotMissed(s: State, steps: seq<Step>, y: Obj)
    requires IsRun(s, steps) && NeverLoses(s, steps)
    ensures !MissedBy(s, steps, y)
    decreases |steps|
  {
    if steps != [] { NeverLosesNotMissed(Apply(s, steps[0]), steps[1..], y); }
  }

  /** A destructed object does not come back. */
  lemma {:induction false} DeadStays(s: State, steps: seq<Step>, y: Obj)
    requires Apart(s) && IsRun(s, steps) && (y in s.dead || y in s.gone)
    ensures y !in After(s, steps).live
    decreases |steps|
  {
    if steps != [] {
      StepApart(s, steps[0]);
      DeadStays(Apply(s, steps[0]), steps[1..], y);
    }
  }

  lemma {:induction false} VisitedFrom(s: State, steps: seq<Step>, first: seq<Obj>, y: Obj)
    requires Inv(s, first) && Apart(s) && IsRun(s, steps) && After(s, steps).saved == None
    requires y in first && y in After(s, steps).live
    ensures y in After(s, steps).visited <==> !MissedBy(s, steps, y)
    decreases |steps|
  {
    if steps != [] {
      var t, rest := Apply(s, steps[0]), steps[1..];
      if Loses(s, steps[0]) {
        LosingLoses(s, steps[0]);
        LostVisitsNothing(t, rest);
        NeverLosesNotMissed(t, rest, y);
        if y !in s.live { DeadStays(s, steps, y); }
      } else {
        StepKeeps(s, steps[0], first);
        StepApart(s, steps[0]);
        VisitedFrom(t, rest, first, y);
      }
    }
  }

  /** The exact condition: in a round that comes to its end, an object that was there at the
    start and still is has been visited, unless the saved object was destructed, by itself or
    by the object before it or between two batches, when this one was still to come. */
  lemma VisitedIffNotMissed(live: seq<Obj>, dead: seq<Obj>, steps: seq<Step>, y: Obj)
    requires Distinct(live) && (forall x <- dead :: x !in live)
    requires IsRun(Start(live, dead), steps) && After(Start(live, dead), steps).saved == None
    requires y in live && y in After(Start(live, dead), steps).live
    ensures y in After(Start(live, dead), steps).visited <==> !MissedBy(Start(live, dead), steps, y)
  {
    StartInv(live, dead);
    VisitedFrom(Start(live, dead), steps, live, y);
  }

  // ---------------------------------------------------------------------------
  // The place that is freed
  // ---------------------------------------------------------------------------

  /** The saved pointer is in neither list: the scan would read a freed object. */
  predicate Dangling(s: State) { s.saved.Some? && s.saved.value !in s.live && s.saved.value !in s.dead }

  lemma NextInList(list: seq<Obj>, x: Obj)
    ensures Next(list, x).Some? ==> Next(list, x).value in list
  {
  }

  /** That comes about exactly when the destructed objects are freed while the saved one is
    among them. */
  lemma DanglesIff(s: State, a: Step)
    requires Apart(s) && !Dangling(s) && Enabled(s, a)
    ensures Dangling(Apply(s, a)) <==> a == Reap && Lost(s) && s.saved.Some?
  {
    match a
    case Visit => NextInList(s.live, s.saved.value);
    case Skip => NextInList(s.dead, s.saved.value);
    case Destruct(x) => WithoutElement(s.live, x);
    case Create(_) =>
    case Reap =>
  }

  /** From then on the scan has no step that the lists define. */
  lemma {:induction false} DanglingStays(s: State, steps: seq<Step>)
    requires Dangling(s) && s.saved.value in s.gone && Apart(s) && IsRun(s, steps)
    ensures Dangling(After(s, steps)) && After(s, steps).saved == s.saved && Visit !in steps && Skip !in steps
    decreases |steps|
  {
    if steps != [] {
      StepApart(s, steps[0]);
      if steps[0].Destruct? { WithoutElement(s.live, steps[0].x); }
      DanglingStays(Apply(s, steps[0]), steps[1..]);
    }
  }

  /** Some step frees the destructed objects while the saved one is among them. */
  predicate FreedUnder(s: State, steps: seq<Step>)
    requires IsRun(s, steps)
    decreases |steps|
  {
    && steps != []
    && ((steps[0] == Reap && s.saved.Some? && s.saved.value in s.dead) || FreedUnder(Apply(s, steps[0]), steps[1..]))
  }

  /** No freed object is in a list. */
  predicate Unmixed(s: State) { Apart(s) && forall x <- s.dead :: x !in s.gone }

  lemma StepUnmixed(s: State, a: Step)
    requires Unmixed(s) && Enabled(s, a)
    ensures Unmixed(Apply(s, a))
  {
    StepApart(s, a);
  }

  lemma {:induction false} DanglesFrom(s: State, steps: seq<Step>)
    requires Unmixed(s) && (Dangling(s) ==> s.saved.value in s.gone) && IsRun(s, steps)
    ensures Dangling(After(s, steps)) <==> Dangling(s) || FreedUnder(s, steps)
    decreases |steps|
  {
    if Dangling(s) {
      DanglingStays(s, steps);
    } else if steps != [] {
      DanglesIff(s, steps[0]);
      StepUnmixed(s, steps[0]);
      DanglesFrom(Apply(s, steps[0]), steps[1..]);
    }
  }

  /** The exact condition: a round comes to read a freed object if and only if the destructed
    objects were freed at a time when the saved one was among them. */
  lemma DanglesInRunIff(live: seq<Obj>, dead: seq<Obj>, steps: seq<Step>)
    requires Distinct(live) && (forall x <- dead :: x !in live) && IsRun(Start(live, dead), steps)
    ensures Dangling(After(Start(live, dead), steps)) <==> FreedUnder(Start(live, dead), steps)
  {
    StartInv(live, dead);
    DanglesFrom(Start(live, dead), steps);
  }

  // ---------------------------------------------------------------------------
  // Rounds that go wrong
  // ---------------------------------------------------------------------------

  /** The scan has visited 1 and saved 2, which is then destructed. */
  lemma LosesTwo(live: seq<Obj>)
    requires live == [1, 2, 3]
    ensures IsRun(Start(live, []), [Visit, Destruct(2)])
    ensures After(Start(live, []), [Visit, Destruct(2)]) == State([1, 3], [2], {}, Some(2), [1])
  {
    var s := Start(live, []);
    assert IndexOf(live, 1) == 0;
    var t := Apply(s, Visit);
    assert t == State(live, [], {}, Some(2), [1]);
    assert live[1..] == [2, 3] && IndexOf(live[1..], 2) == 0 && IndexOf(live, 2) == 1;
    assert Without(live, 2) == [1, 3];
    var u := Apply(t, Destruct(2));
    assert [Visit, Destruct(2)][1..] == [Destruct(2)] && [Destruct(2)][1..] == [];
    assert IsRun(u, []) && After(u, []) == u;
    assert IsRun(t, [Destruct(2)]) && After(t, [Destruct(2)]) == u;
  }

  lemma {:induction false} RunAppend(s: State, a: seq<Step>, b: Step)
    requires IsRun(s, a) && Enabled(After(s, a), b)
    ensures IsRun(s, a + [b]) && After(s, a + [b]) == Apply(After(s, a), b)
    decreases |a|
  {
    if a == [] {
      assert a + [b] == [b] && [b][1..] == [];
      assert IsRun(Apply(s, b), []);
    } else {
      assert (a + [b])[1..] == a[1..] + [b];
      RunAppend(Apply(s, a[0]), a[1..], b);
    }
  }

  /** A round that comes to its end and never visits 3, which is alive throughout. */
  lemma MissesThree(live: seq<Obj>)
    requires live == [1, 2, 3]
    ensures IsRun(Start(live, []), [Visit, Destruct(2), Skip])
    ensures var s := After(Start(live, []), [Visit, Destruct(2), Skip]);
            s.saved == None && 3 in s.live && 3 !in s.visited
  {
    LosesTwo(live);
    RunAppend(Start(live, []), [Visit, Destruct(2)], Skip);
    assert [Visit, Destruct(2)] + [Skip] == [Visit, Destruct(2), Skip];
    assert IndexOf([2], 2) == 0;
  }

  /** A round that comes to read a freed object. */
  lemma DanglesAtTwo(live: seq<Obj>)
    requires live == [1, 2, 3]
    ensures IsRun(Start(live, []), [Visit, Destruct(2), Reap])
    ensures Dangling(After(Start(live, []), [Visit, Destruct(2), Reap]))
  {
    LosesTwo(live);
    RunAppend(Start(live, []), [Visit, Destruct(2)], Reap);
    assert [Visit, Destruct(2)] + [Reap] == [Visit, Destruct(2), Reap];
  }
}
