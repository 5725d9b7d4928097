/** Events on game ticks (call_tick_events, on_game_tick and add_gametick_event in
  src/backend.cc). */
module TickQueue {

  /** An event in the queue; `id` counts the calls of add_gametick_event. */
  datatype Item = Item(due: nat, id: nat)

  predicate Before(a: Item, b: Item) { a.due < b.due || (a.due == b.due && a.id < b.id) }

  /** An event that was taken from a batch: when, and whether it was still valid. */
  datatype Record = Record(item: Item, at: nat, ran: bool)

  /** `queue` is the multimap in its order, `batch` what is left of the events extracted
    last, `cancelled` the events whose `valid` was cleared. */
  datatype State = State(
    tick: nat, queue: seq<Item>, batch: seq<Item>, done: seq<Record>, next: nat, cancelled: set<nat>)

  /** upper_bound */
  function UpperBound(q: seq<Item>, key: nat): (n: nat)
    ensures n <= |q| && (forall i | 0 <= i < n :: q[i].due <= key) && (n < |q| ==> q[n].due > key)
  {
    if q == [] || q[0].due > key then 0 else 1 + UpperBound(q[1..], key)
  }

  /** multimap::insert: behind the entries with the same key. */
  function Insert(q: seq<Item>, e: Item): seq<Item> {
    var n := UpperBound(q, e.due);
    q[..n] + [e] + q[n..]
  }

  /** What can happen: an event is added or cancelled, inside a callback or between ticks; the
    eligible events are extracted; the next of them is taken; the tick is over. */
  datatype Action = Add(delay: nat) | Cancel(id: nat) | Extract | Take | Advance

  predicate Enabled(s: State, a: Action) {
    match a
    case Add(_) => true
    case Cancel(_) => true
    case Extract => s.batch == [] && UpperBound(s.queue, s.tick) > 0
    case Take => s.batch != []
    case Advance => s.batch == [] && UpperBound(s.queue, s.tick) == 0
  }

  function Apply(s: State, a: Action): State
    requires Enabled(s, a)
  {
    match a
    case Add(delay) => s.(queue := Insert(s.queue, Item(s.tick + delay, s.next)), next := s.next + 1)
    case Cancel(id) => s.(cancelled := s.cancelled + {id})
    case Extract =>
      var n := UpperBound(s.queue, s.tick);
      s.(batch := s.queue[..n], queue := s.queue[n..])
    case Take =>
      var e := s.batch[0];
      s.(batch := s.batch[1..], done := s.done + [Record(e, s.tick, e.id !in s.cancelled)])
    case Advance => s.(tick := s.tick + 1)
  }

  predicate IsRun(s: State, acts: seq<Action>)
    decreases |acts|, 0
  {
    acts == [] || (IsRun(s, acts[..|acts| - 1]) && Enabled(After(s, acts[..|acts| - 1]), acts[|acts| - 1]))
  }

  function After(s: State, acts: seq<Action>): State
    requires IsRun(s, acts)
    decreases |acts|, 1
  {
    if acts == [] then s else Apply(After(s, acts[..|acts| - 1]), acts[|acts| - 1])
  }

  const START := State(0, [], [], [], 0, {})

  lemma Extend(s: State, acts: seq<Action>, a: Action)
    requires IsRun(s, acts) && Enabled(After(s, acts), a)
    ensures IsRun(s, acts + [a]) && After(s, acts + [a]) == Apply(After(s, acts), a)
  {
    assert (acts + [a])[..|acts|] == acts;
  }

  // ---------------------------------------------------------------------------
  // What every run keeps
  // ---------------------------------------------------------------------------

  function Items(done: seq<Record>): (es: seq<Item>)
    ensures |es| == |done| && forall i | 0 <= i < |es| :: es[i] == done[i].item
  {
    seq(|done|, i requires 0 <= i < |done| => done[i].item)
  }

  /** All events there ever were: taken, about to be taken, waiting. */
  function History(s: State): seq<Item> { Items(s.done) + s.batch + s.queue }

  predicate Sorted(h: seq<Item>) { forall i, j | 0 <= i < j < |h| :: Before(h[i], h[j]) && h[i].id != h[j].id }

  predicate HasId(h: seq<Item>, id: nat) { exists i | 0 <= i < |h| :: h[i].id == id }

  predicate AllIds(h: seq<Item>, n: nat) {
    && (forall i | 0 <= i < |h| :: h[i].id < n)
    && (forall id: nat | id < n :: HasId(h, id))
  }

  predicate Punctual(s: State) {
    && (forall i | 0 <= i < |s.done| :: s.done[i].at == s.done[i].item.due <= s.tick)
    && (forall i | 0 <= i < |s.batch| :: s.batch[i].due == s.tick)
    && (forall i | 0 <= i < |s.queue| :: s.queue[i].due >= s.tick)
  }

  predicate Inv(s: State) { Sorted(History(s)) && AllIds(History(s), s.next) && Punctual(s) }

  predicate SplitsAt(h: seq<Item>, m: nat, key: nat) {
    && m <= |h|
    && (forall i | 0 <= i < m :: h[i].due <= key)
    && (forall i | m <= i < |h| :: h[i].due > key)
  }

  lemma InsertSorted(h: seq<Item>, n: nat, e: Item, g: seq<Item>)
    requires SplitsAt(h, n, e.due) && g == h[..n] + [e] + h[n..]
    requires Sorted(h) && AllIds(h, e.id)
    ensures Sorted(g) && AllIds(g, e.id + 1)
  {
    Inserted(h, n, e, g);
    InsertIds(h, n, e, g);
    forall i, j | 0 <= i < j < |g| ensures Before(g[i], g[j]) && g[i].id != g[j].id {
      if i != n && j != n {
        assert Before(h[if i < n then i else i - 1], h[if j < n then j else j - 1]);
      }
    }
  }

  lemma Inserted(h: seq<Item>, n: nat, e: Item, g: seq<Item>)
    requires n <= |h| && g == h[..n] + [e] + h[n..]
    ensures g[n] == e && (forall i | 0 <= i < n :: g[i] == h[i]) && (forall i | n < i < |g| :: g[i] == h[i - 1])
  {
  }

  lemma InsertIds(h: seq<Item>, n: nat, e: Item, g: seq<Item>)
    requires n <= |h| && AllIds(h, e.id) && g == h[..n] + [e] + h[n..]
    ensures AllIds(g, e.id + 1)
  {
    forall id: nat | id < e.id + 1 ensures HasId(g, id) {
      if id == e.id {
        assert g[n].id == id;
      } else {
        assert HasId(h, id);
        var i :| 0 <= i < |h| && h[i].id == id;
        assert g[if i < n then i else i + 1].id == id;
      }
    }
  }

  lemma QueueSorted(s: State)
    requires Sorted(History(s))
    ensures forall i, j | 0 <= i < j < |s.queue| :: s.queue[i].due <= s.queue[j].due
  {
    var k := |s.done| + |s.batch|;
    forall i, j | 0 <= i < j < |s.queue| ensures s.queue[i].due <= s.queue[j].due {
      assert History(s)[k + i] == s.queue[i] && History(s)[k + j] == s.queue[j];
    }
  }

  /** Everything taken or extracted is due by now, so what comes before the upper bound in
    the queue comes before it in the history. */
  lemma HistorySplits(s: State, key: nat)
    requires Inv(s) && key >= s.tick
    ensures var h, m := History(s), |s.done| + |s.batch| + UpperBound(s.queue, key);
            SplitsAt(h, m, key)
  {
    var h, n, k := History(s), UpperBound(s.queue, key), |s.done| + |s.batch|;
    QueueSorted(s);
    forall i | k <= i < |h| ensures h[i].due <= key <==> i < k + n {
      assert h[i] == s.queue[i - k];
    }
  }

  lemma AddKeeps(s: State, delay: nat)
    requires Inv(s)
    ensures Inv(Apply(s, Add(delay)))
  {
    AddSorted(s, Item(s.tick + delay, s.next), Items(s.done) + s.batch + Insert(s.queue, Item(s.tick + delay, s.next)));
    AddPunctual(s, delay);
  }

  lemma AddSorted(s: State, e: Item, h: seq<Item>)
    requires Inv(s) && e.due >= s.tick && e.id == s.next
    requires h == Items(s.done) + s.batch + Insert(s.queue, e)
    ensures Sorted(h) && AllIds(h, e.id + 1)
  {
    HistorySplits(s, e.due);
    AddToHistory(s, e);
    InsertSorted(History(s), |s.done| + |s.batch| + UpperBound(s.queue, e.due), e, h);
  }

  lemma AddPunctual(s: State, delay: nat)
    requires Punctual(s)
    ensures Punctual(Apply(s, Add(delay)))
  {
  }

  lemma AddToHistory(s: State, e: Item)
    ensures var m := |s.done| + |s.batch| + UpperBound(s.queue, e.due);
            Items(s.done) + s.batch + Insert(s.queue, e) == History(s)[..m] + [e] + History(s)[m..]
  {
    InsertBehind(Items(s.done) + s.batch, s.queue, UpperBound(s.queue, e.due), e);
  }

  lemma InsertBehind(p: seq<Item>, q: seq<Item>, n: nat, e: Item)
    requires n <= |q|
    ensures p + (q[..n] + [e] + q[n..]) == (p + q)[..|p| + n] + [e] + (p + q)[|p| + n..]
  {
    assert (p + q)[..|p| + n] == p + q[..n];
    assert (p + q)[|p| + n..] == q[n..];
  }

  lemma StepKeeps(s: State, a: Action)
    requires Inv(s) && Enabled(s, a)
    ensures Inv(Apply(s, a))
  {
    var t := Apply(s, a);
    match a
    case Add(delay) => AddKeeps(s, delay);
    case Cancel(_) =>
    case Extract => assert History(t) == History(s);
    case Take => assert History(t) == History(s);
    case Advance =>
      QueueSorted(s);
      assert History(t) == History(s);
  }

  lemma {:induction false} RunKeeps(s: State, acts: seq<Action>)
    requires Inv(s) && IsRun(s, acts)
    ensures Inv(After(s, acts))
    decreases |acts|
  {
    if acts != [] {
      RunKeeps(s, acts[..|acts| - 1]);
      StepKeeps(After(s, acts[..|acts| - 1]), acts[|acts| - 1]);
    }
  }

  lemma ReachableInv(acts: seq<Action>)
    requires IsRun(START, acts)
    ensures Inv(After(START, acts))
  {
    assert Inv(START);
    RunKeeps(START, acts);
  }

  predicate Recorded(s: State, id: nat) { exists i | 0 <= i < |s.done| :: s.done[i].item.id == id }

  /** The event waits for this tick or a later one. */
  predicate Waits(s: State, id: nat) { exists e <- s.batch + s.queue :: e.id == id && e.due >= s.tick }

  /** In every run events are taken exactly at their tick, at most once, in the order of
    their ticks and within a tick in the order in which they were added; an event that has
    not been taken is waiting for a tick that is not over. */
  lemma EventsOnTime(acts: seq<Action>)
    requires IsRun(START, acts)
    ensures var s := After(START, acts);
            && (forall i | 0 <= i < |s.done| :: s.done[i].at == s.done[i].item.due)
            && (forall i, j | 0 <= i < j < |s.done| ::
                  Before(s.done[i].item, s.done[j].item) && s.done[i].item.id != s.done[j].item.id)
            && (forall id: nat | id < s.next && !Recorded(s, id) :: Waits(s, id))
  {
    ReachableInv(acts);
    var s := After(START, acts);
    DoneInOrder(s);
    EachWaits(s);
  }

  lemma EachWaits(s: State)
    requires AllIds(History(s), s.next) && Punctual(s)
    ensures forall id: nat | id < s.next && !Recorded(s, id) :: Waits(s, id)
  {
    forall id: nat | id < s.next && !Recorded(s, id) ensures Waits(s, id) {
      TakenOrWaiting(s, id);
    }
  }

  lemma DoneInOrder(s: State)
    requires Sorted(History(s))
    ensures forall i, j | 0 <= i < j < |s.done| ::
              Before(s.done[i].item, s.done[j].item) && s.done[i].item.id != s.done[j].item.id
  {
    assert forall i | 0 <= i < |s.done| :: History(s)[i] == s.done[i].item;
  }

  lemma TakenOrWaiting(s: State, id: nat)
    requires AllIds(History(s), s.next) && Punctual(s) && id < s.next
    ensures Recorded(s, id) || Waits(s, id)
  {
    var h := History(s);
    assert HasId(h, id);
    var i :| 0 <= i < |h| && h[i].id == id;
    if i < |s.done| {
      assert s.done[i].item.id == id;
    } else {
      assert h[i] == (s.batch + s.queue)[i - |s.done|];
      assert (s.batch + s.queue)[i - |s.done|] in s.batch + s.queue;
    }
  }

  /** Nothing is being processed, everything queued is for later, and every event is either
    taken or queued. */
  predicate NothingLeft(s: State) {
    && s.batch == [] && (forall i | 0 <= i < |s.queue| :: s.queue[i].due > s.tick)
    && (forall id: nat | id < s.next :: Recorded(s, id) || Waits(s, id))
  }

  /** When the tick is over, all that is queued is for later ones, so every event for this
    tick or an earlier one has been taken. */
  lemma NothingLeftBehind(acts: seq<Action>)
    requires IsRun(START, acts) && Enabled(After(START, acts), Advance)
    ensures var s := After(START, acts);
            NothingLeft(s)
  {
    ReachableInv(acts);
    AdvanceLeavesNothing(After(START, acts));
  }

  lemma AdvanceLeavesNothing(s: State)
    requires Inv(s) && Enabled(s, Advance)
    ensures NothingLeft(s)
  {
    AllFuture(s);
    forall id: nat | id < s.next ensures Recorded(s, id) || Waits(s, id) {
      TakenOrWaiting(s, id);
    }
  }

  lemma AllFuture(s: State)
    requires Sorted(History(s)) && UpperBound(s.queue, s.tick) == 0
    ensures forall i | 0 <= i < |s.queue| :: s.queue[i].due > s.tick
  {
    QueueSorted(s);
    if s.queue != [] { assert s.queue[0].due > s.tick; }
  }

  lemma {:induction false} CancelledByAction(s: State, acts: seq<Action>, id: nat)
    requires IsRun(s, acts)
    ensures id in After(s, acts).cancelled <==> id in s.cancelled || Cancel(id) in acts
    decreases |acts|
  {
    if acts != [] {
      CancelledByAction(s, acts[..|acts| - 1], id);
      assert acts == acts[..|acts| - 1] + [acts[|acts| - 1]];
    }
  }

  predicate TakenAt(acts: seq<Action>, k: nat, r: Record) {
    && k < |acts| && acts[k] == Take
    && (r.ran <==> Cancel(r.item.id) !in acts[..k])
  }

  /** An event that is taken runs unless it was cancelled before. */
  lemma {:induction false} RunsUnlessCancelled(acts: seq<Action>, i: nat)
    requires IsRun(START, acts) && i < |After(START, acts).done|
    ensures exists k: nat :: TakenAt(acts, k, After(START, acts).done[i])
    decreases |acts|
  {
    var n := |acts| - 1;
    if n >= 0 {
      var before := acts[..n];
      var s := After(START, before);
      if i < |s.done| {
        RunsUnlessCancelled(before, i);
        var k: nat :| TakenAt(before, k, s.done[i]);
        assert before[..k] == acts[..k];
        assert TakenAt(acts, k, After(START, acts).done[i]);
      } else {
        CancelledByAction(START, before, s.batch[0].id);
        assert TakenAt(acts, n, After(START, acts).done[i]);
      }
    }
  }

  // ---------------------------------------------------------------------------
  // The loop
  // ---------------------------------------------------------------------------

  /** What a callback does to the queue. */
  type Reaction = a: Action | a.Add? || a.Cancel? witness Add(0)

  /** How many of the events taken were run. */
  function Ran(rs: seq<Record>): nat {
    if rs == [] then 0 else Ran(rs[..|rs| - 1]) + if rs[|rs| - 1].ran then 1 else 0
  }

  /** What taking events does: each is taken, and if it runs its callback, the next of the
    script, follows at once. */
  function Played(rs: seq<Record>, script: seq<seq<Reaction>>): seq<Action>
    requires Ran(rs) <= |script|
  {
    if rs == [] then []
    else
      var n := |rs| - 1;
      Played(rs[..n], script) + [Take] + if rs[n].ran then script[Ran(rs[..n])] else []
  }

  /** The actions but for the extracting of batches. */
  function Moves(acts: seq<Action>): seq<Action> {
    if acts == [] then []
    else Moves(acts[..|acts| - 1]) + if acts[|acts| - 1] == Extract then [] else [acts[|acts| - 1]]
  }

  predicate Leads(s: State, acts: seq<Action>, t: State) { IsRun(s, acts) && After(s, acts) == t }

  lemma LeadsOn(s: State, acts: seq<Action>, t: State, a: Action)
    requires Leads(s, acts, t) && Enabled(t, a)
    ensures Leads(s, acts + [a], Apply(t, a))
  {
    Extend(s, acts, a);
  }

  lemma NextAction(acts: seq<Action>, more: seq<Action>, i: nat)
    requires i < |more|
    ensures acts + more[..i] + [more[i]] == acts + more[..i + 1]
  {
  }

  /** The run from `s` to `t` takes events and calls the callbacks of those that run, the first
    `used` of the script, in order, each right after its event is taken; it does nothing else
    but extract. */
  predicate Performs(s: State, t: State, acts: seq<Action>, script: seq<seq<Reaction>>, used: nat) {
    && Leads(s, acts, t)
    && |s.done| <= |t.done| && t.done[..|s.done|] == s.done
    && Plays(t.done[|s.done|..], acts, script, used)
  }

  predicate Plays(rs: seq<Record>, acts: seq<Action>, script: seq<seq<Reaction>>, used: nat) {
    used == Ran(rs) <= |script| && Moves(acts) == Played(rs, script)
  }

  lemma {:induction false} MovesAppend(a: seq<Action>, b: seq<Action>)
    ensures Moves(a + b) == Moves(a) + Moves(b)
  {
    if b == [] {
      assert a + b == a;
    } else {
      assert (a + b)[..|a + b| - 1] == a + b[..|b| - 1];
      MovesAppend(a, b[..|b| - 1]);
    }
  }

  lemma {:induction false} MovesAll(a: seq<Action>)
    requires Extract !in a
    ensures Moves(a) == a
  {
    if a != [] {
      assert a[|a| - 1] in a;
      MovesAll(a[..|a| - 1]);
      assert a == a[..|a| - 1] + [a[|a| - 1]];
    }
  }

  /** One more event is taken, and run or not. */
  lemma PerformsMore(s: State, t: State, u: State, acts: seq<Action>, script: seq<seq<Reaction>>, used: nat, r: Record, more: seq<Action>)
    requires Performs(s, t, acts, script, used) && u.done == t.done + [r] && (r.ran ==> used < |script|)
    requires more == [Take] + if r.ran then script[used] else []
    requires Leads(s, acts + more, u)
    ensures Performs(s, u, acts + more, script, if r.ran then used + 1 else used)
  {
    DoneMore(s.done, t.done, r);
    PlaysMore(t.done[|s.done|..], acts, script, used, r, more);
  }

  lemma DoneMore(a: seq<Record>, b: seq<Record>, r: Record)
    requires |a| <= |b| && b[..|a|] == a
    ensures (b + [r])[..|a|] == a && (b + [r])[|a|..] == b[|a|..] + [r]
  {
  }

  lemma PlaysMore(rs: seq<Record>, acts: seq<Action>, script: seq<seq<Reaction>>, used: nat, r: Record, more: seq<Action>)
    requires Plays(rs, acts, script, used) && (r.ran ==> used < |script|)
    requires more == [Take] + if r.ran then script[used] else []
    ensures Plays(rs + [r], acts + more, script, if r.ran then used + 1 else used)
  {
    PlayedMore(rs, r, script, more);
    MovesAppend(acts, more);
    NoExtract(if r.ran then script[used] else []);
    MovesAll(more);
  }

  lemma NoExtract(rs: seq<Reaction>)
    ensures Extract !in [Take] + rs && [Take] + [] == [Take]
  {
  }

  lemma PlayedMore(rs: seq<Record>, r: Record, script: seq<seq<Reaction>>, more: seq<Action>)
    requires Ran(rs) <= |script| && (r.ran ==> Ran(rs) < |script|)
    requires more == [Take] + if r.ran then script[Ran(rs)] else []
    ensures Ran(rs + [r]) == if r.ran then Ran(rs) + 1 else Ran(rs)
    ensures Played(rs + [r], script) == Played(rs, script) + more
  {
    assert (rs + [r])[..|rs|] == rs;
    assert Played(rs, script) + [Take] + more[1..] == Played(rs, script) + more;
  }

  lemma PerformsExtract(s: State, t: State, acts: seq<Action>, script: seq<seq<Reaction>>, used: nat)
    requires Performs(s, t, acts, script, used) && Enabled(t, Extract)
    ensures Performs(s, Apply(t, Extract), acts + [Extract], script, used)
  {
    LeadsOn(s, acts, t, Extract);
    MovesAppend(acts, [Extract]);
  }

  predicate InOrder(q: seq<Item>) { forall i, j | 0 <= i < j < |q| :: q[i].due <= q[j].due }

  /** The event comes behind all that are due by then, and before all others. */
  predicate Behind(q: seq<Item>, e: Item, r: seq<Item>) {
    exists n | 0 <= n <= |q| :: SplitsAt(q, n, e.due) && r == q[..n] + [e] + q[n..]
  }

  /** upper_bound is where the event has to go. */
  lemma InsertedBehind(q: seq<Item>, e: Item)
    ensures InOrder(q) ==> Behind(q, e, Insert(q, e)) && InOrder(Insert(q, e))
  {
    var n := UpperBound(q, e.due);
    if InOrder(q) {
      assert SplitsAt(q, n, e.due);
      Inserted(q, n, e, Insert(q, e));
    }
  }

  class Backend {
    var tick: nat               // g_current_gametick
    var queue: seq<Item>        // g_tick_queue
    var cancelled: set<nat>     // events whose `valid` is false
    var next: nat
    ghost var batch: seq<Item>
    ghost var done: seq<Record>

    ghost function Abs(): State reads this { State(tick, queue, batch, done, next, cancelled) }

    constructor ()
      ensures Abs() == START
    {
      tick, queue, cancelled, next, batch, done := 0, [], {}, 0, [], [];
    }

    method AddGametickEvent(delay: nat) returns (id: nat)
      modifies this
      ensures id == old(next) && Abs() == Apply(old(Abs()), Add(delay))
      ensures InOrder(old(queue)) ==> Behind(old(queue), Item(old(tick) + delay, id), queue) && InOrder(queue)
    {
      id := next;
      var e := Item(tick + delay, id);
      InsertedBehind(queue, e);
      queue := Insert(queue, e);
      next := next + 1;
    }

    /** A callback adds and cancels events. */
    method Callback(reactions: seq<Reaction>, ghost start: State, ghost acts0: seq<Action>)
      requires Leads(start, acts0, Abs())
      modifies this`queue, this`next, this`cancelled
      ensures Leads(start, acts0 + reactions, Abs())
    {
      ghost var acts := acts0;
      for i := 0 to |reactions|
        invariant acts == acts0 + reactions[..i] && Leads(start, acts, Abs())
      {
        LeadsOn(start, acts, Abs(), reactions[i]);
        NextAction(acts0, reactions, i);
        React(reactions[i]);
        acts := acts + [reactions[i]];
      }
      assert reactions[..|reactions|] == reactions;
    }

    method React(reaction: Reaction)
      modifies this`queue, this`next, this`cancelled
      ensures Abs() == Apply(old(Abs()), reaction)
    {
      match reaction {
        case Add(delay) =>
          queue := Insert(queue, Item(tick + delay, next));
          next := next + 1;
        case Cancel(id) =>
          cancelled := cancelled + {id};
      }
    }

    ghost method Taken(event: Item, isValid: bool)
      requires batch != [] && batch[0] == event && isValid == (event.id !in cancelled)
      modifies this`batch, this`done
      ensures Abs() == Apply(old(Abs()), Take)
    {
      done, batch := done + [Record(event, tick, isValid)], batch[1..];
    }

    /** call_tick_events.  The callbacks do what `script` says, in its order; as they can add
      events for the present tick for ever, the loop also stops when the script is used up and
      another event would run. */
    method CallTickEvents(script: seq<seq<Reaction>>) returns (finished: bool, used: nat, ghost acts: seq<Action>)
      requires batch == []
      modifies this`queue, this`next, this`cancelled, this`batch, this`done
      ensures Performs(old(Abs()), Abs(), acts, script, used)
      ensures if finished then Enabled(Abs(), Advance) else used == |script| && NextRuns()
    {
      ghost var start := Abs();
      used, acts := 0, [];
      if queue == [] || queue[0].due > tick {
        return true, used, acts;
      }
      while true
        invariant Performs(start, Abs(), acts, script, used) && batch == []
        decreases |script| - used, |queue|
      {
        var end := UpperBound(queue, tick);
        if end == 0 {
          return true, used, acts;
        }
        PerformsExtract(start, Abs(), acts, script, used);
        var allEvents := queue[..end];
        batch, queue, acts := queue[..end], queue[end..], acts + [Extract];
        finished, used, acts := RunBatch(allEvents, script, used, start, acts);
        if !finished {
          return;
        }
      }
    }

    /** The next event of the batch is valid. */
    ghost predicate NextRuns() reads this { batch != [] && batch[0].id !in cancelled }

    /** The loop over all_events. */
    method RunBatch(allEvents: seq<Item>, script: seq<seq<Reaction>>, used0: nat, ghost start: State, ghost acts0: seq<Action>)
      returns (finished: bool, used: nat, ghost acts: seq<Action>)
      requires allEvents == batch && Performs(start, Abs(), acts0, script, used0)
      modifies this`queue, this`next, this`cancelled, this`batch, this`done
      ensures used0 <= used && Performs(start, Abs(), acts, script, used)
      ensures if finished then batch == [] else used == |script| && NextRuns()
      ensures finished && used == used0 ==> queue == old(queue)
    {
      used, acts := used0, acts0;
      for i := 0 to |allEvents|
        invariant used0 <= used && batch == allEvents[i..] && Performs(start, Abs(), acts, script, used)
        invariant used == used0 ==> queue == old(queue)
      {
        if allEvents[i].id !in cancelled && used == |script| {
          return false, used, acts;
        }
        used, acts := RunEvent(allEvents[i], script, used, start, acts);
      }
      finished := true;
    }

    method RunEvent(event: Item, script: seq<seq<Reaction>>, used0: nat, ghost start: State, ghost acts0: seq<Action>)
      returns (used: nat, ghost acts: seq<Action>)
      requires batch != [] && batch[0] == event && (event.id !in cancelled ==> used0 < |script|)
      requires Performs(start, Abs(), acts0, script, used0)
      modifies this`queue, this`next, this`cancelled, this`batch, this`done
      ensures Performs(start, Abs(), acts, script, used) && used == used0 + if event.id !in old(cancelled) then 1 else 0
      ensures batch == old(batch)[1..] && (used == used0 ==> queue == old(queue))
    {
      used, acts := used0, acts0 + [Take];
      var isValid := event.id !in cancelled;
      LeadsOn(start, acts0, Abs(), Take);
      Taken(event, isValid);
      if isValid {
        Callback(script[used], start, acts);
        acts := acts + script[used];
        used := used + 1;
      }
      ghost var more := [Take] + if isValid then script[used0] else [];
      assert acts0 + more == acts;
      PerformsMore(start, old(Abs()), Abs(), acts0, script, used0, Record(event, tick, isValid), more);
    }

    /** on_game_tick */
    method OnGameTick(script: seq<seq<Reaction>>) returns (finished: bool, used: nat, ghost acts: seq<Action>)
      requires batch == []
      modifies this
      ensures Performs(old(Abs()), Abs().(tick := old(tick)), acts, script, used)
      ensures if finished then Enabled(Abs().(tick := old(tick)), Advance) && tick == old(tick) + 1
              else used == |script| && NextRuns() && tick == old(tick)
    {
      finished, used, acts := CallTickEvents(script);
      if finished {
        tick := tick + 1;
      }
    }
  }
}
