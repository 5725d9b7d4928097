/** Posting tasks to an event-loop thread (src/base/internal/io_thread.cc and
  src/base/internal/heartbeat_thread.cc).

  A poster pushes its task under the lock and then writes one byte to the wakeup socket.
  The loop thread, woken by a readable socket, drains it, swaps the queue out under the
  lock and runs the batch.  Any number of posters interleave with the loop thread at
  every step below; a running task posts to its own thread in the same way, with `SELF`
  as the poster.  The thread has been started, so the socket exists. */
module Wakeup {
  type Task = nat
  type Poster = nat

  /** The loop thread itself, posting from a task it runs. */
  const SELF: Poster := 0

  /** Size of the buffer the socket is drained into. */
  const CHUNK := 64

  datatype Phase =
    | Waiting                     // in event_base_loop
    | Draining(readSome: bool)    // in process_pending_tasks, reading the socket
    | Swapping                    // the socket was found empty, the lock not yet taken
    | Running(rest: seq<Task>)    // running the batch

  /** `pushed` and `executed` are histories; `owing` are the posters that have pushed and
    not yet written. */
  datatype State = State(
    queue: seq<Task>, bytes: nat, owing: set<Poster>, phase: Phase,
    executed: seq<Task>, pushed: seq<Task>)

  datatype Action =
    | Push(p: Poster, t: Task)
    | Write(p: Poster)            // succeeds, or is dropped because the socket is full
    | WriteInterrupted(p: Poster) // EINTR: tried again
    | WriteError(p: Poster)       // any other error: given up
    | Wake
    | Read(n: nat)
    | ReadEmpty
    | Swap
    | RunNext
    | Finish

  const INITIAL := State([], 0, {}, Waiting, [], [])

  predicate Enabled(cap: nat, s: State, a: Action) {
    match a
    case Push(p, _) => p !in s.owing && (p == SELF ==> s.phase.Running?)
    case Write(p) => p in s.owing
    case WriteInterrupted(p) => p in s.owing
    case WriteError(p) => p in s.owing
    case Wake => s.phase.Waiting? && s.bytes > 0
    case Read(n) => s.phase.Draining? && 0 < n <= s.bytes && n <= CHUNK
    case ReadEmpty => s.phase.Draining? && s.bytes == 0
    case Swap => s.phase.Swapping?
    case RunNext => s.phase.Running? && s.phase.rest != [] && SELF !in s.owing
    case Finish => s.phase.Running? && s.phase.rest == [] && SELF !in s.owing
  }

  function Apply(cap: nat, s: State, a: Action): State
    requires Enabled(cap, s, a)
  {
    match a
    case Push(p, t) => s.(queue := s.queue + [t], owing := s.owing + {p}, pushed := s.pushed + [t])
    case Write(p) => s.(owing := s.owing - {p}, bytes := if s.bytes < cap then s.bytes + 1 else s.bytes)
    case WriteInterrupted(_) => s
    case WriteError(p) => s.(owing := s.owing - {p})
    case Wake => s.(phase := Draining(false))
    case Read(n) => s.(phase := Draining(true), bytes := s.bytes - n)
    case ReadEmpty => s.(phase := Swapping)
    case Swap => s.(phase := Running(s.queue), queue := [])
    case RunNext => s.(phase := Running(s.phase.rest[1..]), executed := s.executed + [s.phase.rest[0]])
    case Finish => s.(phase := Waiting)
  }

  /** `acts` is a run from `s`. */
  predicate IsRun(cap: nat, s: State, acts: seq<Action>)
    decreases |acts|
  {
    acts == [] || (Enabled(cap, s, acts[0]) && IsRun(cap, Apply(cap, s, acts[0]), acts[1..]))
  }

  function After(cap: nat, s: State, acts: seq<Action>): State
    requires IsRun(cap, s, acts)
    decreases |acts|
  {
    if acts == [] then s else After(cap, Apply(cap, s, acts[0]), acts[1..])
  }

  predicate ErrorFree(acts: seq<Action>) { forall a <- acts :: !a.WriteError? }

  // ---------------------------------------------------------------------------
  // Safety
  // ---------------------------------------------------------------------------

  function Batch(s: State): seq<Task> { if s.phase.Running? then s.phase.rest else [] }

  /** Somebody will look at the queue. */
  predicate Attended(s: State) {
    s.queue != [] ==> s.bytes > 0 || s.owing != {} || s.phase.Draining? || s.phase.Swapping?
  }

  /** Every pushed task is executed, in the running batch, or queued: once, in push order. */
  predicate Fifo(s: State) { s.executed + Batch(s) + s.queue == s.pushed }

  /** What holds of the socket and the thread also after a write error. */
  predicate Sane(cap: nat, s: State) {
    && s.bytes <= cap
    && (SELF in s.owing ==> s.phase.Running?)
    && (s.phase == Draining(false) ==> s.bytes > 0)
  }

  predicate Inv(cap: nat, s: State) { Attended(s) && Fifo(s) && Sane(cap, s) }

  lemma StepKeepsFifo(cap: nat, s: State, a: Action)
    requires Fifo(s) && Enabled(cap, s, a)
    ensures Fifo(Apply(cap, s, a))
  {
    match a
    case Push(_, t) => assert s.executed + Batch(s) + (s.queue + [t]) == s.executed + Batch(s) + s.queue + [t];
    case Swap => assert s.executed + s.queue + [] == s.executed + [] + s.queue;
    case RunNext =>
      assert s.phase.rest == [s.phase.rest[0]] + s.phase.rest[1..];
      assert s.executed + s.phase.rest == s.executed + [s.phase.rest[0]] + s.phase.rest[1..];
    case _ =>
  }

  lemma StepKeepsSane(cap: nat, s: State, a: Action)
    requires Sane(cap, s) && Enabled(cap, s, a)
    ensures Sane(cap, Apply(cap, s, a))
  {
  }

  lemma StepKeepsAttended(cap: nat, s: State, a: Action)
    requires cap > 0 && Attended(s) && Sane(cap, s) && Enabled(cap, s, a) && !a.WriteError?
    ensures Attended(Apply(cap, s, a))
  {
    if a.Write? && s.owing - {a.p} == {} { assert Apply(cap, s, a).bytes > 0; }
  }

  lemma StepKeepsInv(cap: nat, s: State, a: Action)
    requires cap > 0 && Inv(cap, s) && Enabled(cap, s, a) && !a.WriteError?
    ensures Inv(cap, Apply(cap, s, a))
  {
    StepKeepsFifo(cap, s, a);
    StepKeepsSane(cap, s, a);
    StepKeepsAttended(cap, s, a);
  }

  lemma {:induction false} RunKeepsInv(cap: nat, s: State, acts: seq<Action>)
    requires cap > 0 && Inv(cap, s) && IsRun(cap, s, acts) && ErrorFree(acts)
    ensures Inv(cap, After(cap, s, acts))
    decreases |acts|
  {
    if acts != [] {
      StepKeepsInv(cap, s, acts[0]);
      RunKeepsInv(cap, Apply(cap, s, acts[0]), acts[1..]);
    }
  }

  /** No lost wakeup, in every interleaving: a task waits in the queue only while a byte is
    in the socket, a poster has yet to write, or the loop thread has yet to swap.  So when
    all of them are idle, every task pushed has been executed, once and in order. */
  lemma NoLostWakeup(cap: nat, acts: seq<Action>)
    requires cap > 0 && IsRun(cap, INITIAL, acts) && ErrorFree(acts)
    ensures var s := After(cap, INITIAL, acts);
            Attended(s) && Fifo(s) && (s.phase.Waiting? && s.bytes == 0 && s.owing == {} ==> s.executed == s.pushed)
  {
    RunKeepsInv(cap, INITIAL, acts);
  }

  /** FIFO does not depend on the socket at all. */
  lemma {:induction false} FifoAlways(cap: nat, s: State, acts: seq<Action>)
    requires Fifo(s) && IsRun(cap, s, acts)
    ensures Fifo(After(cap, s, acts))
    decreases |acts|
  {
    if acts != [] {
      StepKeepsFifo(cap, s, acts[0]);
      FifoAlways(cap, Apply(cap, s, acts[0]), acts[1..]);
    }
  }

  /** A reachable state with a task nobody will look at. */
  lemma LostWakeup()
    ensures var acts := [Push(1, 7), WriteError(1)];
            IsRun(1, INITIAL, acts) && !Attended(After(1, INITIAL, acts))
  {
    var s1 := Apply(1, INITIAL, Push(1, 7));
    var s2 := Apply(1, s1, WriteError(1));
    assert [Push(1, 7), WriteError(1)][1..] == [WriteError(1)];
    assert [WriteError(1)][1..] == [];
    assert IsRun(1, s2, []) && After(1, s2, []) == s2;
    assert IsRun(1, s1, [WriteError(1)]) && After(1, s1, [WriteError(1)]) == s2;
    assert s2.owing == {};
  }

  // ---------------------------------------------------------------------------
  // Progress
  // ---------------------------------------------------------------------------

  function PhaseCost(p: Phase): int {
    match p
    case Waiting => 0
    case Draining(readSome) => if readSome then 4 else -1
    case Swapping => 3
    case Running(rest) => 2 + |rest|
  }

  /** Bounds the steps left when nothing more is pushed. */
  function Work(s: State): int { 7 * |s.owing| + 6 * s.bytes + |s.queue| + PhaseCost(s.phase) }

  predicate Internal(a: Action) { !a.Push? && !a.WriteInterrupted? && !a.WriteError? }

  lemma StepWorks(cap: nat, s: State, a: Action)
    requires Inv(cap, s) && Enabled(cap, s, a) && Internal(a)
    ensures 0 <= Work(s) && Work(Apply(cap, s, a)) < Work(s)
  {
  }

  /** As long as a pushed task is not executed, a poster or the loop thread can step. */
  lemma NeverStuck(cap: nat, s: State)
    requires Inv(cap, s) && s.executed != s.pushed
    ensures exists a :: Internal(a) && Enabled(cap, s, a)
  {
    if s.owing != {} {
      var p :| p in s.owing;
      assert Internal(Write(p)) && Enabled(cap, s, Write(p));
    } else if s.phase.Waiting? {
      assert Internal(Wake) && Enabled(cap, s, Wake);
    } else if s.phase.Draining? {
      var a := if s.bytes == 0 then ReadEmpty else Read(1);
      assert Internal(a) && Enabled(cap, s, a);
    } else if s.phase.Swapping? {
      assert Internal(Swap) && Enabled(cap, s, Swap);
    } else {
      var a := if s.phase.rest == [] then Finish else RunNext;
      assert Internal(a) && Enabled(cap, s, a);
    }
  }

  /** Once pushing stops, no schedule runs longer than `Work`, and every schedule that runs
    until nothing is left to do has executed all tasks in the order they were pushed. */
  lemma {:induction false} AllTasksExecuted(cap: nat, s: State, acts: seq<Action>)
    requires cap > 0 && Inv(cap, s) && IsRun(cap, s, acts) && forall a <- acts :: Internal(a)
    ensures 0 <= Work(s) && |acts| <= Work(s)
    ensures var t := After(cap, s, acts);
            t.pushed == s.pushed && ((forall a | Enabled(cap, t, a) :: !Internal(a)) ==> t.executed == s.pushed)
    decreases |acts|
  {
    if acts == [] {
      if s.executed != s.pushed { NeverStuck(cap, s); }
    } else {
      StepWorks(cap, s, acts[0]);
      StepKeepsInv(cap, s, acts[0]);
      AllTasksExecuted(cap, Apply(cap, s, acts[0]), acts[1..]);
    }
  }

  // ---------------------------------------------------------------------------
  // Write errors
  // ---------------------------------------------------------------------------

  /** A schedule without further pushes that cannot go on. */
  ghost predicate Final(cap: nat, s: State, acts: seq<Action>) {
    && IsRun(cap, s, acts) && (forall a <- acts :: Internal(a))
    && (forall a | Enabled(cap, After(cap, s, acts), a) :: !Internal(a))
  }

  /** Nobody is left to wake the thread, which waits or will wait. */
  predicate Stranded(s: State) {
    s.queue != [] && s.bytes == 0 && s.owing == {} && (s.phase.Waiting? || s.phase.Running?)
  }

  /** Then no schedule executes the queued tasks. */
  lemma {:induction false} StrandedForGood(cap: nat, s: State, acts: seq<Action>)
    requires Stranded(s) && Fifo(s) && IsRun(cap, s, acts) && forall a <- acts :: Internal(a)
    ensures var t := After(cap, s, acts); Stranded(t) && t.queue == s.queue && t.executed != t.pushed
    decreases |acts|
  {
    if acts != [] {
      assert acts[0] in acts;
      StepKeepsFifo(cap, s, acts[0]);
      StrandedForGood(cap, Apply(cap, s, acts[0]), acts[1..]);
    } else {
      assert |s.executed + Batch(s) + s.queue| > |s.executed|;
    }
  }

  /** The rest of the batch, and the end of it. */
  function RunOut(rest: seq<Task>): seq<Action> { if rest == [] then [Finish] else [RunNext] + RunOut(rest[1..]) }

  lemma {:induction false} RunsOut(cap: nat, s: State)
    requires Stranded(s) && s.phase.Running?
    ensures Final(cap, s, RunOut(s.phase.rest))
    decreases if s.phase.Running? then |s.phase.rest| else 0
  {
    if s.phase.rest == [] {
      var t := Apply(cap, s, Finish);
      assert [Finish][1..] == [];
      assert IsRun(cap, t, []) && After(cap, t, []) == t;
    } else {
      var t := Apply(cap, s, RunNext);
      RunsOut(cap, t);
      assert RunOut(s.phase.rest)[1..] == RunOut(t.phase.rest);
    }
  }

  lemma StrandedEnds(cap: nat, s: State) returns (acts: seq<Action>)
    requires Stranded(s)
    ensures Final(cap, s, acts)
  {
    acts := if s.phase.Running? then RunOut(s.phase.rest) else [];
    if s.phase.Running? { RunsOut(cap, s); }
  }

  /** Giving a write up on a real error is harmless, that is every schedule that follows
    executes all tasks, exactly when nothing is queued, a byte is in the socket, another
    poster has yet to write, or the thread has yet to swap. */
  lemma ErrorHarmlessIff(cap: nat, s: State, p: Poster)
    requires cap > 0 && Inv(cap, s) && p in s.owing
    ensures var t := Apply(cap, s, WriteError(p));
            (forall acts | Final(cap, t, acts) :: After(cap, t, acts).executed == s.pushed) <==>
            s.queue == [] || s.bytes > 0 || (exists q <- s.owing :: q != p) || s.phase.Draining? || s.phase.Swapping?
  {
    var t := Apply(cap, s, WriteError(p));
    StepKeepsFifo(cap, s, WriteError(p));
    StepKeepsSane(cap, s, WriteError(p));
    if q :| q in s.owing && q != p { assert q in t.owing; }
    if t.owing != {} {
      var q :| q in t.owing;
      assert q in s.owing && q != p;
    }
    if Stranded(t) {
      var acts := StrandedEnds(cap, t);
      StrandedForGood(cap, t, acts);
      assert After(cap, t, acts).pushed == s.pushed by { PushedStays(cap, t, acts); }
    } else {
      assert Inv(cap, t);
      forall acts | Final(cap, t, acts) ensures After(cap, t, acts).executed == s.pushed {
        AllTasksExecuted(cap, t, acts);
      }
    }
  }

  lemma {:induction false} PushedStays(cap: nat, s: State, acts: seq<Action>)
    requires IsRun(cap, s, acts) && forall a <- acts :: Internal(a)
    ensures After(cap, s, acts).pushed == s.pushed
    decreases |acts|
  {
    if acts != [] {
      assert acts[0] in acts;
      PushedStays(cap, Apply(cap, s, acts[0]), acts[1..]);
    }
  }

  // ---------------------------------------------------------------------------
  // Longer runs
  // ---------------------------------------------------------------------------

  lemma {:induction false} RunSnoc(cap: nat, s: State, acts: seq<Action>, a: Action)
    requires IsRun(cap, s, acts) && Enabled(cap, After(cap, s, acts), a)
    ensures IsRun(cap, s, acts + [a]) && After(cap, s, acts + [a]) == Apply(cap, After(cap, s, acts), a)
    decreases |acts|
  {
    if acts == [] {
      assert [a][1..] == [];
      assert acts + [a] == [a];
      assert IsRun(cap, Apply(cap, s, a), []);
    } else {
      RunSnoc(cap, Apply(cap, s, acts[0]), acts[1..], a);
      assert (acts + [a])[1..] == acts[1..] + [a];
    }
  }

  // ---------------------------------------------------------------------------
  // The thread's own code, run without interference
  // ---------------------------------------------------------------------------

  /** What the tasks of a batch post to their own thread, in order. */
  function Spawned(spawn: Task -> seq<Task>, batch: seq<Task>): seq<Task> {
    if batch == [] then [] else Spawned(spawn, batch[..|batch| - 1]) + spawn(batch[|batch| - 1])
  }

  class TaskThread {
    const cap: nat
    var tasks: seq<Task>
    var bytes: nat
    ghost var s: State          // where the protocol stands

    ghost predicate Valid()
      reads this
    {
      && cap > 0 && tasks == s.queue && bytes == s.bytes && Inv(cap, s)
    }

    constructor (cap: nat)
      requires cap > 0
      ensures Valid() && this.cap == cap && s == INITIAL
    {
      this.cap := cap;
      tasks, bytes, s := [], 0, INITIAL;
    }

    /** post, whose write either fits or is dropped because the socket is full. */
    method Post(p: Poster, t: Task) returns (ghost acts: seq<Action>)
      requires Valid() && Enabled(cap, s, Push(p, t))
      modifies this
      ensures Valid() && tasks == old(tasks) + [t]
      ensures acts == [Push(p, t), Write(p)] && IsRun(cap, old(s), acts) && s == After(cap, old(s), acts)
      ensures s.owing == old(s.owing) && s.phase == old(s.phase) && s.executed == old(s.executed)
    {
      ghost var s0 := s;
      tasks := tasks + [t];
      StepKeepsInv(cap, s, Push(p, t));
      s := Apply(cap, s, Push(p, t));
      if bytes < cap {
        bytes := bytes + 1;
      }
      StepKeepsInv(cap, s, Write(p));
      s := Apply(cap, s, Write(p));
      RunSnoc(cap, s0, [], Push(p, t));
      RunSnoc(cap, s0, [Push(p, t)], Write(p));
      assert [] + [Push(p, t)] == [Push(p, t)];
      assert [Push(p, t)] + [Write(p)] == [Push(p, t), Write(p)];
      acts := [Push(p, t), Write(p)];
    }

    /** process_pending_tasks: the tasks queued at the swap are executed, in order; what
      they post stays queued, with a byte to wake the thread again. */
    method ProcessPendingTasks(spawn: Task -> seq<Task>) returns (ghost acts: seq<Action>)
      requires Valid() && s.phase.Waiting? && bytes > 0
      modifies this
      ensures Valid() && s.phase.Waiting? && s.owing == old(s.owing)
      ensures IsRun(cap, old(s), acts) && s == After(cap, old(s), acts)
      ensures s.executed == old(s.executed) + old(tasks)
      ensures tasks == Spawned(spawn, old(tasks))
    {
      ghost var s0 := s;
      acts := Do(s0, [], Wake);
      acts := Drain(s0, acts);
      var batch := tasks;
      tasks := [];
      acts := Do(s0, acts, Swap);
      for i := 0 to |batch|
        invariant Valid() && s.phase == Running(batch[i..]) && s.owing == s0.owing
        invariant s.executed == s0.executed + batch[..i] && tasks == Spawned(spawn, batch[..i])
        invariant IsRun(cap, s0, acts) && s == After(cap, s0, acts)
      {
        assert batch[i..][0] == batch[i] && batch[i..][1..] == batch[i + 1..];
        assert batch[..i + 1] == batch[..i] + [batch[i]];
        acts := Do(s0, acts, RunNext);
        acts := PostAll(s0, acts, spawn(batch[i]));
      }
      assert batch[..|batch|] == batch;
      acts := Do(s0, acts, Finish);
    }

    /** Reads the socket until it is empty. */
    method Drain(ghost s0: State, ghost acts0: seq<Action>) returns (ghost acts: seq<Action>)
      requires Valid() && s.phase.Draining?
      requires IsRun(cap, s0, acts0) && s == After(cap, s0, acts0)
      modifies this
      ensures Valid() && s == old(s).(phase := Swapping, bytes := 0)
      ensures IsRun(cap, s0, acts) && s == After(cap, s0, acts)
    {
      acts := acts0;
      while bytes > 0
        invariant Valid() && s.phase.Draining? && s == old(s).(phase := s.phase, bytes := bytes)
        invariant IsRun(cap, s0, acts) && s == After(cap, s0, acts)
      {
        var n := if bytes < CHUNK then bytes else CHUNK;
        bytes := bytes - n;
        acts := Do(s0, acts, Read(n));
      }
      acts := Do(s0, acts, ReadEmpty);
    }

    /** A running task posts `posts` to its own thread. */
    method PostAll(ghost s0: State, ghost acts0: seq<Action>, posts: seq<Task>) returns (ghost acts: seq<Action>)
      requires Valid() && s.phase.Running? && SELF !in s.owing
      requires IsRun(cap, s0, acts0) && s == After(cap, s0, acts0)
      modifies this
      ensures Valid() && tasks == old(tasks) + posts
      ensures s.phase == old(s.phase) && s.owing == old(s.owing) && s.executed == old(s.executed)
      ensures IsRun(cap, s0, acts) && s == After(cap, s0, acts)
    {
      acts := acts0;
      for j := 0 to |posts|
        invariant Valid() && tasks == old(tasks) + posts[..j]
        invariant s.phase == old(s.phase) && s.owing == old(s.owing) && s.executed == old(s.executed)
        invariant IsRun(cap, s0, acts) && s == After(cap, s0, acts)
      {
        tasks := tasks + [posts[j]];
        acts := Do(s0, acts, Push(SELF, posts[j]));
        if bytes < cap {
          bytes := bytes + 1;
        }
        acts := Do(s0, acts, Write(SELF));
      }
    }

    /** Records that the code has just performed `a`. */
    ghost method Do(s0: State, acts: seq<Action>, a: Action) returns (more: seq<Action>)
      requires cap > 0 && Inv(cap, s) && IsRun(cap, s0, acts) && s == After(cap, s0, acts)
      requires Enabled(cap, s, a) && !a.WriteError?
      modifies this`s
      ensures more == acts + [a] && s == Apply(cap, old(s), a)
      ensures Inv(cap, s) && IsRun(cap, s0, more) && s == After(cap, s0, more)
    {
      StepKeepsInv(cap, s, a);
      RunSnoc(cap, s0, acts, a);
      s := Apply(cap, s, a);
      more := acts + [a];
    }
  }
}
