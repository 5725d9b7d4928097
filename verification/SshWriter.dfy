/** Output to an SSH channel that may take any part of it (ssh_conn_write and
  ssh_flush_writes in src/net/ssh.cc). */
module SshWriter {

  // ---------------------------------------------------------------------------
  // Newlines
  // ---------------------------------------------------------------------------

  predicate BareAt(s: string, i: nat)
    requires i < |s|
  {
    s[i] == '\n' && (i == 0 || s[i - 1] != '\r')
  }

  /** Every bare newline of a message becomes a pair. */
  function Converted(s: string): string {
    if s == "" then ""
    else
      var n := |s| - 1;
      Converted(s[..n]) + if BareAt(s, n) then "\r\n" else [s[n]]
  }

  predicate NoBare(s: string) { forall i | 0 <= i < |s| :: !BareAt(s, i) }

  predicate SameEnd(s: string, t: string) {
    (s == "" <==> t == "") && (s != "" ==> s[|s| - 1] == t[|t| - 1])
  }

  lemma {:induction false} ConvertedNoBare(s: string)
    ensures NoBare(Converted(s)) && SameEnd(s, Converted(s))
  {
    if s != "" {
      var n := |s| - 1;
      ConvertedNoBare(s[..n]);
      var c, t := Converted(s[..n]), Converted(s);
      forall i | 0 <= i < |t| ensures !BareAt(t, i) {
        if i < |c| { assert !BareAt(c, i) && t[i] == c[i]; }
      }
    }
  }

  lemma {:induction false} NoBareUnchanged(s: string)
    requires NoBare(s)
    ensures Converted(s) == s
  {
    if s != "" {
      var n := |s| - 1;
      forall i | 0 <= i < n ensures !BareAt(s[..n], i) { assert !BareAt(s, i); }
      NoBareUnchanged(s[..n]);
      assert !BareAt(s, n) && s == s[..n] + [s[n]];
    }
  }

  /** Converting twice is converting once. */
  lemma ConvertedIdempotent(s: string)
    ensures Converted(Converted(s)) == Converted(s)
  {
    ConvertedNoBare(s);
    NoBareUnchanged(Converted(s));
  }

  /** What the message reads like when each pair is taken for a newline. */
  function Plain(s: string): string {
    if s == "" then ""
    else if |s| > 1 && s[|s| - 1] == '\n' && s[|s| - 2] == '\r' then Plain(s[..|s| - 2]) + "\n"
    else Plain(s[..|s| - 1]) + [s[|s| - 1]]
  }

  lemma {:induction false} ConvertedReadsSame(s: string)
    ensures Plain(Converted(s)) == Plain(s)
    decreases |s|
  {
    if s != "" {
      var n := |s| - 1;
      var c := Converted(s[..n]);
      ConvertedReadsSame(s[..n]);
      ConvertedNoBare(s[..n]);
      if BareAt(s, n) {
        assert (c + "\r\n")[..|c|] == c;
      } else if s[n] == '\n' {
        assert s[..n][n - 1] == '\r' && c[|c| - 1] == '\r';
        PairReads(s[..n]);
        PairReads(c);
        CancelEnd(Plain(c[..|c| - 1]), Plain(s[..n][..n - 1]), "\r");
        assert s == s[..n] + "\n" && Converted(s) == c + "\n";
      } else {
        assert (c + [s[n]])[..|c|] == c;
      }
    }
  }

  lemma CancelEnd(a: string, b: string, c: string)
    requires a + c == b + c
    ensures a == b
  {
    assert a == (a + c)[..|a + c| - |c|];
  }

  lemma PairReads(s: string)
    requires s != "" && s[|s| - 1] == '\r'
    ensures Plain(s) == Plain(s[..|s| - 1]) + "\r" && Plain(s + "\n") == Plain(s[..|s| - 1]) + "\n"
  {
    PairEnds(s + "\n", s);
  }

  lemma PairEnds(t: string, s: string)
    requires t == s + "\n" && s != ""
    ensures t[..|t| - 2] == s[..|s| - 1] && t[|t| - 2] == s[|s| - 1] && t[|t| - 1] == '\n'
  {
  }

  lemma {:induction false} ConvertedNoNewline(s: string, t: string)
    requires '\n' !in t
    ensures Converted(s + t) == Converted(s) + t
  {
    if t == "" {
      assert s + t == s;
    } else {
      var n := |t| - 1;
      assert t[n] in t;
      assert (s + t)[..|s| + n] == s + t[..n];
      ConvertedNoNewline(s, t[..n]);
      assert Converted(s) + t[..n] + [t[n]] == Converted(s) + t;
    }
  }

  /** memchr */
  method FindNewline(s: string, from: nat) returns (i: nat)
    requires from <= |s|
    ensures from <= i <= |s| && (i < |s| ==> s[i] == '\n') && '\n' !in s[from..i]
  {
    i := from;
    while i < |s| && s[i] != '\n'
      invariant from <= i <= |s| && '\n' !in s[from..i]
    {
      i := i + 1;
    }
  }

  lemma Regroup(a: string, b: string, c: string)
    ensures a + b + c == a + (b + c)
  {
  }

  lemma SegmentConverted(buf: string, src: nat, nl: nat)
    requires src <= nl <= |buf| && '\n' !in buf[src..nl]
    ensures Converted(buf[..nl]) == Converted(buf[..src]) + buf[src..nl]
    ensures nl == |buf| ==> buf[..nl] == buf && buf[src..nl] == buf[src..]
  {
    ConvertedNoNewline(buf[..src], buf[src..nl]);
    assert buf[..src] + buf[src..nl] == buf[..nl];
  }

  lemma NewlineConverted(buf: string, nl: nat)
    requires nl < |buf| && buf[nl] == '\n'
    ensures Converted(buf[..nl + 1]) == Converted(buf[..nl]) + if nl == 0 || buf[nl - 1] != '\r' then "\r\n" else "\n"
  {
    assert buf[..nl + 1][..nl] == buf[..nl];
  }

  /** The conversion loop of ssh_conn_write. */
  method Convert(buf: string) returns (converted: string)
    ensures converted == Converted(buf)
  {
    var src := 0;
    converted := "";
    while src < |buf|
      invariant src <= |buf| && converted == Converted(buf[..src])
      invariant src > 0 ==> buf[src - 1] == '\n'
    {
      var nl := FindNewline(buf, src);
      SegmentConverted(buf, src, nl);
      if nl == |buf| {
        converted := converted + buf[src..];
        return;
      }
      NewlineConverted(buf, nl);
      if nl == src || buf[nl - 1] != '\r' {
        converted := converted + buf[src..nl];
        converted := converted + "\r\n";
      } else {
        assert buf[src..nl + 1] == buf[src..nl] + "\n";
        Regroup(converted, buf[src..nl], "\n");
        converted := converted + buf[src..nl + 1];
      }
      src := nl + 1;
    }
    assert buf[..src] == buf;
  }

  // ---------------------------------------------------------------------------
  // The connection
  // ---------------------------------------------------------------------------

  /** `armed` is whether EV_WRITE is watched, `sent` what the channel has taken, `asked` the
    messages that were accepted, converted. */
  datatype State = State(ready: bool, wbuf: string, armed: bool, sent: string, asked: seq<string>)

  function Concat(ms: seq<string>): string {
    if ms == [] then "" else Concat(ms[..|ms| - 1]) + ms[|ms| - 1]
  }

  /** Nothing is lost, doubled or reordered, and what waits is watched for. */
  predicate Inv(s: State) {
    s.sent + s.wbuf == Concat(s.asked) && (s.wbuf != "" ==> s.armed)
  }

  /** The write event is armed only while something waits. */
  predicate Exact(s: State) { s.armed <==> s.wbuf != "" }

  predicate ArmedForNothing(s: State) { s.armed && s.wbuf == "" }

  /** The channel, if it is asked, takes `n` bytes, or none and reports an error if `n` is
    negative. */
  function Written(s: State, message: string, n: int): State
    requires n <= |Converted(message)|
  {
    if !s.ready then s
    else
      var out := Converted(message);
      var t := s.(asked := s.asked + [out]);
      if s.wbuf != "" then t.(wbuf := s.wbuf + out)
      else if n >= 0 then
        t.(sent := s.sent + out[..n], wbuf := out[n..], armed := s.armed || n < |out|)
      else t.(wbuf := out, armed := true)
  }

  function Flushed(s: State, n: int): State
    requires n <= |s.wbuf|
  {
    if s.wbuf == "" then s
    else
      var w := if n > 0 then s.wbuf[n..] else s.wbuf;
      s.(sent := s.sent + if n > 0 then s.wbuf[..n] else "", wbuf := w, armed := s.armed && w != "")
  }

  datatype Op = Write(message: string, n: int) | Flush(n: int) | Ready

  predicate Allowed(s: State, op: Op) {
    match op
    case Write(message, n) => n <= |Converted(message)|
    case Flush(n) => n <= |s.wbuf|
    case Ready => true
  }

  function Do(s: State, op: Op): State
    requires Allowed(s, op)
  {
    match op case Write(message, n) => Written(s, message, n) case Flush(n) => Flushed(s, n) case Ready => s.(ready := true)
  }

  /** An empty message that the channel refuses arms the event with nothing to write. */
  predicate Idle(s: State, op: Op) {
    op.Write? && s.ready && s.wbuf == "" && op.message == "" && op.n < 0
  }

  lemma StepKeeps(s: State, op: Op)
    requires Inv(s) && Allowed(s, op)
    ensures Inv(Do(s, op))
    ensures Exact(s) ==> (Exact(Do(s, op)) <==> !Idle(s, op))
    ensures ArmedForNothing(Do(s, op)) <==> Idle(s, op) || (ArmedForNothing(s) && Do(s, op).wbuf == "")
  {
    match op
    case Write(message, n) => WriteKeeps(s, message, n);
    case Flush(n) =>
      if n > 0 { assert s.wbuf == s.wbuf[..n] + s.wbuf[n..]; }
    case Ready =>
  }

  lemma WriteKeeps(s: State, message: string, n: int)
    requires Inv(s) && n <= |Converted(message)|
    ensures Inv(Written(s, message, n))
    ensures Exact(s) ==> (Exact(Written(s, message, n)) <==> !Idle(s, Write(message, n)))
    ensures ArmedForNothing(Written(s, message, n)) <==>
              Idle(s, Write(message, n)) || (ArmedForNothing(s) && Written(s, message, n).wbuf == "")
  {
    ConvertedNoBare(message);
    if s.ready { WriteConserves(s, Converted(message), n); }
  }

  lemma WriteConserves(s: State, out: string, n: int)
    requires s.sent + s.wbuf == Concat(s.asked) && n <= |out|
    ensures Concat(s.asked + [out]) == s.sent + (s.wbuf + out)
    ensures n >= 0 ==> s.sent + out == s.sent + out[..n] + out[n..]
  {
    assert (s.asked + [out])[..|s.asked|] == s.asked;
    if n >= 0 { assert out == out[..n] + out[n..]; }
  }

  predicate IsRun(s: State, ops: seq<Op>)
    decreases |ops|
  {
    ops == [] || (Allowed(s, ops[0]) && IsRun(Do(s, ops[0]), ops[1..]))
  }

  function After(s: State, ops: seq<Op>): State
    requires IsRun(s, ops)
    decreases |ops|
  {
    if ops == [] then s else After(Do(s, ops[0]), ops[1..])
  }

  predicate NeverIdle(s: State, ops: seq<Op>)
    requires IsRun(s, ops)
    decreases |ops|
  {
    ops == [] || (!Idle(s, ops[0]) && NeverIdle(Do(s, ops[0]), ops[1..]))
  }

  /** What a step asks the channel to take. */
  function Offered(s: State, op: Op): string {
    match op
    case Write(message, _) => if s.ready && s.wbuf == "" then Converted(message) else ""
    case Flush(_) => s.wbuf
    case Ready => ""
  }

  /** The bytes the channel takes over a run: of each offer as many as it says. */
  function Taken(s: State, ops: seq<Op>): string
    requires IsRun(s, ops)
    decreases |ops|
  {
    if ops == [] then ""
    else
      TakenNow(s, ops[0]) + Taken(Do(s, ops[0]), ops[1..])
  }

  function TakenNow(s: State, op: Op): string {
    var offer := Offered(s, op);
    if !op.Ready? && 0 < op.n <= |offer| then offer[..op.n] else ""
  }

  function AcceptedNow(ready: bool, op: Op): seq<string> {
    if ready && op.Write? then [Converted(op.message)] else []
  }

  /** The messages written once the connection is ready. */
  function Accepted(ready: bool, ops: seq<Op>): seq<string>
    decreases |ops|
  {
    if ops == [] then []
    else
      AcceptedNow(ready, ops[0]) + Accepted(ready || ops[0].Ready?, ops[1..])
  }

  lemma {:induction false} ChannelTakes(s: State, ops: seq<Op>)
    requires IsRun(s, ops)
    ensures After(s, ops).sent == s.sent + Taken(s, ops)
    ensures After(s, ops).asked == s.asked + Accepted(s.ready, ops)
    decreases |ops|
  {
    if ops != [] {
      var rest := ops[1..];
      var t := Do(s, ops[0]);
      StepTakes(s, ops[0]);
      ChannelTakes(t, rest);
      Regroup(s.sent, TakenNow(s, ops[0]), Taken(t, rest));
      RegroupMessages(s.asked, AcceptedNow(s.ready, ops[0]), Accepted(t.ready, rest));
    }
  }

  lemma RegroupMessages(a: seq<string>, b: seq<string>, c: seq<string>)
    ensures a + b + c == a + (b + c)
  {
  }

  lemma StepTakes(s: State, op: Op)
    requires Allowed(s, op)
    ensures Do(s, op).sent == s.sent + TakenNow(s, op) && Do(s, op).asked == s.asked + AcceptedNow(s.ready, op)
    ensures Do(s, op).ready == (s.ready || op.Ready?)
  {
  }

  const START := State(false, "", false, "", [])

  lemma {:induction false} RunKeeps(s: State, ops: seq<Op>)
    requires Inv(s) && IsRun(s, ops)
    ensures Inv(After(s, ops)) && (Exact(s) && NeverIdle(s, ops) ==> Exact(After(s, ops)))
    decreases |ops|
  {
    if ops != [] {
      StepKeeps(s, ops[0]);
      RunKeeps(Do(s, ops[0]), ops[1..]);
    }
  }

  /** No step of the run leaves bytes waiting. */
  predicate StaysEmpty(s: State, ops: seq<Op>)
    requires IsRun(s, ops)
    decreases |ops|
  {
    ops == [] || (Do(s, ops[0]).wbuf == "" && StaysEmpty(Do(s, ops[0]), ops[1..]))
  }

  /** An empty message is refused, and from then on no step leaves bytes waiting. */
  predicate IdleThenEmpty(s: State, ops: seq<Op>)
    requires IsRun(s, ops)
    decreases |ops|
  {
    && ops != []
    && ((Idle(s, ops[0]) && StaysEmpty(Do(s, ops[0]), ops[1..])) || IdleThenEmpty(Do(s, ops[0]), ops[1..]))
  }

  lemma {:induction false} ArmedFrom(s: State, ops: seq<Op>)
    requires Inv(s) && IsRun(s, ops)
    ensures ArmedForNothing(After(s, ops)) <==> (ArmedForNothing(s) && StaysEmpty(s, ops)) || IdleThenEmpty(s, ops)
    decreases |ops|
  {
    if ops != [] {
      StepKeeps(s, ops[0]);
      ArmedFrom(Do(s, ops[0]), ops[1..]);
    }
  }

  /** Whatever part of each offer the channel takes, what it has taken and what waits is
    together the messages written since the connection was ready, converted; the write event is armed exactly while something waits,
    unless an empty message was refused and nothing has had to wait since: neither flushes nor
    writes that are taken whole disarm it. */
  lemma NothingLost(ops: seq<Op>)
    requires IsRun(START, ops)
    ensures var t := After(START, ops);
            && Taken(START, ops) + t.wbuf == Concat(Accepted(false, ops))
            && (t.wbuf != "" ==> t.armed) && (NeverIdle(START, ops) ==> Exact(t))
    ensures Exact(After(START, ops)) <==> !IdleThenEmpty(START, ops)
  {
    RunKeeps(START, ops);
    ArmedFrom(START, ops);
    ChannelTakes(START, ops);
    assert "" + Taken(START, ops) == Taken(START, ops) && [] + Accepted(false, ops) == Accepted(false, ops);
  }

  /** The shortest such run; an empty flush leaves it so. */
  lemma IdleRun(ops: seq<Op>)
    requires ops == [Ready, Write("", -1), Flush(0)]
    ensures IsRun(START, ops) && ArmedForNothing(After(START, ops[..2])) && ArmedForNothing(After(START, ops))
  {
    var s := Do(START, ops[0]);
    var t := Do(s, ops[1]);
    assert t == State(true, "", true, "", [""]);
    assert Do(t, ops[2]) == t;
    assert ops[1..] == [ops[1], ops[2]] && ops[1..][1..] == [ops[2]] && [ops[2]][1..] == [];
    assert IsRun(t, []) && After(t, []) == t;
    assert IsRun(t, [ops[2]]) && After(t, [ops[2]]) == t;
    assert IsRun(s, ops[1..]) && After(s, ops[1..]) == t;
    assert ops[..2][1..] == [ops[1]] && [ops[1]][1..] == [];
    assert IsRun(s, [ops[1]]) && After(s, [ops[1]]) == t;
  }

  class Connection {
    var ready: bool
    var wbuf: string
    var armed: bool
    ghost var sent: string
    ghost var asked: seq<string>

    ghost function Abs(): State reads this { State(ready, wbuf, armed, sent, asked) }

    constructor ()
      ensures Abs() == START
    {
      ready, wbuf, armed, sent, asked := false, "", false, "", [];
    }

    /** ssh_conn_write */
    method ConnWrite(buf: string, n: int) returns (r: int)
      requires n <= |Converted(buf)|
      modifies this
      ensures Abs() == Written(old(Abs()), buf, n) && r == if old(ready) then |buf| else -1
      ensures sent == old(sent) + if old(ready) && old(wbuf) == "" && n >= 0 then Converted(buf)[..n] else ""
    {
      if !ready {
        return -1;
      }
      var out := Convert(buf);
      asked := asked + [out];
      r := |buf|;
      if wbuf != "" {
        wbuf := wbuf + out;
        return;
      }
      if n >= 0 {
        sent := sent + out[..n];
        if n < |out| {
          wbuf := wbuf + out[n..];
          armed := true;
        }
        return;
      }
      wbuf := wbuf + out;
      armed := true;
    }

    /** ssh_flush_writes */
    method FlushWrites(n: int)
      requires n <= |wbuf|
      modifies this
      ensures Abs() == Flushed(old(Abs()), n)
      ensures sent == old(sent) + if n >= 0 then old(wbuf)[..n] else ""
    {
      if wbuf == "" {
        return;
      }
      if n > 0 {
        sent, wbuf := sent + wbuf[..n], wbuf[n..];
      }
      if wbuf == "" {
        armed := false;
      }
    }
  }
}
