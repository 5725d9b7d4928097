/** What the line buffer does to a stream of text: the commands are its lines, and exactly
  where they are not. */
module InputLines {
  import opened Wrappers
  import opened InputBuffer

  // ---------------------------------------------------------------------------
  // Lines
  // ---------------------------------------------------------------------------

  /** No NUL and no editing. */
  predicate PlainChar(c: char) { c != NUL && c != BACKSPACE && c != DEL }

  predicate Plain(s: string) { forall i | 0 <= i < |s| :: PlainChar(s[i]) }

  predicate HasEnd(s: string) { FindTerminator(s, 0) < |s| }

  /** The lines of a stream, without their ends. */
  function Lines(s: string): seq<string> {
    var p := FindTerminator(s, 0);
    if p == |s| then [] else [s[..p]] + Lines(s[LineEnd(s, p)..])
  }

  predicate IsEnd(end: string) {
    (|end| == 1 && Terminator(end[0])) || (|end| == 2 && PairOf(end[0], end[1]))
  }

  /** The text does not complete a pair with the lone terminator before it. */
  predicate Closed(lone: Option<char>, rest: string) {
    lone.Some? && rest != "" ==> !PairOf(lone.value, rest[0])
  }

  function Lone(end: string): Option<char> { if |end| == 1 then Some(end[0]) else None }

  lemma LinesOfFirst(line: string, end: string, rest: string)
    requires !HasEnd(line) && IsEnd(end) && Closed(Lone(end), rest)
    ensures Lines(line + end + rest) == [line] + Lines(rest)
  {
    var s, p := line + end + rest, |line|;
    assert forall i | 0 <= i < p :: s[i] == line[i];
    assert s[p] == end[0] && FindTerminator(s, 0) == p;
    assert Pair(s, p) <==> |end| == 2 by {
      if |end| == 2 { assert s[p + 1] == end[1]; } else if rest != "" { assert s[p + 1] == rest[0]; }
    }
    assert s[..p] == line && s[LineEnd(s, p)..] == rest;
  }

  // ---------------------------------------------------------------------------
  // Feeding
  // ---------------------------------------------------------------------------

  /** The data fits: behind the text, or after what is consumed is moved out.  Where it ends
    exactly at the end of the buffer the last byte is lost (`RoomIff`). */
  predicate Room(b: Buffer, n: nat) {
    |b.text| + n < SIZE || (|b.text| + n > SIZE && |Pending(b)| + n < SIZE)
  }

  predicate Clean(data: string, strip: bool) { Plain(data) && (strip ==> ESC !in data) }

  lemma {:induction false} TypedPlain(text: string, data: string, strip: bool)
    requires Clean(data, strip) && |text| < SIZE
    ensures Typed(text, data, strip) == text + data[..if |text| + |data| < SIZE then |data| else SIZE - 1 - |text|]
    decreases |data|
  {
    if data != "" && |text| < SIZE - 1 {
      TypedPlain(text + [data[0]], data[1..], strip);
      var n := if |text| + |data| < SIZE then |data| else SIZE - 1 - |text|;
      assert text + [data[0]] + data[1..][..n - 1] == text + data[..n];
    }
  }

  /** Without skipping, cleaning plain text changes nothing but where it lies. */
  lemma CleanedPlain(b: Buffer)
    requires b.start <= |b.text| && Plain(Pending(b)) && !b.skip
    ensures Pending(Cleaned(b)) == Pending(b) && !Cleaned(b).skip && |Cleaned(b).text| <= |b.text|
  {
    if b.start < |b.text| { assert PlainChar(Pending(b)[0]); }
  }

  /** The position of the first terminator does not depend on where the text lies. */
  lemma TerminatorInPending(text: string, start: nat)
    requires start <= |text|
    ensures FindTerminator(text[start..], 0) == FindTerminator(text, start) - start
  {
    var s, p := text[start..], FindTerminator(text, start);
    var q := FindTerminator(s, 0);
    if p < |text| { assert Terminator(s[p - start]); }
    if q < |s| { assert Terminator(text[start + q]); }
    assert q <= p - start;
  }

  predicate Good(b: Buffer) {
    Ok(b) && !b.skip && Plain(Pending(b)) && (b.cmd <==> HasEnd(Pending(b)))
  }

  lemma RoomMade(b: Buffer, data: string, strip: bool)
    requires Ok(b) && Clean(data, strip) && Room(b, |data|)
    ensures var r := MadeRoom(b, |data|); var t := r.(text := Typed(r.text, data, strip));
            t.start <= |t.text| < SIZE && Pending(t) == Pending(b) + data && t.skip == b.skip && t.cmd == b.cmd
  {
    var r := MadeRoom(b, |data|);
    TypedPlain(r.text, data, strip);
  }

  lemma PlainAppend(s: string, t: string)
    requires Plain(s) && Plain(t)
    ensures Plain(s + t) && (HasEnd(s) ==> HasEnd(s + t))
  {
    if HasEnd(s) { assert (s + t)[FindTerminator(s, 0)] == s[FindTerminator(s, 0)]; }
  }

  /** Data that fits is appended to what is pending, and the flag says whether a line is. */
  lemma ReceivedGood(b: Buffer, data: string, strip: bool)
    requires Good(b) && Clean(data, strip) && Room(b, |data|)
    ensures Good(Received(b, data, strip)) && Pending(Received(b, data, strip)) == Pending(b) + data
  {
    if data != "" {
      RoomMade(b, data, strip);
      var r := MadeRoom(b, |data|);
      FlaggedGood(r.(text := Typed(r.text, data, strip)), Pending(b), data);
    } else {
      assert Pending(b) + data == Pending(b);
    }
  }

  lemma FlaggedGood(t: Buffer, s: string, data: string)
    requires t.start <= |t.text| < SIZE && Pending(t) == s + data && !t.skip && (t.cmd ==> HasEnd(s))
    requires Plain(s) && Plain(data)
    ensures Good(Flagged(Cleaned(t))) && Pending(Flagged(Cleaned(t))) == s + data
  {
    PlainAppend(s, data);
    CleanedPlain(t);
    TerminatorInPending(Cleaned(t).text, Cleaned(t).start);
  }

  // ---------------------------------------------------------------------------
  // Extracting
  // ---------------------------------------------------------------------------

  lemma {:induction false} PlainUpToNul(s: string)
    requires Plain(s)
    ensures UpToNul(s) == s
  {
    if s != "" {
      assert PlainChar(s[0]);
      PlainUpToNul(s[1..]);
    }
  }

  lemma FirstLineIs(c: Buffer, s: string)
    requires c.start <= |c.text| && Pending(c) == s && Plain(s)
    ensures FirstLine(c) == s[..FindTerminator(s, 0)]
  {
    var p := FindTerminator(s, 0);
    TerminatorInPending(c.text, c.start);
    PrefixOfPending(c.text, c.start, p);
    PlainUpToNul(s[..p]);
  }

  lemma PrefixOfPending(text: string, start: nat, p: nat)
    requires start + p <= |text|
    ensures text[start..start + p] == text[start..][..p]
    ensures text[start..][..p] == text[start..] <==> start + p == |text|
  {
  }

  /** What is left of pending text when its first line has been taken. */
  function AfterEnd(s: string): string
    requires HasEnd(s)
  {
    s[LineEnd(s, FindTerminator(s, 0))..]
  }

  lemma CutPlain(c: Buffer, s: string, p: nat)
    requires c.start <= |c.text| && Pending(c) == s && p == FindTerminator(s, 0) < |s|
    requires FindTerminator(c.text, c.start) == c.start + p
    ensures Cut(c).start <= |Cut(c).text| == |c.text| && Pending(Cut(c)) == s[LineEnd(s, p)..] && Cut(c).skip == c.skip
  {
    CutAtEnd(c, Cut(c), s, p);
  }

  lemma CutAtEnd(c: Buffer, d: Buffer, s: string, p: nat)
    requires c.start <= |c.text| && Pending(c) == s && p < |s|
    requires d == c.(text := Blanked(c.text, c.start + p), start := LineEnd(c.text, c.start + p))
    ensures d.start <= |d.text| == |c.text| && Pending(d) == s[LineEnd(s, p)..] && d.skip == c.skip
  {
    BlankedBehind(c.text, c.start + p);
    EndInPending(c.text, c.start, p);
  }

  lemma BlankedBehind(text: string, p: nat)
    requires p < |text|
    ensures |Blanked(text, p)| == |text| && LineEnd(text, p) <= |text|
    ensures Blanked(text, p)[LineEnd(text, p)..] == text[LineEnd(text, p)..]
  {
  }

  lemma EndInPending(text: string, start: nat, p: nat)
    requires start + p < |text|
    ensures LineEnd(text, start + p) == start + LineEnd(text[start..], p)
    ensures text[LineEnd(text, start + p)..] == text[start..][LineEnd(text[start..], p)..]
  {
  }

  lemma RestGood(d: Buffer, s: string)
    requires d.start <= |d.text| < SIZE && Pending(d) == s && Plain(s) && !d.skip
    ensures var e := Cleaned(d); Good(e.(cmd := HasLine(e))) && Pending(e) == s && (s == "" ==> e.text == "")
  {
    CleanedPlain(d);
    TerminatorInPending(Cleaned(d).text, Cleaned(d).start);
  }

  /** Cleaning finds the pending text and its first end again. */
  lemma CleanedFirst(b: Buffer)
    requires Good(b) && b.cmd
    ensures var c, s := Cleaned(b), Pending(b);
            && !c.skip && |c.text| < SIZE && Pending(c) == s && HasEnd(s)
            && FindTerminator(c.text, c.start) == c.start + FindTerminator(s, 0)
  {
    CleanedPlain(b);
    TerminatorInPending(Cleaned(b).text, Cleaned(b).start);
  }

  /** If a whole line is pending the first one is taken out, with its end. */
  lemma ExtractedGood(b: Buffer)
    requires Good(b)
    ensures Good(Extracted(b).1) && (Extracted(b).0.Some? <==> HasEnd(Pending(b)))
    ensures HasEnd(Pending(b)) ==>
              && Extracted(b).0 == Some(Pending(b)[..FindTerminator(Pending(b), 0)])
              && Pending(Extracted(b).1) == AfterEnd(Pending(b))
              && (AfterEnd(Pending(b)) == "" ==> Extracted(b).1.text == "")
    ensures !HasEnd(Pending(b)) ==> Extracted(b).1 == b
  {
    if b.cmd {
      var c, s := Cleaned(b), Pending(b);
      var p := FindTerminator(s, 0);
      CleanedFirst(b);
      FirstLineIs(c, s);
      CutPlain(c, s, p);
      RestGood(Cut(c), AfterEnd(s));
    }
  }

  // ---------------------------------------------------------------------------
  // NULs
  // ---------------------------------------------------------------------------

  /** What is pending, without the NULs it begins with. */
  function Stripped(s: string): string { s[SkipNuls(s, 0)..] }

  lemma NulsInPending(text: string, start: nat)
    requires start <= |text|
    ensures SkipNuls(text[start..], 0) == SkipNuls(text, start) - start
  {
    var s := text[start..];
    var i, j := SkipNuls(text, start), SkipNuls(s, 0);
    if j < |s| { assert text[start + j] == s[j]; }
    if i < |text| { assert s[i - start] == text[i]; }
  }

  lemma CleanedStrips(b: Buffer)
    requires b.start <= |b.text| && !b.skip
    ensures Pending(Cleaned(b)) == Stripped(Pending(b)) && Cleaned(b) == Trimmed(b)
  {
    NulsInPending(b.text, b.start);
  }

  lemma {:induction false} UpToNulIs(s: string)
    ensures var n := |UpToNul(s)|;
            n <= |s| && UpToNul(s) == s[..n] && NUL !in s[..n] && (n < |s| ==> s[n] == NUL)
  {
    if s != "" && s[0] != NUL {
      UpToNulIs(s[1..]);
      var n := |UpToNul(s)|;
      assert s[..n] == [s[0]] + s[1..][..n - 1];
    }
  }

  predicate IsCommand(line: string, c: string) {
    |c| <= |line| && c == line[..|c|] && NUL !in c && (|c| < |line| ==> line[|c|] == NUL)
  }

  /** Of any pending text, NULs or not: the NULs in front are passed over; the command is the
    first line, up to its first NUL, the rest of that line is lost with it; and CMD_IN_BUF
    then says whether another is complete. */
  lemma CommandStopsAtNul(b: Buffer)
    requires Ok(b) && !b.skip && b.cmd
    ensures var s := Stripped(Pending(b));
            match Extracted(b).0 case None => s == "" case Some(c) => s != "" && IsCommand(s[..FindTerminator(s, 0)], c)
    ensures Extracted(b).1.cmd <==> Extracted(b).0.None? || HasEnd(Pending(Extracted(b).1))
  {
    CleanedStrips(b);
    CommandOrNone(Extracted(b).0, Cleaned(b), Stripped(Pending(b)));
    FlagFollows(b);
  }

  lemma CommandOrNone(first: Option<string>, c: Buffer, s: string)
    requires c.start <= |c.text| && Pending(c) == s
    requires first == if c.start < |c.text| then Some(FirstLine(c)) else None
    ensures match first case None => s == "" case Some(line) => s != "" && IsCommand(s[..FindTerminator(s, 0)], line)
  {
    var p := FindTerminator(s, 0);
    TerminatorInPending(c.text, c.start);
    PrefixOfPending(c.text, c.start, p);
    UpToNulIs(s[..p]);
  }

  lemma FlagFollows(b: Buffer)
    requires b.cmd
    ensures Extracted(b).1.cmd <==> Extracted(b).0.None? || HasEnd(Pending(Extracted(b).1))
  {
    if Extracted(b).0.Some? { FlagIs(Cleaned(Cut(Cleaned(b))), Extracted(b).1); }
  }

  lemma FlagIs(d: Buffer, e: Buffer)
    requires d.start <= |d.text| && e == d.(cmd := HasLine(d))
    ensures e.cmd <==> HasEnd(Pending(e))
  {
    TerminatorInPending(d.text, d.start);
  }

  // ---------------------------------------------------------------------------
  // Runs
  // ---------------------------------------------------------------------------

  datatype Op = Feed(data: string) | Extract

  /** The buffer, the commands extracted, all that was fed, and the terminator that ended the
    last command if it was not a pair. */
  datatype State = State(buffer: Buffer, out: seq<string>, fed: string, lone: Option<char>)

  const START := State(EMPTY, [], "", None)

  /** The data completes a pair whose first half has been taken for the end of a line. */
  predicate Splits(s: State, op: Op) {
    op.Feed? && Pending(s.buffer) == "" && !Closed(s.lone, op.data)
  }

  predicate Allowed(s: State, op: Op, strip: bool) {
    op.Feed? ==> Clean(op.data, strip) && Room(s.buffer, |op.data|)
  }

  function Do(s: State, op: Op, strip: bool): State
    requires Ok(s.buffer)
  {
    match op
    case Feed(data) => s.(buffer := Received(s.buffer, data, strip), fed := s.fed + data)
    case Extract =>
      var (line, r) := Extracted(s.buffer);
      if line.None? then s.(buffer := r)
      else
        var p, t := FindTerminator(Pending(s.buffer), 0), Pending(s.buffer);
        State(r, s.out + [line.value], s.fed, if Pair(t, p) || p == |t| then None else Some(t[p]))
  }

  /** Whatever follows the text that has been taken, its lines follow the commands. */
  ghost predicate Carries(eaten: string, out: seq<string>, lone: Option<char>) {
    forall rest: string | Closed(lone, rest) :: Carried(eaten, out, rest)
  }

  predicate Carried(eaten: string, out: seq<string>, rest: string) { Lines(eaten + rest) == out + Lines(rest) }

  ghost predicate Inv(s: State, eaten: string) {
    && Good(s.buffer) && s.fed == eaten + Pending(s.buffer)
    && Closed(s.lone, Pending(s.buffer)) && Carries(eaten, s.out, s.lone)
  }

  lemma CarriesMore(eaten: string, out: seq<string>, lone: Option<char>, line: string, end: string)
    requires Carries(eaten, out, lone) && !HasEnd(line) && IsEnd(end) && Closed(lone, line + end)
    ensures Carries(eaten + line + end, out + [line], Lone(end))
  {
    forall rest: string | Closed(Lone(end), rest)
      ensures Carried(eaten + line + end, out + [line], rest)
    {
      CarriesOver(eaten, out, lone, line, end, rest);
    }
  }

  lemma CarriesOver(eaten: string, out: seq<string>, lone: Option<char>, line: string, end: string, rest: string)
    requires Carries(eaten, out, lone) && !HasEnd(line) && IsEnd(end) && Closed(lone, line + end) && Closed(Lone(end), rest)
    ensures Carried(eaten + line + end, out + [line], rest)
  {
    Regroup(eaten, line, end, rest);
    LinesOfFirst(line, end, rest);
    assert (line + end + rest)[0] == (line + end)[0];
    assert Carried(eaten, out, line + end + rest);
    RegroupLines(out, line, Lines(rest));
  }

  lemma Regroup(a: string, b: string, c: string, d: string)
    ensures a + b + c + d == a + (b + c + d)
  {
  }

  lemma RegroupLines(out: seq<string>, line: string, rest: seq<string>)
    ensures out + ([line] + rest) == out + [line] + rest
  {
  }

  lemma FeedKeeps(s: State, eaten: string, data: string, strip: bool)
    requires Inv(s, eaten) && Allowed(s, Feed(data), strip) && !Splits(s, Feed(data))
    ensures Inv(Do(s, Feed(data), strip), eaten)
  {
    ReceivedGood(s.buffer, data, strip);
    Append(s.lone, eaten, Pending(s.buffer), data);
  }

  lemma Append(lone: Option<char>, eaten: string, t: string, data: string)
    requires Closed(lone, t) && (t == "" ==> Closed(lone, data))
    ensures eaten + t + data == eaten + (t + data) && Closed(lone, t + data)
  {
    if t != "" { assert (t + data)[0] == t[0]; } else { assert t + data == data; }
  }

  lemma ExtractKeeps(s: State, eaten: string, strip: bool) returns (more: string)
    requires Inv(s, eaten)
    ensures Inv(Do(s, Extract, strip), more)
  {
    ExtractedGood(s.buffer);
    more := eaten;
    if HasEnd(Pending(s.buffer)) {
      more := TakesLine(Pending(s.buffer), eaten, s.out, s.lone);
    }
  }

  /** The first line of the pending text, and its end, are taken. */
  lemma TakesLine(t: string, eaten: string, out: seq<string>, lone: Option<char>) returns (more: string)
    requires HasEnd(t) && Closed(lone, t) && Carries(eaten, out, lone)
    ensures var p := FindTerminator(t, 0); var l := if Pair(t, p) then None else Some(t[p]);
            more + AfterEnd(t) == eaten + t && Closed(l, AfterEnd(t)) && Carries(more, out + [t[..p]], l)
  {
    var p := FindTerminator(t, 0);
    var line, end := t[..p], t[p..LineEnd(t, p)];
    NoEndBefore(t);
    ClosedAfter(t, p);
    Parts(t, p, LineEnd(t, p));
    CarriesMore(eaten, out, lone, line, end);
    more := eaten + line + end;
    Regroup(eaten, line, end, AfterEnd(t));
  }

  lemma Parts(t: string, p: nat, q: nat)
    requires p < q <= |t|
    ensures t[..p] + t[p..q] + t[q..] == t && (t[..p] + t[p..q])[0] == t[0]
  {
  }

  lemma NoEndBefore(t: string)
    ensures !HasEnd(t[..FindTerminator(t, 0)])
  {
    var p := FindTerminator(t, 0);
    assert forall i | 0 <= i < p :: t[..p][i] == t[i];
  }

  lemma ClosedAfter(t: string, p: nat)
    requires p < |t| && Terminator(t[p])
    ensures IsEnd(t[p..LineEnd(t, p)]) && Closed(Lone(t[p..LineEnd(t, p)]), t[LineEnd(t, p)..])
  {
  }

  /** The run is possible: whatever is fed fits. */
  predicate IsRun(s: State, ops: seq<Op>, strip: bool)
    requires Ok(s.buffer)
    decreases |ops|
  {
    ops != [] ==> Allowed(s, ops[0], strip) && Ok(Do(s, ops[0], strip).buffer) && IsRun(Do(s, ops[0], strip), ops[1..], strip)
  }

  function After(s: State, ops: seq<Op>, strip: bool): State
    requires Ok(s.buffer) && IsRun(s, ops, strip)
    decreases |ops|
  {
    if ops == [] then s else After(Do(s, ops[0], strip), ops[1..], strip)
  }

  predicate NeverSplits(s: State, ops: seq<Op>, strip: bool)
    requires Ok(s.buffer) && IsRun(s, ops, strip)
    decreases |ops|
  {
    ops == [] || (!Splits(s, ops[0]) && NeverSplits(Do(s, ops[0], strip), ops[1..], strip))
  }

  lemma {:induction false} RunKeeps(s: State, ops: seq<Op>, strip: bool, eaten: string) returns (more: string)
    requires Inv(s, eaten) && IsRun(s, ops, strip) && NeverSplits(s, ops, strip)
    ensures Inv(After(s, ops, strip), more)
    decreases |ops|
  {
    more := eaten;
    if ops != [] {
      match ops[0] {
        case Feed(data) => FeedKeeps(s, eaten, data, strip);
        case Extract => more := ExtractKeeps(s, eaten, strip);
      }
      more := RunKeeps(Do(s, ops[0], strip), ops[1..], strip, more);
    }
  }

  lemma StartInv()
    ensures Inv(START, "")
  {
    forall rest: string ensures Carried("", [], rest) { assert "" + rest == rest; }
  }

  lemma LinesIffEnd(s: string)
    ensures Lines(s) != [] <==> HasEnd(s)
  {
  }

  /** Whatever the chunks and however feeding and extracting alternate, unless a pair of
    terminators is split, the commands are the lines of the input in order, and CMD_IN_BUF
    says whether one more is complete. */
  lemma CommandsAreLines(ops: seq<Op>, strip: bool)
    requires IsRun(START, ops, strip) && NeverSplits(START, ops, strip)
    ensures var s := After(START, ops, strip);
            Lines(s.fed) == s.out + Lines(Pending(s.buffer)) && (s.buffer.cmd <==> Lines(Pending(s.buffer)) != [])
  {
    StartInv();
    var s := After(START, ops, strip);
    var eaten := RunKeeps(START, ops, strip, "");
    assert Carried(eaten, s.out, Pending(s.buffer));
    LinesIffEnd(Pending(s.buffer));
  }

  // ---------------------------------------------------------------------------
  // Split pairs
  // ---------------------------------------------------------------------------

  /** A line is pending that ends, so far, in the first half of a pair.  If it is extracted
    before the second half comes, that half is left pending; otherwise it is not. */
  lemma SplitPair(b: Buffer, line: string, c: char, d: char, rest: string, strip: bool)
    requires Good(b) && Pending(b) == line + [c] && !HasEnd(line) && PairOf(c, d)
    requires Clean([d] + rest, strip) && Room(b, 1 + |rest|)
    ensures Extracted(b).0 == Some(line)
    ensures Pending(Received(Extracted(b).1, [d] + rest, strip)) == [d] + rest
    ensures Extracted(Received(b, [d] + rest, strip)).0 == Some(line)
    ensures Pending(Extracted(Received(b, [d] + rest, strip)).1) == rest
  {
    FirstEnd(line, [c], "");
    FirstEnd(line, [c, d], rest);
    assert line + [c] + "" == line + [c] && line + [c] + ([d] + rest) == line + [c, d] + rest;
    ExtractedGood(b);
    ReceivedGood(Extracted(b).1, [d] + rest, strip);
    assert "" + ([d] + rest) == [d] + rest;
    ReceivedGood(b, [d] + rest, strip);
    ExtractedGood(Received(b, [d] + rest, strip));
  }

  lemma FirstEnd(line: string, end: string, rest: string)
    requires !HasEnd(line) && IsEnd(end) && Closed(Lone(end), rest)
    ensures var s := line + end + rest;
            HasEnd(s) && s[..FindTerminator(s, 0)] == line && AfterEnd(s) == rest
  {
    var s, p := line + end + rest, |line|;
    assert forall i | 0 <= i < p :: s[i] == line[i];
    assert s[p] == end[0] && FindTerminator(s, 0) == p;
    if |end| == 2 { assert s[p + 1] == end[1]; } else if rest != "" { assert s[p + 1] == rest[0]; }
  }

  /** The text begins with the two terminators in turn, and with an odd number of them. */
  predicate Rejoins(c: char, d: char, rest: string)
    decreases |rest|
  {
    && rest != "" && rest[0] == c
    && (|rest| > 1 && rest[1] == d ==> Rejoins(c, d, rest[2..]))
  }

  /** A second half left pending is one more, empty, command, unless the following text
    takes it into a pair of its own: exactly if it rejoins. */
  lemma {:induction false} SplitAddsLineIff(c: char, d: char, rest: string)
    requires PairOf(c, d)
    ensures Lines([d] + rest) == Lines(rest) <==> Rejoins(c, d, rest)
    ensures !Rejoins(c, d, rest) ==> |Lines([d] + rest)| == |Lines(rest)| + 1
    decreases |rest|
  {
    if rest == "" || rest[0] != c {
      EmptyFirst([d], rest, [d] + rest);
    } else if |rest| > 1 && rest[1] == d {
      BothPairUp(c, d, rest);
      SplitAddsLineIff(c, d, rest[2..]);
    } else {
      EmptyFirst([d, c], rest[1..], [d] + rest);
      EmptyFirst([c], rest[1..], rest);
    }
  }

  lemma BothPairUp(c: char, d: char, rest: string)
    requires PairOf(c, d) && |rest| > 1 && rest[0] == c && rest[1] == d
    ensures Lines([d] + rest) == [""] + Lines([d] + rest[2..]) && Lines(rest) == [""] + Lines(rest[2..])
  {
    PairsInTurn(c, d, rest);
    PairFirst(c, d, rest[2..]);
    PairFirst(d, c, [d] + rest[2..]);
  }

  lemma PairsInTurn(c: char, d: char, rest: string)
    requires |rest| > 1 && rest[0] == c && rest[1] == d
    ensures rest == [c, d] + rest[2..] && [d] + rest == [d, c] + ([d] + rest[2..])
  {
  }

  lemma PairFirst(c: char, d: char, rest: string)
    requires PairOf(c, d)
    ensures Lines([c, d] + rest) == [""] + Lines(rest)
  {
    EmptyFirst([c, d], rest, [c, d] + rest);
  }

  lemma EmptyFirst(end: string, rest: string, s: string)
    requires IsEnd(end) && Closed(Lone(end), rest) && s == end + rest
    ensures Lines(s) == [""] + Lines(rest)
  {
    LinesOfFirst("", end, rest);
    assert "" + end + rest == s;
  }

  // ---------------------------------------------------------------------------
  // Where data is lost
  // ---------------------------------------------------------------------------

  /** Plain data is kept whole exactly if there is room; in particular a byte is lost if the
    data ends just at the end of the buffer. */
  lemma RoomIff(b: Buffer, data: string, strip: bool)
    requires Good(b) && Clean(data, strip) && data != ""
    ensures Pending(Received(b, data, strip)) == Pending(b) + data <==> Room(b, |data|)
  {
    if Room(b, |data|) {
      ReceivedGood(b, data, strip);
    } else {
      NoRoomLoses(b, data, strip);
    }
  }

  lemma NoRoomLoses(b: Buffer, data: string, strip: bool)
    requires Ok(b) && Clean(data, strip) && data != "" && !Room(b, |data|)
    ensures |Pending(Received(b, data, strip))| < |Pending(b)| + |data|
  {
    var r := MadeRoom(b, |data|);
    TypedPlain(r.text, data, strip);
    CleanedShrinks(r.(text := Typed(r.text, data, strip)));
  }

  lemma CleanedShrinks(b: Buffer)
    requires b.start <= |b.text|
    ensures |Pending(Cleaned(b))| <= |Pending(b)|
  {
  }

  /** The part of the data that an emptied buffer takes. */
  function Taken(data: string): string { if |data| < SIZE then data else data[..SIZE - 1] }

  /** What follows the first terminator, if there is one. */
  function AfterLine(s: string): string {
    var p := FindTerminator(s, 0);
    if p < |s| then s[p + 1..] else s
  }

  lemma OverflowIs(b: Buffer, data: string, strip: bool)
    requires Ok(b) && Clean(data, strip) && |Pending(b)| + |data| > SIZE
    ensures Received(b, data, strip) == Flagged(Cleaned(Buffer(Taken(data), 0, true, b.cmd)))
  {
    TypedPlain("", data, strip);
    assert Typed("", data, strip) == Taken(data);
    assert MadeRoom(b, |data|) == Buffer("", 0, true, b.cmd);
  }

  lemma SkipDone(u: Buffer, s: string)
    requires u.start <= |u.text| && Pending(u) == s && Plain(s) && !u.skip
    ensures var r := Flagged(Trimmed(u)); !r.skip && Pending(r) == s && (r.cmd <==> u.cmd || HasEnd(s))
  {
    CleanedPlain(u);
    assert Cleaned(u) == Trimmed(u);
    TerminatorInPending(Cleaned(u).text, Cleaned(u).start);
  }

  /** When the data does not fit, whatever its length, all that was pending is dropped, and of
    the data what comes up to the first terminator; without one it stays, to be skipped
    later.  CMD_IN_BUF is not cleared with the buffer. */
  lemma OverflowDrops(b: Buffer, data: string, strip: bool)
    requires Ok(b) && Clean(data, strip) && |Pending(b)| + |data| > SIZE
    ensures Pending(Received(b, data, strip)) == AfterLine(Taken(data))
    ensures Received(b, data, strip).skip <==> !HasEnd(Taken(data))
    ensures Received(b, data, strip).cmd <==> b.cmd || (HasEnd(Taken(data)) && HasEnd(AfterLine(Taken(data))))
    ensures !HasEnd(Taken(data)) ==> Received(b, data, strip) == Buffer(Taken(data), 0, true, b.cmd)
  {
    OverflowIs(b, data, strip);
    SkipStarts(Taken(data), b.cmd);
  }

  lemma SkipStarts(s: string, cmd: bool)
    requires Plain(s) && s != ""
    ensures var r := Flagged(Cleaned(Buffer(s, 0, true, cmd)));
            && Pending(r) == AfterLine(s) && (r.skip <==> !HasEnd(s))
            && (r.cmd <==> cmd || (HasEnd(s) && HasEnd(AfterLine(s))))
            && (!HasEnd(s) ==> r == Buffer(s, 0, true, cmd))
  {
    var t := Buffer(s, 0, true, cmd);
    assert PlainChar(s[0]) && Trimmed(t) == t;
    if HasEnd(s) {
      SkipDone(t.(start := FindTerminator(s, 0) + 1, skip := false), AfterLine(s));
    }
  }

  /** After an overflow an unfinished rest is run as a command exactly if a command was
    pending before it and there is such a rest: the flag is still set. */
  lemma OverflowRunsFragmentIff(b: Buffer, data: string, strip: bool)
    requires Ok(b) && Clean(data, strip) && |Pending(b)| + |data| > SIZE
    ensures Extracted(Received(b, data, strip)).0 == Some(AfterLine(Taken(data)))
       <==> b.cmd && AfterLine(Taken(data)) != "" && !HasEnd(AfterLine(Taken(data)))
  {
    OverflowDrops(b, data, strip);
    if HasEnd(Taken(data)) {
      ExtractsFirst(Received(b, data, strip), AfterLine(Taken(data)));
    } else {
      ExtractsSkipped(Taken(data), b.cmd);
    }
  }

  lemma ExtractsSkipped(s: string, cmd: bool)
    requires Plain(s) && s != "" && !HasEnd(s)
    ensures Extracted(Buffer(s, 0, true, cmd)).0 == if cmd then Some(s) else None
  {
    assert PlainChar(s[0]) && Cleaned(Buffer(s, 0, true, cmd)) == Buffer(s, 0, true, cmd);
    PlainUpToNul(s);
    assert s[0..|s|] == s;
  }

  lemma ExtractsFirst(r: Buffer, s: string)
    requires r.start <= |r.text| && !r.skip && Pending(r) == s && Plain(s)
    ensures Extracted(r).0 == Some(s) <==> r.cmd && s != "" && !HasEnd(s)
  {
    CleanedPlain(r);
    FirstOrNone(r.cmd, Extracted(r).0, Cleaned(r), s);
  }

  lemma FirstOrNone(cmd: bool, first: Option<string>, c: Buffer, s: string)
    requires c.start <= |c.text| && Pending(c) == s && Plain(s)
    requires first == if cmd && c.start < |c.text| then Some(FirstLine(c)) else None
    ensures first == Some(s) <==> cmd && s != "" && !HasEnd(s)
  {
    FirstLineIs(c, s);
    PrefixOfPending(s, 0, FindTerminator(s, 0));
  }
}
