/** The line buffer of a user (on_user_websocket_received, on_user_input, clean_buf,
  cmd_in_buf, first_cmd_in_buf and get_user_command in src/comm.cc), in line mode. */
module InputBuffer {

  import opened Wrappers

  const SIZE := 0x10_0000       // MAX_TEXT
  const NUL: char := 0 as char
  const BACKSPACE: char := 0x08 as char
  const DEL: char := 0x7f as char
  const ESC: char := 0x1b as char
  const SUBSTITUTE: char := ' '

  predicate Terminator(c: char) { c == '\r' || c == '\n' }

  /** `text` is the buffer up to text_end; `skip` is SKIP_COMMAND, `cmd` CMD_IN_BUF. */
  datatype Buffer = Buffer(text: string, start: nat, skip: bool, cmd: bool)

  const EMPTY := Buffer("", 0, false, false)

  predicate Ok(b: Buffer) { b.start <= |b.text| < SIZE }

  function Pending(b: Buffer): string { if b.start <= |b.text| then b.text[b.start..] else "" }

  // ---------------------------------------------------------------------------
  // Looking for a command
  // ---------------------------------------------------------------------------

  function SkipNuls(text: string, i: nat): (j: nat)
    requires i <= |text|
    ensures i <= j <= |text| && (j < |text| ==> text[j] != NUL) && forall k | i <= k < j :: text[k] == NUL
    decreases |text| - i
  {
    if i < |text| && text[i] == NUL then SkipNuls(text, i + 1) else i
  }

  function FindTerminator(text: string, i: nat): (j: nat)
    requires i <= |text|
    ensures i <= j <= |text| && (j < |text| ==> Terminator(text[j])) && forall k | i <= k < j :: !Terminator(text[k])
    decreases |text| - i
  {
    if i < |text| && !Terminator(text[i]) then FindTerminator(text, i + 1) else i
  }

  /** The first half of clean_buf. */
  function Trimmed(b: Buffer): (r: Buffer)
    ensures r.start <= |r.text| && (r.start == |r.text| ==> r.text == "") && r.skip == b.skip && r.cmd == b.cmd
  {
    var i := if b.start < |b.text| then SkipNuls(b.text, b.start) else b.start;
    if i >= |b.text| then b.(text := "", start := 0) else b.(start := i)
  }

  function Cleaned(b: Buffer): (r: Buffer)
    ensures r.start <= |r.text| && (r.start == |r.text| ==> r.text == "") && r.cmd == b.cmd
  {
    var t := Trimmed(b);
    var p := FindTerminator(t.text, t.start);
    if t.skip && p < |t.text| then Trimmed(t.(start := p + 1, skip := false)) else t
  }

  predicate HasLine(b: Buffer)
    requires b.start <= |b.text|
  {
    FindTerminator(b.text, b.start) < |b.text|
  }

  // ---------------------------------------------------------------------------
  // Input
  // ---------------------------------------------------------------------------

  /** on_user_input; `strip` is the configuration that replaces ESC. */
  function Typed(text: string, data: string, strip: bool): string
    decreases |data|
  {
    if data == "" || |text| == SIZE - 1 then text
    else
      var c := data[0];
      var next :=
        if c == BACKSPACE || c == DEL then if text == "" then text else text[..|text| - 1]
        else text + [if c == ESC && strip then SUBSTITUTE else c];
      Typed(next, data[1..], strip)
  }

  /** The test for space at the start of on_user_websocket_received: what is consumed is moved
    out only if the data does not fit behind the text, and if it still does not fit the whole
    buffer is given up. */
  function MadeRoom(b: Buffer, n: nat): Buffer
    requires Ok(b)
  {
    if SIZE - |b.text| >= n then b
    else if SIZE - |Pending(b)| >= n then b.(text := Pending(b), start := 0)
    else b.(text := "", start := 0, skip := true)
  }

  function Flagged(b: Buffer): Buffer
    requires b.start <= |b.text|
  {
    if HasLine(b) then b.(cmd := true) else b
  }

  /** on_user_websocket_received */
  function Received(b: Buffer, data: string, strip: bool): Buffer
    requires Ok(b)
  {
    if data == "" then b
    else
      var r := MadeRoom(b, |data|);
      Flagged(Cleaned(r.(text := Typed(r.text, data, strip))))
  }

  // ---------------------------------------------------------------------------
  // Extraction
  // ---------------------------------------------------------------------------

  predicate PairOf(c: char, d: char) { (c == '\r' && d == '\n') || (c == '\n' && d == '\r') }

  predicate Pair(text: string, p: nat) { p + 1 < |text| && PairOf(text[p], text[p + 1]) }

  /** The end of a line is a terminator, or two different ones. */
  function LineEnd(s: string, p: nat): nat { if Pair(s, p) then p + 2 else p + 1 }

  function Blanked(s: string, p: nat): string
    requires p < |s|
  {
    if Pair(s, p) then s[p := NUL][p + 1 := NUL] else s[p := NUL]
  }

  /** A C string. */
  function UpToNul(s: string): string { if s == "" || s[0] == NUL then "" else [s[0]] + UpToNul(s[1..]) }

  /** The line is taken out and its terminator overwritten. */
  function Cut(c: Buffer): Buffer
    requires c.start <= |c.text|
  {
    var p := FindTerminator(c.text, c.start);
    if p == |c.text| then c.(start := p + 1)
    else c.(text := Blanked(c.text, p), start := LineEnd(c.text, p))
  }

  /** What is pending up to the first terminator, as a C string. */
  function FirstLine(c: Buffer): string
    requires c.start <= |c.text|
  {
    UpToNul(c.text[c.start..FindTerminator(c.text, c.start)])
  }

  /** get_user_command and first_cmd_in_buf */
  function Extracted(b: Buffer): (Option<string>, Buffer) {
    if !b.cmd then (None, b)
    else
      var c := Cleaned(b);
      if c.start == |c.text| then (None, c)
      else
        var d := Cleaned(Cut(c));
        (Some(FirstLine(c)), d.(cmd := HasLine(d)))
  }
}
