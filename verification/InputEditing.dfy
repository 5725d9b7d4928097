/** What the erasing keys do to the line buffer (on_user_input in src/comm.cc), and where they
  reach past the line that is being typed. */
module InputEditing {
  import opened InputBuffer

  // ---------------------------------------------------------------------------
  // Editing
  // ---------------------------------------------------------------------------

  predicate Erases(c: char) { c == BACKSPACE || c == DEL }

  function Shown(c: char, strip: bool): char { if strip && c == ESC then ' ' else c }

  /** What is left of the keys, read from the last to the first: each one that erases takes
    away the nearest before it that is left; `k` more follow. */
  function Edited(keys: string, strip: bool, k: nat): string {
    if keys == "" then ""
    else
      var n := |keys| - 1;
      if Erases(keys[n]) then Edited(keys[..n], strip, k + 1)
      else if k > 0 then Edited(keys[..n], strip, k - 1)
      else Edited(keys[..n], strip, 0) + [Shown(keys[n], strip)]
  }

  /** Keys that follow take away from the end. */
  lemma {:induction false} EditedMore(keys: string, strip: bool, k: nat)
    ensures var e := Edited(keys, strip, 0); Edited(keys, strip, k) == if k < |e| then e[..|e| - k] else ""
    decreases |keys|
  {
    if keys != "" {
      var n := |keys| - 1;
      EditedMore(keys[..n], strip, k + 1);
      EditedMore(keys[..n], strip, 1);
      if k > 0 { EditedMore(keys[..n], strip, k - 1); }
    }
  }

  /** The erasing keys work on what is before them, be it pending from earlier or not yet
    typed, down to the start of the buffer, and a stripped ESC is a blank. */
  lemma {:induction false} TypedIsEdited(keys: string, data: string, strip: bool)
    requires |Edited(keys, strip, 0)| + |data| < SIZE
    ensures Typed(Edited(keys, strip, 0), data, strip) == Edited(keys + data, strip, 0)
    decreases |data|
  {
    if data == "" {
      assert keys + data == keys;
    } else {
      var more := keys + [data[0]];
      assert more[..|keys|] == keys && more + data[1..] == keys + data;
      EditedMore(keys, strip, 1);
      TypedIsEdited(more, data[1..], strip);
    }
  }

  // ---------------------------------------------------------------------------
  // Erasing past the start of the line
  // ---------------------------------------------------------------------------

  function Next(n: nat, c: char): nat { if !Erases(c) then n + 1 else if n == 0 then 0 else n - 1 }

  /** How much text there is after the keys, given how much there was. */
  function Level(n: nat, data: string): nat
    decreases |data|
  {
    if data == "" then n else Level(Next(n, data[0]), data[1..])
  }

  /** The least there is on the way. */
  function Lowest(n: nat, data: string): nat
    decreases |data|
  {
    if data == "" then n
    else var low := Lowest(Next(n, data[0]), data[1..]); if low < n then low else n
  }

  lemma {:induction false} TypedLevel(text: string, data: string, strip: bool)
    requires |text| + |data| < SIZE
    ensures |Typed(text, data, strip)| == Level(|text|, data)
    decreases |data|
  {
    if data != "" {
      TypedFirst(text, data, strip);
      TypedLevel(Typed(text, data[..1], strip), data[1..], strip);
    }
  }

  lemma TypedFirst(text: string, data: string, strip: bool)
    requires data != "" && |text| + |data| < SIZE
    ensures var next := Typed(text, data[..1], strip);
            Typed(text, data, strip) == Typed(next, data[1..], strip) && |next| == Next(|text|, data[0])
  {
  }

  /** With less to start from, what is missing is what was never erased. */
  lemma {:induction false} LevelShift(n: nat, k: nat, data: string)
    requires k <= n
    ensures Level(n - k, data) == Level(n, data) - if Lowest(n, data) < k then Lowest(n, data) else k
    decreases |data|
  {
    if data != "" {
      if n == k && Erases(data[0]) && n > 0 {
        LevelShift(n - 1, k - 1, data[1..]);
      } else if n > 0 || !Erases(data[0]) {
        LevelShift(Next(n, data[0]), k, data[1..]);
      } else {
        LevelShift(0, 0, data[1..]);
      }
    }
  }

  lemma {:induction false} LowestBelow(n: nat, data: string)
    ensures Lowest(n, data) <= Level(n, data) && Lowest(n, data) <= n
    decreases |data|
  {
    if data != "" { LowestBelow(Next(n, data[0]), data[1..]); }
  }

  lemma {:induction false} TypedBehind(before: string, line: string, data: string, strip: bool)
    requires |before| + |line| + |data| < SIZE && Lowest(|before + line|, data) >= |before|
    ensures Typed(before + line, data, strip) == before + Typed(line, data, strip)
    decreases |data|
  {
    if data != "" {
      LowestBelow(Next(|before + line|, data[0]), data[1..]);
      var next := Typed(line, data[..1], strip);
      TypedFirst(before + line, data, strip);
      TypedFirst(line, data, strip);
      assert Typed(before + line, data[..1], strip) == before + next by {
        if Erases(data[0]) && line != "" { assert (before + line)[..|before + line| - 1] == before + line[..|line| - 1]; }
      }
      TypedBehind(before, next, data[1..], strip);
    }
  }

  /** The failing input: behind a line that has been taken, "a" is pending; two erasing keys and
    "x" are typed.  The "x" ends up before what is pending, and is lost. */
  lemma ErasesTakenLine(b: Buffer, strip: bool)
    requires b == Buffer("look\na", 5, false, false)
    ensures Pending(b.(text := Typed(b.text, [DEL, DEL, 'x'], strip))) == "" && Typed("a", [DEL, DEL, 'x'], strip) == "x"
  {
    var keys := [DEL, DEL, 'x'];
    assert keys[1..] == [DEL, 'x'] && [DEL, 'x'][1..] == ['x'] && ['x'][1..] == "";
    TypedLevel(b.text, keys, strip);
    assert Level(4, ['x']) == 5 && Level(5, [DEL, 'x']) == 5;
    assert Typed("", ['x'], strip) == "x" && Typed("", [DEL, 'x'], strip) == "x";
    assert "a"[..0] == "";
  }

  /** Keys typed at a pending line edit that line exactly if they never erase past its start
    into the lines before it, or nothing is left behind the point they reach. */
  lemma LineIsEditedIff(b: Buffer, data: string, strip: bool)
    requires Ok(b) && |b.text| + |data| < SIZE
    ensures Pending(b.(text := Typed(b.text, data, strip))) == Typed(Pending(b), data, strip) <==>
              Lowest(|b.text|, data) >= b.start || Level(|b.text|, data) == Lowest(|b.text|, data)
  {
    var before, line := b.text[..b.start], Pending(b);
    assert before + line == b.text;
    TypedLevel(b.text, data, strip);
    TypedLevel(line, data, strip);
    LevelShift(|b.text|, b.start, data);
    LowestBelow(|b.text|, data);
    if Lowest(|b.text|, data) >= b.start {
      TypedBehind(before, line, data, strip);
      assert (before + Typed(line, data, strip))[b.start..] == Typed(line, data, strip);
    }
  }
}
