/** The line buffer of a user as the array it is: the text field of interactive_t with
  text_start and text_end (src/comm.cc). */
module InteractiveText {
  import opened Wrappers
  import opened InputBuffer

  class Interactive {
    const text: array<char>
    var textStart: nat
    var textEnd: nat
    var skip: bool      // SKIP_COMMAND
    var cmd: bool       // CMD_IN_BUF

    predicate Valid()
      reads this
    {
      text.Length == SIZE && textEnd < SIZE
    }

    function Abs(): Buffer
      requires Valid()
      reads this, text
    {
      Buffer(text[..textEnd], textStart, skip, cmd)
    }

    constructor ()
      ensures Valid() && Abs() == EMPTY && fresh(text)
    {
      text := new char[SIZE](_ => NUL);
      textStart, textEnd, skip, cmd := 0, 0, false, false;
    }

    method OnUserInput(data: string, strip: bool)
      requires Valid()
      modifies this`textEnd, text
      ensures Valid() && Abs() == old(Abs()).(text := Typed(old(Abs()).text, data, strip))
    {
      ghost var goal := Typed(text[..textEnd], data, strip);
      for i := 0 to |data|
        invariant Valid() && Typed(text[..textEnd], data[i..], strip) == goal
      {
        if textEnd == SIZE - 1 {
          return;
        }
        TypeChar(data[i], strip, data[i..]);
        assert data[i..][1..] == data[i + 1..];
      }
    }

    method TypeChar(c: char, strip: bool, ghost data: string)
      requires Valid() && textEnd < SIZE - 1 && data != "" && data[0] == c
      modifies this`textEnd, text
      ensures Valid() && Typed(text[..textEnd], data[1..], strip) == old(Typed(text[..textEnd], data, strip))
    {
      if c == BACKSPACE || c == DEL {
        if textEnd > 0 {
          assert text[..textEnd - 1] == text[..textEnd][..textEnd - 1];
          textEnd := textEnd - 1;
        }
      } else {
        text[textEnd] := if c == ESC && strip then SUBSTITUTE else c;
        textEnd := textEnd + 1;
        assert text[..textEnd] == old(text[..textEnd]) + [if c == ESC && strip then SUBSTITUTE else c];
      }
    }

    /** The first half of clean_buf: NULs are skipped, an empty buffer is reset. */
    method Trim()
      requires Valid()
      modifies this`textStart, this`textEnd
      ensures Valid() && Abs() == Trimmed(old(Abs()))
    {
      while textStart < textEnd && text[textStart] == NUL
        invariant Valid() && (textStart <= textEnd || textStart == old(textStart))
        invariant Trimmed(Abs()) == Trimmed(old(Abs())) && textEnd == old(textEnd)
        decreases textEnd - textStart
      {
        textStart := textStart + 1;
      }
      if textStart >= textEnd {
        textStart, textEnd := 0, 0;
      }
    }

    method FindEnd() returns (p: nat)
      requires Valid() && textStart <= textEnd
      ensures p == FindTerminator(text[..textEnd], textStart)
    {
      p := textStart;
      while p < textEnd && !Terminator(text[p])
        invariant textStart <= p <= textEnd
        invariant forall k | textStart <= k < p :: !Terminator(text[k])
      {
        p := p + 1;
      }
    }

    method CleanBuf() returns (more: bool)
      requires Valid()
      modifies this`textStart, this`textEnd, this`skip
      ensures Valid() && Abs() == Cleaned(old(Abs())) && (more <==> textEnd > textStart)
    {
      Trim();
      if skip {
        var p := FindEnd();
        if p < textEnd {
          textStart := p + 1;
          skip := false;
          Trim();
        }
      }
      more := textEnd > textStart;
    }

    method CmdInBuf() returns (found: bool)
      requires Valid()
      modifies this`textStart, this`textEnd, this`skip
      ensures Valid() && Abs() == Cleaned(old(Abs())) && (found <==> HasLine(Abs()))
    {
      var more := CleanBuf();
      if !more {
        return false;
      }
      var p := FindEnd();
      found := p < textEnd;
    }

    /** The memmove and the give-up at the start of on_user_websocket_received. */
    method MakeRoom(n: nat)
      requires Valid() && Ok(Abs())
      modifies this`textStart, this`textEnd, this`skip, text
      ensures Valid() && Abs() == MadeRoom(old(Abs()), n)
    {
      var space := SIZE - textEnd;
      if space < n {
        if textStart > 0 {
          space := space + textStart;
          Compact();
        }
        if space < n {
          skip := true;
          textStart, textEnd := 0, 0;
        }
      }
    }

    method Compact()
      requires Valid() && textStart <= textEnd
      modifies this`textStart, this`textEnd, text
      ensures Valid() && Abs() == old(Abs()).(text := Pending(old(Abs())), start := 0)
    {
      var s := textStart;
      forall i | 0 <= i < textEnd - s {
        text[i] := text[s + i];
      }
      textStart, textEnd := 0, textEnd - s;
    }

    method OnUserWebsocketReceived(data: string, strip: bool)
      requires Valid() && Ok(Abs())
      modifies this, text
      ensures Valid() && Abs() == Received(old(Abs()), data, strip) && Ok(Abs())
    {
      if data == "" {
        return;
      }
      MakeRoom(|data|);
      OnUserInput(data, strip);
      var found := CmdInBuf();
      if found {
        cmd := true;
      }
    }

    /** first_cmd_in_buf cuts out the line and its end. */
    method CutLine() returns (line: string)
      requires Valid() && textStart <= textEnd
      modifies this`textStart, text
      ensures Valid() && Abs() == Cut(old(Abs()))
      ensures var b := old(Abs()); line == b.text[b.start..FindTerminator(b.text, b.start)]
    {
      var first := textStart;
      var p := FindEnd();
      line := text[first..p];
      assert line == text[..textEnd][first..p];
      textStart := p;
      if p + 1 < textEnd && ((text[p] == '\r' && text[p + 1] == '\n') || (text[p] == '\n' && text[p + 1] == '\r')) {
        text[p] := NUL;
        textStart := p + 1;
      }
      text[textStart] := NUL;
      textStart := textStart + 1;
    }

    /** get_user_command */
    method GetUserCommand() returns (command: Option<string>)
      requires Valid() && Ok(Abs())
      modifies this, text
      ensures Valid() && (command, Abs()) == Extracted(old(Abs()))
    {
      command := None;
      if cmd {
        var more := CleanBuf();
        if more {
          var line := CutLine();
          command := Some(UpToNul(line));
          var found := CmdInBuf();
          if !found {
            cmd := false;
          }
        }
      }
    }
  }
}
