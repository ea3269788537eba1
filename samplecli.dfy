/** The serial command line of 09c-ISR-ADC-buffer-sample-avg ("avg"),
    09d-ISR-ADC-16kHz-RMS-Sample ("rms") and 12d-multicore-ISR-ADC-buffer-
    sample ("avg"): a 255-byte buffer collects a line, the '\n' included
    while there is room. On '\n' the line is terminated, a line starting with
    the three-letter command prints the computed value, any other line is
    copied into a 100-byte Message and queued to be echoed, and the buffer
    is cleared. 09c and 09d write the terminator at index (after the last
    stored byte); 12d writes it at index - 1, over the last stored byte. */
module SampleCli {
  import opened CString
  import opened LineEdit

  /** CMD_BUF_LEN */
  const CmdBufLen: nat := 255
  /** MSG_LEN, the size of Message.msgBody. */
  const MsgLen: nat := 100

  /** What a character leads to: nothing yet, the value printed, or an echo
      of the line queued with this text. */
  datatype Output = Nothing | PrintValue | Echo(text: seq<char>)

  /** The line the command test sees, from the bytes stored for it: all of
      them (09c, 09d), or all but the last, which the terminator replaces
      (12d). */
  function Terminated(stored: seq<char>, overLast: bool): (t: seq<char>)
    requires overLast ==> |stored| > 0
    ensures t <= stored
    ensures |stored| - |t| == if overLast then 1 else 0
  {
    if overLast then stored[..|stored| - 1] else stored
  }

  /** The command test on a finished line: memcmp of the first three bytes,
      otherwise the C string of the line is echoed. */
  function Action(line: seq<char>, command: seq<char>): Output {
    if command <= line then PrintValue else Echo(CStr(line))
  }

  /** The echo copies the line into the 100-byte message body. */
  predicate EchoFits(line: seq<char>, command: seq<char>) {
    command <= line || |CStr(line)| < MsgLen
  }

  /** 12d: the '\n' that ends a line that fit is the byte the terminator
      replaces, so the command test sees exactly the typed characters; a
      line that filled the buffer loses its last typed character instead. */
  lemma TerminateLastDropsNewline(typed: seq<char>)
    requires |typed| < CmdBufLen
    ensures |typed| < CmdBufLen - 1 ==> Terminated(typed + ['\n'], true) == typed
    ensures |typed| == CmdBufLen - 1 ==> Terminated(typed, true) == typed[..CmdBufLen - 2]
  {
  }

  /** A buffer that holds a line followed by NULs: memcmp against a NUL-free
      command is a prefix test on the line, and the C string of the buffer
      is the C string of the line. */
  lemma PaddedLine(line: seq<char>, pad: seq<char>, command: seq<char>)
    requires NUL !in command && |pad| > 0 && pad[0] == NUL
    requires |command| <= |line| + |pad|
    ensures MemEq(line + pad, command, |command|) <==> command <= line
    ensures CStr(line + pad) == CStr(line)
  {
    MemEqIsPrefix(line, pad, command);
    CStrOfPrefix(line + pad, |line|);
    assert (line + pad)[..|line|] == line;
  }

  /** userCLI (09c, 09d) and CLItask (12d). */
  class SampleCli {
    const line: LineBuffer
    /** termCommand / avgCmd: "avg" or "rms". */
    const command: seq<char>
    /** 12d writes the terminator at index - 1. */
    const overLast: bool

    ghost predicate Valid()
      reads this, line, line.buf
    {
      line.Valid() && line.capacity == CmdBufLen &&
      |command| == 3 && NUL !in command
    }

    constructor (command: seq<char>, overLast: bool)
      requires |command| == 3 && NUL !in command
      ensures Valid() && fresh(line) && fresh(line.buf)
      ensures this.command == command && this.overLast == overLast && line.Line() == []
    {
      line := new LineBuffer(CmdBufLen);
      this.command, this.overLast := command, overLast;
    }

    /** One character from the serial port. The strcpy into the message
        body overflows for an echoed line of 100 characters or more, so that
        case is excluded. */
    method Feed(c: char) returns (out: Output)
      requires Valid()
      requires c == '\n' ==> EchoFits(Terminated(line.Appended(c), overLast), command)
      modifies line, line.buf
      ensures Valid()
      ensures c == '\n' ==>
        out == Action(Terminated(old(line.Appended(c)), overLast), command) &&
        line.Line() == []
      ensures c != '\n' ==> out == Nothing && line.Line() == old(line.Appended(c))
    {
      ghost var stored := line.Appended(c);
      var _ := line.Append(c);
      if c == '\n' {
        ghost var t := Terminated(stored, overLast);
        if overLast {
          line.TerminateLast();
        } else {
          line.TerminateAtIndex();
        }
        line.BytesAreLinePadded();
        var raw := line.buf[..];
        if overLast {
          assert line.Line() == t + [NUL];
          assert raw == t + ([NUL] + line.buf[line.index..]);
          PaddedLine(t, [NUL] + line.buf[line.index..], command);
        } else {
          PaddedLine(t, line.buf[line.index..], command);
        }
        if MemEq(raw, command, |command|) {
          out := PrintValue;
        } else {
          out := Echo(CStr(raw));
        }
        line.Clear();
      } else {
        out := Nothing;
      }
    }
  }
}
