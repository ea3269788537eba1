/** 05a-queues-multitask: userCommandTask reads lines from the serial port;
    a line starting with "delay " sends abs(atoi(rest)) on the delay queue,
    any other line is sent as a Message (its first 20 bytes as a C string,
    and the character count) on the message queue. blinkLEDTask takes a new
    delay when one arrives, answers it with a "New Delay Val: " message,
    blinks, and every 100 blinks sends a "# Of Blinks: " message. The queues
    themselves, the serial printing and the LED are not modelled. */
module QueueBlink {
  import opened CString
  import opened LineEdit
  import opened Options

  /** buffer_len */
  const BufLen: nat := 255
  /** Size of Message.body. */
  const BodyLen: nat := 20
  /** blink_max */
  const BlinkMax: nat := 100

  const DelayCmd: seq<char> := "delay "
  const NewDelayText: seq<char> := "New Delay Val: "
  const BlinksText: seq<char> := "# Of Blinks: "

  /** struct Message: a body string and an integer. */
  datatype Message = Message(body: seq<char>, count: int)

  /** What a finished line sends: a delay on the delay queue or a Message
      on the message queue. */
  datatype Sent = NoSend | DelaySent(ms: int) | MessageSent(msg: Message)

  /** atoi of the part after "delay " is defined. */
  predicate DelayInRange(line: seq<char>) {
    DelayCmd <= line ==> IsInt32(Atoi(line[|DelayCmd|..]))
  }

  /** What the line (the bytes stored for it, the '\n' included when it fit)
      sends: a delay command gives the absolute value of the number after
      the command name; anything else the line as text with its length. */
  function LineSend(line: seq<char>): Sent
    requires DelayInRange(line)
  {
    if DelayCmd <= line then DelaySent(CAbs(Atoi(line[|DelayCmd|..])))
    else MessageSent(Message(CStr(line), |line|))
  }

  /** Typing "delay " and a number sends that number's absolute value on the
      delay queue (INT_MIN, whose abs is undefined in C, stays INT_MIN). */
  lemma DelayLineSend(n: int)
    requires IsInt32(n)
    ensures var line := DelayCmd + IntToString(n) + "\n";
      DelayInRange(line) && LineSend(line) == DelaySent(CAbs(n)) &&
      (n != INT_MIN ==> LineSend(line).ms == if n < 0 then -n else n)
  {
    var line := DelayCmd + IntToString(n) + "\n";
    assert line[|DelayCmd|..] == IntToString(n) + "\n";
    AtoiOfIntToString(n, "\n");
  }

  /** Any other typed text, '\n' included, goes out as the message body with
      its character count; it fits the 20-byte body exactly when fewer than
      19 characters were typed. */
  lemma MessageLineSend(typed: seq<char>)
    requires NUL !in typed && !(DelayCmd <= typed)
    ensures var line := typed + "\n";
      DelayInRange(line) && LineSend(line) == MessageSent(Message(line, |typed| + 1)) &&
      (BodyFits(line) <==> |typed| < BodyLen - 1)
  {
    var line := typed + "\n";
    assert !(DelayCmd <= line) by {
      if |typed| >= |DelayCmd| {
        assert line[..|DelayCmd|] == typed[..|DelayCmd|];
      } else if |typed| == |DelayCmd| - 1 {
        assert line[|typed|] == '\n' != DelayCmd[|typed|];
      }
    }
    CStrOfNulFree(line);
  }

  /** The echoed text comes through the 20-byte body intact. */
  predicate BodyFits(line: seq<char>) {
    DelayCmd <= line || |CStr(line)| < BodyLen
  }

  /** userCommandTask's line buffer. */
  class UserCommand {
    const line: LineBuffer

    ghost predicate Valid()
      reads this, line, line.buf
    {
      line.Valid() && line.capacity == BufLen
    }

    constructor ()
      ensures Valid() && fresh(line) && fresh(line.buf) && line.Line() == []
    {
      line := new LineBuffer(BufLen);
    }

    /** One character: stored while fewer than 254 are held (the '\n' too);
        a '\n' sends what the line means and clears the buffer. strcpy into
        the 20-byte body overflows for a longer echoed line, and atoi is
        undefined beyond the int range; both are excluded. */
    method Feed(c: char) returns (sent: Sent)
      requires Valid()
      requires c == '\n' ==> DelayInRange(line.Appended(c)) && BodyFits(line.Appended(c))
      modifies line, line.buf
      ensures Valid()
      ensures c == '\n' ==> sent == LineSend(old(line.Appended(c))) && line.Line() == []
      ensures c != '\n' ==> sent == NoSend && line.Line() == old(line.Appended(c))
    {
      var _ := line.Append(c);
      if c == '\n' {
        line.BytesAreLinePadded();
        ghost var s := line.Line();
        var raw := line.buf[..];
        assert NUL !in DelayCmd;
        MemEqIsPrefix(s, line.buf[line.index..], DelayCmd);
        CStrOfPrefix(raw, line.index);
        assert raw[..line.index] == s;
        if MemEq(raw, DelayCmd, |DelayCmd|) {
          var tail := raw[|DelayCmd|..];
          assert tail == s[|DelayCmd|..] + line.buf[line.index..];
          assert tail[|s| - |DelayCmd|] == NUL;
          AtoiStopsAtNul(tail, |s| - |DelayCmd|);
          assert tail[..|s| - |DelayCmd|] == s[|DelayCmd|..];
          var ledDelay := Atoi(tail);
          ledDelay := CAbs(ledDelay);
          sent := DelaySent(ledDelay);
        } else {
          sent := MessageSent(Message(CStr(raw), line.index));
        }
        line.Clear();
      } else {
        sent := NoSend;
      }
    }
  }

  // ---------------------------------------------------------------------
  // blinkLEDTask

  /** The blink counter after one blink: it counts up and goes back to 0 on
      reaching 100. */
  function NextCount(counter: nat): (r: nat)
    requires counter < BlinkMax
    ensures r < BlinkMax
    ensures r == (counter + 1) % BlinkMax
  {
    if counter + 1 >= BlinkMax then 0 else counter + 1
  }

  /** The counter after n blinks from `counter`. */
  function CountAfter(counter: nat, n: nat): nat
    requires counter < BlinkMax
    decreases n
  {
    if n == 0 then counter else CountAfter(NextCount(counter), n - 1)
  }

  /** The number of "# Of Blinks" messages sent in n blinks from `counter`. */
  function ReportsIn(counter: nat, n: nat): nat
    requires counter < BlinkMax
    decreases n
  {
    if n == 0 then 0
    else (if counter + 1 >= BlinkMax then 1 else 0) + ReportsIn(NextCount(counter), n - 1)
  }

  /** After n blinks from counter c the counter is (c + n) mod 100, and one
      report has been sent for every completed hundred. */
  lemma {:induction false} CountAndReports(c: nat, n: nat)
    requires c < BlinkMax
    ensures CountAfter(c, n) == (c + n) % BlinkMax
    ensures ReportsIn(c, n) == (c + n) / BlinkMax
    decreases n
  {
    if n > 0 {
      CountAndReports(NextCount(c), n - 1);
      if c + 1 >= BlinkMax {
        assert c + n == BlinkMax + (n - 1);
      } else {
        assert NextCount(c) + (n - 1) == c + n;
      }
    }
  }

  /** blinkLEDTask's led_delay (initially 500) and counter (initially 0). */
  class BlinkTask {
    var ledDelay: int
    var counter: nat

    ghost predicate Valid()
      reads this
    {
      counter < BlinkMax
    }

    constructor ()
      ensures Valid() && ledDelay == 500 && counter == 0
    {
      ledDelay, counter := 500, 0;
    }

    /** One pass of the loop, with the delay taken from the delay queue if
        there was one. It returns the messages queued, in order. */
    method Iterate(received: Option<int>) returns (msgs: seq<Message>)
      requires Valid()
      modifies this
      ensures Valid()
      ensures ledDelay == if received.Some? then received.value else old(ledDelay)
      ensures counter == NextCount(old(counter))
      ensures msgs ==
        (if received.Some? then [Message(NewDelayText, received.value)] else []) +
        (if old(counter) + 1 == BlinkMax then [Message(BlinksText, BlinkMax)] else [])
    {
      msgs := [];
      if received.Some? {
        ledDelay := received.value;
        msgs := msgs + [Message(NewDelayText, ledDelay)];
      }
      counter := counter + 1;
      if counter >= BlinkMax {
        msgs := msgs + [Message(BlinksText, counter)];
        counter := 0;
      }
    }
  }
}
