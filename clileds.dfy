/** 04-CLI-LEDs: a serial command line drives the on-board RGB LED.
    userCLITask collects a line in a 255-byte buffer and copies it into a
    25-byte Command; msgRXTask matches the command against "fade ",
    "delay " and "pattern " and sets the matching global; RGBcolorWheelTask
    steps the LED pattern chosen by patternType. The message queue between
    the first two tasks, the serial echo and FastLED are not modelled. */
module CliLeds {
  import opened CString
  import opened LineEdit
  import opened Options

  /** bufLen of userCLITask. */
  const BufLen: nat := 255
  /** The size of Command.cmd. */
  const CmdLen: nat := 25

  const FadeCmd: seq<char> := "fade "
  const DelayCmd: seq<char> := "delay "
  const PatternCmd: seq<char> := "pattern "

  // ---------------------------------------------------------------------
  // msgRXTask: what one received command does

  /** The branch msgRXTask takes and the value it stores or the text it
      prints. */
  datatype Request =
    | SetFade(amount: int)
    | SetDelay(ms: int)
    | SetPattern(kind: int)
    | Show(text: seq<char>)

  /** The dispatch on the raw 25 bytes of a received Command: memcmp against
      each command name in turn, then atoi of the bytes after the name,
      narrowed to short, abs, narrowed to short again. The bytes hold a
      terminator (strcpy always writes one); without it atoi and `%s` would
      read past the struct. */
  function Interpret(cmd: seq<char>): Request
    requires |cmd| == CmdLen && NUL in cmd
  {
    if MemEq(cmd, FadeCmd, |FadeCmd|) then SetFade(ShortAbs(Atoi(cmd[|FadeCmd|..])))
    else if MemEq(cmd, DelayCmd, |DelayCmd|) then SetDelay(ShortAbs(Atoi(cmd[|DelayCmd|..])))
    else if MemEq(cmd, PatternCmd, |PatternCmd|) then SetPattern(ShortAbs(Atoi(cmd[|PatternCmd|..])))
    else Show(CStr(cmd))
  }

  /** The atoi call of the branch taken has a defined (int) result. */
  predicate ArgumentInRange(cmd: seq<char>)
    requires |cmd| == CmdLen && NUL in cmd
  {
    if MemEq(cmd, FadeCmd, |FadeCmd|) then IsInt32(Atoi(cmd[|FadeCmd|..]))
    else if MemEq(cmd, DelayCmd, |DelayCmd|) then IsInt32(Atoi(cmd[|DelayCmd|..]))
    else if MemEq(cmd, PatternCmd, |PatternCmd|) then IsInt32(Atoi(cmd[|PatternCmd|..]))
    else true
  }

  /** What a typed line means, stated on the line itself: the command whose
      name starts the line, with the number that follows the name. */
  function LineRequest(s: seq<char>): Request {
    if FadeCmd <= s then SetFade(ShortAbs(Atoi(s[|FadeCmd|..])))
    else if DelayCmd <= s then SetDelay(ShortAbs(Atoi(s[|DelayCmd|..])))
    else if PatternCmd <= s then SetPattern(ShortAbs(Atoi(s[|PatternCmd|..])))
    else Show(s)
  }

  /** atoi of the bytes after a command name reads the same number in the
      Command as in the line, since it stops at the terminator. */
  lemma ArgumentStopsAtNul(s: seq<char>, junk: seq<char>, p: seq<char>)
    requires NUL !in s && p <= s
    ensures Atoi((s + [NUL] + junk)[|p|..]) == Atoi(s[|p|..])
  {
    var tail := (s + [NUL] + junk)[|p|..];
    assert tail == s[|p|..] + [NUL] + junk;
    assert tail[|s| - |p|] == NUL;
    AtoiStopsAtNul(tail, |s| - |p|);
    assert tail[..|s| - |p|] == s[|p|..];
  }

  /** A Command holding the NUL-terminated line s, whatever bytes follow the
      terminator, is interpreted as the line s itself: memcmp never matches
      past the terminator and atoi stops at it. */
  lemma InterpretIsLineRequest(s: seq<char>, junk: seq<char>)
    requires NUL !in s && |s| + 1 + |junk| == CmdLen
    ensures NUL in s + [NUL] + junk
    ensures Interpret(s + [NUL] + junk) == LineRequest(s)
  {
    var cmd := s + [NUL] + junk;
    assert cmd[|s|] == NUL;
    assert cmd == s + ([NUL] + junk);
    assert NUL !in FadeCmd && NUL !in DelayCmd && NUL !in PatternCmd;
    MemEqIsPrefix(s, [NUL] + junk, FadeCmd);
    MemEqIsPrefix(s, [NUL] + junk, DelayCmd);
    MemEqIsPrefix(s, [NUL] + junk, PatternCmd);
    if FadeCmd <= s {
      ArgumentStopsAtNul(s, junk, FadeCmd);
    } else if DelayCmd <= s {
      ArgumentStopsAtNul(s, junk, DelayCmd);
    } else if PatternCmd <= s {
      ArgumentStopsAtNul(s, junk, PatternCmd);
    } else {
      CStrOfTerminated(s, junk);
    }
  }

  /** The three command names exclude each other, so the order in which
      msgRXTask tests them does not matter. */
  lemma PrefixesExclusive(s: seq<char>)
    ensures !(FadeCmd <= s && DelayCmd <= s)
    ensures !(FadeCmd <= s && PatternCmd <= s)
    ensures !(DelayCmd <= s && PatternCmd <= s)
  {
    if FadeCmd <= s { assert s[0] == 'f'; }
    if DelayCmd <= s { assert s[0] == 'd'; }
  }

  /** abs() makes every stored value non-negative except when the number
      narrows to -32768 (for example "fade 32768"), which stays -32768; a
      line naming no command stores nothing and prints the line. */
  lemma LineRequestValues(s: seq<char>)
    ensures LineRequest(s).Show? <==> !(FadeCmd <= s) && !(DelayCmd <= s) && !(PatternCmd <= s)
    ensures LineRequest(s).Show? ==> LineRequest(s).text == s
    ensures LineRequest(s).SetFade? ==>
      -0x8000 <= LineRequest(s).amount < 0x8000 &&
      (LineRequest(s).amount >= 0 <==> ToShort(Atoi(s[|FadeCmd|..])) != -0x8000)
    ensures LineRequest(s).SetDelay? ==>
      -0x8000 <= LineRequest(s).ms < 0x8000 &&
      (LineRequest(s).ms >= 0 <==> ToShort(Atoi(s[|DelayCmd|..])) != -0x8000)
    ensures LineRequest(s).SetPattern? ==>
      -0x8000 <= LineRequest(s).kind < 0x8000 &&
      (LineRequest(s).kind >= 0 <==> ToShort(Atoi(s[|PatternCmd|..])) != -0x8000)
  {
    if FadeCmd <= s { ShortAbsSign(Atoi(s[|FadeCmd|..])); }
    else if DelayCmd <= s { ShortAbsSign(Atoi(s[|DelayCmd|..])); }
    else if PatternCmd <= s { ShortAbsSign(Atoi(s[|PatternCmd|..])); }
  }

  // ---------------------------------------------------------------------
  // userCLITask

  /** userCLITask: the 255-byte line buffer and the Command it sends. */
  class CommandCli {
    const line: LineBuffer
    /** `Command sendMsg`, reused for every line: strcpy overwrites only its
        front, so bytes after the terminator are left from earlier lines. */
    var sendMsg: seq<char>

    ghost predicate Valid()
      reads this, line, line.buf
    {
      line.Valid() && line.capacity == BufLen && |sendMsg| == CmdLen
    }

    /** sendMsg is uninitialised: its first contents are a parameter. */
    constructor (initial: seq<char>)
      requires |initial| == CmdLen
      ensures Valid() && fresh(line) && fresh(line.buf)
      ensures line.Line() == [] && sendMsg == initial
    {
      line := new LineBuffer(BufLen);
      sendMsg := initial;
    }

    /** One character from the serial port. It is stored (the '\n' too)
        while fewer than 254 are held; a '\n' then copies the line into
        sendMsg, sends it, and clears the buffer. The copy overflows the
        25-byte Command for a line of 25 or more characters, so that case
        is excluded. */
    method Feed(c: char) returns (sent: Option<seq<char>>)
      requires Valid()
      requires c == '\n' ==> |CStr(line.Appended(c))| < CmdLen
      modifies this, line, line.buf
      ensures Valid()
      ensures c == '\n' ==>
        line.Line() == [] &&
        sendMsg == StrCpy(old(sendMsg), old(line.Appended(c))) && sent == Some(sendMsg)
      ensures c != '\n' ==>
        line.Line() == old(line.Appended(c)) && sendMsg == old(sendMsg) && sent == None
    {
      var _ := line.Append(c);
      if c == '\n' {
        line.BytesAreLinePadded();
        CStrOfPrefix(line.buf[..], line.index);
        assert line.buf[..][..line.index] == line.Line();
        sendMsg := StrCpy(sendMsg, line.buf[..]);
        sent := Some(sendMsg);
        line.Clear();
      } else {
        sent := None;
      }
    }
  }

  /** What msgRXTask makes of a Command sent by userCLITask is the meaning
      of the typed line. */
  lemma SentCommandIsLine(dst: seq<char>, buffer: seq<char>)
    requires |dst| == CmdLen && |CStr(buffer)| < CmdLen
    ensures Interpret(StrCpy(dst, buffer)) == LineRequest(CStr(buffer))
  {
    var s := CStr(buffer);
    InterpretIsLineRequest(s, dst[|s| + 1..]);
  }

  // ---------------------------------------------------------------------
  // RGBcolorWheelTask

  /** The globals brightness, fadeInterval and patternType, and the task's
      hueVal and swap. */
  datatype Leds = Leds(brightness: int, fadeInterval: int, patternType: int, hue: int, swap: bool)

  /** `if (hueVal >= 255) hueVal = 0;` */
  function WrapHue(h: int): int {
    if h >= 255 then 0 else h
  }

  /** One pass of the task's switch on patternType. Patterns 1 and 2 fade
      and reverse at the bounds, clamping to 0 or 255; at the floor pattern 1
      moves the hue by 32 and pattern 2 toggles red/blue. Pattern 3 holds
      brightness 250 and moves the hue by 1. Any other pattern is replaced
      by 1. hueVal is a short, so each addition is narrowed. */
  function PatternStep(s: Leds): Leds {
    if s.patternType == 1 || s.patternType == 2 then
      var b := s.brightness + s.fadeInterval;
      if b <= 0 then
        s.(brightness := 0, fadeInterval := -s.fadeInterval,
           hue := if s.patternType == 1 then WrapHue(ToShort(s.hue + 32)) else s.hue,
           swap := if s.patternType == 2 then !s.swap else s.swap)
      else if b >= 255 then
        s.(brightness := 255, fadeInterval := -s.fadeInterval)
      else
        s.(brightness := b)
    else if s.patternType == 3 then
      s.(brightness := 250, hue := WrapHue(ToShort(s.hue + 1)))
    else
      s.(patternType := 1)
  }

  /** brightness is a valid LED level, fadeInterval is a short or its
      negation (the command stores a short; the task negates it), and the
      hue is in [0, 255). */
  predicate LedsInv(s: Leds) {
    0 <= s.brightness <= 255 &&
    -0x8000 <= s.fadeInterval <= 0x8000 &&
    0 <= s.hue < 255
  }

  lemma PatternStepKeepsInv(s: Leds)
    requires LedsInv(s)
    ensures LedsInv(PatternStep(s))
  {
  }

  /** `x` clamped to the LED range [0, 255]. */
  function Clamp(x: int): (r: int)
    ensures 0 <= r <= 255
  {
    if x < 0 then 0 else if x > 255 then 255 else x
  }

  /** Patterns 1 and 2: the new brightness is the old one plus fadeInterval,
      clamped to [0, 255], and fadeInterval is negated exactly when a bound
      is reached; the pattern stays. */
  lemma FadePatternsClamp(s: Leds)
    requires s.patternType == 1 || s.patternType == 2
    ensures PatternStep(s).brightness == Clamp(s.brightness + s.fadeInterval)
    ensures PatternStep(s).fadeInterval ==
      if PatternStep(s).brightness == 0 || PatternStep(s).brightness == 255
      then -s.fadeInterval else s.fadeInterval
    ensures PatternStep(s).patternType == s.patternType
  {
  }

  /** The hue moves only at the floor of pattern 1, by 32 and back to 0
      once it reaches 255, and on every step of pattern 3; the red/blue
      selector toggles only at the floor of pattern 2; an unknown pattern
      becomes 1 and nothing else changes. */
  lemma PatternStepHue(s: Leds)
    requires LedsInv(s)
    ensures s.patternType == 1 ==>
      (PatternStep(s).hue != s.hue <==> PatternStep(s).brightness == 0) &&
      PatternStep(s).swap == s.swap
    ensures s.patternType == 1 && PatternStep(s).brightness == 0 ==>
      PatternStep(s).hue == if s.hue + 32 >= 255 then 0 else s.hue + 32
    ensures s.patternType == 2 ==>
      (PatternStep(s).swap != s.swap <==> PatternStep(s).brightness == 0) &&
      PatternStep(s).hue == s.hue
    ensures s.patternType == 3 ==>
      PatternStep(s) == s.(brightness := 250, hue := (s.hue + 1) % 255)
    ensures s.patternType !in {1, 2, 3} ==> PatternStep(s) == s.(patternType := 1)
  {
  }

  /** The settings msgRXTask writes and RGBcolorWheelTask reads and steps. */
  class LedSettings {
    var brightness: int
    var fadeInterval: int
    var delayInterval: int
    var patternType: int
    var hueVal: int
    var swap: bool

    function State(): Leds
      reads this
    {
      Leds(brightness, fadeInterval, patternType, hueVal, swap)
    }

    ghost predicate Valid()
      reads this
    {
      LedsInv(State())
    }

    constructor ()
      ensures Valid()
      ensures State() == Leds(65, 5, 1, 0, false) && delayInterval == 30
    {
      brightness, fadeInterval, delayInterval, patternType := 65, 5, 30, 1;
      hueVal, swap := 0, false;
    }

    /** One message taken by msgRXTask: the matched command sets its own
        global and nothing else; any other message changes no setting. */
    method Receive(cmd: seq<char>) returns (req: Request)
      requires Valid() && |cmd| == CmdLen && NUL in cmd && ArgumentInRange(cmd)
      modifies this
      ensures Valid()
      ensures req == Interpret(cmd)
      ensures fadeInterval == if req.SetFade? then req.amount else old(fadeInterval)
      ensures delayInterval == if req.SetDelay? then req.ms else old(delayInterval)
      ensures patternType == if req.SetPattern? then req.kind else old(patternType)
      ensures brightness == old(brightness) && hueVal == old(hueVal) && swap == old(swap)
    {
      if MemEq(cmd, FadeCmd, |FadeCmd|) {
        var fadeAmt := ToShort(Atoi(cmd[|FadeCmd|..]));
        fadeAmt := ToShort(if fadeAmt < 0 then -fadeAmt else fadeAmt);
        fadeInterval := fadeAmt;
        req := SetFade(fadeAmt);
      } else if MemEq(cmd, DelayCmd, |DelayCmd|) {
        var ledDelay := ToShort(Atoi(cmd[|DelayCmd|..]));
        ledDelay := ToShort(if ledDelay < 0 then -ledDelay else ledDelay);
        delayInterval := ledDelay;
        req := SetDelay(ledDelay);
      } else if MemEq(cmd, PatternCmd, |PatternCmd|) {
        var pattern := ToShort(Atoi(cmd[|PatternCmd|..]));
        pattern := ToShort(if pattern < 0 then -pattern else pattern);
        patternType := pattern;
        req := SetPattern(pattern);
      } else {
        req := Show(CStr(cmd));
      }
    }

    /** One pass of RGBcolorWheelTask's loop (the LED output and the delay
        are not modelled). */
    method Iterate()
      requires Valid()
      modifies this
      ensures Valid()
      ensures State() == PatternStep(old(State()))
      ensures delayInterval == old(delayInterval)
    {
      if patternType == 1 || patternType == 2 {
        brightness := brightness + fadeInterval;
        if brightness <= 0 {
          brightness := 0;
          fadeInterval := -fadeInterval;
          if patternType == 1 {
            hueVal := ToShort(hueVal + 32);
            if hueVal >= 255 {
              hueVal := 0;
            }
          } else {
            swap := !swap;
          }
        } else if brightness >= 255 {
          brightness := 255;
          fadeInterval := -fadeInterval;
        }
      } else if patternType == 3 {
        brightness := 250;
        hueVal := ToShort(hueVal + 1);
        if hueVal >= 255 {
          hueVal := 0;
        }
      } else {
        patternType := 1;
      }
      PatternStepKeepsInv(old(State()));
    }
  }
}
