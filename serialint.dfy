/** readSerial of 01b-LED-RGB-color-wheel, 02-LED-sw-fade-task and both
    copies of 03a-task-mgmt: a 20-byte buffer collects the characters of a
    line; '\n' is never stored, and ends the line: the setting (delayInterval
    or led_delay) becomes atoi of the buffer (01b applies abs() first), and
    the buffer is cleared. Characters past the 19th are dropped. */
module SerialInt {
  import opened CString
  import opened LineEdit

  /** buf_len / bufLen of the three sketches. */
  const BufLen: nat := 20

  class IntLineReader {
    const line: LineBuffer
    /** 01b writes `abs(atoi(buf))`; 02 and 03a write `atoi(buf)`. */
    const absolute: bool
    /** The global the line sets: delayInterval (01b, 02) or led_delay (03a). */
    var value: int

    ghost predicate Valid()
      reads this, line, line.buf
    {
      line.Valid() && line.capacity == BufLen && '\n' !in line.Line()
    }

    /** The value a newline would store for the current line. */
    function Parsed(): int
      reads this, line, line.buf
      requires Valid() && IsInt32(Atoi(line.Line()))
    {
      if absolute then CAbs(Atoi(line.Line())) else Atoi(line.Line())
    }

    /** 03a starts with led_delay = 500; 01b and 02 with delayInterval = 30. */
    constructor (initial: int, absolute: bool)
      ensures Valid() && fresh(line) && fresh(line.buf)
      ensures value == initial && this.absolute == absolute && line.Line() == []
    {
      line := new LineBuffer(BufLen);
      this.absolute := absolute;
      value := initial;
    }

    /** One character from the serial port. A newline sets the value from
        the line and clears the buffer; any other character is stored (and,
        in 01b and 02, echoed) only while fewer than 19 are held. atoi is
        undefined beyond the int range, so that case is excluded. */
    method Feed(c: char) returns (stored: bool)
      requires Valid()
      requires c == '\n' ==> IsInt32(Atoi(line.Line()))
      modifies this, line, line.buf
      ensures Valid()
      ensures c == '\n' ==> !stored && value == old(Parsed()) && line.Line() == []
      ensures c != '\n' ==> value == old(value) && line.Line() == old(line.Appended(c))
      ensures c != '\n' ==> stored == (old(line.index) < BufLen - 1)
    {
      if c == '\n' {
        line.BytesAreLinePadded();
        AtoiStopsAtNul(line.buf[..], line.index);
        var n := Atoi(line.buf[..]);
        value := if absolute then CAbs(n) else n;
        line.Clear();
        stored := false;
      } else {
        stored := line.Append(c);
      }
    }
  }
}
