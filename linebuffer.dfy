/** The fixed line buffer every serial task of the sketches keeps:
    `char buf[N]; uint8_t index;`, cleared with memset, filled one character
    at a time while `index < N - 1`, so that the last byte is always left
    for the terminator. */
module LineEdit {
  import opened CString

  class LineBuffer {
    /** N: bufLen / buf_len / CMD_BUF_LEN of the sketch. */
    const capacity: nat
    const buf: array<char>
    /** Number of characters stored so far. */
    var index: nat

    /** index stays below N and every byte from index on is NUL, so the
        buffer always holds a NUL-terminated string. */
    ghost predicate Valid()
      reads this, buf
    {
      buf.Length == capacity && index < capacity &&
      forall k :: index <= k < capacity ==> buf[k] == NUL
    }

    /** The characters stored since the last reset. */
    function Line(): seq<char>
      reads this, buf
      requires Valid()
    {
      buf[..index]
    }

    /** What Line() becomes when c is offered to Append: c is kept only while
        there is room for it and a terminator. */
    function Appended(c: char): (r: seq<char>)
      reads this, buf
      requires Valid()
      ensures |r| < capacity
      ensures r == Line() + [c] || (r == Line() && |Line()| == capacity - 1)
    {
      if index < capacity - 1 then Line() + [c] else Line()
    }

    /** The raw bytes are the line followed by NULs up to the end. */
    lemma BytesAreLinePadded()
      requires Valid()
      ensures buf[..] == Line() + buf[index..]
      ensures |buf[index..]| > 0 && buf[index..][0] == NUL
    {
      assert buf[..] == buf[..index] + buf[index..];
    }

    /** `char buf[n]; memset(buf, 0, n); uint8_t index = 0;` */
    constructor (n: nat)
      requires n > 0
      ensures Valid() && fresh(buf)
      ensures capacity == n && Line() == []
    {
      capacity := n;
      buf := new char[n](_ => NUL);
      index := 0;
    }

    /** `if (index < N - 1) { buf[index] = c; index++; }` */
    method Append(c: char) returns (stored: bool)
      requires Valid()
      modifies this, buf
      ensures Valid()
      ensures stored == (old(index) < capacity - 1)
      ensures index == if stored then old(index) + 1 else old(index)
      ensures Line() == old(Appended(c))
    {
      stored := index < capacity - 1;
      if stored {
        buf[index] := c;
        index := index + 1;
      }
    }

    /** `memset(buf, 0, N); index = 0;` */
    method Clear()
      requires Valid()
      modifies this, buf
      ensures Valid() && Line() == [] && index == 0
      ensures forall k :: 0 <= k < capacity ==> buf[k] == NUL
    {
      forall k | 0 <= k < buf.Length {
        buf[k] := NUL;
      }
      index := 0;
    }

    /** `buf[index] = '\0';` before the line is used (09c, 09d). index is
        below N, so the write is in bounds, and the byte is already NUL. */
    method TerminateAtIndex()
      requires Valid()
      modifies buf
      ensures Valid() && buf[..] == old(buf[..])
    {
      buf[index] := NUL;
    }

    /** `buf[index - 1] = '\0';` (12d, 04a): the last stored character,
        normally the '\n', becomes the terminator. index == 0 would write
        before the array; the callers show that it cannot happen. */
    method TerminateLast()
      requires Valid() && index > 0
      modifies buf
      ensures Valid()
      ensures Line() == old(Line())[..index - 1] + [NUL]
    {
      buf[index - 1] := NUL;
    }
  }
}
