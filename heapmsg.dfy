/** 04a-mem-mgmt: readSerialTask collects a line in a 255-byte buffer; on
    '\n' it terminates the line over its last stored byte and, if no message
    is waiting (msg_flag == 0), copies the index bytes into a fresh heap
    block and sets the flag. printMessageTask prints the waiting message,
    frees the block, clears the pointer and resets the flag. The heap is
    modelled as a fresh sequence holding the copied bytes; configASSERT on a
    failed allocation and the heap statistics are not modelled. */
module HeapMsg {
  import opened CString
  import opened LineEdit
  import opened Options

  /** buf_len */
  const BufLen: nat := 255

  /** The block the reader allocates for a line whose stored bytes are
      `stored`: the same index bytes, the last one replaced by the
      terminator, so its C string is the line without its last byte (the
      '\n' of a line that fit). */
  function Block(stored: seq<char>): (b: seq<char>)
    requires |stored| > 0
    ensures |b| == |stored| && b[|b| - 1] == NUL
    ensures b[..|b| - 1] == stored[..|stored| - 1]
    ensures CStr(b) == CStr(stored[..|stored| - 1])
  {
    var b := stored[..|stored| - 1] + [NUL];
    CStrOfAppendedNul(stored[..|stored| - 1]);
    b
  }

  /** The reader's buffer and the shared msg_ptr / msg_flag handshake. */
  class HeapMessage {
    const line: LineBuffer
    /** msg_flag == 1 */
    var msgFlag: bool
    /** msg_ptr: the allocated block, or NULL. */
    var msgPtr: Option<seq<char>>
    /** The texts handed over by the reader and those printed, in order. */
    ghost var accepted: seq<seq<char>>
    ghost var printed: seq<seq<char>>

    /** The flag is set exactly while a block is allocated, and every text
        handed over has been printed except the one waiting in the block. */
    ghost predicate Valid()
      reads this, line, line.buf
    {
      line.Valid() && line.capacity == BufLen &&
      (msgFlag <==> msgPtr.Some?) &&
      (if msgFlag then accepted == printed + [CStr(msgPtr.value)] else accepted == printed)
    }

    constructor ()
      ensures Valid() && fresh(line) && fresh(line.buf)
      ensures line.Line() == [] && !msgFlag && msgPtr == None
      ensures accepted == [] && printed == []
    {
      line := new LineBuffer(BufLen);
      msgFlag, msgPtr := false, None;
      accepted, printed := [], [];
    }

    /** One character for readSerialTask. A '\n' hands the line over only
        when no message is waiting; either way the buffer is reset. */
    method ReadChar(c: char) returns (handed: bool)
      requires Valid()
      modifies this, line, line.buf
      ensures Valid()
      ensures c == '\n' ==>
        line.Line() == [] && handed == !old(msgFlag) &&
        (handed ==> msgFlag && msgPtr == Some(Block(old(line.Appended(c)))) &&
                    accepted == old(accepted) + [CStr(Block(old(line.Appended(c))))]) &&
        (!handed ==> msgPtr == old(msgPtr) && accepted == old(accepted))
      ensures c != '\n' ==>
        !handed && line.Line() == old(line.Appended(c)) &&
        msgPtr == old(msgPtr) && accepted == old(accepted)
      ensures msgFlag == (old(msgFlag) || handed) && printed == old(printed)
    {
      ghost var stored := line.Appended(c);
      var _ := line.Append(c);
      handed := false;
      if c == '\n' {
        line.TerminateLast();
        if !msgFlag {
          msgPtr := Some(line.buf[..line.index]);
          msgFlag := true;
          handed := true;
          accepted := accepted + [CStr(msgPtr.value)];
          assert msgPtr.value == Block(stored);
        }
        line.Clear();
      }
    }

    /** One pass of printMessageTask: with a message waiting, its C string
        is printed, the block freed and the flag reset. */
    method PrintStep() returns (text: Option<seq<char>>)
      requires Valid()
      modifies this
      ensures Valid()
      ensures text == if old(msgFlag) then Some(CStr(old(msgPtr).value)) else None
      ensures !msgFlag && msgPtr == None
      ensures printed == old(printed) + (if old(msgFlag) then [text.value] else [])
      ensures accepted == old(accepted)
    {
      text := None;
      if msgFlag {
        text := Some(CStr(msgPtr.value));
        printed := printed + [text.value];
        msgPtr := None;
        msgFlag := false;
      }
    }
  }
}
