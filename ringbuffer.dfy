/** 07b-counting-semaphores: five producer tasks and two consumer tasks share
    a 5-slot ring buffer. semEmpty counts the free slots and semFilled the
    used ones, and a mutex guards buffer, head and tail. Each producer writes
    its own number three times; each consumer takes whatever comes next.

    Each produce and each consume, from taking the counting semaphore to
    giving the other one, is one atomic step. A step whose semaphore is 0
    would block; here it returns false and changes nothing. */
module RingBuffer {

  /** BUFFER_SIZE */
  const Size: nat := 5
  /** numWrites */
  const NumWrites: nat := 3

  /** The slot i places after t. */
  function Idx(t: nat, i: nat): (r: nat)
    ensures r < Size
  {
    (t + i) % Size
  }

  lemma IdxShift(t: nat, i: nat)
    ensures Idx(Idx(t, 1), i) == Idx(t, i + 1)
  {
  }

  lemma IdxZero(t: nat)
    requires t < Size
    ensures Idx(t, 0) == t
  {
  }

  /** Two offsets below Size from the same tail land on different slots. */
  lemma SlotsDistinct(t: nat, i: nat, j: nat)
    requires i < j < Size
    ensures Idx(t, i) != Idx(t, j)
  {
    var q := t / Size;
    var r := t % Size;
    assert t == q * Size + r;
    assert t + i == q * Size + (r + i);
    assert t + j == q * Size + (r + j);
    if r + j < Size {
      assert (t + i) % Size == r + i;
      assert (t + j) % Size == r + j;
    } else if r + i < Size {
      assert t + j == (q + 1) * Size + (r + j - Size);
      assert (t + i) % Size == r + i;
      assert (t + j) % Size == r + j - Size;
    } else {
      assert t + i == (q + 1) * Size + (r + i - Size);
      assert t + j == (q + 1) * Size + (r + j - Size);
    }
  }

  /** The shared buffer, head, tail and the two counting semaphores. */
  class SharedBuffer {
    const buffer: array<int>
    var head: nat
    var tail: nat
    var emptySlots: nat
    var filledSlots: nat
    /** The values written and not yet read, oldest first. */
    ghost var contents: seq<int>

    /** The counts add up to the size, head is tail plus the filled slots
        (mod 5), and the filled slots from tail on hold contents in order. */
    ghost predicate Valid()
      reads this, buffer
    {
      buffer.Length == Size && head < Size && tail < Size &&
      emptySlots + filledSlots == Size &&
      head == Idx(tail, filledSlots) &&
      |contents| == filledSlots &&
      forall i :: 0 <= i < filledSlots ==> buffer[Idx(tail, i)] == contents[i]
    }

    /** semEmpty starts at 5, semFilled at 0, head and tail at 0. */
    constructor ()
      ensures Valid() && fresh(buffer)
      ensures head == 0 && tail == 0 && emptySlots == Size && filledSlots == 0
      ensures contents == []
    {
      buffer := new int[Size];
      head, tail := 0, 0;
      emptySlots, filledSlots := Size, 0;
      contents := [];
    }

    /** A producer's turn: with a free slot, buffer[head] = num, head moves
        on, and one slot more is filled. The value joins the end of the
        queue and nothing unread is overwritten. */
    method Produce(num: int) returns (done: bool)
      requires Valid()
      modifies this, buffer
      ensures Valid()
      ensures done == (old(emptySlots) > 0)
      ensures done ==>
        contents == old(contents) + [num] &&
        head == (old(head) + 1) % Size && tail == old(tail) &&
        filledSlots == old(filledSlots) + 1 && emptySlots == old(emptySlots) - 1 &&
        buffer[old(head)] == num
      ensures !done ==>
        contents == old(contents) && head == old(head) && tail == old(tail) &&
        filledSlots == old(filledSlots) && emptySlots == old(emptySlots)
    {
      done := emptySlots > 0;
      if done {
        emptySlots := emptySlots - 1;
        ghost var f := filledSlots;
        forall i | 0 <= i < f
          ensures Idx(tail, i) != head
        {
          SlotsDistinct(tail, i, f);
        }
        buffer[head] := num;
        assert Idx(tail, f + 1) == (head + 1) % Size;
        head := (head + 1) % Size;
        filledSlots := filledSlots + 1;
        contents := contents + [num];
      }
    }

    /** A consumer's turn: with a filled slot, the value at tail is read,
        tail moves on, and one slot more is empty. The value is the oldest
        one written. */
    method Consume() returns (done: bool, someVal: int)
      requires Valid()
      modifies this
      ensures Valid()
      ensures done == (old(filledSlots) > 0)
      ensures done ==>
        someVal == old(contents)[0] && contents == old(contents)[1..] &&
        tail == (old(tail) + 1) % Size && head == old(head) &&
        filledSlots == old(filledSlots) - 1 && emptySlots == old(emptySlots) + 1
      ensures !done ==>
        contents == old(contents) && head == old(head) && tail == old(tail) &&
        filledSlots == old(filledSlots) && emptySlots == old(emptySlots)
    {
      done := filledSlots > 0;
      someVal := 0;
      if done {
        filledSlots := filledSlots - 1;
        IdxZero(tail);
        assert buffer[Idx(tail, 0)] == contents[0];
        someVal := buffer[tail];
        ghost var t := tail;
        forall i | 0 <= i < filledSlots
          ensures buffer[Idx(Idx(t, 1), i)] == contents[i + 1]
        {
          IdxShift(t, i);
        }
        IdxShift(t, filledSlots);
        tail := (tail + 1) % Size;
        emptySlots := emptySlots + 1;
        contents := contents[1..];
      }
    }
  }

  /** producerTask: its number and how many of its numWrites writes it has
      done. */
  class Producer {
    const num: int
    var written: nat

    ghost predicate Valid()
      reads this
    {
      written <= NumWrites
    }

    constructor (num: int)
      ensures Valid() && this.num == num && written == 0
    {
      this.num := num;
      written := 0;
    }

    /** One turn of the producer's loop: while fewer than three writes are
        done and a slot is free, its own number joins the queue. After the
        third write the task is gone and a turn does nothing. */
    method Step(b: SharedBuffer) returns (wrote: bool)
      requires Valid() && b.Valid()
      modifies this, b, b.buffer
      ensures Valid() && b.Valid()
      ensures wrote == (old(written) < NumWrites && old(b.emptySlots) > 0)
      ensures wrote ==> written == old(written) + 1 && b.contents == old(b.contents) + [num]
      ensures !wrote ==> written == old(written) && b.contents == old(b.contents)
    {
      wrote := false;
      if written < NumWrites {
        wrote := b.Produce(num);
        if wrote {
          written := written + 1;
        }
      }
    }
  }
}
