/** The double-buffered ADC sampler of 09c-ISR-ADC-buffer-sample-avg
    (BUF_LEN 10), 09d-ISR-ADC-16kHz-RMS-Sample (BUF_LEN 1600) and
    12d-multicore-ISR-ADC-buffer-sample (BUF_LEN 10). A timer ISR stores one
    sample per tick into writeTo; when the buffer is full it takes the
    binary semaphore semDoneReading, swaps writeTo and readFrom and notifies
    the processing task, or, if the semaphore is still taken, flags an
    overrun. The processing task waits for the notification, reads readFrom,
    reports an overrun, then clears the flag and gives the semaphore back in
    one critical section.

    Each ISR run and each step of the processing task is one atomic
    transition. The semaphore is a boolean, the pending task notifications a
    counter; what the task computes from the samples is not modelled. */
module AdcBuffer {

  /** The two static buffers buf0 and buf1. */
  datatype Side = Buf0 | Buf1

  /** Where the processing task is in its loop: blocked in ulTaskNotifyTake,
      computing from readFrom (up to the overrun report), or about to clear
      the flag and give the semaphore. */
  datatype Phase = Waiting | Computing | Releasing

  /** The ISR's static index, bufOverrun, semDoneReading, the two buffer
      pointers, the processing task's notification count and its phase. */
  datatype Adc = Adc(index: nat, overrun: bool, semAvailable: bool,
                     writeTo: Side, readFrom: Side, pending: nat, consumer: Phase)

  /** After setup(): index 0, no overrun, the semaphore given once,
      writeTo = buf0, readFrom = buf1, and the task waiting. */
  const Initial: Adc := Adc(0, false, true, Buf0, Buf1, 0, Waiting)

  /** swap(): exchange writeTo and readFrom. */
  function Swap(a: Adc): Adc {
    a.(writeTo := a.readFrom, readFrom := a.writeTo)
  }

  lemma SwapInvolution(a: Adc)
    ensures Swap(Swap(a)) == a
    ensures Swap(a).writeTo == a.readFrom && Swap(a).readFrom == a.writeTo
    ensures (a.writeTo != a.readFrom) == (Swap(a).writeTo != Swap(a).readFrom)
  {
  }

  /** The ISR stores a sample: `index < BUF_LEN && bufOverrun == 0`. */
  predicate Stores(a: Adc, bufLen: nat) {
    a.index < bufLen && !a.overrun
  }

  /** One run of ISRtimer. `resets` says whether the index goes back to 0
      when the buffers are swapped: it does in 09c and 09d; in 12d the
      statement meant to do it, `index == 0;`, is a comparison whose value
      is discarded. A swap happens only when the semaphore was taken here
      and no overrun is flagged. */
  function IsrTick(a: Adc, bufLen: nat, resets: bool): Adc {
    var s := if Stores(a, bufLen) then a.(index := a.index + 1) else a;
    if s.index < bufLen then s
    else
      var t := if s.semAvailable then s.(semAvailable := false) else s.(overrun := true);
      if t.overrun then t
      else Swap(t).(index := if resets then 0 else t.index, pending := t.pending + 1)
  }

  /** One step of the processing task: a pending notification wakes it (and
      ulTaskNotifyTake(pdTRUE) clears the count; with none it stays
      blocked); computing ends with the overrun check; the release clears
      the flag and gives the semaphore together. */
  function ConsumerStep(a: Adc): Adc {
    match a.consumer
    case Waiting => if a.pending > 0 then a.(pending := 0, consumer := Computing) else a
    case Computing => a.(consumer := Releasing)
    case Releasing => a.(overrun := false, semAvailable := true, consumer := Waiting)
  }

  /** The step from a prints "ERROR: BUFFER OVERRUN": the check that ends
      the computation finds the flag set. */
  predicate ReportsOverrun(a: Adc) {
    a.consumer == Computing && a.overrun
  }

  /** The invariant of the handshake. The index never passes BUF_LEN; the
      pointers name different buffers; an available semaphore means no
      overrun, and an overrun means a full buffer; and the handshake is in
      exactly one of three phases: idle (semaphore available, nothing
      pending), notified (semaphore taken, one notification pending), or
      the task working on readFrom (semaphore taken, nothing pending). */
  ghost predicate Inv(a: Adc, bufLen: nat) {
    0 < bufLen && a.index <= bufLen && a.writeTo != a.readFrom &&
    (a.semAvailable ==> !a.overrun) &&
    (a.overrun ==> a.index == bufLen) &&
    ((a.semAvailable && a.pending == 0 && a.consumer == Waiting) ||
     (!a.semAvailable && a.pending == 1 && a.consumer == Waiting) ||
     (!a.semAvailable && a.pending == 0 && a.consumer != Waiting))
  }

  lemma InitialInv(bufLen: nat)
    requires 0 < bufLen
    ensures Inv(Initial, bufLen)
  {
  }

  lemma IsrTickKeepsInv(a: Adc, bufLen: nat, resets: bool)
    requires Inv(a, bufLen)
    ensures Inv(IsrTick(a, bufLen, resets), bufLen)
  {
  }

  lemma ConsumerStepKeepsInv(a: Adc, bufLen: nat)
    requires Inv(a, bufLen)
    ensures Inv(ConsumerStep(a), bufLen)
  {
  }

  /** What one ISR run does, case by case. A sample is stored exactly when
      the index is below BUF_LEN and no overrun is flagged. Once the buffer
      is full, a semaphore that cannot be taken sets the overrun flag and
      nothing is swapped or notified; a semaphore that can be taken leads
      to a swap and one notification, with the index back at 0 when the
      ISR resets it. */
  lemma IsrTickCases(a: Adc, bufLen: nat, resets: bool)
    requires Inv(a, bufLen)
    ensures var r := IsrTick(a, bufLen, resets);
      var full := a.index + (if Stores(a, bufLen) then 1 else 0) >= bufLen;
      (!full ==> r == a.(index := a.index + 1)) &&
      (full && !a.semAvailable ==>
         r == a.(index := bufLen, overrun := true)) &&
      (full && a.semAvailable ==>
         r == Swap(a).(index := if resets then 0 else bufLen,
                       semAvailable := false, pending := a.pending + 1))
  {
  }

  /** A swap only happens while the processing task is idle: it has given
      the semaphore back, so it is done with readFrom, and it has no
      notification left to act on. */
  lemma SwapOnlyWhenIdle(a: Adc, bufLen: nat, resets: bool)
    requires Inv(a, bufLen)
    requires IsrTick(a, bufLen, resets).readFrom != a.readFrom
    ensures a.semAvailable && a.pending == 0 && a.consumer == Waiting
    ensures IsrTick(a, bufLen, resets).pending == 1
  {
  }

  /** From the notification until the semaphore is given back, the ISR
      leaves both pointers alone, so the task reads the buffer it was
      notified about. */
  lemma ReadFromStableWhileBusy(a: Adc, bufLen: nat, resets: bool)
    requires Inv(a, bufLen) && (a.pending > 0 || a.consumer != Waiting)
    ensures IsrTick(a, bufLen, resets).readFrom == a.readFrom
    ensures IsrTick(a, bufLen, resets).writeTo == a.writeTo
    ensures ConsumerStep(a).readFrom == a.readFrom && ConsumerStep(a).writeTo == a.writeTo
  {
  }

  // ---------------------------------------------------------------------
  // Any interleaving of ISR runs and task steps

  datatype Event = Tick | Consume

  function Run(a: Adc, es: seq<Event>, bufLen: nat, resets: bool): Adc
    decreases |es|
  {
    if es == [] then a
    else
      var b := if es[0] == Tick then IsrTick(a, bufLen, resets) else ConsumerStep(a);
      Run(b, es[1..], bufLen, resets)
  }

  /** The invariant holds in every state reachable from setup(), whatever
      the order of ISR runs and task steps. */
  lemma {:induction false} RunKeepsInv(a: Adc, es: seq<Event>, bufLen: nat, resets: bool)
    requires Inv(a, bufLen)
    ensures Inv(Run(a, es, bufLen, resets), bufLen)
    decreases |es|
  {
    if es != [] {
      IsrTickKeepsInv(a, bufLen, resets);
      ConsumerStepKeepsInv(a, bufLen);
      var b := if es[0] == Tick then IsrTick(a, bufLen, resets) else ConsumerStep(a);
      RunKeepsInv(b, es[1..], bufLen, resets);
    }
  }

  /** Running two schedules one after the other. */
  lemma {:induction false} RunAppend(a: Adc, es: seq<Event>, fs: seq<Event>, bufLen: nat, resets: bool)
    ensures Run(a, es + fs, bufLen, resets) == Run(Run(a, es, bufLen, resets), fs, bufLen, resets)
    decreases |es|
  {
    if es != [] {
      assert (es + fs)[0] == es[0] && (es + fs)[1..] == es[1..] + fs;
      var b := if es[0] == Tick then IsrTick(a, bufLen, resets) else ConsumerStep(a);
      RunAppend(b, es[1..], fs, bufLen, resets);
    } else {
      assert es + fs == fs;
    }
  }

  /** n timer interrupts in a row. */
  function Ticks(n: nat): (es: seq<Event>)
    ensures |es| == n && forall i :: 0 <= i < n ==> es[i] == Tick
  {
    seq(n, _ => Tick)
  }

  /** Interrupts that do not fill the buffer only store samples: each one
      moves the index on by one and changes nothing else. */
  lemma {:induction false} TicksBelowFull(a: Adc, n: nat, bufLen: nat, resets: bool)
    requires !a.overrun && a.index + n < bufLen
    ensures Run(a, Ticks(n), bufLen, resets) == a.(index := a.index + n)
    decreases n
  {
    if n > 0 {
      assert Ticks(n)[0] == Tick && Ticks(n)[1..] == Ticks(n - 1);
      var b := IsrTick(a, bufLen, resets);
      assert b == a.(index := a.index + 1);
      TicksBelowFull(b, n - 1, bufLen, resets);
    }
  }

  /** 09c and 09d also keep this: a full buffer has either an overrun
      flagged or the semaphore available, because a successful take
      resets the index at once. 12d breaks it (see FullSwapsOnEveryTake). */
  ghost predicate ResetInv(a: Adc, bufLen: nat) {
    Inv(a, bufLen) && (a.index == bufLen ==> a.overrun || a.semAvailable)
  }

  lemma InitialResetInv(bufLen: nat)
    requires 0 < bufLen
    ensures ResetInv(Initial, bufLen)
  {
  }

  lemma IsrTickKeepsResetInv(a: Adc, bufLen: nat)
    requires ResetInv(a, bufLen)
    ensures ResetInv(IsrTick(a, bufLen, true), bufLen)
  {
    IsrTickKeepsInv(a, bufLen, true);
  }

  lemma ConsumerStepKeepsResetInv(a: Adc, bufLen: nat)
    requires ResetInv(a, bufLen)
    ensures ResetInv(ConsumerStep(a), bufLen)
  {
    ConsumerStepKeepsInv(a, bufLen);
  }

  /** ResetInv holds in every state 09c and 09d reach. */
  lemma {:induction false} RunKeepsResetInv(a: Adc, es: seq<Event>, bufLen: nat)
    requires ResetInv(a, bufLen)
    ensures ResetInv(Run(a, es, bufLen, true), bufLen)
    decreases |es|
  {
    if es != [] {
      IsrTickKeepsResetInv(a, bufLen);
      ConsumerStepKeepsResetInv(a, bufLen);
      var b := if es[0] == Tick then IsrTick(a, bufLen, true) else ConsumerStep(a);
      RunKeepsResetInv(b, es[1..], bufLen);
    }
  }

  /** In 09c (BUF_LEN 10) ten interrupts fill buf0, swap to buf1 and give
      the semaphore. */
  lemma FirstBufferFills()
    ensures Run(Initial, Ticks(10), 10, true) == Adc(0, false, false, Buf1, Buf0, 1, Waiting)
  {
    assert Ticks(10) == Ticks(9) + [Tick];
    RunAppend(Initial, Ticks(9), [Tick], 10, true);
    TicksBelowFull(Initial, 9, 10, true);
  }

  /** ... then the task wakes and nine more interrupts store into buf1. */
  lemma SecondBufferNearlyFull()
    ensures Run(Initial, Ticks(10) + [Consume] + Ticks(9), 10, true)
            == Adc(9, false, false, Buf1, Buf0, 0, Computing)
  {
    FirstBufferFills();
    RunAppend(Initial, Ticks(10), [Consume], 10, true);
    var woken := Run(Initial, Ticks(10) + [Consume], 10, true);
    assert woken == Adc(0, false, false, Buf1, Buf0, 0, Computing);
    RunAppend(Initial, Ticks(10) + [Consume], Ticks(9), 10, true);
    TicksBelowFull(woken, 9, 10, true);
  }

  /** The overrun check and the clearing of the flag are separate steps, so
      an overrun flagged in between is cleared without being reported. In
      09c (BUF_LEN 10): ten interrupts fill buf0 and swap, the task wakes,
      nine more interrupts store into buf1; the task then finds no overrun,
      the tenth interrupt fills buf1 while the semaphore is still taken and
      sets the flag, and the release clears it. No step reports it. */
  lemma UnreportedOverrun()
    ensures var w := Run(Initial, Ticks(10) + [Consume] + Ticks(9), 10, true);
      var b := ConsumerStep(w);
      var c := IsrTick(b, 10, true);
      w == Adc(9, false, false, Buf1, Buf0, 0, Computing) && ResetInv(w, 10) &&
      !ReportsOverrun(w) && !ReportsOverrun(b) && c.overrun && !ReportsOverrun(c) &&
      ConsumerStep(c) == Adc(10, false, true, Buf1, Buf0, 0, Waiting)
  {
    SecondBufferNearlyFull();
  }

  /** 09c and 09d: after each swap the index is back at 0, so the next ISR
      run stores a sample into the fresh writeTo buffer. */
  lemma SwapResumesSampling(a: Adc, bufLen: nat)
    requires Inv(a, bufLen)
    requires IsrTick(a, bufLen, true).readFrom != a.readFrom
    ensures IsrTick(a, bufLen, true).index == 0
    ensures Stores(IsrTick(a, bufLen, true), bufLen)
  {
  }

  /** 12d as written: once the index reaches BUF_LEN it stays there, so no
      sample is stored again, whatever happens next. */
  lemma {:induction false} FullStaysFull(a: Adc, es: seq<Event>, bufLen: nat)
    requires Inv(a, bufLen) && a.index == bufLen
    ensures Run(a, es, bufLen, false).index == bufLen
    ensures !Stores(Run(a, es, bufLen, false), bufLen)
    decreases |es|
  {
    if es != [] {
      IsrTickKeepsInv(a, bufLen, false);
      ConsumerStepKeepsInv(a, bufLen);
      var b := if es[0] == Tick then IsrTick(a, bufLen, false) else ConsumerStep(a);
      FullStaysFull(b, es[1..], bufLen);
    }
  }

  /** 12d as written: with the buffer stuck at full, every ISR run that
      finds the semaphore available swaps the two stale buffers and
      notifies the task again. */
  lemma FullSwapsOnEveryTake(a: Adc, bufLen: nat)
    requires Inv(a, bufLen) && a.index == bufLen && a.semAvailable
    ensures IsrTick(a, bufLen, false) ==
      Swap(a).(semAvailable := false, pending := 1)
  {
  }

  /** The 12d schedule that shows the missing reset: the tenth sample fills
      buf0, the buffers swap, the task runs to completion, and the next tick
      stores nothing and swaps again. With the reset (09c), the same tick
      stores the first sample of the new buffer. */
  lemma MissingResetExample()
    ensures var a := Adc(9, false, true, Buf0, Buf1, 0, Waiting);
      var es := [Tick, Consume, Consume, Consume];
      var asWritten := Run(a, es, 10, false);
      var corrected := Run(a, es, 10, true);
      asWritten == Adc(10, false, true, Buf1, Buf0, 0, Waiting) &&
      !Stores(asWritten, 10) &&
      IsrTick(asWritten, 10, false) == Adc(10, false, false, Buf0, Buf1, 1, Waiting) &&
      corrected == Adc(0, false, true, Buf1, Buf0, 0, Waiting) &&
      Stores(corrected, 10)
  {
    var a := Adc(9, false, true, Buf0, Buf1, 0, Waiting);
    var t := IsrTick(a, 10, false);
    assert t == Adc(10, false, false, Buf1, Buf0, 1, Waiting);
    var u := IsrTick(a, 10, true);
    assert u == Adc(0, false, false, Buf1, Buf0, 1, Waiting);
    assert [Tick, Consume, Consume, Consume][1..] == [Consume, Consume, Consume];
    assert [Consume, Consume, Consume][1..] == [Consume, Consume];
    assert [Consume, Consume][1..] == [Consume];
    assert [Consume][1..] == [];
  }

  // ---------------------------------------------------------------------
  // The buffers themselves

  /** The static buffers, the pointers into them and the handshake state. */
  class DoubleBuffer {
    const bufLen: nat
    const resets: bool
    const buf0: array<int>
    const buf1: array<int>
    var writeTo: array<int>
    var readFrom: array<int>
    var index: nat
    var overrun: bool
    var semAvailable: bool
    var pending: nat
    var consumer: Phase

    function SideOf(p: array<int>): Side
      reads this
    {
      if p == buf0 then Buf0 else Buf1
    }

    function State(): Adc
      reads this
    {
      Adc(index, overrun, semAvailable, SideOf(writeTo), SideOf(readFrom), pending, consumer)
    }

    ghost predicate Valid()
      reads this
    {
      buf0 != buf1 && buf0.Length == bufLen && buf1.Length == bufLen &&
      (writeTo == buf0 || writeTo == buf1) && (readFrom == buf0 || readFrom == buf1) &&
      Inv(State(), bufLen)
    }

    /** 09c and 09d: resets is true; 12d: false. */
    constructor (bufLen: nat, resets: bool)
      requires 0 < bufLen
      ensures Valid() && State() == Initial
      ensures this.bufLen == bufLen && this.resets == resets
      ensures fresh(buf0) && fresh(buf1)
    {
      this.bufLen, this.resets := bufLen, resets;
      buf0 := new int[bufLen];
      buf1 := new int[bufLen];
      new;
      writeTo, readFrom := buf0, buf1;
      index, overrun, semAvailable, pending, consumer := 0, false, true, 0, Waiting;
    }

    /** swap() */
    method SwapBuffers()
      modifies this
      ensures writeTo == old(readFrom) && readFrom == old(writeTo)
      ensures index == old(index) && overrun == old(overrun) && semAvailable == old(semAvailable)
      ensures pending == old(pending) && consumer == old(consumer)
    {
      var tempPtr := writeTo;
      writeTo := readFrom;
      readFrom := tempPtr;
    }

    /** ISRtimer with the ADC reading `sample`: the sample lands at
        writeTo[index] when it is stored, readFrom is never written. */
    method IsrTimer(sample: int)
      requires Valid()
      modifies this, writeTo
      ensures Valid()
      ensures State() == IsrTick(old(State()), bufLen, resets)
      ensures Stores(old(State()), bufLen) ==>
        old(writeTo)[..] == old(writeTo[..])[old(index) := sample]
      ensures !Stores(old(State()), bufLen) ==> old(writeTo)[..] == old(writeTo[..])
      ensures old(readFrom)[..] == old(readFrom[..])
    {
      ghost var a := State();
      if index < bufLen && !overrun {
        writeTo[index] := sample;
        index := index + 1;
      }
      if index >= bufLen {
        if semAvailable {
          semAvailable := false;
        } else {
          overrun := true;
        }
        if !overrun {
          if resets {
            index := 0;
          }
          SwapBuffers();
          pending := pending + 1;
        }
      }
      IsrTickKeepsInv(a, bufLen, resets);
    }

    /** One step of the processing task; it returns whether the step
        printed the overrun error. No buffer is written. */
    method ProcessStep() returns (reported: bool)
      requires Valid()
      modifies this
      ensures Valid()
      ensures State() == ConsumerStep(old(State()))
      ensures reported == ReportsOverrun(old(State()))
      ensures writeTo == old(writeTo) && readFrom == old(readFrom)
    {
      ghost var a := State();
      reported := false;
      match consumer {
        case Waiting =>
          if pending > 0 {
            pending := 0;
            consumer := Computing;
          }
        case Computing =>
          reported := overrun;
          consumer := Releasing;
        case Releasing =>
          overrun := false;
          semAvailable := true;
          consumer := Waiting;
      }
      ConsumerStepKeepsInv(a, bufLen);
    }
  }
}
