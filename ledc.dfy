/** ledcAnalogWrite, shared by the LED fade sketches: a brightness in
    [0, valueMax] is scaled to a 12-bit LEDC duty cycle,
    `duty = (4095 / valueMax) * min(value, valueMax)`, in uint32 arithmetic.
    The LEDC peripheral itself (ledcWrite) is not part of this model. */
module Ledc {

  const U32: int := 0x1_0000_0000

  /** 2^12 - 1, the largest duty of the 12-bit LEDC timer. */
  const DutyMax: nat := 4095

  /** The default third argument of ledcAnalogWrite. */
  const DefaultValueMax: nat := 255

  /** Conversion of an int argument to a uint32_t parameter (modulo 2^32). */
  function ToUint32(x: int): (r: nat)
    ensures r < U32
    ensures (x - r) % U32 == 0
    ensures 0 <= x < U32 ==> r == x
  {
    x % U32
  }

  function Min(a: nat, b: nat): nat {
    if a < b then a else b
  }

  lemma MulMonotone(a: nat, b: nat, c: nat)
    requires b <= c
    ensures a * b <= a * c
  {
    assert a * c == a * b + a * (c - b);
  }

  /** The duty computed by ledcAnalogWrite. valueMax == 0 would divide by
      zero; every call in the sketches uses the default 255. The product
      never exceeds 4095, so the uint32 multiplication cannot wrap. */
  function Duty(value: nat, valueMax: nat): (d: nat)
    requires value < U32 && 0 < valueMax < U32
    ensures d <= DutyMax
  {
    var q := DutyMax / valueMax;
    MulMonotone(q, Min(value, valueMax), valueMax);
    assert q * valueMax <= DutyMax;
    q * Min(value, valueMax)
  }

  /** ledcAnalogWrite(channel, value) with the default valueMax. */
  function AnalogWriteDuty(value: int): nat {
    Duty(ToUint32(value), DefaultValueMax)
  }

  /** A brighter value never gives a smaller duty. */
  lemma DutyMonotone(v: nat, w: nat, m: nat)
    requires v <= w < U32 && 0 < m < U32
    ensures Duty(v, m) <= Duty(w, m)
  {
    MulMonotone(DutyMax / m, Min(v, m), Min(w, m));
  }

  /** Values at or above valueMax are clamped: they all give the duty of
      valueMax, and that duty is 4095 rounded down to a multiple of valueMax. */
  lemma DutySaturates(v: nat, m: nat)
    requires m <= v < U32 && 0 < m < U32
    ensures Duty(v, m) == Duty(m, m) == DutyMax - DutyMax % m
  {
  }

  /** With the default valueMax of 255 the scale factor is 4095 / 255 = 16,
      so a brightness b in [0, 255] gives 16 * b and full brightness gives
      4080, not 4095. */
  lemma DefaultDuty(value: int)
    requires 0 <= value <= DefaultValueMax
    ensures AnalogWriteDuty(value) == 16 * value
    ensures value == DefaultValueMax ==> AnalogWriteDuty(value) == 4080
  {
  }
}
