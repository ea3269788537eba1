/** The software fade of 01-LED-sw-fade (loop), 01a-LED-sw-fade-task and
    02-LED-sw-fade-task (LEDfadeTask), and the colour-wheel task of
    01b-LED-RGB-color-wheel. Each iteration writes the current brightness
    through ledcAnalogWrite, adds fadeInterval, and reverses the direction
    once the new brightness is <= 0 or >= 255; the colour wheel also moves
    the hue by 32 each time the floor is reached. */
module SoftFade {
  import opened Ledc

  const Step5: int := 5

  /** The globals `brightness` and `fadeInterval`. */
  datatype Fade = Fade(brightness: int, fadeInterval: int)

  /** `brightness += fadeInterval; if (brightness <= 0 || brightness >= 255)
      fadeInterval = -fadeInterval;` */
  function Step(f: Fade): Fade {
    var b := f.brightness + f.fadeInterval;
    Fade(b, if b <= 0 || b >= 255 then -f.fadeInterval else f.fadeInterval)
  }

  /** The states reachable with a step of 5 from 0 (01, 01a, 02) or 65 (01b):
      a multiple of 5 in [0, 255], moving up from 0 and down from 255. */
  predicate Inv(f: Fade) {
    0 <= f.brightness <= 255 && f.brightness % 5 == 0 &&
    (f.fadeInterval == Step5 || f.fadeInterval == -Step5) &&
    (f.brightness == 0 ==> f.fadeInterval == Step5) &&
    (f.brightness == 255 ==> f.fadeInterval == -Step5)
  }

  lemma StepKeepsInv(f: Fade)
    requires Inv(f)
    ensures Inv(Step(f))
  {
  }

  /** The direction flips exactly when a bound is reached, and the bounds
      are reached exactly (brightness never overshoots 0 or 255). */
  lemma ReversesExactlyAtBounds(f: Fade)
    requires Inv(f)
    ensures Step(f).fadeInterval == -f.fadeInterval <==>
            Step(f).brightness == 0 || Step(f).brightness == 255
    ensures Step(f).brightness == f.brightness + f.fadeInterval
  {
  }

  /** n iterations of the fade loop. */
  function Run(f: Fade, n: nat): Fade
    decreases n
  {
    if n == 0 then f else Run(Step(f), n - 1)
  }

  /** Every brightness the loop ever reaches stays a multiple of 5 in
      [0, 255], so every ledcAnalogWrite argument is in range. */
  lemma {:induction false} RunKeepsInv(f: Fade, n: nat)
    requires Inv(f)
    ensures Inv(Run(f, n))
    ensures AnalogWriteDuty(Run(f, n).brightness) == 16 * Run(f, n).brightness
    decreases n
  {
    if n > 0 {
      StepKeepsInv(f);
      RunKeepsInv(Step(f), n - 1);
    }
  }

  /** The fade loop of 01-LED-sw-fade, 01a-LED-sw-fade-task and
      02-LED-sw-fade-task: the globals brightness (initially 0) and
      fadeInterval (initially 5). */
  class FadeLoop {
    var brightness: int
    var fadeInterval: int

    function State(): Fade
      reads this
    {
      Fade(brightness, fadeInterval)
    }

    ghost predicate Valid()
      reads this
    {
      Inv(State())
    }

    constructor ()
      ensures Valid() && brightness == 0 && fadeInterval == 5
    {
      brightness, fadeInterval := 0, 5;
    }

    /** One iteration: write the duty of the current brightness, then step.
        The brightness written is always in [0, 255], so min() never clamps
        and the duty is exactly 16 times the brightness. */
    method Iterate() returns (duty: nat)
      requires Valid()
      modifies this
      ensures Valid()
      ensures State() == Step(old(State()))
      ensures duty == AnalogWriteDuty(old(brightness)) == 16 * old(brightness)
    {
      duty := AnalogWriteDuty(brightness);
      brightness := brightness + fadeInterval;
      if brightness <= 0 || brightness >= 255 {
        fadeInterval := -fadeInterval;
      }
      StepKeepsInv(old(State()));
    }
  }

  // ---------------------------------------------------------------------
  // 01b-LED-RGB-color-wheel: the fade plus a hue that advances at the floor.

  datatype Wheel = Wheel(fade: Fade, hue: int)

  /** After the fade step, a brightness <= 0 advances the hue by 32 and wraps
      it to 0 once it is >= 255. */
  function WheelStep(w: Wheel): Wheel {
    var f := Step(w.fade);
    var h := if f.brightness <= 0 then w.hue + 32 else w.hue;
    Wheel(f, if f.brightness <= 0 && h >= 255 then 0 else h)
  }

  /** The hue is one of the eight colours 0, 32, ..., 224. */
  predicate WheelInv(w: Wheel) {
    Inv(w.fade) && 0 <= w.hue < 255 && w.hue % 32 == 0
  }

  /** The hue stays one of the eight colours, and it changes exactly when
      the brightness reaches the floor. */
  lemma WheelStepKeepsInv(w: Wheel)
    requires WheelInv(w)
    ensures WheelInv(WheelStep(w))
    ensures WheelStep(w).fade == Step(w.fade)
    ensures WheelStep(w).hue != w.hue <==> WheelStep(w).fade.brightness == 0
    ensures WheelStep(w).hue == if WheelStep(w).fade.brightness == 0
                                 then (w.hue + 32) % 256 else w.hue
  {
    StepKeepsInv(w.fade);
  }

  /** RGBcolorWheelTask of 01b: the globals brightness (initially 65) and
      fadeInterval (initially 5) and the task's hueVal (initially 0). */
  class ColorWheel {
    var brightness: int
    var fadeInterval: int
    var hueVal: int

    function State(): Wheel
      reads this
    {
      Wheel(Fade(brightness, fadeInterval), hueVal)
    }

    ghost predicate Valid()
      reads this
    {
      WheelInv(State())
    }

    constructor ()
      ensures Valid() && brightness == 65 && fadeInterval == 5 && hueVal == 0
    {
      brightness, fadeInterval, hueVal := 65, 5, 0;
    }

    /** One iteration: write the duty of the current brightness, step the
        fade and, at the floor, advance the hue. */
    method Iterate() returns (duty: nat)
      requires Valid()
      modifies this
      ensures Valid()
      ensures State() == WheelStep(old(State()))
      ensures duty == 16 * old(brightness)
    {
      duty := AnalogWriteDuty(brightness);
      brightness := brightness + fadeInterval;
      if brightness <= 0 || brightness >= 255 {
        fadeInterval := -fadeInterval;
        if brightness <= 0 {
          hueVal := hueVal + 32;
          if hueVal >= 255 {
            hueVal := 0;
          }
        }
      }
      WheelStepKeepsInv(old(State()));
    }
  }
}
