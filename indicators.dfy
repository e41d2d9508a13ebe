/** The two status LEDs driven from the latest gas reading: red for alarm,
    green for normal. */
module Indicators {

  /** Gas percentage at and above which the alarm is raised. */
  const Threshold: int := 70

  /** The threshold policy, inclusive on the high side, with no hysteresis. */
  predicate Alarm(gas: int)
  {
    gas >= Threshold
  }

  class Leds {
    var red: bool
    var green: bool

    /** The state after any update: one indicator lit, the other dark. */
    predicate ExactlyOne()
      reads this
    {
      red != green
    }

    /** Both outputs start dark until the first request drives them. */
    constructor ()
      ensures !red && !green
    {
      red, green := false, false;
    }

    /** Switches the red LED on and the green one off when the reading is at
        or above the threshold, and the other way round below it. */
    method Update(gas: int)
      modifies this
      ensures red <==> Alarm(gas)
      ensures green <==> !Alarm(gas)
      ensures ExactlyOne()
    {
      if gas >= Threshold {
        red := true;
        green := false;
      } else {
        red := false;
        green := true;
      }
    }
  }
}
