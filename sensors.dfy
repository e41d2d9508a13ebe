/** Sensor acquisition: the MQ-2 gas reading scaled to a percentage, and the
    DHT11 climate reading whose transient fault yields no values at all. The
    hardware drivers are not modelled; their readings arrive as parameters. */
module Sensors {

  datatype Option<+T> = None | Some(value: T)

  /** Largest value the 16-bit ADC driver returns. */
  const RawMax: int := 65535

  /** Gas concentration as an integer percentage of the ADC's full range,
      truncated toward zero (the reading is never negative, so truncation
      and floor agree). */
  function Scale(raw: int): (pct: int)
    requires 0 <= raw <= RawMax
    ensures 0 <= pct <= 100
    ensures pct * RawMax <= raw * 100 < (pct + 1) * RawMax
    ensures raw == 0 ==> pct == 0
    ensures raw == RawMax ==> pct == 100
  {
    (raw * 100) / RawMax
  }

  /** A higher raw reading never yields a lower percentage. */
  lemma ScaleMonotone(a: int, b: int)
    requires 0 <= a <= b <= RawMax
    ensures Scale(a) <= Scale(b)
  {
  }

  /** Outcome of one DHT11 measurement: both values, or the driver's OSError. */
  datatype Climate = Ok(temperature: int, humidity: int) | Fault

  /** The (temperature, humidity) pair the sampling step hands on: both present
      after a successful measurement, both absent after a fault. */
  function ReadClimate(c: Climate): (pair: (Option<int>, Option<int>))
    ensures pair.0.None? <==> pair.1.None?
    ensures pair.0.None? <==> c.Fault?
    ensures c.Ok? ==> pair.0 == Some(c.temperature) && pair.1 == Some(c.humidity)
  {
    match c
    case Ok(t, h) => (Some(t), Some(h))
    case Fault => (None, None)
  }
}
