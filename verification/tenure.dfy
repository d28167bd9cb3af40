/** The loan pages' tenure field, which can be typed in years or in months:
    converting its value when the unit is switched, clamping the slider to
    the unit's range, and copying the slider back into the field. The
    interest-rate and loan-amount pages use the same rules. */
module Tenure {
  import opened Num

  datatype Unit = Years | Months

  /** The field's value, or the unit's default (5 years or 60 months) when it
      is empty or zero. */
  function CurrentValue(value: real, unit: Unit): (v: real)
    ensures v != 0.0
    ensures value != 0.0 ==> v == value
  {
    if value != 0.0 then value else if unit == Years then 5.0 else 60.0
  }

  /** The value shown after switching to `unit` from `previous`: months become
      years exactly, years become whole months, and a value already in the
      target unit is kept (rounded to whole months in months mode). */
  function SwitchUnit(value: real, previous: Unit, unit: Unit): (v: real)
    ensures unit == Years && previous == Months ==> v * 12.0 == CurrentValue(value, unit)
    ensures unit == Years && previous == Years ==> v == CurrentValue(value, unit)
    ensures unit == Months ==> v == v.Floor as real
    ensures unit == Months && previous == Years ==> Abs(v - CurrentValue(value, unit) * 12.0) <= 0.5
    ensures unit == Months && previous == Months ==> Abs(v - CurrentValue(value, unit)) <= 0.5
  {
    var current := CurrentValue(value, unit);
    match unit
    case Years => if previous == Months then current / 12.0 else current
    case Months => (if previous == Years then Round(current * 12.0) else Round(current)) as real
  }

  /** A whole number of months survives a trip to years and back. */
  lemma MonthsRoundTrip(m: int)
    requires m != 0
    ensures SwitchUnit(SwitchUnit(m as real, Months, Years), Years, Months) == m as real
  {
    var y := SwitchUnit(m as real, Months, Years);
    assert y * 12.0 == m as real;
    RoundOfInteger(m);
  }

  /** A number of years that is a whole number of months survives a trip to
      months and back. */
  lemma YearsRoundTrip(y: real, m: int)
    requires y != 0.0 && y * 12.0 == m as real
    ensures SwitchUnit(SwitchUnit(y, Years, Months), Months, Years) == y
  {
    RoundOfInteger(m);
    assert SwitchUnit(y, Years, Months) == m as real;
  }

  /** The slider follows the field, clamped to 1..30 years or 12..360 months. */
  function SliderFromInput(value: real, unit: Unit): (s: real)
    ensures unit == Years ==> 1.0 <= s <= 30.0 && (1.0 <= value <= 30.0 ==> s == value)
    ensures unit == Months ==> 12.0 <= s <= 360.0 && s == s.Floor as real
    ensures unit == Months && 12.0 <= value <= 360.0 ==> Abs(s - value) <= 0.5
  {
    match unit
    case Years => Min(Max(value, 1.0), 30.0)
    case Months => Min(Max(Round(value) as real, 12.0), 360.0)
  }

  /** The field follows the slider: years to one decimal, whole months. */
  function InputFromSlider(slider: real, unit: Unit): (v: real)
    ensures unit == Years ==> Abs(v - slider) <= 0.05 && (v * 10.0).Floor as real == v * 10.0
    ensures unit == Months ==> Abs(v - slider) <= 0.5 && v.Floor as real == v
  {
    match unit
    case Years =>
      var tenths := Round(slider * 10.0);
      assert (tenths as real / 10.0) * 10.0 == tenths as real;
      tenths as real / 10.0
    case Months => Round(slider) as real
  }

  /** Clamping is idempotent: a slider position already in range is kept. */
  lemma SliderClampIdempotent(value: real, unit: Unit)
    ensures SliderFromInput(SliderFromInput(value, unit), unit) == SliderFromInput(value, unit)
  {
    if unit == Months {
      RoundOfInteger(SliderFromInput(value, unit).Floor);
    }
  }
}
