/**
 * The hourly fare of the two "_1" parking lots: whole hours of the stay,
 * rounded down, with a minimum of one hour, times the rate of the vehicle type.
 * Durations are whole seconds (the clock is a parameter of the model).
 */
module HourlyFare {

  /** Rupees per hour for each vehicle type the lots know. */
  const Rates: map<string, nat> := map["bike" := 10, "car" := 20, "bus" := 30]

  const SecondsPerHour: nat := 3600

  /**
   * `max(1, seconds // 3600)`. Python's `//` rounds toward minus infinity; for
   * the positive divisor 3600 that is exactly Dafny's `/` on int.
   */
  function BilledHours(seconds: int): (h: nat)
    ensures h >= 1
    ensures h > 1 ==> h * SecondsPerHour <= seconds < (h + 1) * SecondsPerHour
    ensures h == 1 ==> seconds < 2 * SecondsPerHour
  {
    if seconds / SecondsPerHour > 1 then seconds / SecondsPerHour else 1
  }

  /**
   * The fare of a stay of `seconds` at `rate` per hour: never less than one
   * hour's rate, and exactly that below two hours.
   */
  function Fare(rate: nat, seconds: int): (fare: nat)
    ensures fare >= rate
    ensures seconds < 2 * SecondsPerHour ==> fare == rate
  {
    MultiplyMonotone(1, BilledHours(seconds), rate);
    BilledHours(seconds) * rate
  }

  /** Every stay is charged at least one hour, including zero and negative durations. */
  lemma FareAtLeastRate(rate: nat, seconds: int)
    ensures Fare(rate, seconds) >= rate
  {
    assert BilledHours(seconds) * rate >= 1 * rate;
  }

  /** Anything shorter than two hours is charged exactly one hour. */
  lemma MinimumCharge(rate: nat, seconds: int)
    requires seconds < 2 * SecondsPerHour
    ensures Fare(rate, seconds) == rate
  {
  }

  /** The billed hours are the completed hours: any part of an hour is not charged. */
  lemma RoundsDown(rate: nat, hours: nat, extra: nat)
    requires hours >= 1 && extra < SecondsPerHour
    ensures Fare(rate, hours * SecondsPerHour + extra) == hours * rate
  {
    assert (hours * SecondsPerHour + extra) / SecondsPerHour == hours;
  }

  /** A longer stay never costs less. */
  lemma FareMonotone(rate: nat, shorter: int, longer: int)
    requires shorter <= longer
    ensures Fare(rate, shorter) <= Fare(rate, longer)
  {
    assert shorter / SecondsPerHour <= longer / SecondsPerHour;
    assert BilledHours(shorter) <= BilledHours(longer);
    MultiplyMonotone(BilledHours(shorter), BilledHours(longer), rate);
  }

  lemma MultiplyMonotone(a: nat, b: nat, c: nat)
    requires a <= b
    ensures a * c <= b * c
  {
  }
}
