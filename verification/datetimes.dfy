/**
  A .NET `DateTime` is a count of 100-nanosecond ticks since midnight of 0001-01-01.
  The controllers compare log dates in three ways: exact `DateTime` equality and
  ordering, equality with a truncated `date.Value.Date`, and equality of the
  `"yyyy-MM-dd"` renderings. This module names each of them.
*/
module DateTimes {

  /** A `DateTime` as its tick count. */
  type Ticks = nat

  const TicksPerDay: nat := 864_000_000_000

  /** The calendar day a moment falls on (days since 0001-01-01). */
  function DayOf(t: Ticks): nat {
    t / TicksPerDay
  }

  /** `t.Date`: the same day at midnight. */
  function Midnight(t: Ticks): (r: Ticks)
    ensures r <= t < r + TicksPerDay
    ensures r % TicksPerDay == 0
    ensures DayOf(r) == DayOf(t)
  {
    DayOf(t) * TicksPerDay
  }

  /** Two moments render to the same `"yyyy-MM-dd"` string. */
  predicate SameDay(a: Ticks, b: Ticks) {
    DayOf(a) == DayOf(b)
  }

  /** A moment with no time-of-day part, as stored by a date-only write. */
  predicate IsDateOnly(t: Ticks) {
    t % TicksPerDay == 0
  }

  /** Truncating two moments to midnight agrees exactly when they fall on the same day. */
  lemma MidnightEqualIffSameDay(a: Ticks, b: Ticks)
    ensures Midnight(a) == Midnight(b) <==> SameDay(a, b)
  {
  }

  /**
    For a date-only value `t`, the controllers' test `t == d.Date` is the same as
    comparing the two days.
  */
  lemma {:induction false} DateOnlyEqualsMidnightIffSameDay(t: Ticks, d: Ticks)
    requires IsDateOnly(t)
    ensures t == Midnight(d) <==> SameDay(t, d)
  {
    assert t == DayOf(t) * TicksPerDay;
  }
}
