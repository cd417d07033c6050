/** Timestamps. The application compares instants (`getTime()`, timestamp
    columns) and takes the calendar date of an ISO string; both only need
    an order-preserving position on a time line, which `Ticks` gives. */
module Time {

  const MsPerDay: nat := 86_400_000

  /** A UTC calendar date, `YYYY-MM-DD`, with months numbered 1..12. */
  datatype Date = Date(year: int, month: nat, day: nat)

  /** An instant: a UTC date and the milliseconds elapsed since its midnight. */
  datatype DateTime = DateTime(date: Date, ms: nat)

  predicate ValidDate(d: Date) {
    1 <= d.month <= 12 && 1 <= d.day <= 31
  }

  predicate Valid(t: DateTime) {
    ValidDate(t.date) && t.ms < MsPerDay
  }

  /** Position of a date on a line of 31-day months; it preserves the
      calendar order, and the unused slots (30 February, ...) are harmless. */
  function DayIndex(d: Date): int {
    d.year * 372 + (d.month - 1) * 31 + (d.day - 1)
  }

  /** Milliseconds on the same line (`getTime()` up to an order-preserving shift). */
  function Ticks(t: DateTime): int {
    DayIndex(t.date) * MsPerDay + t.ms
  }

  /** Midnight of 1 January. */
  function StartOfYear(year: int): DateTime {
    DateTime(Date(year, 1, 1), 0)
  }

  lemma StartOfYearMonotone(a: int, b: int)
    requires a <= b
    ensures Ticks(StartOfYear(a)) <= Ticks(StartOfYear(b))
  {
    assert Ticks(StartOfYear(b)) - Ticks(StartOfYear(a)) == (b - a) * (372 * MsPerDay);
  }

  /** A valid instant lies in calendar year `year` exactly when it falls in
      the half-open window from 1 January of `year` to 1 January of the next. */
  lemma {:induction false} InYearWindow(t: DateTime, year: int)
    requires Valid(t)
    ensures t.date.year == year
        <==> Ticks(StartOfYear(year)) <= Ticks(t) < Ticks(StartOfYear(year + 1))
  {
    var y := t.date.year;
    var off := (t.date.month - 1) * 31 + (t.date.day - 1);
    assert 0 <= off < 372;
    assert Ticks(t) == y * 372 * MsPerDay + off * MsPerDay + t.ms;
    assert Ticks(StartOfYear(y)) == y * 372 * MsPerDay;
    assert Ticks(StartOfYear(y + 1)) == y * 372 * MsPerDay + 372 * MsPerDay;
    assert off * MsPerDay + t.ms < 372 * MsPerDay by {
      assert off * MsPerDay <= 371 * MsPerDay;
    }
    if y < year {
      StartOfYearMonotone(y + 1, year);
    } else if y > year {
      StartOfYearMonotone(year + 1, y);
    }
  }
}
