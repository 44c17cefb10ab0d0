/** Calendar dates and wall-clock instants as the routes see them.

    A date is a day number; an instant is a date plus the time of day in
    microseconds, which is the precision of the source's datetime values.
    The clock itself is never read here: every transition receives "now"
    as an argument. */
module Clock {

  const MicrosPerSecond: int := 1_000_000
  const MicrosPerDay: int := 86_400 * MicrosPerSecond

  /** A calendar day, counted from an arbitrary epoch. */
  type Date = int

  /** Microseconds since midnight. */
  type TimeOfDay = t: int | 0 <= t < MicrosPerDay

  datatype DateTime = DateTime(date: Date, time: TimeOfDay)

  /** The time of day h:m:s.000000. */
  function Hms(h: nat, m: nat, s: nat): TimeOfDay
    requires h < 24 && m < 60 && s < 60
  {
    (h * 3600 + m * 60 + s) * MicrosPerSecond
  }

  /** 07:00, before which no check-in is accepted. */
  const EarliestCheckIn: TimeOfDay := Hms(7, 0, 0)

  /** 10:15, after which a check-in becomes a late-check-in request. */
  const CheckInDeadline: TimeOfDay := Hms(10, 15, 0)

  /** Chronological order of instants: earlier day first, then earlier time. */
  predicate Before(a: DateTime, b: DateTime) {
    a.date < b.date || (a.date == b.date && a.time < b.time)
  }

  /** The instant as one integer: microseconds since the epoch's midnight.
      Used as the sort key for "order by date". */
  function Stamp(t: DateTime): int {
    t.date * MicrosPerDay + t.time
  }

  /** Comparing stamps is comparing instants. */
  lemma StampOrder(a: DateTime, b: DateTime)
    ensures Stamp(a) < Stamp(b) <==> Before(a, b)
  {
    if a.date < b.date {
      assert (b.date - a.date) * MicrosPerDay >= MicrosPerDay;
      assert Stamp(b) - Stamp(a) == (b.date - a.date) * MicrosPerDay + (b.time - a.time);
    } else if a.date > b.date {
      assert (a.date - b.date) * MicrosPerDay >= MicrosPerDay;
      assert Stamp(a) - Stamp(b) == (a.date - b.date) * MicrosPerDay + (a.time - b.time);
    }
  }
}
