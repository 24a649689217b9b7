/**
 * Times of day: the clock reading "now", and the `HH:MM` string a pill is
 * scheduled at, read the way `time.split(":").map(Number)` followed by
 * `setHours(hours, minutes, 0, 0)` reads it.
 */
module Clock {
  import opened Wrappers
  import opened Strings

  datatype TimeOfDay = TimeOfDay(hours: nat, minutes: nat, seconds: nat, millis: nat)

  predicate ValidTime(t: TimeOfDay)
  {
    t.hours < 24 && t.minutes < 60 && t.seconds < 60 && t.millis < 1000
  }

  /** Strictly later in the day, compared field by field. */
  predicate Later(a: TimeOfDay, b: TimeOfDay)
  {
    || a.hours > b.hours
    || (a.hours == b.hours && a.minutes > b.minutes)
    || (a.hours == b.hours && a.minutes == b.minutes && a.seconds > b.seconds)
    || (a.hours == b.hours && a.minutes == b.minutes && a.seconds == b.seconds && a.millis > b.millis)
  }

  /** Milliseconds since local midnight, the quantity `Date` objects of one day are compared by. */
  function MillisOfDay(t: TimeOfDay): nat
  {
    ((t.hours * 60 + t.minutes) * 60 + t.seconds) * 1000 + t.millis
  }

  /**
   * `const [hours, minutes] = time.split(":").map(Number)`: `None` when either
   * is NaN, including a missing minutes field (`Number(undefined)`).
   */
  function ParseClockTime(time: string): Option<(nat, nat)>
  {
    var parts := Split(time, ':');
    if |parts| < 2 then None
    else
      match (NumberValue(parts[0]), NumberValue(parts[1]))
      case (Some(h), Some(m)) => Some((h, m))
      case _ => None
  }

  /**
   * The same-day branch of the time check: `now > pillTime`, where pillTime is
   * today at `hours:minutes:00.000`. Hours or minutes beyond their range roll
   * over as `setHours` rolls them; a NaN field makes an invalid date, and every
   * comparison with it is false.
   */
  predicate PassedToday(time: string, now: TimeOfDay)
  {
    match ParseClockTime(time)
    case None => false
    case Some((h, m)) => MillisOfDay(now) > (h * 60 + m) * 60000
  }

  /** The `HH:MM` value an `<input type="time">` holds. */
  function FormatClockTime(h: nat, m: nat): (s: string)
    requires h < 100 && m < 100
    ensures |s| == 5
  {
    Pad2(h) + ":" + Pad2(m)
  }

  /** Reading back a formatted time gives its hours and minutes. */
  lemma ParseFormatRoundTrip(h: nat, m: nat)
    requires h < 100 && m < 100
    ensures ParseClockTime(FormatClockTime(h, m)) == Some((h, m))
  {
    var parts := [Pad2(h), Pad2(m)];
    assert Join(parts, ':') == FormatClockTime(h, m) by {
      assert parts[1..] == [Pad2(m)];
    }
    assert ':' !in Pad2(h) && ':' !in Pad2(m);
    SplitJoin(parts, ':');
    Pad2Value(h);
    Pad2Value(m);
  }

  /** For today's pills: the time has passed exactly when "now" is strictly later than `hh:mm:00.000`. */
  lemma PassedTodayIffLater(h: nat, m: nat, now: TimeOfDay)
    requires h < 24 && m < 60 && ValidTime(now)
    ensures PassedToday(FormatClockTime(h, m), now) <==> Later(now, TimeOfDay(h, m, 0, 0))
  {
    ParseFormatRoundTrip(h, m);
    var a, b := now.hours * 60 + now.minutes, h * 60 + m;
    assert MillisOfDay(now) == a * 60000 + now.seconds * 1000 + now.millis;
    assert now.seconds * 1000 + now.millis < 60000;
    if a > b {
      assert a * 60000 >= (b + 1) * 60000;
    } else if a < b {
      assert a * 60000 + 60000 <= b * 60000;
    }
    assert a > b <==> now.hours > h || (now.hours == h && now.minutes > m);
  }

  /** At exactly the scheduled instant the time has not yet passed. */
  lemma NotPassedAtScheduledInstant(h: nat, m: nat)
    requires h < 24 && m < 60
    ensures !PassedToday(FormatClockTime(h, m), TimeOfDay(h, m, 0, 0))
  {
    PassedTodayIffLater(h, m, TimeOfDay(h, m, 0, 0));
  }

  /** A time with no `:` has no minutes field, so it never counts as passed. */
  lemma NoSeparatorNeverPassed(time: string, now: TimeOfDay)
    requires ':' !in time
    ensures !PassedToday(time, now)
  {
    SplitSeparatorFree(time, ':');
  }
}
