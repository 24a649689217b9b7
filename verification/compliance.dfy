/**
 * What the page derives from the schedule: whether a pill's time has passed,
 * the status of a day (none / complete / missed / partial), the per-day taken
 * percentage over the history window and its average.
 */
module Compliance {
  import Wrappers
  import opened Strings
  import opened Calendar
  import opened Clock
  import opened Windows
  import opened Schedule

  // ---------------------------------------------------------------------------
  // isPillTimePassed

  /**
   * `isPillTimePassed(time, date)`, with today's ISO key and the clock reading
   * as parameters: another day has passed exactly when its key sorts before
   * today's; on today the clock decides.
   */
  predicate IsPillTimePassed(time: string, date: string, today: string, now: TimeOfDay)
  {
    if date != today then LexLess(date, today) else PassedToday(time, now)
  }

  /**
   * On ISO keys of real days: a past day has always passed, a future day never
   * has, and on today only the clock decides.
   */
  lemma PillTimePassedByDay(time: string, d: Date, today: Date, now: TimeOfDay)
    requires Formattable(d) && Formattable(today)
    ensures Before(d, today) ==> IsPillTimePassed(time, Iso(d), Iso(today), now)
    ensures Before(today, d) ==> !IsPillTimePassed(time, Iso(d), Iso(today), now)
    ensures d == today ==> (IsPillTimePassed(time, Iso(d), Iso(today), now) <==> PassedToday(time, now))
  {
    IsoOrder(d, today);
    IsoInjective(d, today);
  }

  /** A pill of today at `hh:mm` has passed exactly when "now" is strictly later than `hh:mm:00.000`. */
  lemma PillTimePassedToday(h: nat, m: nat, today: string, now: TimeOfDay)
    requires h < 24 && m < 60 && ValidTime(now)
    ensures IsPillTimePassed(FormatClockTime(h, m), today, today, now) <==> Later(now, TimeOfDay(h, m, 0, 0))
    ensures !IsPillTimePassed(FormatClockTime(h, m), today, today, TimeOfDay(h, m, 0, 0))
  {
    PassedTodayIffLater(h, m, now);
    NotPassedAtScheduledInstant(h, m);
  }

  // ---------------------------------------------------------------------------
  // getDateStatus

  datatype Status = None | Complete | Missed | Partial

  /** `pills.every(pill => pill.taken)`. */
  function AllTaken(pills: seq<Pill>): (b: bool)
    ensures b <==> forall i :: 0 <= i < |pills| ==> pills[i].taken
  {
    if |pills| == 0 then true else pills[0].taken && AllTaken(pills[1..])
  }

  /** `pills.some(pill => !pill.taken && isPillTimePassed(pill.time, date))`. */
  function AnyMissed(pills: seq<Pill>, date: string, today: string, now: TimeOfDay): (b: bool)
    ensures b <==> exists i :: 0 <= i < |pills| && !pills[i].taken && IsPillTimePassed(pills[i].time, date, today, now)
  {
    if |pills| == 0 then false
    else (!pills[0].taken && IsPillTimePassed(pills[0].time, date, today, now)) || AnyMissed(pills[1..], date, today, now)
  }

  /**
   * `getDateStatus(date)`: `None` exactly when the day has no pills;
   * otherwise `Complete` exactly when every pill is taken (whatever the clock
   * says), else `Missed` exactly when some untaken pill's time has passed,
   * else `Partial`.
   */
  function GetDateStatus(s: PillSchedule, date: string, today: string, now: TimeOfDay): (r: Status)
    ensures r == None <==> |PillsOn(s, date)| == 0
    ensures r == Complete <==> |PillsOn(s, date)| > 0 && forall i :: 0 <= i < |PillsOn(s, date)| ==> PillsOn(s, date)[i].taken
    ensures r == Missed <==> (exists i :: 0 <= i < |PillsOn(s, date)| && !PillsOn(s, date)[i].taken
                                        && IsPillTimePassed(PillsOn(s, date)[i].time, date, today, now))
    ensures r == Partial <==> && (exists i :: 0 <= i < |PillsOn(s, date)| && !PillsOn(s, date)[i].taken)
                              && (forall i :: (0 <= i < |PillsOn(s, date)| && !PillsOn(s, date)[i].taken)
                                    ==> !IsPillTimePassed(PillsOn(s, date)[i].time, date, today, now))
  {
    var pills := PillsOn(s, date);
    if |pills| == 0 then None
    else if AllTaken(pills) then Complete
    else if AnyMissed(pills, date, today, now) then Missed
    else Partial
  }

  // ---------------------------------------------------------------------------
  // calculateInsights and the average

  /** `pills.filter(pill => pill.taken)`. */
  function TakenPills(pills: seq<Pill>): (r: seq<Pill>)
    ensures |r| <= |pills|
  {
    if |pills| == 0 then []
    else if pills[0].taken then [pills[0]] + TakenPills(pills[1..])
    else TakenPills(pills[1..])
  }

  /** The filter keeps exactly the taken pills, in a sub-multiset of the list. */
  lemma {:induction false} TakenPillsElements(pills: seq<Pill>)
    ensures forall i :: 0 <= i < |TakenPills(pills)| ==> TakenPills(pills)[i].taken
    ensures forall i :: 0 <= i < |pills| && pills[i].taken ==> pills[i] in TakenPills(pills)
    ensures multiset(TakenPills(pills)) <= multiset(pills)
    decreases |pills|
  {
    if |pills| > 0 {
      TakenPillsElements(pills[1..]);
      assert pills == [pills[0]] + pills[1..];
      forall i | 1 <= i < |pills| && pills[i].taken
        ensures pills[i] in TakenPills(pills)
      {
        assert pills[1..][i - 1] == pills[i];
      }
    }
  }

  /** The filter keeps each taken pill exactly as often as the list holds it, and no untaken pill. */
  lemma {:induction false} TakenPillsMultiplicity(pills: seq<Pill>)
    ensures forall p :: multiset(TakenPills(pills))[p] == if p.taken then multiset(pills)[p] else 0
    decreases |pills|
  {
    if |pills| > 0 {
      TakenPillsMultiplicity(pills[1..]);
      assert pills == [pills[0]] + pills[1..];
      assert multiset(pills) == multiset([pills[0]]) + multiset(pills[1..]);
    }
  }

  /** The filter keeps all pills exactly when all are taken, and none exactly when none is. */
  lemma {:induction false} TakenPillsCount(pills: seq<Pill>)
    ensures |TakenPills(pills)| == |pills| <==> forall i :: 0 <= i < |pills| ==> pills[i].taken
    ensures |TakenPills(pills)| == 0 <==> forall i :: 0 <= i < |pills| ==> !pills[i].taken
    decreases |pills|
  {
    if |pills| > 0 {
      TakenPillsCount(pills[1..]);
      assert forall i :: 1 <= i < |pills| ==> pills[1..][i - 1] == pills[i];
    }
  }

  /** `pills.filter(pill => pill.taken).length`: the number of positions holding a taken pill. */
  function TakenCount(pills: seq<Pill>): (n: nat)
    ensures n <= |pills|
    ensures n == |TakenPositions(pills, |pills|)|
  {
    TakenPrefixCount(pills, |pills|);
    assert pills[..|pills|] == pills;
    |TakenPills(pills)|
  }

  /** The positions below `k` that hold a taken pill. */
  function TakenPositions(pills: seq<Pill>, k: nat): set<nat>
    requires k <= |pills|
  {
    set i: nat | i < k && pills[i].taken
  }

  /** Filtering a list with one more pill at its end keeps that pill exactly when it is taken. */
  lemma {:induction false} TakenPillsSnoc(pills: seq<Pill>, p: Pill)
    ensures TakenPills(pills + [p]) == TakenPills(pills) + (if p.taken then [p] else [])
    decreases |pills|
  {
    if |pills| > 0 {
      assert (pills + [p])[1..] == pills[1..] + [p];
      TakenPillsSnoc(pills[1..], p);
    } else {
      assert pills + [p] == [p];
    }
  }

  /** The filter of the first `k` pills keeps as many pills as there are taken positions below `k`. */
  lemma {:induction false} TakenPrefixCount(pills: seq<Pill>, k: nat)
    requires k <= |pills|
    ensures |TakenPills(pills[..k])| == |TakenPositions(pills, k)|
    decreases k
  {
    if k == 0 {
      assert TakenPositions(pills, 0) == {};
    } else {
      TakenPrefixCount(pills, k - 1);
      assert pills[..k] == pills[..k - 1] + [pills[k - 1]];
      TakenPillsSnoc(pills[..k - 1], pills[k - 1]);
      var before := TakenPositions(pills, k - 1);
      if pills[k - 1].taken {
        assert TakenPositions(pills, k) == before + {k - 1} by {
          forall i: nat ensures i in TakenPositions(pills, k) <==> i in before || i == k - 1 { }
        }
        assert k - 1 !in before;
      } else {
        assert TakenPositions(pills, k) == before by {
          forall i: nat ensures i in TakenPositions(pills, k) <==> i in before { }
        }
      }
    }
  }

  /**
   * The taken percentage of one day: `takenCount / totalCount * 100`, or 0 for
   * a day without pills. It lies in [0, 100].
   */
  function Percentage(pills: seq<Pill>): (r: real)
    ensures 0.0 <= r <= 100.0
    ensures |pills| == 0 ==> r == 0.0
    ensures |pills| > 0 ==> r * (|pills| as real) == 100.0 * (TakenCount(pills) as real)
  {
    if |pills| > 0 then ShareOfHundred(TakenCount(pills), |pills|) else 0.0
  }

  /** `part / whole * 100` for `0 <= part <= whole`: in [0, 100], and scaling it back by `whole` gives `100 * part`. */
  function ShareOfHundred(part: nat, whole: nat): (r: real)
    requires 0 < whole && part <= whole
    ensures 0.0 <= r <= 100.0 && r * (whole as real) == 100.0 * (part as real)
    ensures r == 100.0 <==> part == whole
    ensures r == 0.0 <==> part == 0
  {
    var p, w := part as real, whole as real;
    var q := p / w;
    QuotientFacts(p, w);
    assert (q * 100.0) * w == (q * w) * 100.0;
    q * 100.0
  }

  /** For `0 <= p <= w` with `w > 0`, `p / w` lies in [0, 1], scales back to `p`, and is 1 or 0 exactly at the extremes. */
  lemma QuotientFacts(p: real, w: real)
    requires 0.0 <= p <= w && 0.0 < w
    ensures (p / w) * w == p && 0.0 <= p / w <= 1.0
    ensures p / w == 1.0 <==> p == w
    ensures p / w == 0.0 <==> p == 0.0
  {
    var q := p / w;
    assert q * w == p;
    if q == 1.0 {
      assert p == 1.0 * w;
    }
    if p == w {
      assert (q - 1.0) * w == 0.0;
    }
  }

  /** A day scores 100 exactly when it has pills and all are taken, and 0 exactly when none is taken. */
  lemma PercentageExtremes(pills: seq<Pill>)
    ensures Percentage(pills) == 100.0 <==> |pills| > 0 && forall i :: 0 <= i < |pills| ==> pills[i].taken
    ensures Percentage(pills) == 0.0 <==> forall i :: 0 <= i < |pills| ==> !pills[i].taken
  {
    TakenPillsCount(pills);
  }

  /** The history chart's status and percentage agree: complete days score 100, empty days 0. */
  lemma StatusAgreesWithPercentage(s: PillSchedule, date: string, today: string, now: TimeOfDay)
    ensures GetDateStatus(s, date, today, now) == Complete <==> Percentage(PillsOn(s, date)) == 100.0
    ensures GetDateStatus(s, date, today, now) == None ==> Percentage(PillsOn(s, date)) == 0.0
  {
    PercentageExtremes(PillsOn(s, date));
  }

  datatype InsightPoint = InsightPoint(date: string, percentage: real)

  /** `calculateInsights`: one point per window date, in window order, each a percentage in [0, 100], 0 for a day without pills. */
  function CalculateInsights(s: PillSchedule, calendarDates: seq<string>): (r: seq<InsightPoint>)
    ensures |r| == |calendarDates|
    ensures forall i :: 0 <= i < |r| ==> r[i].date == calendarDates[i] && 0.0 <= r[i].percentage <= 100.0
    ensures forall i :: 0 <= i < |r| ==>
      r[i].percentage * (|PillsOn(s, calendarDates[i])| as real) == 100.0 * (TakenCount(PillsOn(s, calendarDates[i])) as real)
    ensures forall i :: 0 <= i < |r| && |PillsOn(s, calendarDates[i])| == 0 ==> r[i].percentage == 0.0
  {
    seq(|calendarDates|, i requires 0 <= i < |calendarDates| =>
      InsightPoint(calendarDates[i], Percentage(PillsOn(s, calendarDates[i]))))
  }

  /** `reduce((sum, day) => sum + day.percentage, 0)`: a left fold. */
  function SumPercentages(points: seq<InsightPoint>): real
    decreases |points|
  {
    if |points| == 0 then 0.0 else SumPercentages(points[..|points| - 1]) + points[|points| - 1].percentage
  }

  predicate InRange(points: seq<InsightPoint>)
  {
    forall i :: 0 <= i < |points| ==> 0.0 <= points[i].percentage <= 100.0
  }

  /**
   * `averageCompliance`: the sum divided by the number of points; dividing by
   * an empty list's length gives NaN, modelled as `None`.
   */
  function AverageCompliance(points: seq<InsightPoint>): (r: Wrappers.Option<real>)
    ensures r.None? <==> |points| == 0
    ensures r.Some? ==> r.value * (|points| as real) == SumPercentages(points)
  {
    if |points| == 0 then Wrappers.None else Wrappers.Some(SumPercentages(points) / |points| as real)
  }

  lemma {:induction false} SumBounds(points: seq<InsightPoint>)
    requires InRange(points)
    ensures 0.0 <= SumPercentages(points) <= 100.0 * (|points| as real)
    decreases |points|
  {
    if |points| > 0 {
      SumBounds(points[..|points| - 1]);
    }
  }

  /** The sum reaches its maximum exactly when every point is 100. */
  lemma {:induction false} SumFullIffEveryPointFull(points: seq<InsightPoint>)
    requires InRange(points)
    ensures SumPercentages(points) == 100.0 * (|points| as real) <==> forall i :: 0 <= i < |points| ==> points[i].percentage == 100.0
    decreases |points|
  {
    if |points| > 0 {
      var n := |points| - 1;
      SumBounds(points[..n]);
      SumFullIffEveryPointFull(points[..n]);
      assert forall i :: 0 <= i < n ==> points[..n][i] == points[i];
    }
  }

  /** Over a non-empty list of percentages the average lies in [0, 100], and is 100 exactly when every day is. */
  lemma AverageInRange(points: seq<InsightPoint>)
    requires InRange(points) && |points| > 0
    ensures 0.0 <= AverageCompliance(points).value <= 100.0
    ensures AverageCompliance(points).value == 100.0 <==> forall i :: 0 <= i < |points| ==> points[i].percentage == 100.0
  {
    SumBounds(points);
    SumFullIffEveryPointFull(points);
    var avg, n := AverageCompliance(points).value, |points| as real;
    assert avg * n == SumPercentages(points);
  }

  /**
   * The page's figures: fifteen points, one per history day in window order,
   * and an average that is defined (the window is never empty) and lies in
   * [0, 100].
   */
  lemma HistoryInsights(s: PillSchedule, today: Date)
    requires Supported(today)
    ensures var points := CalculateInsights(s, HistoryWindow(today));
      && |points| == HistoryLength
      && (forall i :: 0 <= i < HistoryLength ==> points[i].date == HistoryWindow(today)[i])
      && AverageCompliance(points).Some?
      && 0.0 <= AverageCompliance(points).value <= 100.0
  {
    AverageInRange(CalculateInsights(s, HistoryWindow(today)));
  }

  /**
   * On the sample schedule no day is ever complete (its "Calcium" pill starts
   * untaken), and a day after today is partial: its untaken pills are not due.
   */
  lemma SeededDayStatus(dates: seq<string>, hour: int, date: string, today: string, now: TimeOfDay)
    requires forall i :: 0 <= i < |dates| ==> |dates[i]| == 10
    requires date in dates
    ensures GetDateStatus(Seeded(dates, hour), date, today, now) != Complete
    ensures LexLess(today, date) ==> GetDateStatus(Seeded(dates, hour), date, today, now) == Partial
  {
    SeededShape(dates, hour);
    var pills := PillsOn(Seeded(dates, hour), date);
    assert !pills[2].taken;
    if LexLess(today, date) {
      forall i | 0 <= i < |pills|
        ensures !IsPillTimePassed(pills[i].time, date, today, now)
      {
        LexLessAsymmetric(today, date);
      }
    }
  }

  /**
   * One untaken "Vitamin D" at 08:00 today: at 09:00 its time has passed and
   * the day is missed; once it is taken the day is complete.
   */
  lemma VitaminDScenario(today: string)
    ensures var untaken := Pill("1", "Vitamin D", "08:00", false, today);
      var now := TimeOfDay(9, 0, 0, 0);
      && IsPillTimePassed(untaken.time, today, today, now)
      && GetDateStatus(map[today := [untaken]], today, today, now) == Missed
      && GetDateStatus(map[today := [untaken.(taken := true)]], today, today, now) == Complete
  {
    var now := TimeOfDay(9, 0, 0, 0);
    assert FormatClockTime(8, 0) == "08:00";
    PillTimePassedToday(8, 0, today, now);
  }

  /** Three days scoring 100, 0 and 50 average to 50. */
  lemma AverageScenario(d1: string, d2: string, d3: string)
    ensures AverageCompliance([InsightPoint(d1, 100.0), InsightPoint(d2, 0.0), InsightPoint(d3, 50.0)]) == Wrappers.Some(50.0)
  {
    var points := [InsightPoint(d1, 100.0), InsightPoint(d2, 0.0), InsightPoint(d3, 50.0)];
    var one, two := points[..1], points[..2];
    assert one[..0] == [];
    assert SumPercentages(one) == 100.0;
    assert two[..1] == one;
    assert SumPercentages(two) == 100.0;
    assert points[..2] == two;
    assert SumPercentages(points) == 150.0;
  }
}
