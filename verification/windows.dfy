/**
 * The two date windows of the page: the five days of "this week", today
 * through today+4 (`generateWeekDates`), and the fifteen days of history,
 * today-14 through today (`generateCalendarDates`). Only the ISO keys are
 * modelled; the display labels are not.
 */
module Windows {
  import opened Strings
  import opened Calendar

  const WeekLength: nat := 5
  const HistoryLength: nat := 15

  /**
   * A "today" whose windows the page can key: a valid day whose year leaves
   * room for fourteen days back and four ahead within four-digit years.
   */
  predicate Supported(today: Date)
  {
    Valid(today) && 1 <= today.year <= 9998
  }

  /** The i-th day of the week window. */
  function WeekDay(today: Date, i: nat): (d: Date)
    requires Supported(today) && i < WeekLength
    ensures Formattable(d)
  {
    AddDaysYear(today, i);
    AddDays(today, i)
  }

  /** The day `back` days before today, for the history window. */
  function HistoryDay(today: Date, back: nat): (d: Date)
    requires Supported(today) && back < HistoryLength
    ensures Formattable(d)
  {
    SubDaysYear(today, back);
    SubDays(today, back)
  }

  /** The keys of the week window, in order. */
  function WeekWindow(today: Date): (dates: seq<string>)
    requires Supported(today)
    ensures |dates| == WeekLength
  {
    seq(WeekLength, i requires 0 <= i < WeekLength => Iso(WeekDay(today, i)))
  }

  /** The keys of the history window, oldest first. */
  function HistoryWindow(today: Date): (dates: seq<string>)
    requires Supported(today)
    ensures |dates| == HistoryLength
  {
    seq(HistoryLength, i requires 0 <= i < HistoryLength => Iso(HistoryDay(today, HistoryLength - 1 - i)))
  }

  /** `generateWeekDates`: a counted loop that pushes today+i for i = 0..4. */
  method GenerateWeekDates(today: Date) returns (dates: seq<string>)
    requires Supported(today)
    ensures dates == WeekWindow(today)
  {
    dates := [];
    for i := 0 to WeekLength
      invariant |dates| == i
      invariant forall k :: 0 <= k < i ==> dates[k] == Iso(WeekDay(today, k))
    {
      dates := dates + [Iso(WeekDay(today, i))];
    }
  }

  /** `generateCalendarDates`: a loop counting down from 14 that pushes today-i. */
  method GenerateCalendarDates(today: Date) returns (dates: seq<string>)
    requires Supported(today)
    ensures dates == HistoryWindow(today)
  {
    dates := [];
    var i: int := HistoryLength - 1;
    while i >= 0
      invariant -1 <= i < HistoryLength
      invariant |dates| == HistoryLength - 1 - i
      invariant forall k :: 0 <= k < |dates| ==> dates[k] == Iso(HistoryDay(today, HistoryLength - 1 - k))
    {
      dates := dates + [Iso(HistoryDay(today, i))];
      i := i - 1;
    }
  }

  /** Strictly ascending keys are pairwise distinct. */
  lemma AscendingDistinct(dates: seq<string>)
    requires forall i, j :: 0 <= i < j < |dates| ==> LexLess(dates[i], dates[j])
    ensures forall i, j :: 0 <= i < j < |dates| ==> dates[i] != dates[j]
  {
    forall i, j | 0 <= i < j < |dates|
      ensures dates[i] != dates[j]
    {
      LexLessIrreflexive(dates[i]);
    }
  }

  /**
   * The week window starts at today, each of its days is the day after the
   * previous one, and its keys ascend as strings (so they are pairwise
   * distinct).
   */
  lemma WeekWindowShape(today: Date)
    requires Supported(today)
    ensures var w := WeekWindow(today);
      && w[0] == Iso(today)
      && (forall i :: 0 <= i < WeekLength ==> w[i] == Iso(WeekDay(today, i)) && |w[i]| == 10)
      && (forall i :: 0 < i < WeekLength ==> WeekDay(today, i) == Next(WeekDay(today, i - 1)))
      && (forall i, j :: 0 <= i < j < WeekLength ==> LexLess(w[i], w[j]))
      && (forall i, j :: 0 <= i < j < WeekLength ==> w[i] != w[j])
  {
    var w := WeekWindow(today);
    forall i, j | 0 <= i < j < WeekLength
      ensures LexLess(w[i], w[j])
    {
      AddDaysAscending(today, i, j);
      IsoOrder(WeekDay(today, i), WeekDay(today, j));
    }
    AscendingDistinct(w);
  }

  /** Going one day less far back gives the next day: the history days are consecutive. */
  lemma HistoryConsecutive(today: Date)
    requires Supported(today)
    ensures forall back :: 0 < back < HistoryLength ==>
      HistoryDay(today, back - 1) == Next(HistoryDay(today, back))
  {
    forall back | 0 < back < HistoryLength
      ensures HistoryDay(today, back - 1) == Next(HistoryDay(today, back))
    {
      NextPrevInverse(SubDays(today, back - 1));
    }
  }

  /** Days further back in the history window have smaller keys. */
  lemma HistoryAscending(today: Date, i: nat, j: nat)
    requires Supported(today) && i < j < HistoryLength
    ensures LexLess(HistoryWindow(today)[i], HistoryWindow(today)[j])
  {
    var bi, bj := HistoryLength - 1 - i, HistoryLength - 1 - j;
    SubDaysDescending(today, bj, bi);
    IsoOrder(HistoryDay(today, bi), HistoryDay(today, bj));
  }

  /**
   * The history window ends at today, its i-th key is the day 14-i days back,
   * and its keys ascend as strings (so they are pairwise distinct).
   */
  lemma HistoryWindowShape(today: Date)
    requires Supported(today)
    ensures var h := HistoryWindow(today);
      && h[HistoryLength - 1] == Iso(today)
      && (forall i :: 0 <= i < HistoryLength ==> h[i] == Iso(HistoryDay(today, HistoryLength - 1 - i)))
      && (forall i, j :: 0 <= i < j < HistoryLength ==> LexLess(h[i], h[j]))
      && (forall i, j :: 0 <= i < j < HistoryLength ==> h[i] != h[j])
  {
    var h := HistoryWindow(today);
    assert h[HistoryLength - 1] == Iso(HistoryDay(today, 0));
    forall i, j | 0 <= i < j < HistoryLength
      ensures LexLess(h[i], h[j])
    {
      HistoryAscending(today, i, j);
    }
    AscendingDistinct(h);
  }

  /** A history key and a week key agree only when both are today's. */
  lemma WindowKeysMeet(today: Date, i: nat, j: nat)
    requires Supported(today) && i < HistoryLength && j < WeekLength
    ensures HistoryWindow(today)[i] == WeekWindow(today)[j] <==> i == HistoryLength - 1 && j == 0
  {
    var back := HistoryLength - 1 - i;
    var a, b := HistoryDay(today, back), WeekDay(today, j);
    assert HistoryWindow(today)[i] == Iso(a);
    assert WeekWindow(today)[j] == Iso(b);
    if back > 0 {
      SubDaysDescending(today, 0, back);
    }
    if j > 0 {
      AddDaysAscending(today, 0, j);
    }
    IsoInjective(a, b);
  }

  /** The two windows share exactly one key: the history's last, which is the week's first (today). */
  lemma WindowsMeetAtToday(today: Date)
    requires Supported(today)
    ensures HistoryWindow(today)[HistoryLength - 1] == WeekWindow(today)[0]
    ensures forall i, j :: 0 <= i < HistoryLength && 0 <= j < WeekLength ==>
      (HistoryWindow(today)[i] == WeekWindow(today)[j] <==> i == HistoryLength - 1 && j == 0)
  {
    forall i, j | 0 <= i < HistoryLength && 0 <= j < WeekLength
      ensures HistoryWindow(today)[i] == WeekWindow(today)[j] <==> i == HistoryLength - 1 && j == 0
    {
      WindowKeysMeet(today, i, j);
    }
  }
}
