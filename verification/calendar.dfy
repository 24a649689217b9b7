/**
 * Calendar days as JavaScript's `Date` counts them (the proleptic Gregorian
 * calendar), the `setDate(getDate() ± n)` arithmetic the page uses to build its
 * windows, and the `YYYY-MM-DD` key that `toISOString().split("T")[0]` gives.
 */
module Calendar {
  import opened Strings

  datatype Date = Date(year: int, month: int, day: int)

  predicate IsLeapYear(y: int)
  {
    y % 4 == 0 && (y % 100 != 0 || y % 400 == 0)
  }

  function DaysInMonth(year: int, month: int): (n: int)
    requires 1 <= month <= 12
    ensures 28 <= n <= 31
    ensures n == 29 <==> month == 2 && IsLeapYear(year)
  {
    if month == 2 then (if IsLeapYear(year) then 29 else 28)
    else if month == 4 || month == 6 || month == 9 || month == 11 then 30
    else 31
  }

  predicate Valid(d: Date)
  {
    1 <= d.month <= 12 && 1 <= d.day <= DaysInMonth(d.year, d.month)
  }

  /** Chronological order of calendar days. */
  predicate Before(a: Date, b: Date)
  {
    a.year < b.year || (a.year == b.year && (a.month < b.month || (a.month == b.month && a.day < b.day)))
  }

  /** The following day (`setDate(getDate() + 1)`): later, with no valid day strictly in between. */
  function Next(d: Date): (r: Date)
    requires Valid(d)
    ensures Valid(r) && Before(d, r)
    ensures forall e :: Valid(e) ==> !(Before(d, e) && Before(e, r))
  {
    if d.day < DaysInMonth(d.year, d.month) then Date(d.year, d.month, d.day + 1)
    else if d.month < 12 then Date(d.year, d.month + 1, 1)
    else Date(d.year + 1, 1, 1)
  }

  /** The preceding day (`setDate(getDate() - 1)`): earlier, with no valid day strictly in between. */
  function Prev(d: Date): (r: Date)
    requires Valid(d)
    ensures Valid(r) && Before(r, d)
    ensures forall e :: Valid(e) ==> !(Before(r, e) && Before(e, d))
  {
    if d.day > 1 then Date(d.year, d.month, d.day - 1)
    else if d.month > 1 then Date(d.year, d.month - 1, DaysInMonth(d.year, d.month - 1))
    else Date(d.year - 1, 12, 31)
  }

  /** Next and Prev undo each other: no day is skipped or repeated. */
  lemma NextPrevInverse(d: Date)
    requires Valid(d)
    ensures Next(Prev(d)) == d
    ensures Prev(Next(d)) == d
  {
  }

  /** `setDate(getDate() + n)`: the day `n` days after `d`. */
  function AddDays(d: Date, n: nat): (r: Date)
    requires Valid(d)
    ensures Valid(r)
    decreases n
  {
    if n == 0 then d else Next(AddDays(d, n - 1))
  }

  /** `setDate(getDate() - n)`: the day `n` days before `d`. */
  function SubDays(d: Date, n: nat): (r: Date)
    requires Valid(d)
    ensures Valid(r)
    decreases n
  {
    if n == 0 then d else Prev(SubDays(d, n - 1))
  }

  /** Days further ahead are later. */
  lemma {:induction false} AddDaysAscending(d: Date, i: nat, j: nat)
    requires Valid(d) && i < j
    ensures Before(AddDays(d, i), AddDays(d, j))
    decreases j
  {
    if i < j - 1 {
      AddDaysAscending(d, i, j - 1);
    }
  }

  /** Days further back are earlier. */
  lemma {:induction false} SubDaysDescending(d: Date, i: nat, j: nat)
    requires Valid(d) && i < j
    ensures Before(SubDays(d, j), SubDays(d, i))
    decreases j
  {
    if i < j - 1 {
      SubDaysDescending(d, i, j - 1);
    }
  }

  /** Within a month of `d`, adding days crosses at most one new year, into January. */
  lemma {:induction false} AddDaysYear(d: Date, n: nat)
    requires Valid(d) && n <= 31
    ensures var r := AddDays(d, n);
      r.year == d.year || (r.year == d.year + 1 && r.month == 1 && r.day <= n)
    decreases n
  {
    if n > 0 {
      AddDaysYear(d, n - 1);
    }
  }

  /** Within a month of `d`, going back crosses at most one year boundary, into December. */
  lemma {:induction false} SubDaysYear(d: Date, n: nat)
    requires Valid(d) && n <= 31
    ensures var r := SubDays(d, n);
      r.year == d.year || (r.year == d.year - 1 && r.month == 12 && r.day > 31 - n)
    decreases n
  {
    if n > 0 {
      SubDaysYear(d, n - 1);
    }
  }

  // ---------------------------------------------------------------------------
  // The ISO key

  /** A day that `toISOString` writes with a four-digit year. */
  predicate Formattable(d: Date)
  {
    Valid(d) && 0 <= d.year <= 9999
  }

  /** `toISOString().split("T")[0]`: the `YYYY-MM-DD` key of a day. */
  function Iso(d: Date): (s: string)
    requires Formattable(d)
    ensures |s| == 10
  {
    Pad4(d.year) + "-" + Pad2(d.month) + "-" + Pad2(d.day)
  }

  /** Comparing ISO keys as strings orders days chronologically. */
  lemma IsoOrder(a: Date, b: Date)
    requires Formattable(a) && Formattable(b)
    ensures LexLess(Iso(a), Iso(b)) <==> Before(a, b)
  {
    var dash: string := "-";
    assert Iso(a) == Pad4(a.year) + (dash + (Pad2(a.month) + (dash + Pad2(a.day))));
    assert Iso(b) == Pad4(b.year) + (dash + (Pad2(b.month) + (dash + Pad2(b.day))));
    Pad4Order(a.year, b.year);
    Pad2Order(a.month, b.month);
    Pad2Order(a.day, b.day);
    LexLessIrreflexive(dash);
    LexLessConcat(Pad4(a.year), dash + (Pad2(a.month) + (dash + Pad2(a.day))),
                  Pad4(b.year), dash + (Pad2(b.month) + (dash + Pad2(b.day))));
    LexLessConcat(dash, Pad2(a.month) + (dash + Pad2(a.day)), dash, Pad2(b.month) + (dash + Pad2(b.day)));
    LexLessConcat(Pad2(a.month), dash + Pad2(a.day), Pad2(b.month), dash + Pad2(b.day));
    LexLessConcat(dash, Pad2(a.day), dash, Pad2(b.day));
  }

  /** Distinct days have distinct ISO keys. */
  lemma IsoInjective(a: Date, b: Date)
    requires Formattable(a) && Formattable(b)
    ensures Iso(a) == Iso(b) <==> a == b
  {
    if a != b {
      IsoOrder(a, b);
      IsoOrder(b, a);
      LexLessIrreflexive(Iso(a));
    }
  }
}
