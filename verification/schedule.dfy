/**
 * The schedule store: a map from an ISO date key to the ordered list of pills
 * for that day, with the two updates the page applies to it (`togglePillTaken`
 * and `addPill`) and the sample data it is seeded with.
 */
module Schedule {
  import opened Strings

  datatype Pill = Pill(id: string, name: string, time: string, taken: bool, date: string)

  type PillSchedule = map<string, seq<Pill>>

  /** `schedule[date] || []`: the list stored under `date`, or no pills when the key is absent. */
  function PillsOn(s: PillSchedule, date: string): seq<Pill>
  {
    if date in s then s[date] else []
  }

  /** Every pill is filed under its own date. */
  predicate DatesMatchKeys(s: PillSchedule)
  {
    forall d, i :: d in s && 0 <= i < |s[d]| ==> s[d][i].date == d
  }

  // ---------------------------------------------------------------------------
  // togglePillTaken

  /** `pills.map(pill => pill.id === id ? { ...pill, taken: !pill.taken } : pill)`. */
  function ToggleInList(pills: seq<Pill>, id: string): seq<Pill>
  {
    seq(|pills|, i requires 0 <= i < |pills| =>
      if pills[i].id == id then pills[i].(taken := !pills[i].taken) else pills[i])
  }

  /**
   * The schedule after `togglePillTaken(id)`: the same keys and list lengths;
   * a pill whose id is `id` has its `taken` flag flipped and every other field
   * kept; every other pill is kept as it was.
   */
  function Toggled(s: PillSchedule, id: string): (r: PillSchedule)
    ensures r.Keys == s.Keys
    ensures forall d :: d in s ==> |r[d]| == |s[d]|
    ensures forall d, i :: d in s && 0 <= i < |s[d]| ==>
      r[d][i] == s[d][i].(taken := if s[d][i].id == id then !s[d][i].taken else s[d][i].taken)
  {
    map d | d in s :: ToggleInList(s[d], id)
  }

  /**
   * The updater `togglePillTaken` passes to `setPillSchedule`: copy the map,
   * then reassign each key's list to its toggled copy, one key at a time.
   */
  method ToggleUpdater(prev: PillSchedule, id: string) returns (next: PillSchedule)
    ensures next == Toggled(prev, id)
  {
    next := prev;
    var pending := prev.Keys;
    while pending != {}
      invariant pending <= prev.Keys && next.Keys == prev.Keys
      invariant forall d :: d in prev && d !in pending ==> next[d] == ToggleInList(prev[d], id)
      invariant forall d :: d in pending ==> next[d] == prev[d]
      decreases pending
    {
      var d :| d in pending;
      next := next[d := ToggleInList(next[d], id)];
      pending := pending - {d};
    }
  }

  /** Toggling the same id twice restores the schedule. */
  lemma ToggleTwiceRestores(s: PillSchedule, id: string)
    ensures Toggled(Toggled(s, id), id) == s
  {
    var t := Toggled(Toggled(s, id), id);
    forall d | d in s
      ensures t[d] == s[d]
    {
      assert |t[d]| == |s[d]|;
      forall i | 0 <= i < |s[d]|
        ensures t[d][i] == s[d][i]
      {
      }
    }
  }

  /** Toggling an id that no pill carries changes nothing. */
  lemma ToggleUnknownIdUnchanged(s: PillSchedule, id: string)
    requires forall d, i :: d in s && 0 <= i < |s[d]| ==> s[d][i].id != id
    ensures Toggled(s, id) == s
  {
    var t := Toggled(s, id);
    forall d | d in s
      ensures t[d] == s[d]
    {
      assert |t[d]| == |s[d]|;
      forall i | 0 <= i < |s[d]|
        ensures t[d][i] == s[d][i]
      {
      }
    }
  }

  /** Toggling keeps every pill under its own date. */
  lemma ToggleKeepsDatesMatchKeys(s: PillSchedule, id: string)
    requires DatesMatchKeys(s)
    ensures DatesMatchKeys(Toggled(s, id))
  {
  }

  // ---------------------------------------------------------------------------
  // addPill

  /** The pill `addPill` builds from the form: `{ id: `${Date.now()}`, name, time, taken: false, date }`. */
  function NewPill(stamp: nat, name: string, time: string, date: string): Pill
  {
    Pill(DecimalString(stamp), name, time, false, date)
  }

  /** Pills built at different clock readings get different ids. */
  lemma NewPillIdsDistinct(stamp1: nat, stamp2: nat, name1: string, name2: string,
                           time1: string, time2: string, date1: string, date2: string)
    requires stamp1 != stamp2
    ensures NewPill(stamp1, name1, time1, date1).id != NewPill(stamp2, name2, time2, date2).id
  {
    DecimalRoundTrip(stamp1);
    DecimalRoundTrip(stamp2);
  }

  /**
   * `if (!s[date]) s[date] = []; s[date].push(pill)`: the list under `date`
   * (created empty if absent) gets `pill` at its end; other keys keep theirs.
   */
  function Appended(s: PillSchedule, date: string, pill: Pill): (r: PillSchedule)
    ensures r.Keys == s.Keys + {date}
    ensures r[date] == PillsOn(s, date) + [pill]
    ensures forall d :: d in s && d != date ==> r[d] == s[d]
  {
    s[date := PillsOn(s, date) + [pill]]
  }

  /** `${date}-${stamp}`: the id of a pill added to every day. */
  function StampedId(date: string, stamp: nat): string
  {
    date + "-" + DecimalString(stamp)
  }

  /** `{ ...pill, id: `${date}-${Date.now()}`, date }`: the copy of `pill` filed under `date`. */
  function Replica(pill: Pill, date: string, stamp: nat): Pill
  {
    pill.(id := StampedId(date, stamp), date := date)
  }

  /**
   * The all-days branch: for each date in turn, the copy of `pill` for that
   * date, stamped with the clock reading taken at that step, is appended.
   */
  function AddedAcross(s: PillSchedule, pill: Pill, dates: seq<string>, stamps: seq<nat>): PillSchedule
    requires |stamps| == |dates|
    decreases |dates|
  {
    if |dates| == 0 then s
    else
      var n := |dates| - 1;
      Appended(AddedAcross(s, pill, dates[..n], stamps[..n]), dates[n], Replica(pill, dates[n], stamps[n]))
  }

  predicate Distinct(dates: seq<string>)
  {
    forall i, j :: 0 <= i < j < |dates| ==> dates[i] != dates[j]
  }

  /** The all-days branch creates the lists it appends to and removes none. */
  lemma {:induction false} AddedAcrossKeys(s: PillSchedule, pill: Pill, dates: seq<string>, stamps: seq<nat>)
    requires |stamps| == |dates|
    ensures AddedAcross(s, pill, dates, stamps).Keys == s.Keys + (set d | d in dates)
    decreases |dates|
  {
    if |dates| > 0 {
      var n := |dates| - 1;
      var front := dates[..n];
      AddedAcrossKeys(s, pill, front, stamps[..n]);
      forall d: string
        ensures d in dates <==> d in front || d == dates[n]
      {
        assert dates == front + [dates[n]];
      }
    }
  }

  /** A date outside the list keeps its list. */
  lemma {:induction false} AddedAcrossElsewhere(s: PillSchedule, pill: Pill, dates: seq<string>, stamps: seq<nat>, d: string)
    requires |stamps| == |dates| && d !in dates
    ensures PillsOn(AddedAcross(s, pill, dates, stamps), d) == PillsOn(s, d)
    decreases |dates|
  {
    if |dates| > 0 {
      var n := |dates| - 1;
      assert d != dates[n];
      assert d !in dates[..n];
      AddedAcrossElsewhere(s, pill, dates[..n], stamps[..n], d);
    }
  }

  /** Each of distinct dates gets exactly one copy of `pill`, at the end of its list, carrying that date. */
  lemma {:induction false} AddedAcrossAt(s: PillSchedule, pill: Pill, dates: seq<string>, stamps: seq<nat>, i: nat)
    requires |stamps| == |dates| && Distinct(dates) && i < |dates|
    ensures PillsOn(AddedAcross(s, pill, dates, stamps), dates[i]) == PillsOn(s, dates[i]) + [Replica(pill, dates[i], stamps[i])]
    decreases |dates|
  {
    var n := |dates| - 1;
    var front := dates[..n];
    if i == n {
      assert dates[n] !in front by {
        forall k | 0 <= k < n ensures front[k] != dates[n] { }
      }
      AddedAcrossElsewhere(s, pill, front, stamps[..n], dates[n]);
    } else {
      assert front[i] == dates[i] && dates[i] != dates[n];
      AddedAcrossAt(s, pill, front, stamps[..n], i);
    }
  }

  /** Ids `${date}-${stamp}` built from distinct keys of one width are pairwise distinct, whatever the stamps. */
  lemma StampedIdsDistinct(dates: seq<string>, stamps: seq<nat>)
    requires |stamps| == |dates| && Distinct(dates)
    requires forall i :: 0 <= i < |dates| ==> |dates[i]| == 10
    ensures forall i, j :: 0 <= i < j < |dates| ==> StampedId(dates[i], stamps[i]) != StampedId(dates[j], stamps[j])
  {
    forall i, j | 0 <= i < j < |dates|
      ensures StampedId(dates[i], stamps[i]) != StampedId(dates[j], stamps[j])
    {
      var a, b := StampedId(dates[i], stamps[i]), StampedId(dates[j], stamps[j]);
      assert a[..10] == dates[i] && b[..10] == dates[j];
    }
  }

  /** Appending a pill under its own date keeps every pill under its own date. */
  lemma AppendedKeepsDatesMatchKeys(s: PillSchedule, date: string, pill: Pill)
    requires DatesMatchKeys(s) && pill.date == date
    ensures DatesMatchKeys(Appended(s, date, pill))
  {
    var r: PillSchedule := Appended(s, date, pill);
    forall d: string, i: int | d in r && 0 <= i < |r[d]|
      ensures r[d][i].date == d
    {
      if d == date && i < |PillsOn(s, date)| {
        assert r[d][i] == s[d][i];
      }
    }
  }

  /** The all-days branch keeps every pill under its own date. */
  lemma {:induction false} AddedAcrossKeepsDatesMatchKeys(s: PillSchedule, pill: Pill, dates: seq<string>, stamps: seq<nat>)
    requires |stamps| == |dates| && DatesMatchKeys(s)
    ensures DatesMatchKeys(AddedAcross(s, pill, dates, stamps))
    decreases |dates|
  {
    if |dates| > 0 {
      var n := |dates| - 1;
      AddedAcrossKeepsDatesMatchKeys(s, pill, dates[..n], stamps[..n]);
      AppendedKeepsDatesMatchKeys(AddedAcross(s, pill, dates[..n], stamps[..n]), dates[n], Replica(pill, dates[n], stamps[n]));
    }
  }

  /** The schedule after `addPill`'s update, in either mode. */
  function PillAdded(prev: PillSchedule, newPill: Pill, forAllDays: bool, selectedDate: string,
                     weekDates: seq<string>, stamps: seq<nat>): PillSchedule
    requires |stamps| == |weekDates|
  {
    if forAllDays then AddedAcross(prev, newPill, weekDates, stamps) else Appended(prev, selectedDate, newPill)
  }

  /** Both modes keep every pill under its own date, provided the new pill is dated with the selected date. */
  lemma PillAddedKeepsDatesMatchKeys(prev: PillSchedule, newPill: Pill, forAllDays: bool, selectedDate: string,
                                     weekDates: seq<string>, stamps: seq<nat>)
    requires |stamps| == |weekDates| && DatesMatchKeys(prev) && newPill.date == selectedDate
    ensures DatesMatchKeys(PillAdded(prev, newPill, forAllDays, selectedDate, weekDates, stamps))
  {
    if forAllDays {
      AddedAcrossKeepsDatesMatchKeys(prev, newPill, weekDates, stamps);
    } else {
      AppendedKeepsDatesMatchKeys(prev, selectedDate, newPill);
    }
  }

  /**
   * The updater `addPill` passes to `setPillSchedule`: copy the map, then
   * either push a copy of the new pill onto each week date's list (creating
   * missing lists), reading the clock again at each step, or push the pill
   * onto the selected date's list.
   */
  method AddUpdater(prev: PillSchedule, newPill: Pill, forAllDays: bool, selectedDate: string,
                    weekDates: seq<string>, stamps: seq<nat>) returns (next: PillSchedule)
    requires |stamps| == |weekDates|
    ensures next == PillAdded(prev, newPill, forAllDays, selectedDate, weekDates, stamps)
  {
    next := prev;
    if forAllDays {
      for i := 0 to |weekDates|
        invariant next == AddedAcross(prev, newPill, weekDates[..i], stamps[..i])
      {
        var date := weekDates[i];
        if date !in next {
          next := next[date := []];
        }
        next := next[date := next[date] + [newPill.(id := date + "-" + DecimalString(stamps[i]), date := date)]];
        assert weekDates[..i + 1][..i] == weekDates[..i] && stamps[..i + 1][..i] == stamps[..i];
      }
      assert weekDates[..|weekDates|] == weekDates && stamps[..|stamps|] == stamps;
    } else {
      if selectedDate !in next {
        next := next[selectedDate := []];
      }
      next := next[selectedDate := next[selectedDate] + [newPill]];
    }
  }

  // ---------------------------------------------------------------------------
  // The sample data

  /**
   * The three sample pills of one day; the two earlier ones are marked taken
   * when the local hour at seeding is past their hour.
   */
  function SeedPills(date: string, hour: int): seq<Pill>
  {
    [ Pill(date + "-1", "Vitamin D", "08:00", hour > 8, date),
      Pill(date + "-2", "Omega-3", "12:00", hour > 12, date),
      Pill(date + "-3", "Calcium", "20:00", false, date) ]
  }

  /** The sample schedule: each given date holds its three sample pills. */
  function Seeded(dates: seq<string>, hour: int): PillSchedule
  {
    map d | d in dates :: SeedPills(d, hour)
  }

  /** The seeding loop of the page's first effect: one assignment per week date. */
  method SeedSchedule(weekDates: seq<string>, hour: int) returns (s: PillSchedule)
    ensures s == Seeded(weekDates, hour)
  {
    s := map[];
    for i := 0 to |weekDates|
      invariant s.Keys == set d | d in weekDates[..i]
      invariant forall d :: d in s ==> s[d] == SeedPills(d, hour)
    {
      s := s[weekDates[i] := SeedPills(weekDates[i], hour)];
      assert weekDates[..i + 1] == weekDates[..i] + [weekDates[i]];
    }
    assert weekDates[..|weekDates|] == weekDates;
  }

  /**
   * The sample schedule files every pill under its own date, holds three pills
   * per date of which the last ("Calcium") is never taken, and, when the dates
   * are distinct keys of one width, gives every pill a distinct id.
   */
  lemma SeededShape(dates: seq<string>, hour: int)
    requires forall i :: 0 <= i < |dates| ==> |dates[i]| == 10
    ensures var s := Seeded(dates, hour);
      && s.Keys == (set d | d in dates)
      && DatesMatchKeys(s)
      && (forall d :: d in s ==> |s[d]| == 3 && !s[d][2].taken)
      && (forall d1, d2, i, j :: d1 in s && d2 in s && 0 <= i < 3 && 0 <= j < 3 && (d1 != d2 || i != j)
            ==> s[d1][i].id != s[d2][j].id)
  {
    var s: PillSchedule := Seeded(dates, hour);
    forall d1: string, d2: string, i: int, j: int | d1 in s && d2 in s && 0 <= i < 3 && 0 <= j < 3 && (d1 != d2 || i != j)
      ensures s[d1][i].id != s[d2][j].id
    {
      var a, b := s[d1][i].id, s[d2][j].id;
      assert |a| == 12 && |b| == 12;
      assert a[..10] == d1 && b[..10] == d2;
      assert a[11] == Digit(i + 1) && b[11] == Digit(j + 1);
    }
  }
}
