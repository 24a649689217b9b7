/**
 * The pill timeline page's state and the actions that change it. The page is
 * one object whose fields are its React state; each action assigns the fields
 * its handler sets. "Today" (a calendar day), the local hour and the
 * millisecond clock `Date.now()` are parameters of the actions that read them.
 */
module PillTimeline {
  import opened Strings
  import opened Calendar
  import opened Windows
  import opened Schedule

  class PillTimelinePage {
    var selectedDate: string
    var showAddPill: bool
    var showCalendar: bool
    var pillName: string
    var pillTime: string
    var addForAllDays: bool
    var pillSchedule: PillSchedule

    /** Every pill in the schedule is filed under its own date. */
    ghost predicate Valid()
      reads this
    {
      DatesMatchKeys(pillSchedule)
    }

    /** The initial state: nothing selected, no form open, an empty schedule. */
    constructor ()
      ensures Valid()
      ensures selectedDate == "" && !showAddPill && !showCalendar
      ensures pillName == "" && pillTime == "" && !addForAllDays
      ensures pillSchedule == map[]
    {
      selectedDate := "";
      showAddPill := false;
      showCalendar := false;
      pillName := "";
      pillTime := "";
      addForAllDays := false;
      pillSchedule := map[];
    }

    /**
     * The effect run on first render: select today and replace the schedule
     * with the sample pills for the week window, marked taken according to the
     * local hour.
     */
    method Mount(today: Date, hour: int)
      requires Supported(today)
      modifies this
      ensures Valid()
      ensures selectedDate == Iso(today)
      ensures pillSchedule == Seeded(WeekWindow(today), hour)
      ensures showAddPill == old(showAddPill) && showCalendar == old(showCalendar)
      ensures pillName == old(pillName) && pillTime == old(pillTime) && addForAllDays == old(addForAllDays)
    {
      var weekDates := GenerateWeekDates(today);
      WeekWindowShape(today);
      SeededShape(weekDates, hour);
      selectedDate := weekDates[0];
      pillSchedule := SeedSchedule(weekDates, hour);
    }

    /** A click on a day of the week strip selects it. */
    method SelectDate(date: string)
      modifies this
      ensures selectedDate == date
      ensures showAddPill == old(showAddPill) && showCalendar == old(showCalendar)
      ensures pillName == old(pillName) && pillTime == old(pillTime) && addForAllDays == old(addForAllDays)
      ensures pillSchedule == old(pillSchedule)
    {
      selectedDate := date;
    }

    /** The "+" button opens the add form; the form's fields keep what they hold. */
    method OpenAddPill()
      modifies this
      ensures showAddPill
      ensures selectedDate == old(selectedDate) && showCalendar == old(showCalendar)
      ensures pillName == old(pillName) && pillTime == old(pillTime) && addForAllDays == old(addForAllDays)
      ensures pillSchedule == old(pillSchedule)
    {
      showAddPill := true;
    }

    /** "Cancel" closes the form without clearing it or touching the schedule. */
    method CancelAddPill()
      modifies this
      ensures !showAddPill
      ensures selectedDate == old(selectedDate) && showCalendar == old(showCalendar)
      ensures pillName == old(pillName) && pillTime == old(pillTime) && addForAllDays == old(addForAllDays)
      ensures pillSchedule == old(pillSchedule)
    {
      showAddPill := false;
    }

    /** The form's three inputs: medicine name, time and the "Add for all days" box. */
    method EditForm(name: string, time: string, allDays: bool)
      modifies this
      ensures pillName == name && pillTime == time && addForAllDays == allDays
      ensures selectedDate == old(selectedDate) && showAddPill == old(showAddPill) && showCalendar == old(showCalendar)
      ensures pillSchedule == old(pillSchedule)
    {
      pillName := name;
      pillTime := time;
      addForAllDays := allDays;
    }

    /** Switching between the week timeline and the history view changes no data. */
    method SetShowCalendar(show: bool)
      modifies this
      ensures showCalendar == show
      ensures selectedDate == old(selectedDate) && showAddPill == old(showAddPill)
      ensures pillName == old(pillName) && pillTime == old(pillTime) && addForAllDays == old(addForAllDays)
      ensures pillSchedule == old(pillSchedule)
    {
      showCalendar := show;
    }

    /**
     * `togglePillTaken(pillId)`: the schedule becomes its toggled copy; every
     * other field is kept, and every pill stays under its own date.
     */
    method TogglePillTaken(pillId: string)
      requires Valid()
      modifies this
      ensures Valid()
      ensures pillSchedule == Toggled(old(pillSchedule), pillId)
      ensures selectedDate == old(selectedDate) && showAddPill == old(showAddPill) && showCalendar == old(showCalendar)
      ensures pillName == old(pillName) && pillTime == old(pillTime) && addForAllDays == old(addForAllDays)
    {
      ToggleKeepsDatesMatchKeys(pillSchedule, pillId);
      pillSchedule := ToggleUpdater(pillSchedule, pillId);
    }

    /**
     * `addPill()`. With an empty name or time it returns at once and changes
     * nothing. Otherwise the new untaken pill, stamped `stamp`, is appended to
     * the selected date's list, or one copy of it per week date, stamped with
     * the clock readings `stamps`, is appended to that date's list; then the
     * form is cleared and closed. Every pill stays under its own date.
     */
    method AddPill(today: Date, stamp: nat, stamps: seq<nat>)
      requires Valid() && Supported(today) && |stamps| == WeekLength
      modifies this
      ensures Valid()
      ensures old(pillName) == "" || old(pillTime) == "" ==>
        && pillSchedule == old(pillSchedule) && selectedDate == old(selectedDate)
        && showAddPill == old(showAddPill) && showCalendar == old(showCalendar)
        && pillName == old(pillName) && pillTime == old(pillTime) && addForAllDays == old(addForAllDays)
      ensures old(pillName) != "" && old(pillTime) != "" ==>
        && pillSchedule == PillAdded(old(pillSchedule), NewPill(stamp, old(pillName), old(pillTime), old(selectedDate)),
                                     old(addForAllDays), old(selectedDate), WeekWindow(today), stamps)
        && pillName == "" && pillTime == "" && !showAddPill && !addForAllDays
        && selectedDate == old(selectedDate) && showCalendar == old(showCalendar)
    {
      if pillName == "" || pillTime == "" {
        return;
      }
      var newPill := Pill(DecimalString(stamp), pillName, pillTime, false, selectedDate);
      var weekDates := GenerateWeekDates(today);
      PillAddedKeepsDatesMatchKeys(pillSchedule, newPill, addForAllDays, selectedDate, weekDates, stamps);
      pillSchedule := AddUpdater(pillSchedule, newPill, addForAllDays, selectedDate, weekDates, stamps);
      pillName := "";
      pillTime := "";
      showAddPill := false;
      addForAllDays := false;
    }
  }

  /** One week date under "Add for all days": its old list, then one new untaken pill with that date and the form's name and time. */
  lemma AddForAllDaysAt(s: PillSchedule, pill: Pill, today: Date, stamps: seq<nat>, i: nat)
    requires Supported(today) && |stamps| == WeekLength && !pill.taken && i < WeekLength
    ensures var w := WeekWindow(today);
      var r := AddedAcross(s, pill, w, stamps);
      var n := |PillsOn(s, w[i])|;
      && w[i] in r && |r[w[i]]| == n + 1 && r[w[i]][..n] == PillsOn(s, w[i])
      && r[w[i]][n] == Replica(pill, w[i], stamps[i])
      && r[w[i]][n].name == pill.name && r[w[i]][n].time == pill.time
      && !r[w[i]][n].taken && r[w[i]][n].date == w[i]
      && r[w[i]][n].id == StampedId(w[i], stamps[i])
  {
    var w := WeekWindow(today);
    WeekWindowShape(today);
    AddedAcrossKeys(s, pill, w, stamps);
    AddedAcrossAt(s, pill, w, stamps, i);
    var r := AddedAcross(s, pill, w, stamps);
    var n := |PillsOn(s, w[i])|;
    assert r[w[i]] == PillsOn(s, w[i]) + [Replica(pill, w[i], stamps[i])];
    assert r[w[i]][n] == Replica(pill, w[i], stamps[i]);
  }

  /** The pills "Add for all days" appends to two different week dates have different ids. */
  lemma AddForAllDaysIds(s: PillSchedule, pill: Pill, today: Date, stamps: seq<nat>, i: nat, j: nat)
    requires Supported(today) && |stamps| == WeekLength && !pill.taken && i < j < WeekLength
    ensures var w := WeekWindow(today);
      var r := AddedAcross(s, pill, w, stamps);
      w[i] in r && w[j] in r && |r[w[i]]| > |PillsOn(s, w[i])| && |r[w[j]]| > |PillsOn(s, w[j])|
      && r[w[i]][|PillsOn(s, w[i])|].id != r[w[j]][|PillsOn(s, w[j])|].id
  {
    var w := WeekWindow(today);
    AddForAllDaysAt(s, pill, today, stamps, i);
    AddForAllDaysAt(s, pill, today, stamps, j);
    WeekWindowShape(today);
    StampedIdsDistinct(w, stamps);
  }

  /** Every week date's list under "Add for all days": the old list, then one new untaken pill with the form's name and time and that date. */
  lemma AddForAllDaysLists(s: PillSchedule, pill: Pill, today: Date, stamps: seq<nat>)
    requires Supported(today) && |stamps| == WeekLength && !pill.taken
    ensures var w := WeekWindow(today);
      var r := AddedAcross(s, pill, w, stamps);
      forall i :: 0 <= i < WeekLength ==>
        && w[i] in r
        && |r[w[i]]| == |PillsOn(s, w[i])| + 1
        && r[w[i]][..|PillsOn(s, w[i])|] == PillsOn(s, w[i])
        && var added := r[w[i]][|PillsOn(s, w[i])|];
           added.name == pill.name && added.time == pill.time && !added.taken && added.date == w[i]
  {
    forall i | 0 <= i < WeekLength
      ensures var w := WeekWindow(today);
        var r := AddedAcross(s, pill, w, stamps);
        && w[i] in r
        && |r[w[i]]| == |PillsOn(s, w[i])| + 1
        && r[w[i]][..|PillsOn(s, w[i])|] == PillsOn(s, w[i])
        && var added := r[w[i]][|PillsOn(s, w[i])|];
           added.name == pill.name && added.time == pill.time && !added.taken && added.date == w[i]
    {
      AddForAllDaysAt(s, pill, today, stamps, i);
    }
  }

  /**
   * What "Add for all days" does to the schedule: each of the five week dates
   * gets exactly one new untaken pill, at the end of its list, carrying that
   * date and an id no other new pill has; every date outside the week keeps
   * its list.
   */
  lemma AddForAllDaysEffect(s: PillSchedule, pill: Pill, today: Date, stamps: seq<nat>)
    requires Supported(today) && |stamps| == WeekLength && !pill.taken
    ensures var w := WeekWindow(today);
      var r := AddedAcross(s, pill, w, stamps);
      && r.Keys == s.Keys + (set d | d in w)
      && (forall i :: 0 <= i < WeekLength ==>
            && |r[w[i]]| == |PillsOn(s, w[i])| + 1
            && r[w[i]][..|PillsOn(s, w[i])|] == PillsOn(s, w[i])
            && var added := r[w[i]][|PillsOn(s, w[i])|];
               added.name == pill.name && added.time == pill.time && !added.taken && added.date == w[i])
      && (forall i, j :: 0 <= i < j < WeekLength ==>
            r[w[i]][|PillsOn(s, w[i])|].id != r[w[j]][|PillsOn(s, w[j])|].id)
      && (forall d :: d in s && d !in w ==> r[d] == s[d])
  {
    var w := WeekWindow(today);
    var r: PillSchedule := AddedAcross(s, pill, w, stamps);
    AddedAcrossKeys(s, pill, w, stamps);
    AddForAllDaysLists(s, pill, today, stamps);
    forall i, j | 0 <= i < j < WeekLength
      ensures r[w[i]][|PillsOn(s, w[i])|].id != r[w[j]][|PillsOn(s, w[j])|].id
    {
      AddForAllDaysIds(s, pill, today, stamps, i, j);
    }
    forall d | d in s && d !in w
      ensures r[d] == s[d]
    {
      AddedAcrossElsewhere(s, pill, w, stamps, d);
    }
  }
}
