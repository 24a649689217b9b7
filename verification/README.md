# Pill timeline: a verified model of the schedule and compliance engine

This project models, in Dafny, the medication ("pill") timeline of the
pharmaAi health companion app: the per-date pill schedule, the five-day week
window and the fifteen-day history window, the two actions that change the
schedule (marking a pill taken or untaken, adding a pill to one day or to every
day of the week), the sample data the page starts with, and what the page
derives from the schedule: whether a pill's time has passed, each day's status
(none, complete, missed, partial), each day's taken percentage and the average
over the history window.

Layout, one module per file:

- `wrappers.dfy` (`Wrappers`): an `Option` type; `None` stands for JavaScript's NaN.
- `strings.dfy` (`Strings`): JavaScript's string `<`, decimal digits, `Number(...)` on digit strings, `split`/`join`.
- `calendar.dfy` (`Calendar`): calendar days, the day after/before, and the `YYYY-MM-DD` key with the lemma that string order on keys is chronological order.
- `clock.dfy` (`Clock`): the time of day and the reading of a pill's `HH:MM` time.
- `windows.dfy` (`Windows`): `generateWeekDates` and `generateCalendarDates`.
- `schedule.dfy` (`Schedule`): pills, the schedule map, the toggle and add updates, the sample data.
- `compliance.dfy` (`Compliance`): `isPillTimePassed`, `getDateStatus`, `calculateInsights`, the average.
- `pill_timeline.dfy` (`PillTimeline`): the page as a class whose fields are its React state.

The page reads the clock in three ways, and the model turns each into a parameter:

- "today", a calendar `Date`, whose ISO key is what `toISOString().split("T")[0]` gives;
- "now", a `TimeOfDay` (hours, minutes, seconds, milliseconds);
- `Date.now()`, a natural-number stamp. The all-days loop reads it once per week date, so it takes a sequence of five stamps.

The local hour read while seeding is a parameter too.

The schedule keys stay strings, as in the code. Dates are compared with the
code's string comparison (`LexLess`), and `Calendar.IsoOrder` proves that for
four-digit years this comparison agrees with the calendar.

Each `setPillSchedule(prev => ...)` updater is a method that takes the old map
and returns the new one: `ToggleUpdater` and `AddUpdater`. Each is proved
against a specification function (`Toggled`, `PillAdded`). The class methods
assign what these methods return. Percentages are exact `real` numbers.

Three behaviours of the code that the model keeps as written:

- `addPill` checks only that the name and time are non-empty; it never checks that the time parses;
- `togglePillTaken` flips every pill carrying the id, however many there are;
- the average divides by the number of points, and for an empty list that gives NaN rather than 0. The page's list always has fifteen points.

## Model

| member | source | states |
|---|---|---|
| Calendar.DaysInMonth | app/pill-timeline/page.tsx:36 | Month lengths of the calendar `Date` uses: 28 to 31 days, 29 exactly for February of a leap year |
| Calendar.Next | app/pill-timeline/page.tsx:36 | `setDate(getDate() + 1)` gives a valid day that is later than the given one, with no valid day strictly between the two |
| Calendar.Prev | app/pill-timeline/page.tsx:52 | `setDate(getDate() - 1)` gives a valid day that is earlier than the given one, with no valid day strictly between the two |
| Calendar.NextPrevInverse | app/pill-timeline/page.tsx:34-36 | The day after and the day before undo each other on every valid day. That no day is skipped comes from the "nothing strictly in between" clauses of Next and Prev |
| Calendar.AddDaysAscending | app/pill-timeline/page.tsx:34-36 | Adding more days gives a strictly later day |
| Calendar.SubDaysDescending | app/pill-timeline/page.tsx:50-52 | Going back more days gives a strictly earlier day |
| Calendar.AddDaysYear | app/pill-timeline/page.tsx:36 | Going up to 31 days ahead crosses at most one new year, landing in January |
| Calendar.SubDaysYear | app/pill-timeline/page.tsx:52 | Going up to 31 days back crosses at most one year boundary, landing in December |
| Calendar.AddDays | app/pill-timeline/page.tsx:34-36 | Moving a valid day forward by n single days gives a valid day |
| Calendar.SubDays | app/pill-timeline/page.tsx:50-52 | Moving a valid day back by n single days gives a valid day |
| Calendar.Iso | app/pill-timeline/page.tsx:38 | The date key `toISOString().split("T")[0]` is ten characters long |
| Calendar.IsoOrder | app/pill-timeline/page.tsx:160 | Comparing two date keys as strings (`date < today`) is true exactly when the first day is chronologically earlier |
| Calendar.IsoInjective | app/pill-timeline/page.tsx:160 | Two date keys are equal (`date !== today` is false) exactly when the days are equal |
| Strings.LexLess | app/pill-timeline/page.tsx:160 | JavaScript string `<`: code-unit order, with a proper prefix first. It has no clause of its own; LexLessIrreflexive, LexLessAsymmetric, LexLessConcat and Calendar.IsoOrder characterise it |
| Strings.LexLessIrreflexive | app/pill-timeline/page.tsx:160 | No string sorts before itself |
| Strings.LexLessAsymmetric | app/pill-timeline/page.tsx:160 | If one string sorts before another, the other does not sort before it, and the two differ |
| Strings.LexLessConcat | app/pill-timeline/page.tsx:160 | When two strings start with fields of equal width, the comparison is decided by the first field, then by the rest |
| Strings.Pad2 | app/pill-timeline/page.tsx:38 | A month or day field of the ISO key is exactly two digits |
| Strings.Pad4 | app/pill-timeline/page.tsx:38 | The year field of the ISO key is exactly four digits |
| Strings.Pad2Order | app/pill-timeline/page.tsx:38 | Two-digit fields compare as strings exactly as their numbers compare, and are equal exactly when the numbers are |
| Strings.Pad4Order | app/pill-timeline/page.tsx:38 | Four-digit year fields compare as strings exactly as the years compare, and are equal exactly when the years are |
| Strings.Pad2Value | app/pill-timeline/page.tsx:163 | `Number` applied to a two-digit field gives back its number |
| Strings.DecimalString | app/pill-timeline/page.tsx:119 | `${Date.now()}` is a non-empty string of digits, starting with `0` only for the stamp 0 |
| Strings.DecimalRoundTrip | app/pill-timeline/page.tsx:119 | The digits of `${Date.now()}` read back in base ten as the stamp, so different stamps print differently |
| Strings.NumberValue | app/pill-timeline/page.tsx:163 | `Number(...)` on a time field: digits read in base ten, `""` reads as 0, anything else is NaN. It has no clause of its own; Pad2Value and Clock.ParseFormatRoundTrip state what it reads |
| Strings.Split | app/pill-timeline/page.tsx:163 | `split(":")` gives at least one piece, and no piece contains the separator |
| Strings.JoinSplit | app/pill-timeline/page.tsx:163 | Joining the pieces of `split(":")` with `:` gives back the string |
| Strings.SplitJoin | app/pill-timeline/page.tsx:163 | Splitting a `:`-join of separator-free pieces gives back the pieces |
| Strings.SplitSeparatorFree | app/pill-timeline/page.tsx:163 | A string without `:` splits into itself alone |
| Strings.SplitAfterFirst | app/pill-timeline/page.tsx:163 | A string splits at its first separator into the part before it followed by the split of the rest |
| Clock.FormatClockTime | app/pill-timeline/page.tsx:338-340 | The `HH:MM` value of a time input is five characters long |
| Clock.ParseClockTime | app/pill-timeline/page.tsx:163 | `time.split(":").map(Number)`, NaN in either field giving no value. It has no clause of its own; ParseFormatRoundTrip and NoSeparatorNeverPassed characterise it |
| Clock.ParseFormatRoundTrip | app/pill-timeline/page.tsx:163 | `time.split(":").map(Number)` reads an `HH:MM` value back as its hours and minutes |
| Clock.PassedToday | app/pill-timeline/page.tsx:162-167 | The same-day comparison `now > pillTime`. It has no clause of its own; PassedTodayIffLater, NotPassedAtScheduledInstant and NoSeparatorNeverPassed characterise it |
| Clock.PassedTodayIffLater | app/pill-timeline/page.tsx:162-167 | For today, a pill at `hh:mm` has passed exactly when "now" is strictly later than `hh:mm:00.000` |
| Clock.NotPassedAtScheduledInstant | app/pill-timeline/page.tsx:165-167 | At exactly `hh:mm:00.000` the pill's time has not passed |
| Clock.NoSeparatorNeverPassed | app/pill-timeline/page.tsx:163-167 | A time with no `:` has NaN minutes, so it never counts as passed on its own day |
| Windows.WeekWindow | app/pill-timeline/page.tsx:31-44 | The week window has five keys |
| Windows.HistoryWindow | app/pill-timeline/page.tsx:47-60 | The history window has fifteen keys |
| Windows.GenerateWeekDates | app/pill-timeline/page.tsx:31-44 | The counted loop pushes exactly the keys of today, today+1, ..., today+4, in order |
| Windows.GenerateCalendarDates | app/pill-timeline/page.tsx:47-60 | The count-down loop pushes exactly the keys of today-14, ..., today, in order |
| Windows.WeekWindowShape | app/pill-timeline/page.tsx:31-44 | The week window starts at today's key, each day follows the previous one, and the keys strictly ascend as strings and are pairwise distinct |
| Windows.HistoryConsecutive | app/pill-timeline/page.tsx:47-60 | Each history day is the day after the previous one |
| Windows.HistoryAscending | app/pill-timeline/page.tsx:47-60 | Later positions of the history window hold strictly greater keys |
| Windows.HistoryWindowShape | app/pill-timeline/page.tsx:47-60 | The history window ends at today's key, and its keys strictly ascend and are pairwise distinct |
| Windows.AscendingDistinct | app/pill-timeline/page.tsx:31-60 | Strictly ascending window keys are pairwise distinct |
| Windows.WindowKeysMeet | app/pill-timeline/page.tsx:31-60 | A history key equals a week key exactly when both are today's |
| Windows.WindowsMeetAtToday | app/pill-timeline/page.tsx:31-60 | The history window's last key is the week window's first, and the two windows share no other key |
| Schedule.PillsOn | app/pill-timeline/page.tsx:171 | `pillSchedule[date] \|\| []`. It has no clause of its own; Appended, AddedAcrossElsewhere, AddedAcrossAt and Compliance.GetDateStatus state results through it |
| Schedule.ToggleInList | app/pill-timeline/page.tsx:107-109 | The `map` over one day's pills. It has no clause of its own; Toggled states its effect element by element |
| Schedule.Toggled | app/pill-timeline/page.tsx:103-113 | Toggling keeps the keys, the list lengths and the order; a pill with the given id has `taken` flipped and every other field kept; every other pill is unchanged |
| Schedule.ToggleUpdater | app/pill-timeline/page.tsx:104-111 | The loop over the map's keys returns exactly the toggled schedule |
| Schedule.ToggleTwiceRestores | app/pill-timeline/page.tsx:103-113 | Toggling the same id twice restores the schedule |
| Schedule.ToggleUnknownIdUnchanged | app/pill-timeline/page.tsx:103-113 | Toggling an id that no pill carries leaves the schedule equal to before |
| Schedule.ToggleKeepsDatesMatchKeys | app/pill-timeline/page.tsx:103-113 | Toggling keeps every pill filed under its own date |
| Schedule.NewPill | app/pill-timeline/page.tsx:118-124 | The `newPill` object: the id `${Date.now()}`, the form's name and time, untaken, the selected date. It has no clause of its own; NewPillIdsDistinct and PillTimeline.PillTimelinePage.AddPill characterise it |
| Schedule.NewPillIdsDistinct | app/pill-timeline/page.tsx:118-124 | Pills built at different `Date.now()` readings get different ids |
| Schedule.Appended | app/pill-timeline/page.tsx:141-147 | Single-date add: the selected date's list (created empty if absent) gets the pill at its end, and every other date keeps its list |
| Schedule.StampedId | app/pill-timeline/page.tsx:137 | The id `${dateObj.date}-${Date.now()}`. It has no clause of its own; StampedIdsDistinct characterises it |
| Schedule.Replica | app/pill-timeline/page.tsx:135-139 | The spread `{ ...newPill, id, date }`. It has no clause of its own; AddedAcrossAt and PillTimeline.AddForAllDaysAt characterise it |
| Schedule.AddedAcross | app/pill-timeline/page.tsx:129-140 | The all-days branch, one append per week date in order. It has no clause of its own; AddedAcrossKeys, AddedAcrossElsewhere and AddedAcrossAt characterise it |
| Schedule.AddedAcrossKeys | app/pill-timeline/page.tsx:129-140 | All-days add: the schedule gains the lists it appends to and loses none |
| Schedule.AddedAcrossElsewhere | app/pill-timeline/page.tsx:129-140 | All-days add: a date outside the week keeps its list |
| Schedule.AddedAcrossAt | app/pill-timeline/page.tsx:129-140 | All-days add: each week date's list gets exactly one copy of the new pill at its end, with that date and the id `${date}-${Date.now()}` |
| Schedule.StampedIdsDistinct | app/pill-timeline/page.tsx:137 | The ids `${date}-${Date.now()}` of one all-days add are pairwise distinct, whatever the clock readings |
| Schedule.AppendedKeepsDatesMatchKeys | app/pill-timeline/page.tsx:141-147 | Appending a pill dated with its key keeps every pill under its own date |
| Schedule.AddedAcrossKeepsDatesMatchKeys | app/pill-timeline/page.tsx:129-140 | The all-days add keeps every pill under its own date |
| Schedule.PillAddedKeepsDatesMatchKeys | app/pill-timeline/page.tsx:118-147 | Both add modes keep every pill under its own date |
| Schedule.PillAdded | app/pill-timeline/page.tsx:126-150 | The schedule after either add mode. It has no clause of its own; AddUpdater, PillAddedKeepsDatesMatchKeys and PillTimeline.AddForAllDaysEffect characterise it |
| Schedule.AddUpdater | app/pill-timeline/page.tsx:126-150 | The updater's loop and push return exactly the schedule after the add, in either mode |
| Schedule.SeedPills | app/pill-timeline/page.tsx:72-94 | The three sample pills of one date. It has no clause of its own; SeededShape and Compliance.SeededDayStatus characterise it |
| Schedule.Seeded | app/pill-timeline/page.tsx:70-95 | The sample schedule. It has no clause of its own; SeedSchedule and SeededShape characterise it |
| Schedule.SeedSchedule | app/pill-timeline/page.tsx:70-95 | The seeding loop returns exactly the three sample pills under each week date |
| Schedule.SeededShape | app/pill-timeline/page.tsx:65-97 | The sample schedule has the week dates as keys and files every pill under its own date. Each date holds three pills, and the last one is untaken. All ids are distinct |
| Compliance.IsPillTimePassed | app/pill-timeline/page.tsx:158-168 | `isPillTimePassed`. It has no clause of its own; PillTimePassedByDay and PillTimePassedToday characterise it |
| Compliance.PillTimePassedByDay | app/pill-timeline/page.tsx:158-168 | A past day's pill has always passed, a future day's never has, and on today only the clock decides |
| Compliance.PillTimePassedToday | app/pill-timeline/page.tsx:158-168 | On today, an `hh:mm` pill has passed exactly when "now" is strictly later than `hh:mm:00.000`, and not at that instant |
| Compliance.AllTaken | app/pill-timeline/page.tsx:174 | `every(pill => pill.taken)` holds exactly when every pill is taken |
| Compliance.AnyMissed | app/pill-timeline/page.tsx:175 | `some(...)` holds exactly when some untaken pill's time has passed |
| Compliance.GetDateStatus | app/pill-timeline/page.tsx:170-180 | `none` exactly for no pills; `complete` exactly when all are taken, even if times have passed; `missed` exactly when some untaken pill's time has passed; `partial` exactly when some pill is untaken and none of the untaken ones has passed |
| Compliance.TakenPills | app/pill-timeline/page.tsx:186 | The filter returns at most as many pills as it is given. It has no other clause of its own; TakenPillsElements, TakenPillsMultiplicity and TakenPillsCount state what it keeps |
| Compliance.TakenPillsElements | app/pill-timeline/page.tsx:186 | The filter keeps exactly the taken pills: all it returns are taken, it keeps every taken pill, and it is a sub-multiset of the list. Multiplicities are stated by TakenPillsMultiplicity |
| Compliance.TakenPillsMultiplicity | app/pill-timeline/page.tsx:186 | The filter keeps each taken pill exactly as many times as the list holds it, and no untaken pill |
| Compliance.TakenPillsSnoc | app/pill-timeline/page.tsx:186 | Filtering a list with one more pill at its end keeps that pill exactly when it is taken |
| Compliance.TakenPrefixCount | app/pill-timeline/page.tsx:186 | The filter of the first k pills has as many pills as there are taken positions below k |
| Compliance.TakenPillsCount | app/pill-timeline/page.tsx:186 | The filter keeps every pill exactly when all are taken, and none exactly when none is |
| Compliance.TakenCount | app/pill-timeline/page.tsx:186 | `filter(...).length` equals the number of positions holding a taken pill, and so never exceeds the number of pills |
| Compliance.ShareOfHundred | app/pill-timeline/page.tsx:190 | `taken / total * 100` lies in [0, 100], scales back to `100 * taken`, is 100 exactly when all are taken and 0 exactly when none is |
| Compliance.Percentage | app/pill-timeline/page.tsx:185-190 | A day's percentage lies in [0, 100], is 0 for a day without pills, and times the number of pills equals 100 times the taken count |
| Compliance.PercentageExtremes | app/pill-timeline/page.tsx:190 | A day scores 100 exactly when it has pills and all are taken, and 0 exactly when none is taken |
| Compliance.StatusAgreesWithPercentage | app/pill-timeline/page.tsx:170-190 | A day is `complete` exactly when it scores 100; a day with status `none` scores 0 |
| Compliance.CalculateInsights | app/pill-timeline/page.tsx:183-194 | One point per window date, in window order, each a percentage in [0, 100] that is the day's taken share of 100, and 0 for a day without pills |
| Compliance.AverageCompliance | app/pill-timeline/page.tsx:197 | The average is NaN exactly for an empty list; otherwise it times the number of points is the sum |
| Compliance.SumPercentages | app/pill-timeline/page.tsx:197 | The `reduce` sum of the percentages. It has no clause of its own; SumBounds, SumFullIffEveryPointFull and AverageCompliance state its meaning |
| Compliance.SumBounds | app/pill-timeline/page.tsx:197 | The `reduce` sum of percentages in [0, 100] lies between 0 and 100 times the number of points |
| Compliance.SumFullIffEveryPointFull | app/pill-timeline/page.tsx:197 | The sum reaches 100 times the number of points exactly when every point is 100 |
| Compliance.AverageInRange | app/pill-timeline/page.tsx:197 | A non-empty average lies in [0, 100] and is 100 exactly when every day is |
| Compliance.HistoryInsights | app/pill-timeline/page.tsx:183-197 | The page has fifteen points, one per history day in order; the average divides by 15, never by 0, and lies in [0, 100] |
| Compliance.SeededDayStatus | app/pill-timeline/page.tsx:65-97 | No day of the sample schedule is complete, and a day after today is partial |
| Compliance.VitaminDScenario | app/pill-timeline/page.tsx:158-180 | An untaken 08:00 pill at 09:00 today has passed and makes the day missed; taken, the day is complete |
| Compliance.AverageScenario | app/pill-timeline/page.tsx:197 | Three days scoring 100, 0 and 50 average to 50 |
| PillTimeline.PillTimelinePage.constructor | app/pill-timeline/page.tsx:22-28 | The initial state: nothing selected, the form empty and closed, the history view hidden, an empty schedule |
| PillTimeline.PillTimelinePage.Mount | app/pill-timeline/page.tsx:65-97 | The first effect selects today's key and installs the sample schedule for the week window; the form fields are kept |
| PillTimeline.PillTimelinePage.SelectDate | app/pill-timeline/page.tsx:225 | Clicking a day selects it and changes nothing else |
| PillTimeline.PillTimelinePage.OpenAddPill | app/pill-timeline/page.tsx:246 | The "+" button opens the form and changes nothing else |
| PillTimeline.PillTimelinePage.CancelAddPill | app/pill-timeline/page.tsx:363 | "Cancel" closes the form, keeps what it holds, and leaves the schedule alone |
| PillTimeline.PillTimelinePage.EditForm | app/pill-timeline/page.tsx:329-350 | The inputs set the name, the time and the all-days flag and change nothing else |
| PillTimeline.PillTimelinePage.SetShowCalendar | app/pill-timeline/page.tsx:311 | Switching to the history view (the calendar button at line 311) or back (the "Back to Timeline" button at line 472) changes only that flag |
| PillTimeline.PillTimelinePage.TogglePillTaken | app/pill-timeline/page.tsx:103-113 | The schedule becomes its toggled copy, every other field is kept, and every pill stays under its own date |
| PillTimeline.PillTimelinePage.AddPill | app/pill-timeline/page.tsx:115-156 | With an empty name or time nothing changes. Otherwise the schedule gets the add in the chosen mode, the form is cleared and closed, and every pill stays under its own date |
| PillTimeline.AddForAllDaysAt | app/pill-timeline/page.tsx:129-140 | One week date under the all-days add: its old list, then one new untaken pill with the form's name and time, that date and the id `${date}-${Date.now()}` |
| PillTimeline.AddForAllDaysLists | app/pill-timeline/page.tsx:129-140 | Every week date's list under the all-days add is its old list followed by one new untaken pill carrying that date |
| PillTimeline.AddForAllDaysIds | app/pill-timeline/page.tsx:137 | The pills the all-days add appends to two different week dates have different ids |
| PillTimeline.AddForAllDaysEffect | app/pill-timeline/page.tsx:129-140 | The all-days add gives each of the five week dates exactly one new untaken pill, at the end, with that date and the form's name and time. The new pills' ids are pairwise distinct, and dates outside the week are unchanged |

## Left out

- Display labels (`toLocaleDateString`, `getDate()` for the grid): they are presentation. For the same reason an `InsightPoint` carries the ISO key of its day instead of its display label.
- The chart geometry and the `toFixed(1)` rendering of the average: they are presentation.
- Floating point: percentages and the average are exact reals, so rounding in `takenCount / totalCount * 100` is not modelled.
- Time zones: "today" comes from the UTC `toISOString`, while `setDate` and `setHours` work in local time. Both are one abstract calendar day and time of day here. Daylight-saving shifts and a UTC date that differs from the local date are not modelled.
- Years outside 0000-9999: `Windows.Supported` asks for a today in years 1-9998. JavaScript writes other years in the expanded `+YYYYYY` form, which is not modelled.
- `Number(...)` is modelled on digit strings only, with `""` giving 0. Its other accepted forms (surrounding whitespace, signs, decimals, exponents, hexadecimal) read as NaN here. These forms cannot come from a time input.
- String comparison compares code points. JavaScript compares UTF-16 code units, and the two differ only beyond the Basic Multilingual Plane, which date keys never contain.
- The seed reads the local hour once. The page calls `new Date().getHours()` separately for each pill, so readings straddling an hour boundary are not modelled.
- Aliasing: `{ ...prev }` copies the map shallowly, and `push` then changes the previous state's arrays in place. The model works on values, so it does not capture that the old state also sees the new pill. It also does not capture what happens if the updater runs twice on the same previous state, as React's development mode does.
- React's deferred and batched state updates: each updater is applied at once, in call order.
- Ids of separate adds differ only when their `Date.now()` readings differ (`Schedule.NewPillIdsDistinct`). Two adds in the same millisecond get equal ids, and a later toggle then flips both pills. Clock readings are parameters, so their distinctness is not modelled.
- `handleBack` navigation and the other screens (dashboard, chat assistant, chat proxy route, profile): they are browser plumbing and a third-party network call.
