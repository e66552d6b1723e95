# CRM dashboard views in Dafny

A Dafny model of the logic behind four views of a small CRM dashboard written in React:

- **Contacts**: search, pinned-first ordering, avatar initials, and the add, edit, delete and pin
  commands on the contact list.
- **Calendar**: appointment search, month navigation, the month grid (leading blank cells, then
  one cell per day holding that day's appointments, with today marked), the two-line cell
  preview, the upcoming list and the quick stats.
- **Tasks**: search, the pending/completed split, the overdue test, the four counters, the action
  button each task offers and the priority badge.
- **Opportunities**: search, the six pipeline stages, the per-stage overview cards, the
  probability colour bands and the stage badge.

The shared pieces live in their own modules:

- `Wrappers`: `Option`.
- `Seqs`: `Array.prototype.filter`, `slice(0, n)` and a stable sort, with their properties.
- `Text`: lower/upper case, `includes`, `split`/`join`, `replace` of the first occurrence, and
  number formatting and parsing.
- `Dates`: the day arithmetic of ECMAScript `Date` (ECMA-262, section 21.4.1: `MakeDay`, `WeekDay`,
  days in a month), the `YYYY-MM-DD` text the views build, and how `new Date(...)` reads it.

Each view's list state changes in place through its own class:

- `Contacts.ContactStore` holds the contact list. Its methods are proved against pure functions
  on sequences (`NewContact`, `WithEdit`, `Without`, `WithToggle`), and lemmas about those
  functions state what the commands promise.
- `Calendar.MonthView` holds the displayed month.
- `Calendar.BuildGrid` keeps the two counting loops of `renderCalendarGrid`. It is proved equal
  to the grid function `Calendar.Grid`, about which the grid lemmas are stated.

The clock is a parameter. `now` is the current time value in milliseconds, and `today` holds
today's calendar fields. The local time zone is taken to be UTC.

The intended behaviour and the code differ in three places:

- An edit, delete or pin that names an unknown id is meant to fail with `NotFound`. The code
  does nothing and signals nothing. The model follows the code: it leaves the list unchanged
  (`Contacts.DeleteAbsentId`) and signals nothing.
- The upcoming list is meant to exclude only the dates strictly before today. The code also
  drops today's appointments (first finding below). `Calendar.UpcomingAsWritten` follows the
  code. `Calendar.Upcoming`, the list the rest of the model uses, follows the intent.
- Navigation is meant to move the displayed month by exactly one. The code can skip a month
  (second finding below). `Calendar.SetMonthAsWritten` follows the code. `Calendar.Step` and
  `Calendar.MonthView.Navigate` follow the intent.

## Model

| member | source | states |
|---|---|---|
| Contacts.FilteredContacts | src/components/Contacts.tsx:92-96 | the result is the subsequence of the contacts whose name, company or email contains the query, ignoring case; each matching contact occurs in it as often as in the list, and no other contact occurs |
| Contacts.EmptyQueryKeepsAll | src/components/Contacts.tsx:92-96 | an empty search term keeps the whole list, in order |
| Contacts.SearchIgnoresQueryCase | src/components/Contacts.tsx:92-96 | upper-casing the search term changes nothing in the result |
| Contacts.ContactOrderIsTotalPreorder | src/components/Contacts.tsx:99-103 | the pinned-first, then-by-name comparator is a total preorder whenever the name comparison is one |
| Contacts.SortedContactsOrder | src/components/Contacts.tsx:99-103 | the sorted list is a permutation of the filtered list; every pinned contact comes before every unpinned one; within the same pin state the names are in ascending order |
| Contacts.CompareContacts | src/components/Contacts.tsx:99-103 | the comparator as written: −1 when only the first contact is pinned, 1 when only the second is, otherwise the name comparison; its meaning is stated by `Contacts.ContactOrderIsTotalPreorder` and `Contacts.SortedContactsOrder` |
| Contacts.SortedContacts | src/components/Contacts.tsx:99-103 | the pinned-first sort of a copy of the filtered list; its order, permutation and stability are stated by `Contacts.SortedContactsOrder` and `Contacts.SortedContactsStable` |
| Contacts.SortedContactsStable | src/components/Contacts.tsx:99-103 | contacts that compare equal keep their original relative order, as `Array.prototype.sort` guarantees |
| Contacts.Initials | src/components/Contacts.tsx:119 | the initials are the first characters of the non-empty words, one per word and in order; an empty word contributes nothing |
| Contacts.GenerateAvatar | src/components/Contacts.tsx:118-120 | the avatar has one character per non-empty space-separated word of the name: the upper-cased first character of that word |
| Contacts.MaxId | src/components/Contacts.tsx:126 | on a non-empty list the result is the id of some contact and no id exceeds it |
| Contacts.NextId | src/components/Contacts.tsx:126 | the new id is greater than every existing id; on a non-empty list it is one more than the largest id, and on an empty list it is 1 |
| Contacts.NewContact | src/components/Contacts.tsx:125-131 | the new contact carries the form's fields, the generated avatar, today's date as last contact, is unpinned, and has an id above all existing ids |
| Contacts.EditedContact | src/components/Contacts.tsx:150-155 | an edited contact takes the form's fields and a fresh avatar from the new name, and keeps its id, pin state and last-contact date |
| Contacts.WithEdit | src/components/Contacts.tsx:149-157 | the list keeps its length; the contacts with the selected id are edited, and every other contact is unchanged |
| Contacts.Without | src/components/Contacts.tsx:165 | the result keeps, in order, exactly the contacts whose id differs from the deleted one, each as often as in the list |
| Contacts.WithToggle | src/components/Contacts.tsx:171-175 | the list keeps its length; the contacts with the given id have their pin state flipped, and everything else is unchanged |
| Contacts.AddKeepsIdsUnique | src/components/Contacts.tsx:126-133 | appending the new contact keeps the ids unique |
| Contacts.EditKeepsIdsUnique | src/components/Contacts.tsx:149-157 | an edit keeps the ids unique |
| Contacts.ToggleKeepsIdsUnique | src/components/Contacts.tsx:170-176 | a pin toggle keeps the ids unique |
| Contacts.DeleteKeepsIdsUnique | src/components/Contacts.tsx:165 | a delete keeps the ids unique |
| Contacts.DeleteUndoesAdd | src/components/Contacts.tsx:126-133 | deleting a contact just added restores the list as it was before the add |
| Contacts.DeleteAbsentId | src/components/Contacts.tsx:165 | deleting an id no contact has leaves the list unchanged |
| Contacts.DeleteRemovesOne | src/components/Contacts.tsx:165 | with unique ids, deleting the id of contact k removes exactly that contact, so the list shrinks by one |
| Contacts.DeleteIdempotent | src/components/Contacts.tsx:165 | deleting the same id twice is the same as deleting it once |
| Contacts.ToggleTwice | src/components/Contacts.tsx:170-176 | toggling a pin twice restores the list |
| Contacts.EditIdempotent | src/components/Contacts.tsx:149-157 | applying the same edit twice is the same as applying it once |
| Contacts.SampleContactsShape | src/components/Contacts.tsx:27-80 | example: the four sample contacts carry the ids 1 to 4, so their ids are unique, and only the first is pinned |
| Contacts.ContactStore.constructor | src/components/Contacts.tsx:27-80 | the store starts with exactly the four sample contacts, field for field, and its ids are unique |
| Contacts.ContactStore.Add | src/components/Contacts.tsx:122-144 | a form without a name or an email changes nothing; otherwise the new contact is appended; the ids stay unique |
| Contacts.ContactStore.Edit | src/components/Contacts.tsx:146-160 | no selected contact, or a form without a name or an email, changes nothing; otherwise the selected contact is edited in place; the ids stay unique |
| Contacts.ContactStore.Delete | src/components/Contacts.tsx:162-168 | no selected contact changes nothing; otherwise every contact with the selected id is removed; the ids stay unique |
| Contacts.ContactStore.TogglePin | src/components/Contacts.tsx:170-176 | the pin state of the contact with the given id flips; the ids stay unique |
| Text.JoinSplit | src/components/Contacts.tsx:119 | joining the pieces of `split` with the separator gives back the text, so no character is lost |
| Text.SplitJoin | src/components/Contacts.tsx:119 | splitting a join of separator-free pieces gives back the pieces |
| Text.QueryCaseIgnored | src/components/Contacts.tsx:93-95 | the case-insensitive `includes` test gives the same answer for a query and its upper-cased form |
| Text.IncludesIff | src/components/Contacts.tsx:93 | `includes` holds exactly when the query occurs at some position of the field |
| Text.Includes | src/components/Contacts.tsx:93 | `includes` as a scan of the positions from the left; its meaning is stated by `Text.IncludesIff` |
| Text.Split | src/components/Contacts.tsx:119 | `split` with a one-character separator gives at least one piece and no piece holds the separator; `Text.JoinSplit` and `Text.SplitJoin` make it the inverse of `join` |
| Text.Lower | src/components/Contacts.tsx:93 | `toLowerCase` character by character over ASCII; `Text.LowerForgetsCase` states that it forgets case and is idempotent |
| Text.Upper | src/components/Contacts.tsx:119 | `toUpperCase` character by character over ASCII; `Text.LowerForgetsCase` and `Text.QueryCaseIgnored` state what the searches rely on |
| Calendar.FilteredAppointments | src/components/Calendar.tsx:79-83 | the result is the subsequence of the appointments whose title, description or relatedTo contains the query, ignoring case; each matching appointment occurs in it as often as in the list, and no other appointment occurs |
| Calendar.EmptyQueryKeepsAll | src/components/Calendar.tsx:79-83 | an empty search term keeps every appointment |
| Calendar.NextMonth | src/components/Calendar.tsx:127 | the next month is valid and one month later; December rolls over to January of the next year |
| Calendar.PrevMonth | src/components/Calendar.tsx:125 | the previous month is valid and one month earlier; January rolls back to December of the previous year |
| Calendar.MonthIndexInjective | src/components/Calendar.tsx:121-131 | two valid months with the same index are the same month |
| Calendar.NavigationInverse | src/components/Calendar.tsx:121-131 | "next" after "prev", and "prev" after "next", return to the same month |
| Calendar.NavigationIsSetMonth | src/components/Calendar.tsx:125-127 | from the 1st of a month, `setMonth(getMonth() ± 1)` lands on the 1st of the next or the previous month, across year boundaries |
| Calendar.Step | src/components/Calendar.tsx:121-131 | one navigation step: the result is a valid month exactly one month back or forward |
| Calendar.CarryDay | src/components/Calendar.tsx:125-127 | `Date` normalising a day of a month: a valid date, lying day − 1 days after the 1st of that month, so a day past the month's end carries into the next month |
| Calendar.SetMonthAsWritten | src/components/Calendar.tsx:123-128 | `setMonth` as written: the old day of the month placed in the intended month by the carry of `Calendar.CarryDay`; the result is a valid date |
| Calendar.SetMonthAsWrittenOffset | src/components/Calendar.tsx:123-128 | the as-written step lands on the day number of the 1st of the intended month plus the old day of the month minus one, so a day past the end of the intended month carries into the following month |
| Calendar.SetMonthAsWrittenSkips | src/components/Calendar.tsx:123-128 | the as-written step reaches the target month exactly when the day fits in it; otherwise it lands in the month after |
| Calendar.JanuaryThirtyFirstSkipsFebruary | src/components/Calendar.tsx:127 | "next" from 31 January 2024 shows March 2024, not February |
| Calendar.DayOfMonthOffset | src/components/Calendar.tsx:125-127 | day d of a month lies d − 1 days after its 1st (`Calendar.DaysAfterFirst`), the case of `Calendar.CarryDay` in which the day stays in the month |
| Calendar.CarryIntoNextMonth | src/components/Calendar.tsx:127 | day k of the next month is the day that lies DaysInMonth + k − 1 days after the 1st of this month, which is how `MakeDay` carries an overflowing day |
| Calendar.MonthView.constructor | src/components/Calendar.tsx:23 | the view opens on today's month |
| Calendar.MonthView.Navigate | src/components/Calendar.tsx:121-131 | the shown month moves exactly one month back or forward and stays valid |
| Calendar.MonthView.GoToToday | src/components/Calendar.tsx:237 | the shown month becomes today's month |
| Calendar.BuildGrid | src/components/Calendar.tsx:133-170 | the cells pushed by the two loops are exactly the month grid |
| Calendar.GridShape | src/components/Calendar.tsx:139-167 | the grid has first-weekday blank cells, then one day cell per day numbered 1 to DaysInMonth, with 28 to 37 cells in all |
| Calendar.Grid | src/components/Calendar.tsx:133-170 | the month grid as a sequence of cells; its shape and contents are stated by `Calendar.GridShape`, `Calendar.GridAt`, `Calendar.DayCellContents` and `Calendar.TodayMarkedOnce` |
| Calendar.GridCell | src/components/Calendar.tsx:140-167 | cell k of the grid; `Calendar.GridAt` states what it is |
| Calendar.GridAt | src/components/Calendar.tsx:140-167 | cell k is a blank before the first weekday; otherwise it is the day cell of day k − first + 1, which lies within the month |
| Calendar.DayCellContents | src/components/Calendar.tsx:146-147 | a day cell holds the filter of the appointments by that day's `YYYY-MM-DD` text: in input order, exactly those with that text, each as often as in the list |
| Calendar.OnDateContents | src/components/Calendar.tsx:147 | filtering by date text keeps, in order, exactly the appointments with that text, each as often as in the list |
| Calendar.DayCellsAreDays | src/components/Calendar.tsx:145 | every day cell's day lies between 1 and the number of days in the month |
| Calendar.DayCellDate | src/components/Calendar.tsx:146-147 | an appointment in a day cell carries that day's date text |
| Calendar.AppointmentPlacedOnce | src/components/Calendar.tsx:145-147 | an appointment appears in at most one cell of all month grids: the same month and the same cell |
| Calendar.AppointmentOnItsDay | src/components/Calendar.tsx:146-147 | for a four-digit year, an appointment in a day cell is one whose date, read by `new Date`, is that day and lies within the displayed month |
| Calendar.TodayMarkedOnce | src/components/Calendar.tsx:148 | a day cell is marked today exactly when its date is today; at most one cell is marked, and one is marked when today lies in the shown month |
| Calendar.CellPreview | src/components/Calendar.tsx:156-163 | a cell shows its first two appointments and a "+N more" count, which is positive exactly when there are more than two; the shown and the counted appointments add up to all of them |
| Calendar.ByDate | src/components/Calendar.tsx:269 | the comparator `new Date(a.date) - new Date(b.date)` read as "no later than"; `Calendar.ByDateIsTotalPreorder` states it is a total preorder |
| Calendar.ByDateIsTotalPreorder | src/components/Calendar.tsx:269 | the date comparator is a total preorder, so the sort is well defined |
| Calendar.StartsAtOrAfter | src/components/Calendar.tsx:268 | the test `new Date(apt.date) >= new Date()`: the appointment's date read as 00:00 UTC is not before now; an unreadable date fails it |
| Calendar.UpcomingAsWritten | src/components/Calendar.tsx:267-270 | as written: the appointments whose date read as 00:00 UTC is not before now, earliest first, five of them or all when fewer pass; each listed one is among the given ones, the list takes no appointment more often than the given list holds it, and a copy of one that passes the test is left out only when five no-later ones fill the list |
| Calendar.UpcomingAsWrittenStable | src/components/Calendar.tsx:269-270 | as written, the sort is stable: the listed appointments of any one day are a leading part, in their original order, of that day's appointments that pass the as-written test |
| Calendar.UpcomingAsWrittenDropsToday | src/components/Calendar.tsx:268 | as written, an appointment dated today is left out of the upcoming list, whatever the list holds, at every instant of the day except midnight |
| Calendar.Upcoming | src/components/Calendar.tsx:267-270 | the appointments dated today or later, earliest first, five of them or all when there are fewer; each listed one is among the given ones, the list takes no appointment more often than the given list holds it, and a copy of one dated today or later is left out only when five no-later ones fill the list |
| Calendar.UpcomingStable | src/components/Calendar.tsx:269-270 | the sort is stable: the listed appointments of any one day are a leading part, in their original order, of that day's appointments dated today or later |
| Calendar.QuickStats | src/components/Calendar.tsx:306-318 | the total is the number of filtered appointments; the confirmed and the scheduled counts are the numbers of positions holding an appointment of that status; together they fit within the total, and each is zero exactly when no appointment has that status |
| Dates.MakeDay | src/components/Calendar.tsx:113-119 | ECMA-262 `MakeDay` for a 0-based month that may overflow into the year; its properties are stated by `Dates.MakeDayOffset`, `Dates.MakeDaySucc`, `Dates.MakeDayNextYear` and `Dates.MakeDayPrevYear` |
| Dates.MakeDayOffset | src/components/Calendar.tsx:125-127 | day d of a month is d − 1 days after its 1st, for any d, which is how an overflowing day carries |
| Dates.MakeDayNextYear | src/components/Calendar.tsx:127 | month 12 of a year, counted from 0, is January of the next year |
| Dates.MakeDayPrevYear | src/components/Calendar.tsx:125 | month −1 of a year is December of the previous year |
| Dates.DaysInMonth | src/components/Calendar.tsx:113-115 | a month has 28 to 31 days, and 29 exactly in February of a leap year; `Dates.DayZeroOfNextMonth` ties it to `new Date(y, m, 0).getDate()` |
| Dates.DayZeroOfNextMonth | src/components/Calendar.tsx:113-115 | day 0 of the next month is the last day of this month, so `getDate()` of it is the number of days in the month |
| Dates.NextFirstWeekday | src/components/Calendar.tsx:117-119 | the weekday of the 1st of the next month is this month's first weekday plus its length, modulo 7 |
| Dates.FirstWeekday | src/components/Calendar.tsx:117-119 | the weekday of the 1st, 0 for Sunday, lies in 0..6 |
| Dates.FebruaryExamples | src/components/Calendar.tsx:113-115 | example: February has 29 days in 2024 and 2000, and 28 in 2023 and 1900 |
| Dates.January2024 | src/components/Calendar.tsx:117-119 | example: 1 January 2024 is a Monday |
| Dates.IsoDate | src/components/Calendar.tsx:146 | the `YYYY-MM-DD` text of a day; `Dates.IsoDateInjective` and `Dates.ParseIsoDateRoundTrip` state that it is one-to-one and read back by `new Date` |
| Dates.ParseIsoDate | src/components/Calendar.tsx:268 | `new Date(text)` on a `YYYY-MM-DD` text as midnight UTC of that day, and the invalid date otherwise; `Dates.ParseIsoDateRoundTrip` states it reads back the text `Dates.IsoDate` builds |
| Dates.IsoDateInjective | src/components/Calendar.tsx:146 | distinct year, month and day give distinct date texts |
| Dates.ParseIsoDateRoundTrip | src/components/Calendar.tsx:146 | `new Date` reads the date text built for a four-digit year as midnight UTC of that day |
| Dates.DateTextInMonth | src/components/Calendar.tsx:146 | the date text of a day of the month reads as a day between the 1st of that month and the 1st of the next |
| Tasks.FilteredTasks | src/components/Tasks.tsx:79-83 | the result is the subsequence of the tasks whose title, description or relatedTo contains the query, ignoring case; each matching task occurs in it as often as in the list, and no other task occurs |
| Tasks.EmptyQueryKeepsAll | src/components/Tasks.tsx:79-83 | an empty search term keeps every task |
| Tasks.SearchIgnoresQueryCase | src/components/Tasks.tsx:79-83 | upper-casing the search term changes nothing in the result |
| Tasks.OpenTasks | src/components/Tasks.tsx:132 | the pending list keeps, in order, exactly the tasks that are not completed, in-progress ones included, each as often as in the list |
| Tasks.CompletedTasks | src/components/Tasks.tsx:133 | the completed list keeps, in order, exactly the completed tasks, each as often as in the list |
| Tasks.OpenAndCompletedPartition | src/components/Tasks.tsx:132-133 | the two lists share no task, hold together every task as often as the list does, and their lengths add up to its length |
| Tasks.IsOverdue | src/components/Tasks.tsx:128-130 | the test as written: the due date reads as an instant before now and not as today's day; `Tasks.OverdueIffBeforeToday` states what it means |
| Tasks.FlaggedOverdue | src/components/Tasks.tsx:182 | the overdue counter's test: overdue and not completed; `Tasks.Counts` counts it |
| Tasks.OverdueIffBeforeToday | src/components/Tasks.tsx:128-130 | a due date is overdue exactly when it reads as a day strictly before today; a task due today, or one with an unreadable date, is never overdue |
| Tasks.Counts | src/components/Tasks.tsx:154-182 | each counter is the number of positions holding a task it is about: all of them, the not completed, the completed, and the overdue and not completed ones; pending and completed add up to the total; the overdue counter counts only pending tasks and is zero exactly when no pending task is due before today |
| Tasks.OfferedAction | src/components/Tasks.tsx:228-237 | a pending task offers Start, an in-progress one Complete, and a completed one neither |
| Tasks.PriorityLabel | src/components/Tasks.tsx:206 | the badges read Low, Medium, High and Urgent |
| Tasks.PriorityLabels | src/components/Tasks.tsx:206 | no two priorities share a badge |
| Opportunities.FilteredOpportunities | src/components/Opportunities.tsx:77-81 | the result is the subsequence of the opportunities whose title, company or contact contains the query, ignoring case; each matching one occurs in it as often as in the list, and no other occurs |
| Opportunities.EmptyQueryKeepsAll | src/components/Opportunities.tsx:77-81 | an empty search term keeps every opportunity |
| Opportunities.SearchIgnoresQueryCase | src/components/Opportunities.tsx:77-81 | upper-casing the search term changes nothing in the result |
| Opportunities.StageIndex | src/components/Opportunities.tsx:68-75 | every stage has an entry in the stage list |
| Opportunities.StagesListEachOnce | src/components/Opportunities.tsx:68-75 | the six stage entries have distinct ids, each stage appearing exactly once |
| Opportunities.StageIdInjective | src/components/Opportunities.tsx:9 | distinct stages have distinct id texts |
| Opportunities.TotalValue | src/components/Opportunities.tsx:125 | the `reduce` sum of the values from 0; `Opportunities.FilterValueBounded` and `Opportunities.StageValuesAddUp` state its properties |
| Opportunities.FilterValueBounded | src/components/Opportunities.tsx:124-125 | with non-negative values, a selection of opportunities is worth between 0 and the total |
| Opportunities.Summarize | src/components/Opportunities.tsx:124-130 | a card is for its own stage, counts the positions holding an opportunity of that stage, and its value is the position-by-position sum of the values of that stage (`Opportunities.StageValue`) |
| Opportunities.ValueInIsStageValue | src/components/Opportunities.tsx:123-124 | filtering by stage and then summing the values gives the position-by-position sum over the stage |
| Opportunities.SummaryBounds | src/components/Opportunities.tsx:124-130 | a card's count is at most the number of opportunities and is zero exactly when none is in that stage; an empty stage is worth 0, and with non-negative values a card's value lies between 0 and the total |
| Opportunities.Overview | src/components/Opportunities.tsx:123-134 | one card per stage, in the order of the stage list |
| Opportunities.StageCountsAddUp | src/components/Opportunities.tsx:124 | the six per-stage counts add up to the number of opportunities |
| Opportunities.StageValuesAddUp | src/components/Opportunities.tsx:125 | the six per-stage values add up to the total value |
| Opportunities.OverviewCountsAddUp | src/components/Opportunities.tsx:123-134 | the counts on the six cards add up to the number of filtered opportunities, so every opportunity is counted on exactly one card |
| Opportunities.OverviewValuesAddUp | src/components/Opportunities.tsx:123-134 | the values on the six cards add up to the total value of the filtered opportunities |
| Opportunities.ProbabilityBand | src/components/Opportunities.tsx:102-106 | 70 and above is green, 40 to 69 is yellow, and below 40 is red |
| Opportunities.BandMonotone | src/components/Opportunities.tsx:102-106 | a higher probability never falls into a lower band |
| Opportunities.Badge | src/components/Opportunities.tsx:150 | the badge keeps the stage id's length and upper-cases its first character |
| Opportunities.DashedBadge | src/components/Opportunities.tsx:150 | an id with a dash becomes the capitalised first part, a space and the rest |
| Opportunities.PlainBadge | src/components/Opportunities.tsx:150 | an id without a dash is only capitalised |
| Opportunities.StageLabel | src/components/Opportunities.tsx:150 | the badge of a stage; the six labels are stated by the `Opportunities.*Label` lemmas below |
| Opportunities.ClosedWonLabel | src/components/Opportunities.tsx:150 | the closed-won badge reads "Closed won", which differs from the stage list's "Closed Won" |
| Opportunities.ClosedLostLabel | src/components/Opportunities.tsx:150 | the closed-lost badge reads "Closed lost", which differs from the stage list's "Closed Lost" |
| Opportunities.ProspectingLabel | src/components/Opportunities.tsx:150 | the prospecting badge reads "Prospecting", the name in the stage list |
| Opportunities.QualificationLabel | src/components/Opportunities.tsx:150 | the qualification badge reads "Qualification", the name in the stage list |
| Opportunities.ProposalLabel | src/components/Opportunities.tsx:150 | the proposal badge reads "Proposal", the name in the stage list |
| Opportunities.NegotiationLabel | src/components/Opportunities.tsx:150 | the negotiation badge reads "Negotiation", the name in the stage list |

## Left out

- Rendering (JSX, class names, colours and icons): `getStatusColor`, `getStageColor`, `getPriorityColor`, `getStatusIcon` and `getTypeIcon` only choose styling.
- Modal flags, the form state, `resetForm`, `openEditModal` and `openDeleteModal` are presentation state. The model passes the form and the selected contact to the commands as parameters.
- The clock is a parameter (`now` in milliseconds, `today` as calendar fields). The local time zone is taken to be UTC, so local midnight and `toDateString` agree with the UTC day.
- `new Date(text)` is modelled only for the `YYYY-MM-DD` form with a month of 01-12 and a day of 01-31. Any other text reads as the invalid date.
- `toISOString().split('T')[0]` for a new contact's last-contact date is the `today` text parameter.
- Contacts.NextId: `Math.max()` of an empty list is `-Infinity`, so the source would give an empty list the id `-Infinity`. The model gives it the id 1.
- Contacts.SortedContactsOrder: `localeCompare` is an abstract name comparison, assumed to be a total preorder. Collation rules are left out.
- `toLocaleString`, `toLocaleDateString` and the `(stageValue / 1000).toFixed(0)` display are formatting only.
- Opportunities.TotalValue: values and probabilities are integers. Floating-point sums are left out.
- Case conversion covers ASCII letters only. Unicode case mapping is left out.
- Contacts.Initials: `n[0]` takes the first UTF-16 code unit of a word, and the model takes its first Unicode scalar value. The two differ for a word that starts outside the Basic Multilingual Plane: for "😀 Kim" the source takes a lone high surrogate and the model takes "😀". Strings are sequences of Unicode scalar values here, so a lone surrogate cannot be formed.
- Contacts.GenerateAvatar: the same difference. `generateAvatar("😀 Kim")` gives a lone high surrogate followed by "K" in the source, and "😀K" in the model.
- Dates.MakeDay: `new Date(y, m, d)` reads a year from 0 to 99 as 1900 + y. The model takes every year as written, and the views only build the shown year, which is taken to be a full year. The time value range of ECMA-262 `TimeClip` (±8.64 × 10^15 ms) is not modelled, so no date is ever invalid for lying out of range.
- Dates.DaysInMonth: the source computes `new Date(y, m, 0).getDate()`, so it inherits the same two-digit-year mapping. For year 0 the source gives February 28 days (1900 is not a leap year), and the model gives it 29.
- The unused month/week/day view state is left out. So are the buttons that have no handler: Add Task, Edit, Start, Complete, Add Opportunity and Schedule Appointment.
- The sample data of the calendar, task and opportunity lists is left out. Only the four sample contacts are modelled.
- Calendar.MonthView: keeps only the displayed year and month, following the intended one-month step. The day of the month that the as-written `currentDate` carries is modelled separately in `Calendar.SetMonthAsWritten`.
- Calendar.NavigationIsSetMonth: proved for the 1st of a month only. For every other day, `Calendar.SetMonthAsWrittenOffset` states where the result lands relative to the 1st of the intended month. That this is `MakeDay` of the old day in the shifted 0-based month is not stated in one lemma, because the solver could not prove that step within its resource limit.
- The Analytics, Dashboard, Header and Sidebar views and the App shell are not part of this model.

## Findings

| source | as written | input that shows it | evidently intended | confidence | as-written member | corrected member |
|---|---|---|---|---|---|---|
| src/components/Calendar.tsx:268 | `new Date(apt.date) >= new Date()` compares midnight UTC of the appointment's day with the current instant | an appointment dated today, viewed at any time after 00:00 | appointments dated today or later are upcoming | not executed | Calendar.UpcomingAsWrittenDropsToday | Calendar.Upcoming |
| src/components/Calendar.tsx:121-131 | `setMonth(getMonth() ± 1)` keeps the day of the month, and `Date` carries a day past the end into the following month | 31 January 2024 with "next" shows March 2024 (2 March) | move exactly one month back or forward | not executed | Calendar.JanuaryThirtyFirstSkipsFebruary | Calendar.Step |
