/**
 * The calendar view: searching appointments, the month grid (leading blank cells, then
 * one cell per day holding that day's appointments), month navigation, the upcoming list
 * and the quick status counts.
 */
module Calendar {

  import opened Wrappers
  import opened Seqs
  import opened Text
  import opened Dates

  datatype AppointmentKind = Meeting | Call | Video | Other

  datatype AppointmentStatus = Scheduled | Confirmed | Completed | Cancelled

  /** An appointment; `date` is the `YYYY-MM-DD` text the source stores. */
  datatype Appointment = Appointment(
    id: int,
    title: string,
    description: string,
    date: string,
    time: string,
    duration: int,
    kind: AppointmentKind,
    attendees: seq<string>,
    location: Option<string>,
    status: AppointmentStatus,
    relatedTo: string)

  /** The search box test: the query occurs, ignoring case, in the title, description or relatedTo. */
  predicate Matches(a: Appointment, query: string)
  {
    ContainsIgnoreCase(a.title, query) ||
    ContainsIgnoreCase(a.description, query) ||
    ContainsIgnoreCase(a.relatedTo, query)
  }

  function MatchesQuery(query: string): Appointment -> bool
  {
    a => Matches(a, query)
  }

  /** `filteredAppointments`: the appointments the query matches, in their order. */
  function FilteredAppointments(apts: seq<Appointment>, query: string): (r: seq<Appointment>)
    ensures forall i :: 0 <= i < |r| ==> r[i] in apts && Matches(r[i], query)
    ensures forall i :: 0 <= i < |apts| && Matches(apts[i], query) ==> apts[i] in r
    ensures forall a :: multiset(r)[a] == if Matches(a, query) then multiset(apts)[a] else 0
    ensures IsSubsequence(r, apts)
  {
    FilterMembers(MatchesQuery(query), apts);
    FilterMultiplicity(MatchesQuery(query), apts);
    Filter(MatchesQuery(query), apts)
  }

  /** The empty query keeps every appointment. */
  lemma EmptyQueryKeepsAll(apts: seq<Appointment>)
    ensures FilteredAppointments(apts, "") == apts
  {
    forall i | 0 <= i < |apts| ensures MatchesQuery("")(apts[i]) {
      EmptyQueryMatches(apts[i].title);
    }
    FilterKeepsAll(MatchesQuery(""), apts);
  }

  // ---------------------------------------------------------------------------
  // Month navigation

  /** The displayed month. */
  datatype YearMonth = YearMonth(year: int, month: int)

  predicate ValidMonth(ym: YearMonth)
  {
    1 <= ym.month <= 12
  }

  /** Months counted from January of year 0, so that consecutive months differ by one. */
  function MonthIndex(ym: YearMonth): int
  {
    ym.year * 12 + ym.month - 1
  }

  /** The month after `ym`; December rolls over to January of the next year. */
  function NextMonth(ym: YearMonth): (r: YearMonth)
    requires ValidMonth(ym)
    ensures ValidMonth(r) && MonthIndex(r) == MonthIndex(ym) + 1
  {
    if ym.month == 12 then YearMonth(ym.year + 1, 1) else YearMonth(ym.year, ym.month + 1)
  }

  /** The month before `ym`; January rolls back to December of the previous year. */
  function PrevMonth(ym: YearMonth): (r: YearMonth)
    requires ValidMonth(ym)
    ensures ValidMonth(r) && MonthIndex(r) == MonthIndex(ym) - 1
  {
    if ym.month == 1 then YearMonth(ym.year - 1, 12) else YearMonth(ym.year, ym.month - 1)
  }

  /** A month is determined by its index. */
  lemma MonthIndexInjective(a: YearMonth, b: YearMonth)
    requires ValidMonth(a) && ValidMonth(b) && MonthIndex(a) == MonthIndex(b)
    ensures a == b
  {
    assert a.year * 12 <= MonthIndex(a) < a.year * 12 + 12;
    assert b.year * 12 <= MonthIndex(b) < b.year * 12 + 12;
  }

  /** Going back after going forward, or forward after going back, returns to the same month. */
  lemma NavigationInverse(ym: YearMonth)
    requires ValidMonth(ym)
    ensures PrevMonth(NextMonth(ym)) == ym
    ensures NextMonth(PrevMonth(ym)) == ym
  {
    MonthIndexInjective(PrevMonth(NextMonth(ym)), ym);
    MonthIndexInjective(NextMonth(PrevMonth(ym)), ym);
  }

  /**
   * `setMonth(getMonth() + 1)` and `setMonth(getMonth() - 1)` on the 1st of a month land on
   * the 1st of `NextMonth` and `PrevMonth`: `MakeDay` carries the month into the year.
   */
  lemma NavigationIsSetMonth(ym: YearMonth)
    requires ValidMonth(ym)
    ensures MakeDay(ym.year, ym.month, 1) == MakeDay(NextMonth(ym).year, NextMonth(ym).month - 1, 1)
    ensures MakeDay(ym.year, ym.month - 2, 1) == MakeDay(PrevMonth(ym).year, PrevMonth(ym).month - 1, 1)
  {
    var y, m := ym.year, ym.month;
    if m == 12 {
      MakeDayNextYear(y, 1);
      MakeDayInYear(y + 1, 0, 1);
    } else {
      MakeDayInYear(y, m, 1);
    }
    if m == 1 {
      MakeDayPrevYear(y, 1);
    } else {
      MakeDayInYear(y, m - 2, 1);
    }
  }

  datatype Direction = Prev | Next

  /** The month `navigateMonth(direction)` is meant to show: exactly one month back or forward. */
  function Step(ym: YearMonth, direction: Direction): (r: YearMonth)
    requires ValidMonth(ym)
    ensures ValidMonth(r)
    ensures MonthIndex(r) == MonthIndex(ym) + (if direction == Prev then -1 else 1)
  {
    if direction == Prev then PrevMonth(ym) else NextMonth(ym)
  }

  /** A calendar date whose day lies within its month. */
  predicate ValidDate(d: Date)
  {
    1 <= d.month <= 12 && 1 <= d.day <= DaysInMonth(d.year, d.month)
  }

  /** Day `day` of month `t` lies `day - 1` days after its 1st. */
  lemma DayOfMonthOffset(t: YearMonth, day: int)
    ensures DaysAfterFirst(Date(t.year, t.month, day), t, day - 1)
  {
    MakeDayOffset(t.year, t.month - 1, day);
    var r := Date(t.year, t.month, day);
    assert r.year == t.year && r.month == t.month && r.day == day;
  }

  /** Date `r` lies `k` days after the 1st of month `t`, counted in ECMA-262 day numbers. */
  predicate DaysAfterFirst(r: Date, t: YearMonth, k: int)
  {
    MakeDay(r.year, r.month - 1, r.day) == MakeDay(t.year, t.month - 1, 1) + k
  }

  /**
   * `new Date` normalising day `day` of month `t`: that day when the month has it, and
   * otherwise the day past its end carried into the month after. Either way it is the day
   * `day - 1` days after the 1st of `t`.
   */
  function CarryDay(t: YearMonth, day: int): (r: Date)
    requires ValidMonth(t) && 1 <= day <= 31
    ensures ValidDate(r)
    ensures DaysAfterFirst(r, t, day - 1)
  {
    var dim := DaysInMonth(t.year, t.month);
    if day <= dim then
      DayOfMonthOffset(t, day);
      Date(t.year, t.month, day)
    else
      var n := NextMonth(t);
      CarryIntoNextMonth(t, day - dim);
      Date(n.year, n.month, day - dim)
  }

  /**
   * `navigateMonth` as written: `setMonth(getMonth() - 1)` or `setMonth(getMonth() + 1)` on
   * `currentDate`, which keeps its day of the month. The result is the day `d.day - 1` days
   * after the 1st of the intended month: that day of the month when it exists, and a day
   * past its end carried into the month after it, as `MakeDay` does.
   */
  function SetMonthAsWritten(d: Date, direction: Direction): (r: Date)
    requires ValidDate(d)
    ensures ValidDate(r)
  {
    CarryDay(Step(YearMonth(d.year, d.month), direction), d.day)
  }

  /** The as-written step lands `d.day - 1` days after the 1st of the intended month. */
  lemma SetMonthAsWrittenOffset(d: Date, direction: Direction)
    requires ValidDate(d)
    ensures DaysAfterFirst(SetMonthAsWritten(d, direction), Step(YearMonth(d.year, d.month), direction), d.day - 1)
  {
    var t := Step(YearMonth(d.year, d.month), direction);
    assert ValidMonth(t) && 1 <= d.day <= 31;
    assert SetMonthAsWritten(d, direction) == CarryDay(t, d.day);
  }

  /**
   * `MakeDay` carries a day past the end of month `t` into the next month: day `k` of
   * `NextMonth(t)` lies `DaysInMonth + k - 1` days after the 1st of `t`, where day
   * `DaysInMonth + k` of `t` would be. This is the carry `SetMonthAsWritten` makes.
   */
  lemma CarryIntoNextMonth(t: YearMonth, k: int)
    requires ValidMonth(t)
    ensures MakeDay(NextMonth(t).year, NextMonth(t).month - 1, k) ==
            MakeDay(t.year, t.month - 1, 1) + DaysInMonth(t.year, t.month) + k - 1
    ensures DaysAfterFirst(Date(NextMonth(t).year, NextMonth(t).month, k), t, DaysInMonth(t.year, t.month) + k - 1)
  {
    var n := NextMonth(t);
    MonthAfter(t);
    MakeDayOffset(n.year, n.month - 1, k);
    var r := Date(n.year, n.month, k);
    assert r.year == n.year && r.month == n.month && r.day == k;
  }

  /** The 1st of the next month comes `DaysInMonth` days after the 1st of this one. */
  lemma MonthAfter(t: YearMonth)
    requires ValidMonth(t)
    ensures MakeDay(NextMonth(t).year, NextMonth(t).month - 1, 1) ==
            MakeDay(t.year, t.month - 1, 1) + DaysInMonth(t.year, t.month)
  {
    DayZeroOfNextMonth(t.year, t.month);
    MakeDaySucc(t.year, t.month, 0);
    NavigationIsSetMonth(t);
  }

  /**
   * As written, navigation shows the intended month exactly when today's day of the month
   * exists in it; otherwise it shows the month after, skipping the intended one.
   */
  lemma SetMonthAsWrittenSkips(d: Date, direction: Direction)
    requires ValidDate(d)
    ensures var r, t := SetMonthAsWritten(d, direction), Step(YearMonth(d.year, d.month), direction);
      && (YearMonth(r.year, r.month) == t <==> d.day <= DaysInMonth(t.year, t.month))
      && (d.day > DaysInMonth(t.year, t.month) ==> YearMonth(r.year, r.month) == NextMonth(t))
  {
  }

  /** From 31 January 2024, "next" lands on 2 March 2024 instead of showing February. */
  lemma JanuaryThirtyFirstSkipsFebruary()
    ensures Step(YearMonth(2024, 1), Next) == YearMonth(2024, 2)
    ensures SetMonthAsWritten(Date(2024, 1, 31), Next) == Date(2024, 3, 2)
  {
    assert DaysInMonth(2024, 2) == 29 by { assert IsLeapYear(2024); }
  }

  /** The view's `currentDate` state, reduced to the month it displays. */
  class MonthView {
    var shown: YearMonth

    ghost predicate Valid()
      reads this
    {
      ValidMonth(shown)
    }

    /** The view opens on the month of today. */
    constructor (today: Date)
      requires 1 <= today.month <= 12
      ensures Valid() && shown == YearMonth(today.year, today.month)
    {
      shown := YearMonth(today.year, today.month);
    }

    /** `navigateMonth(direction)`. */
    method Navigate(direction: Direction)
      requires Valid()
      modifies this
      ensures Valid()
      ensures shown == Step(old(shown), direction)
    {
      if direction == Prev {
        shown := PrevMonth(shown);
      } else {
        shown := NextMonth(shown);
      }
    }

    /** The "Today" button. */
    method GoToToday(today: Date)
      requires 1 <= today.month <= 12
      modifies this
      ensures Valid() && shown == YearMonth(today.year, today.month)
    {
      shown := YearMonth(today.year, today.month);
    }
  }

  // ---------------------------------------------------------------------------
  // The month grid

  datatype Cell = Blank | DayCell(day: int, appointments: seq<Appointment>, isToday: bool)

  function OnDate(dateStr: string): Appointment -> bool
  {
    (a: Appointment) => a.date == dateStr
  }

  /** `dayAppointments`: the appointments whose date text is the day's `YYYY-MM-DD`. */
  function DayAppointments(apts: seq<Appointment>, shown: YearMonth, day: int): seq<Appointment>
  {
    Filter(OnDate(IsoDate(shown.year, shown.month, day)), apts)
  }

  /** The appointments of each day of month `shown`. */
  function AppointmentsByDay(apts: seq<Appointment>, shown: YearMonth): int -> seq<Appointment>
  {
    day => DayAppointments(apts, shown, day)
  }

  /** Cell `k` of a grid whose 1st falls `first` cells in. */
  function GridCell(shown: YearMonth, today: Date, dayApts: int -> seq<Appointment>, first: int, k: int): Cell
  {
    if k < first then Blank
    else
      var day := k - first + 1;
      DayCell(day, dayApts(day),
              today.day == day && today.month == shown.month && today.year == shown.year)
  }

  function CellAt(shown: YearMonth, today: Date, dayApts: int -> seq<Appointment>, first: int): int -> Cell
  {
    k => GridCell(shown, today, dayApts, first, k)
  }

  /** `first` blank cells, then one cell for each day `1..dim`. */
  function GridOf(shown: YearMonth, today: Date, dayApts: int -> seq<Appointment>, first: nat, dim: nat): seq<Cell>
  {
    seq(first + dim, CellAt(shown, today, dayApts, first))
  }

  /** The grid of month `shown`: one cell per weekday before the 1st, then one per day. */
  function Grid(shown: YearMonth, today: Date, apts: seq<Appointment>): seq<Cell>
    requires ValidMonth(shown)
  {
    GridOf(shown, today, AppointmentsByDay(apts, shown), FirstWeekday(shown.year, shown.month), DaysInMonth(shown.year, shown.month))
  }

  /** `renderCalendarGrid`, its two counting loops pushing the cells one by one. */
  method BuildGrid(shown: YearMonth, today: Date, apts: seq<Appointment>) returns (days: seq<Cell>)
    requires ValidMonth(shown)
    ensures days == Grid(shown, today, apts)
  {
    var daysInMonth := DaysInMonth(shown.year, shown.month);
    var firstDay := FirstWeekday(shown.year, shown.month);
    ghost var cells := CellAt(shown, today, AppointmentsByDay(apts, shown), firstDay);
    days := [];
    var i := 0;
    while i < firstDay
      invariant 0 <= i <= firstDay && |days| == i
      invariant forall k :: 0 <= k < |days| ==> days[k] == cells(k)
    {
      PushBlank(shown, today, apts, firstDay, days);
      days := days + [Blank];
      i := i + 1;
    }
    var day := 1;
    while day <= daysInMonth
      invariant 1 <= day <= daysInMonth + 1 && |days| == firstDay + day - 1
      invariant forall k :: 0 <= k < |days| ==> days[k] == cells(k)
    {
      var dateStr := IsoDate(shown.year, shown.month, day);
      var dayAppointments := Filter(OnDate(dateStr), apts);
      var isToday := today.day == day && today.month == shown.month && today.year == shown.year;
      PushDay(shown, today, apts, firstDay, day, days);
      days := days + [DayCell(day, dayAppointments, isToday)];
      day := day + 1;
    }
    SeqAgrees(days, cells);
  }

  /** A step of the first loop of `BuildGrid`: one more blank keeps the cells in agreement with the grid. */
  lemma PushBlank(shown: YearMonth, today: Date, apts: seq<Appointment>, first: int, days: seq<Cell>)
    requires |days| < first
    requires forall k :: 0 <= k < |days| ==> days[k] == CellAt(shown, today, AppointmentsByDay(apts, shown), first)(k)
    ensures forall k :: 0 <= k < |days| + 1 ==>
              (days + [Blank])[k] == CellAt(shown, today, AppointmentsByDay(apts, shown), first)(k)
  {
    BlankCellOf(shown, today, apts, first, |days|);
    PushAgrees(days, Blank, CellAt(shown, today, AppointmentsByDay(apts, shown), first));
  }

  /** A step of the second loop of `BuildGrid`: the cell of `day` keeps the cells in agreement with the grid. */
  lemma PushDay(shown: YearMonth, today: Date, apts: seq<Appointment>, first: int, day: int, days: seq<Cell>)
    requires 1 <= day && |days| == first + day - 1
    requires forall k :: 0 <= k < |days| ==> days[k] == CellAt(shown, today, AppointmentsByDay(apts, shown), first)(k)
    ensures var c := DayCell(day, Filter(OnDate(IsoDate(shown.year, shown.month, day)), apts),
                             today.day == day && today.month == shown.month && today.year == shown.year);
      forall k :: 0 <= k < |days| + 1 ==> (days + [c])[k] == CellAt(shown, today, AppointmentsByDay(apts, shown), first)(k)
  {
    DayCellOf(shown, today, apts, first, day);
    PushAgrees(days, DayCell(day, DayAppointments(apts, shown, day),
                             today.day == day && today.month == shown.month && today.year == shown.year),
               CellAt(shown, today, AppointmentsByDay(apts, shown), first));
  }

  /** A cell before the 1st is blank. */
  lemma BlankCellOf(shown: YearMonth, today: Date, apts: seq<Appointment>, first: int, k: int)
    requires k < first
    ensures CellAt(shown, today, AppointmentsByDay(apts, shown), first)(k) == Blank
  {
    assert CellAt(shown, today, AppointmentsByDay(apts, shown), first)(k) ==
           GridCell(shown, today, AppointmentsByDay(apts, shown), first, k);
  }

  /** The cell of day `day`, its fields written out. */
  lemma DayCellOf(shown: YearMonth, today: Date, apts: seq<Appointment>, first: int, day: int)
    requires 1 <= day
    ensures CellAt(shown, today, AppointmentsByDay(apts, shown), first)(first + day - 1) ==
              DayCell(day, DayAppointments(apts, shown, day),
                      today.day == day && today.month == shown.month && today.year == shown.year)
  {
    var dayApts := AppointmentsByDay(apts, shown);
    assert CellAt(shown, today, dayApts, first)(first + day - 1) ==
           GridCell(shown, today, dayApts, first, first + day - 1);
    assert dayApts(day) == DayAppointments(apts, shown, day);
  }

  /**
   * The grid has `FirstWeekday` blank cells, then the days 1..DaysInMonth in order; so it
   * has between 28 and 37 cells.
   */
  lemma GridShape(shown: YearMonth, today: Date, apts: seq<Appointment>)
    requires ValidMonth(shown)
    ensures var g, first := Grid(shown, today, apts), FirstWeekday(shown.year, shown.month);
      && |g| == first + DaysInMonth(shown.year, shown.month)
      && 28 <= |g| <= 37
      && (forall k :: 0 <= k < first ==> g[k] == Blank)
      && (forall k :: first <= k < |g| ==> g[k].DayCell? && g[k].day == k - first + 1)
  {
GridOfShape(shown, today, AppointmentsByDay(apts, shown), FirstWeekday(shown.year, shown.month), DaysInMonth(shown.year, shown.month));
  }

  lemma GridOfShape(shown: YearMonth, today: Date, dayApts: int -> seq<Appointment>, first: nat, dim: nat)
    ensures var g := GridOf(shown, today, dayApts, first, dim);
      && |g| == first + dim
      && (forall k :: 0 <= k < first ==> g[k] == Blank)
      && (forall k :: first <= k < |g| ==> g[k].DayCell? && g[k].day == k - first + 1)
  {
  }

  /** Cell `k` of a grid, spelled out. */
  lemma GridOfAt(shown: YearMonth, today: Date, dayApts: int -> seq<Appointment>, first: nat, dim: nat, k: int)
    requires 0 <= k < |GridOf(shown, today, dayApts, first, dim)|
    ensures GridOf(shown, today, dayApts, first, dim)[k] == GridCell(shown, today, dayApts, first, k)
    ensures first <= k ==> 1 <= k - first + 1 <= dim
  {
  }

  /** Cell `k` of the grid of month `shown`, spelled out. */
  lemma GridAt(shown: YearMonth, today: Date, apts: seq<Appointment>, k: int)
    requires ValidMonth(shown)
    requires 0 <= k < |Grid(shown, today, apts)|
    ensures var first := FirstWeekday(shown.year, shown.month);
      && Grid(shown, today, apts)[k] == GridCell(shown, today, AppointmentsByDay(apts, shown), first, k)
      && (first <= k ==> 1 <= k - first + 1 <= DaysInMonth(shown.year, shown.month))
  {
    GridOfAt(shown, today, AppointmentsByDay(apts, shown), FirstWeekday(shown.year, shown.month), DaysInMonth(shown.year, shown.month), k);
  }

  /** A day cell holds exactly the appointments whose date text is that day's, in input order. */
  lemma DayCellContents(shown: YearMonth, today: Date, apts: seq<Appointment>, k: int)
    requires ValidMonth(shown)
    requires 0 <= k < |Grid(shown, today, apts)|
    requires Grid(shown, today, apts)[k].DayCell?
    ensures var c := Grid(shown, today, apts)[k];
      && c.appointments == Filter(OnDate(IsoDate(shown.year, shown.month, c.day)), apts)
      && IsSubsequence(c.appointments, apts)
      && (forall i :: 0 <= i < |c.appointments| ==>
            c.appointments[i].date == IsoDate(shown.year, shown.month, c.day))
      && (forall i :: 0 <= i < |apts| && apts[i].date == IsoDate(shown.year, shown.month, c.day) ==>
            apts[i] in c.appointments)
      && (forall a :: multiset(c.appointments)[a] ==
            if a.date == IsoDate(shown.year, shown.month, c.day) then multiset(apts)[a] else 0)
  {
    GridAt(shown, today, apts, k);
    var c := Grid(shown, today, apts)[k];
    var key := IsoDate(shown.year, shown.month, c.day);
    assert c.appointments == Filter(OnDate(key), apts);
    OnDateContents(key, apts);
  }

  /** Selecting by date text keeps, in order, exactly the appointments with that text. */
  lemma OnDateContents(key: string, apts: seq<Appointment>)
    ensures var c := Filter(OnDate(key), apts);
      && IsSubsequence(c, apts)
      && (forall i :: 0 <= i < |c| ==> c[i].date == key)
      && (forall i :: 0 <= i < |apts| && apts[i].date == key ==> apts[i] in c)
      && (forall a :: multiset(c)[a] == if a.date == key then multiset(apts)[a] else 0)
  {
    FilterMembers(OnDate(key), apts);
    FilterMultiplicity(OnDate(key), apts);
  }

  /** The day of a day cell lies within the month. */
  lemma DayCellsAreDays(shown: YearMonth, today: Date, apts: seq<Appointment>, k: int)
    requires ValidMonth(shown)
    requires 0 <= k < |Grid(shown, today, apts)|
    requires Grid(shown, today, apts)[k].DayCell?
    ensures 1 <= Grid(shown, today, apts)[k].day <= DaysInMonth(shown.year, shown.month)
  {
    GridAt(shown, today, apts, k);
  }

  /**
   * An appointment appears in at most one cell of all grids: if it is in cell `i` of the
   * grid of `s1` and cell `j` of the grid of `s2`, the two months and the two cells are the same.
   */
  lemma AppointmentPlacedOnce(s1: YearMonth, s2: YearMonth, today: Date, apts: seq<Appointment>,
                              i: int, j: int, a: Appointment)
    requires ValidMonth(s1) && ValidMonth(s2)
    requires 0 <= i < |Grid(s1, today, apts)| && 0 <= j < |Grid(s2, today, apts)|
    requires Grid(s1, today, apts)[i].DayCell? && Grid(s2, today, apts)[j].DayCell?
    requires a in Grid(s1, today, apts)[i].appointments
    requires a in Grid(s2, today, apts)[j].appointments
    ensures s1 == s2 && i == j
  {
    var c1, c2 := Grid(s1, today, apts)[i], Grid(s2, today, apts)[j];
    DayCellDate(s1, today, apts, i, a);
    DayCellDate(s2, today, apts, j, a);
    IsoDateInjective(s1.year, s1.month, c1.day, s2.year, s2.month, c2.day);
    GridAt(s1, today, apts, i);
    GridAt(s2, today, apts, j);
  }

  /** An appointment in a day cell carries that day's date text, the day being within the month. */
  lemma DayCellDate(shown: YearMonth, today: Date, apts: seq<Appointment>, k: int, a: Appointment)
    requires ValidMonth(shown)
    requires 0 <= k < |Grid(shown, today, apts)|
    requires Grid(shown, today, apts)[k].DayCell?
    requires a in Grid(shown, today, apts)[k].appointments
    ensures var d := Grid(shown, today, apts)[k].day;
      && a.date == IsoDate(shown.year, shown.month, d)
      && 1 <= d <= DaysInMonth(shown.year, shown.month) <= 31
  {
    DayCellContents(shown, today, apts, k);
    DayCellsAreDays(shown, today, apts, k);
  }

  /**
   * For a four-digit year, an appointment in a day cell is one whose date, read by
   * `new Date(...)`, is that very day of the displayed month.
   */
  lemma AppointmentOnItsDay(shown: YearMonth, today: Date, apts: seq<Appointment>, k: int, a: Appointment)
    requires ValidMonth(shown) && 1000 <= shown.year <= 9999
    requires 0 <= k < |Grid(shown, today, apts)|
    requires Grid(shown, today, apts)[k].DayCell?
    requires a in Grid(shown, today, apts)[k].appointments
    ensures var d := Grid(shown, today, apts)[k].day;
      && ParseIsoDate(a.date) == Some(MakeDay(shown.year, shown.month - 1, d))
      && MakeDay(shown.year, shown.month - 1, 1) <= MakeDay(shown.year, shown.month - 1, d)
      && MakeDay(shown.year, shown.month - 1, d) < MakeDay(shown.year, shown.month, 1)
  {
    DayCellDate(shown, today, apts, k, a);
    DateTextInMonth(shown.year, shown.month, Grid(shown, today, apts)[k].day);
  }

  /**
   * A day cell is marked today exactly when its day, the displayed month and year are
   * today's; so at most one cell is marked, and one is when today lies in the displayed month.
   */
  lemma TodayMarkedOnce(shown: YearMonth, today: Date, apts: seq<Appointment>)
    requires ValidMonth(shown)
    ensures var g := Grid(shown, today, apts);
      && (forall k :: 0 <= k < |g| && g[k].DayCell? ==>
            (g[k].isToday <==> today == Date(shown.year, shown.month, g[k].day)))
      && (forall i, j ::
            0 <= i < |g| && 0 <= j < |g| && g[i].DayCell? && g[j].DayCell? && g[i].isToday && g[j].isToday
            ==> i == j)
      && (today.year == shown.year && today.month == shown.month &&
          1 <= today.day <= DaysInMonth(shown.year, shown.month) ==>
            exists k :: 0 <= k < |g| && g[k].DayCell? && g[k].isToday)
  {
    var first, dim := FirstWeekday(shown.year, shown.month), DaysInMonth(shown.year, shown.month);
    var g := Grid(shown, today, apts);
    assert g == GridOf(shown, today, AppointmentsByDay(apts, shown), first, dim);
    TodayMarkedOnceOf(shown, today, AppointmentsByDay(apts, shown), first, dim);
  }

  lemma TodayMarkedOnceOf(shown: YearMonth, today: Date, dayApts: int -> seq<Appointment>, first: nat, dim: nat)
    ensures var g := GridOf(shown, today, dayApts, first, dim);
      && (forall k :: 0 <= k < |g| && g[k].DayCell? ==>
            (g[k].isToday <==> today == Date(shown.year, shown.month, g[k].day)))
      && (forall i, j ::
            0 <= i < |g| && 0 <= j < |g| && g[i].DayCell? && g[j].DayCell? && g[i].isToday && g[j].isToday
            ==> i == j)
      && (today.year == shown.year && today.month == shown.month && 1 <= today.day <= dim ==>
            exists k :: 0 <= k < |g| && g[k].DayCell? && g[k].isToday)
  {
    var g := GridOf(shown, today, dayApts, first, dim);
    if today.year == shown.year && today.month == shown.month && 1 <= today.day <= dim {
      var k := first + today.day - 1;
      GridOfAt(shown, today, dayApts, first, dim, k);
      assert g[k].DayCell? && g[k].isToday;
    }
  }

  /** What a day cell shows: its first two appointments, and how many more there are. */
  datatype Preview = Preview(shown: seq<Appointment>, more: nat)

  /** `dayAppointments.slice(0, 2)` and the `+N more` count, shown only when `N > 0`. */
  function CellPreview(apts: seq<Appointment>): (p: Preview)
    ensures p.shown == apts[..if |apts| < 2 then |apts| else 2]
    ensures p.more > 0 <==> |apts| > 2
    ensures |p.shown| + p.more == |apts|
  {
    Preview(Take(apts, 2), if |apts| > 2 then |apts| - 2 else 0)
  }

  // ---------------------------------------------------------------------------
  // Upcoming appointments

  /** The day an appointment's date text denotes, 0 for an unreadable one. */
  function DayValue(a: Appointment): int
  {
    match ParseIsoDate(a.date)
    case Some(d) => d
    case None => 0
  }

  /** The sort comparator `new Date(a.date).getTime() - new Date(b.date).getTime()`, as `<= 0`. */
  predicate ByDate(a: Appointment, b: Appointment)
  {
    DayValue(a) <= DayValue(b)
  }

  lemma ByDateIsTotalPreorder()
    ensures TotalPreorder(ByDate)
  {
  }

  /** The source's test `new Date(apt.date) >= new Date()`, `now` being the current time value. */
  function StartsAtOrAfter(now: int): Appointment -> bool
  {
    (a: Appointment) => match ParseIsoDate(a.date)
                        case Some(d) => d * MsPerDay >= now
                        case None => false
  }

  /**
   * The upcoming list as written: at most five of the given appointments, each one whose
   * date read as 00:00 UTC is not before `now`, in ascending date order: five of them, or all
   * when fewer pass; a copy of one that passes the test but is not listed misses out because
   * five earlier-or-equal ones fill the list.
   */
  function UpcomingAsWritten(filtered: seq<Appointment>, now: int): (r: seq<Appointment>)
    ensures |r| <= 5
    ensures forall i :: 0 <= i < |r| ==>
              r[i] in filtered && ParseIsoDate(r[i].date).Some? &&
              ParseIsoDate(r[i].date).value * MsPerDay >= now
    ensures forall i, j :: 0 <= i < j < |r| ==> DayValue(r[i]) <= DayValue(r[j])
    ensures forall k :: 0 <= k < |filtered| && StartsAtOrAfter(now)(filtered[k]) && filtered[k] !in r ==>
              |r| == 5 && forall i :: 0 <= i < |r| ==> DayValue(r[i]) <= DayValue(filtered[k])
    ensures multiset(r) <= multiset(filtered)
    ensures |r| == if IndexCount(StartsAtOrAfter(now), filtered) < 5
                   then IndexCount(StartsAtOrAfter(now), filtered) else 5
    ensures forall x :: StartsAtOrAfter(now)(x) && multiset(r)[x] < multiset(filtered)[x] ==>
              |r| == 5 && forall i :: 0 <= i < |r| ==> DayValue(r[i]) <= DayValue(x)
  {
    ByDateIsTotalPreorder();
    EarliestKept(ByDate, StartsAtOrAfter(now), filtered, 5);
    EarliestCopiesKept(ByDate, StartsAtOrAfter(now), filtered, 5);
    Take(SortBy(ByDate, Filter(StartsAtOrAfter(now), filtered)), 5)
  }

  /**
   * The sort is stable: the listed appointments that fall on the same day as `x` are a
   * leading part, in their original order, of the given appointments on that day that pass
   * the as-written test.
   */
  lemma UpcomingAsWrittenStable(filtered: seq<Appointment>, now: int, x: Appointment)
    ensures Filter(EquivalentTo(ByDate, x), UpcomingAsWritten(filtered, now)) <=
            Filter(EquivalentTo(ByDate, x), Filter(StartsAtOrAfter(now), filtered))
  {
    var kept := Filter(StartsAtOrAfter(now), filtered);
    ByDateIsTotalPreorder();
    SortByStable(ByDate, x, kept);
    TakeFilterPrefix(EquivalentTo(ByDate, x), SortBy(ByDate, kept), 5);
  }

  /**
   * As written, an appointment dated today is left out of the upcoming list, whatever else
   * the list holds, at every instant of the day but midnight itself, since its date is read
   * as 00:00 UTC.
   */
  lemma UpcomingAsWrittenDropsToday(filtered: seq<Appointment>, a: Appointment, now: int)
    requires ParseIsoDate(a.date) == Some(DayOf(now))
    requires now % MsPerDay != 0
    ensures a !in UpcomingAsWritten(filtered, now)
  {
  }

  /** The intended test: the appointment's day is today or later. */
  function OnOrAfter(today: int): Appointment -> bool
  {
    (a: Appointment) => match ParseIsoDate(a.date)
                        case Some(d) => d >= today
                        case None => false
  }

  /**
   * The upcoming list: at most five of the given appointments, each dated today or later,
   * in ascending date order, and the earliest of them: five of them, or all when there are
   * fewer; a copy of an appointment dated today or later that is not listed only misses out
   * because five earlier-or-equal ones fill the list.
   */
  function Upcoming(filtered: seq<Appointment>, now: int): (r: seq<Appointment>)
    ensures |r| <= 5
    ensures forall i :: 0 <= i < |r| ==>
              r[i] in filtered && ParseIsoDate(r[i].date).Some? &&
              ParseIsoDate(r[i].date).value >= DayOf(now)
    ensures forall i, j :: 0 <= i < j < |r| ==> DayValue(r[i]) <= DayValue(r[j])
    ensures forall k :: 0 <= k < |filtered| && OnOrAfter(DayOf(now))(filtered[k]) && filtered[k] !in r ==>
              |r| == 5 && forall i :: 0 <= i < |r| ==> DayValue(r[i]) <= DayValue(filtered[k])
    ensures multiset(r) <= multiset(filtered)
    ensures |r| == if IndexCount(OnOrAfter(DayOf(now)), filtered) < 5
                   then IndexCount(OnOrAfter(DayOf(now)), filtered) else 5
    ensures forall x :: OnOrAfter(DayOf(now))(x) && multiset(r)[x] < multiset(filtered)[x] ==>
              |r| == 5 && forall i :: 0 <= i < |r| ==> DayValue(r[i]) <= DayValue(x)
  {
    var kept := Filter(OnOrAfter(DayOf(now)), filtered);
    ByDateIsTotalPreorder();
    EarliestKept(ByDate, OnOrAfter(DayOf(now)), filtered, 5);
    EarliestCopiesKept(ByDate, OnOrAfter(DayOf(now)), filtered, 5);
    Take(SortBy(ByDate, kept), 5)
  }

  /**
   * The sort is stable: the listed appointments that fall on the same day as `x` are a
   * leading part, in their original order, of the given appointments on that day.
   */
  lemma UpcomingStable(filtered: seq<Appointment>, now: int, x: Appointment)
    ensures Filter(EquivalentTo(ByDate, x), Upcoming(filtered, now)) <=
            Filter(EquivalentTo(ByDate, x), Filter(OnOrAfter(DayOf(now)), filtered))
  {
    var kept := Filter(OnOrAfter(DayOf(now)), filtered);
    ByDateIsTotalPreorder();
    SortByStable(ByDate, x, kept);
    TakeFilterPrefix(EquivalentTo(ByDate, x), SortBy(ByDate, kept), 5);
  }

  // ---------------------------------------------------------------------------
  // Quick stats

  datatype Stats = Stats(total: nat, confirmed: nat, pending: nat)

  predicate IsConfirmed(a: Appointment)
  {
    a.status == Confirmed
  }

  predicate IsScheduled(a: Appointment)
  {
    a.status == Scheduled
  }

  /**
   * The "This Week" box: the number of filtered appointments, of the confirmed ones and of the
   * scheduled ones, each a count of indices.
   */
  function QuickStats(filtered: seq<Appointment>): (r: Stats)
    ensures r.total == |filtered|
    ensures r.confirmed == IndexCount(IsConfirmed, filtered)
    ensures r.pending == IndexCount(IsScheduled, filtered)
    ensures r.confirmed + r.pending <= r.total
    ensures r.confirmed == 0 <==> forall i :: 0 <= i < |filtered| ==> filtered[i].status != Confirmed
    ensures r.pending == 0 <==> forall i :: 0 <= i < |filtered| ==> filtered[i].status != Scheduled
  {
    FilterDisjoint(IsConfirmed, IsScheduled, filtered);
    FilterEmpty(IsConfirmed, filtered);
    FilterEmpty(IsScheduled, filtered);
    FilterLength(IsConfirmed, filtered);
    FilterLength(IsScheduled, filtered);
    Stats(|filtered|, |Filter(IsConfirmed, filtered)|, |Filter(IsScheduled, filtered)|)
  }
}
