/** The value computations of the calendar's constructor and `reset`: normalising the
    navigation bounds, the checks that reject a current date outside them, the navigation
    flags, the disabled-month mask of the month picker, the weekday labels and the order of
    the steps `reset` takes. */
module CalendarSetup {
  import opened Wrappers
  import opened CalendarMath
  import opened Requests

  /** `start` as built from the `startMonth` option: `new Date(year, month - 1, 1)`, the
      first day of the month before `startMonth`, counted in the year `new Date` reads
      the year argument as. */
  function StartBound(startMonth: Date): (r: Date)
    requires 0 <= startMonth.month < 12
    ensures ValidDate(r) && r.day == 1
    ensures YearMonth(r.year, r.month) == PrevMonth(FullYear(startMonth.year), startMonth.month)
  {
    var d := MakeDate(startMonth.year, startMonth.month - 1, 1);
    var p := PrevMonth(FullYear(startMonth.year), startMonth.month);
    MonthNumberInjective(d.year, d.month, p.year, p.month);
    d
  }

  /** `end` as built from the `endMonth` option: `new Date(year, month, 0)`, the last day
      of the month before `endMonth`, counted in the year `new Date` reads the year
      argument as. */
  function EndBound(endMonth: Date): (r: Date)
    requires 0 <= endMonth.month < 12
    ensures ValidDate(r) && r.day == DaysInMonth(r.year, r.month)
    ensures YearMonth(r.year, r.month) == PrevMonth(FullYear(endMonth.year), endMonth.month)
    ensures NextDay(r) == Date(FullYear(endMonth.year), endMonth.month, 1)
  {
    var d := MakeDate(endMonth.year, endMonth.month, 0);
    var p := PrevMonth(FullYear(endMonth.year), endMonth.month);
    MonthNumberInjective(d.year, d.month, p.year, p.month);
    MonthStepsInverse(FullYear(endMonth.year), endMonth.month);
    d
  }

  lemma StartBoundOfJanuary(y: int, d: int)
    ensures StartBound(Date(y, 0, d)) == Date(FullYear(y) - 1, 11, 1)
  {
  }

  lemma EndBoundOfMarch(y: int, d: int)
    ensures EndBound(Date(y, 2, d)) == Date(FullYear(y), 1, if IsLeapYear(FullYear(y)) then 29 else 28)
  {
  }

  /** A `startMonth` in a year 0..99 is moved into the 1900s: March of AD 50 starts the range
      on 1 February 1950, and January of AD 100 on 1 December of AD 99. */
  lemma StartBoundOfEarlyYears()
    ensures StartBound(Date(50, 2, 1)) == Date(1950, 1, 1)
    ensures StartBound(Date(100, 0, 1)) == Date(99, 11, 1)
  {
  }

  /** An `endMonth` of March of year 0 ends the range on 28 February 1900, a common year. */
  lemma EndBoundOfYearZero()
    ensures EndBound(Date(0, 2, 1)) == Date(1900, 1, 28)
  {
  }

  /** Why a `Calendar` can fail to be constructed. */
  datatype CreateError =
    | StartAfterCurrent      // 'The current date cannot be less than the starting point'
    | EndBeforeCurrent       // 'The current date cannot be greater than the endpoint'
    | TodayMonthOptionMissing // the month picker has no option at today's month index

  /** The two range checks of the constructor, in their order. */
  function CheckBounds(start: Option<Date>, end: Option<Date>, current: Date): (r: Option<CreateError>)
    ensures r.None? <==> (start.None? || !Before(current, start.value)) && (end.None? || !Before(end.value, current))
    ensures r == Some(StartAfterCurrent) <==> start.Some? && Before(current, start.value)
    ensures r == Some(EndBeforeCurrent) <==>
      (start.None? || !Before(current, start.value)) && end.Some? && Before(end.value, current)
  {
    if start.Some? && Before(current, start.value) then Some(StartAfterCurrent)
    else if end.Some? && Before(end.value, current) then Some(EndBeforeCurrent)
    else None
  }

  /** Passing both checks makes `start` no later than `end`. */
  lemma CheckedBoundsAreOrdered(start: Date, end: Date, current: Date)
    requires CheckBounds(Some(start), Some(end), current).None?
    ensures !Before(end, start)
  {
  }

  /** The start check accepts exactly the current dates from the month before `startMonth`
      on (in the year `new Date` reads). */
  lemma StartCheckByMonth(startMonth: Date, current: Date)
    requires 0 <= startMonth.month < 12 && ValidDate(current)
    ensures !Before(current, StartBound(startMonth)) <==>
      MonthNumber(FullYear(startMonth.year), startMonth.month) - 1 <= MonthNumber(current.year, current.month)
  {
    var s := StartBound(startMonth);
    MonthNumberInjective(s.year, s.month, current.year, current.month);
  }

  /** The end check accepts exactly the current dates before the first day of `endMonth`:
      a current date inside `endMonth` itself is rejected. */
  lemma EndCheckByMonth(endMonth: Date, current: Date)
    requires 0 <= endMonth.month < 12 && ValidDate(current)
    ensures !Before(EndBound(endMonth), current) <==>
      MonthNumber(current.year, current.month) < MonthNumber(FullYear(endMonth.year), endMonth.month)
  {
    var e := EndBound(endMonth);
    MonthNumberInjective(e.year, e.month, current.year, current.month);
  }

  /** The navigation flags of one direction. */
  datatype Steps = Steps(year: bool, month: bool)

  /** `stepInfo`: whether the calendar may step to the next or previous year and month. */
  datatype StepInfo = StepInfo(next: Steps, previous: Steps)

  /** The two bounds the constructor's loop visits, in its order. */
  datatype BoundKey = StartKey | EndKey

  /** `stepInfo[switchKey]`: the start bound governs `previous`, the end bound `next`. */
  function StepsAt(info: StepInfo, key: BoundKey): (s: Steps)
  {
    match key
    case StartKey => info.previous
    case EndKey => info.next
  }

  function WithStepsAt(info: StepInfo, key: BoundKey, s: Steps): (r: StepInfo)
    ensures StepsAt(r, key) == s
    ensures key == StartKey ==> r.next == info.next
    ensures key == EndKey ==> r.previous == info.previous
  {
    match key
    case StartKey => info.(previous := s)
    case EndKey => info.(next := s)
  }

  /** The initial value of `stepInfo`: every step allowed. */
  const AllOpen: Steps := Steps(true, true)

  /** A closed month step comes with a closed year step. */
  predicate Consistent(s: Steps)
  {
    !s.month ==> !s.year
  }

  /** One turn of the constructor's loop over the bounds: a bound in the current year closes
      the year step, and also the month step when it is in the current month. */
  function ClearSteps(s: Steps, bound: Option<Date>, current: Date): (r: Steps)
    ensures Consistent(s) ==> Consistent(r)
    ensures bound.None? || bound.value.year != current.year ==> r == s
    ensures bound.Some? && bound.value.year == current.year ==>
      !r.year && (r.month <==> s.month && bound.value.month != current.month)
  {
    if bound.Some? && current.year == bound.value.year then
      Steps(false, if current.month == bound.value.month then false else s.month)
    else
      s
  }

  /** `stepInfo` after construction: the start bound governs `previous`, the end bound `next`. */
  function InitialStepInfo(start: Option<Date>, end: Option<Date>, current: Date): (r: StepInfo)
    ensures r.previous.year <==> !(start.Some? && start.value.year == current.year)
    ensures r.previous.month <==>
      !(start.Some? && start.value.year == current.year && start.value.month == current.month)
    ensures r.next.year <==> !(end.Some? && end.value.year == current.year)
    ensures r.next.month <==>
      !(end.Some? && end.value.year == current.year && end.value.month == current.month)
    ensures Consistent(r.previous) && Consistent(r.next)
  {
    StepInfo(next := ClearSteps(AllOpen, end, current), previous := ClearSteps(AllOpen, start, current))
  }

  /** Once the checks have passed, the month flag of a direction stays open exactly when
      there is no bound that way or the month one step that way is still inside it, and the
      year flag exactly when the year one step that way is. */
  lemma StepInfoMeansStepStaysInRange(start: Option<Date>, end: Option<Date>, current: Date)
    requires start.Some? ==> ValidDate(start.value)
    requires end.Some? ==> ValidDate(end.value)
    requires ValidDate(current)
    requires CheckBounds(start, end, current).None?
    ensures var info := InitialStepInfo(start, end, current);
      var p := PrevMonth(current.year, current.month);
      var n := NextMonth(current.year, current.month);
      (info.previous.month <==> start.None? || MonthNumber(start.value.year, start.value.month) <= MonthNumber(p.year, p.month)) &&
      (info.next.month <==> end.None? || MonthNumber(n.year, n.month) <= MonthNumber(end.value.year, end.value.month)) &&
      (info.previous.year <==> start.None? || start.value.year <= current.year - 1) &&
      (info.next.year <==> end.None? || current.year + 1 <= end.value.year)
  {
    if start.Some? {
      MonthNumberInjective(start.value.year, start.value.month, current.year, current.month);
    }
    if end.Some? {
      MonthNumberInjective(end.value.year, end.value.month, current.year, current.month);
    }
  }

  /** In terms of the options: the previous-month arrow is disabled exactly in the month
      before `startMonth`, the next-month arrow exactly in the month before `endMonth`. */
  lemma MonthFlagsByOptions(startMonth: Date, endMonth: Date, current: Date)
    requires 0 <= startMonth.month < 12 && 0 <= endMonth.month < 12
    ensures var info := InitialStepInfo(Some(StartBound(startMonth)), Some(EndBound(endMonth)), current);
      (!info.previous.month <==> YearMonth(current.year, current.month) == PrevMonth(FullYear(startMonth.year), startMonth.month)) &&
      (!info.next.month <==> YearMonth(current.year, current.month) == PrevMonth(FullYear(endMonth.year), endMonth.month))
  {
  }

  /** Whether month option `i` of the month picker is built disabled: the two successive
      tests of the constructor's template, each of which may set the flag. */
  function MonthOptionDisabled(start: Option<Date>, end: Option<Date>, current: Date, i: int): (r: bool)
    ensures r <==>
      (start.Some? && start.value.year == current.year && i < start.value.month) ||
      (end.Some? && end.value.year == current.year && i > end.value.month)
    ensures start.None? && end.None? ==> !r
  {
    var disabled := false;
    var disabled' := if start.Some? && start.value.year == current.year && i < start.value.month then true else disabled;
    if end.Some? && end.value.year == current.year && i > end.value.month then true else disabled'
  }

  /** The labels of the month picker's options. */
  const DefaultMonthNames: seq<string> :=
    ["Jan", "Feb", "Mar", "Apr", "May", "Jun", "Jul", "Aug", "Sep", "Oct", "Nov", "Dec"]

  function MonthNames(customMonthValues: Option<seq<string>>): (r: seq<string>)
    ensures customMonthValues.Some? ==> r == customMonthValues.value
    ensures customMonthValues.None? ==> r == DefaultMonthNames && |r| == 12
  {
    customMonthValues.GetOr(DefaultMonthNames)
  }

  /** The disabled flags of all month options, one per label. */
  function MonthMask(start: Option<Date>, end: Option<Date>, current: Date, labels: seq<string>): (r: seq<bool>)
    ensures |r| == |labels|
    ensures forall i :: 0 <= i < |r| ==>
      (r[i] <==> (start.Some? && start.value.year == current.year && i < start.value.month) ||
                 (end.Some? && end.value.year == current.year && i > end.value.month))
  {
    seq(|labels|, i => MonthOptionDisabled(start, end, current, i))
  }

  /** The disabled options are a prefix below the start month and a suffix above the end
      month. */
  lemma MaskIsPrefixAndSuffix(start: Option<Date>, end: Option<Date>, current: Date, i: int, j: int)
    requires j <= i
    ensures start.Some? && start.value.year == current.year && i < start.value.month ==>
      MonthOptionDisabled(start, end, current, j)
    ensures end.Some? && end.value.year == current.year && j > end.value.month ==>
      MonthOptionDisabled(start, end, current, i)
  {
  }

  /** Once the checks have passed, the current month's own option is never disabled. */
  lemma CurrentMonthEnabled(start: Option<Date>, end: Option<Date>, current: Date)
    requires CheckBounds(start, end, current).None?
    ensures !MonthOptionDisabled(start, end, current, current.month)
  {
  }

  const ShortWeekdays: seq<string> := ["S", "M", "T", "W", "T", "F", "S"]
  const LongLowerWeekdays: seq<string> := ["Sun", "Mon", "Tue", "Wed", "Thu", "Fri", "Sat"]
  const LongUpperWeekdays: seq<string> := ["SUN", "MON", "TUE", "WED", "THU", "FRI", "SAT"]

  /** `weekdayDisplayTypeOptions[key]`. */
  function WeekdayTable(key: string): Option<seq<string>>
  {
    if key == "short" then Some(ShortWeekdays)
    else if key == "long-lower" then Some(LongLowerWeekdays)
    else if key == "long-upper" then Some(LongUpperWeekdays)
    else None
  }

  /** The weekday labels: the custom ones when exactly seven are given, otherwise the table
      entry of the display type, and the short labels for an unknown display type. */
  function ResolveWeekdays(customWeekdayValues: Option<seq<string>>, weekdayDisplayType: string): (r: seq<string>)
    ensures |r| == 7
    ensures customWeekdayValues.Some? && |customWeekdayValues.value| == 7 ==> r == customWeekdayValues.value
    ensures !(customWeekdayValues.Some? && |customWeekdayValues.value| == 7) ==>
      r == (if weekdayDisplayType == "long-lower" then LongLowerWeekdays
            else if weekdayDisplayType == "long-upper" then LongUpperWeekdays
            else ShortWeekdays)
  {
    if customWeekdayValues.Some? && |customWeekdayValues.value| == 7 then customWeekdayValues.value
    else WeekdayTable(weekdayDisplayType).GetOr(ShortWeekdays)
  }

  /** The calls `reset` makes to rebuild the display around `date`, after it has set the
      month and year labels; `dateGiven` says whether `reset` was passed a date. */
  function RedrawRequests(date: Date, dateGiven: bool): seq<Request>
  {
    [UpdateMonthPickerSelection(date.month), GeneratePickerYears,
     UpdateYearPickerSelection(date.year, Some(4)), UpdateYearPickerTodaySelection,
     GenerateWeekdays, GenerateDays, SelectDayInitial(dateGiven), RenderDays, SetOldSelectedNode]
  }

  /** The user callbacks `reset` fires last, each only when it was given and each after
      asking the events module for the events it is passed. */
  function CallbackRequests(date: Date, hasDateChanged: bool, hasMonthChanged: bool): seq<Request>
  {
    (if hasDateChanged then [GetDateEvents(date), DateChanged(date)] else []) +
    (if hasMonthChanged then [GetMonthEvents, MonthChanged(date)] else [])
  }

  /** All calls `reset` makes after setting the current date, in order; the month and year
      labels are set between the first and the second. */
  function ResetRequests(date: Date, dateGiven: bool, hasDateChanged: bool, hasMonthChanged: bool): seq<Request>
  {
    [ClearCalendarDays] + RedrawRequests(date, dateGiven) + CallbackRequests(date, hasDateChanged, hasMonthChanged)
  }

  /** `reset` clears the grid first and sets the remembered selection last among its own
      steps, selects the initial day as a given date exactly when one was given, and fires
      `dateChanged` before `monthChanged`, each only when the callback was given and right
      after the events it is passed were fetched. */
  lemma ResetRequestOrder(date: Date, dateGiven: bool, hasDateChanged: bool, hasMonthChanged: bool)
    ensures var r := ResetRequests(date, dateGiven, hasDateChanged, hasMonthChanged);
      (|r| == 10 + (if hasDateChanged then 2 else 0) + (if hasMonthChanged then 2 else 0)) &&
      (r[0] == ClearCalendarDays && r[9] == SetOldSelectedNode) &&
      (r[1] == UpdateMonthPickerSelection(date.month)) &&
      (r[3] == UpdateYearPickerSelection(date.year, Some(4))) &&
      (SelectDayInitial(true) in r <==> dateGiven) &&
      (DateChanged(date) in r <==> hasDateChanged) &&
      (MonthChanged(date) in r <==> hasMonthChanged) &&
      (forall i, j :: 0 <= i < |r| && 0 <= j < |r| && r[i].DateChanged? && r[j].MonthChanged? ==> i < j) &&
      (forall i :: 0 <= i < |r| && (r[i].DateChanged? || r[i].MonthChanged?) ==> 11 <= i) &&
      (forall i :: 0 <= i < |r| && r[i].DateChanged? ==> r[i - 1] == GetDateEvents(date)) &&
      (forall i :: 0 <= i < |r| && r[i].MonthChanged? ==> r[i - 1] == GetMonthEvents)
  {
  }
}
