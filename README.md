# color-calendar: navigation bounds and picker state

A Dafny model of the part of the color-calendar widget that sets bounds and handles
navigation. It covers:

- how the `Calendar` constructor turns the `startMonth` and `endMonth` options into the
  `start` and `end` days, and rejects a current date outside them;
- the `stepInfo` navigation flags;
- the disabled flags of the month-picker options;
- how the weekday labels are resolved;
- the fixed order of the steps `reset` takes;
- the header handlers: `checkMonth`, the previous/next month arrows that page the rolling
  twelve-year picker window, the month/year label click that chooses and toggles the
  picker, and `updateMonthYear`.

The modules follow the source:

- `CalendarMath` holds day triples `(year, month 0..11, day)` and Gregorian month lengths.
  It also holds the normalisation that `new Date(y, m, d)` performs, the order
  of days, and the decimal text of a year.
- `Requests` holds the calls the core makes into modules outside this model. Each call is
  appended, with its arguments, to a trace field `requests`; none is implemented.
- `CalendarSetup` holds the value computations of `src/index.ts`.
- `Header` holds the value computations of `src/modules/header/header.ts`.
- `CalendarWidget` holds the `Calendar` class, whose fields the constructor, `reset` and the
  header handlers update in place. The source attaches the header functions to the same
  object, so they are methods of this class.
- `Wrappers` holds `Option` and `Result`.

A throwing constructor becomes `Create`, which returns a `Result`. The clock
(`new Date()`) is a parameter `now`. The two calls at src/index.ts:195-196 are taken
to return the same day.

Some readings that the option and member names suggest differ from what the code does.
The model follows the code:

- Read by their names, `startMonth` and `endMonth` would bound an inclusive range
  `[startMonth, endMonth]`. The code makes `start` the first day of the month *before*
  `startMonth`, and `end` the last day of the month *before* `endMonth`. So construction accepts exactly the current months from
  `startMonth - 1` to `endMonth - 1`: a current date inside `endMonth` is rejected
  (`StartCheckByMonth`, `EndCheckByMonth`).
- A reader might expect the navigation flags `stepInfo` to be recomputed after every
  navigation. In the files modelled here, `stepInfo` is computed once, in the constructor,
  and neither `reset` nor a header handler reads or updates it. The actual month step is `updateCurrentDate` in the
  day module, which is not part of this model: whether it recomputes `stepInfo` is not known.
- A reader might expect month navigation to do nothing beyond a bound. In the files
  modelled here, the arrow handlers do not look at the bounds: they page the year window and request a
  one-month step from `updateCurrentDate`, whose own checks are not known. The arrows also
  carry a `disable` class taken from `stepInfo` (src/index.ts:247, 252), which listeners
  outside this model may honour.
- The name `yearPickerOffset` suggests that only the year picker moves it. The month arrows
  change it too, and the model records that.
- `reset` does not check the bounds again.
- The previous arrow in January passes month `-1` to `updateMonthPickerSelection`, and the
  next arrow in December passes `12`.

## Model

| member | source | states |
|---|---|---|
| CalendarMath.DaysInMonth | src/index.ts:202 | Gregorian month lengths, which `new Date(y, m, 0)` depends on: between 28 and 31 days; 29 exactly for February of a leap year, 28 exactly for February of any other year, 30 exactly for April, June, September and November |
| CalendarMath.PrevMonth | src/index.ts:201 | the month before: a valid month index whose month number is one less, so January steps back to December of the previous year |
| CalendarMath.NextMonth | src/modules/header/header.ts:106-112 | the month after: a valid month index whose month number is one more, so December steps on to January of the next year |
| CalendarMath.MonthStepsInverse | src/modules/header/header.ts:87-115 | stepping one month back and then forward, or forward and then back, returns to the same month |
| CalendarMath.MakeDate | src/index.ts:201-202 | `new Date(y, m, d)` for a day argument of 0..28 is a valid day. The year argument is first read as ECMAScript's MakeFullYear reads it: 0..99 name 1900..1999. For d >= 1 the result is day d of month `year*12+m`, with a month index outside 0..11 carried into the year. For d = 0 it is the last day of the month before |
| CalendarMath.BeforeIsStrictTotalOrder | src/index.ts:204-205 | the order in which the constructor compares days is irreflexive, transitive and total |
| CalendarMath.NextDay | src/index.ts:202 | the day after a valid day is valid and later, and it is a first of the month exactly when the day was a month's last |
| CalendarMath.NextDayIsImmediate | src/index.ts:202 | no valid day lies strictly between a day and the day after it |
| CalendarMath.NatToDecimal | src/modules/header/header.ts:129 | a non-empty string of decimal digits with no leading zero |
| CalendarMath.IntToDecimal | src/modules/header/header.ts:129 | the year text: it starts with a minus sign exactly for a negative year and is digits otherwise, with no leading zero before or after the sign |
| CalendarMath.NatToDecimalRoundTrip | src/modules/header/header.ts:129 | reading the numeral back gives the number (by induction on the digits) |
| CalendarMath.IntToDecimalRoundTrip | src/modules/header/header.ts:129 | reading the year label back as a signed decimal gives the year |
| CalendarSetup.StartBound | src/index.ts:201 | `start` is a valid day, the first of its month, and that month is the one immediately before `startMonth`, with `startMonth`'s year read as `new Date` reads it |
| CalendarSetup.StartBoundOfJanuary | src/index.ts:201 | a January `startMonth` gives 1 December of the previous year |
| CalendarSetup.StartBoundOfEarlyYears | src/index.ts:201 | a `startMonth` in March of AD 50 gives 1 February 1950; one in January of AD 100 gives 1 December of AD 99 |
| CalendarSetup.EndBound | src/index.ts:202 | `end` is a valid day, the last of its month, and that month is the one immediately before `endMonth` (year read as `new Date` reads it); the day after `end` is the first of `endMonth` |
| CalendarSetup.EndBoundOfMarch | src/index.ts:202 | a March `endMonth` gives 29 February in a leap year and 28 February otherwise |
| CalendarSetup.EndBoundOfYearZero | src/index.ts:202 | an `endMonth` in March of year 0 gives 28 February 1900, a common year |
| CalendarSetup.CheckBounds | src/index.ts:204-205 | construction passes exactly when `start` is not after the current date and `end` is not before it; the start check takes precedence over the end check |
| CalendarSetup.CheckedBoundsAreOrdered | src/index.ts:204-205 | when both checks pass, `start` is not after `end` |
| CalendarSetup.StartCheckByMonth | src/index.ts:201-204 | the start check accepts exactly the current months from `startMonth - 1` on |
| CalendarSetup.EndCheckByMonth | src/index.ts:202-205 | the end check accepts exactly the current months before `endMonth` |
| CalendarSetup.WithStepsAt | src/index.ts:211-215 | writing the flags of one direction sets them and leaves the other direction as it was |
| CalendarSetup.ClearSteps | src/index.ts:209-216 | one turn of the loop leaves the flags alone unless the bound is in the current year. If it is, the year step closes, and the month step closes exactly when the month matches too. A closed month step always comes with a closed year step |
| CalendarSetup.InitialStepInfo | src/index.ts:207-218 | starting from all four flags true (index.ts:148-157), `previous.year` is cleared exactly when `start` is in the current year, and `previous.month` exactly when `start` is also in the current month; the same holds for `end` and `next`; in each direction a false month flag implies a false year flag |
| CalendarSetup.StepInfoMeansStepStaysInRange | src/index.ts:204-218 | once the checks pass, with either bound, both or none, a month flag stays true exactly when there is no bound that way or the month one step that way is inside it, and a year flag exactly when the year one step that way is |
| CalendarSetup.MonthFlagsByOptions | src/index.ts:201-218 | the previous-month flag is false exactly in the month before `startMonth`, and the next-month flag exactly in the month before `endMonth` |
| CalendarSetup.MonthOptionDisabled | src/index.ts:260-266 | option `i` is disabled exactly when `start` is in the current year and `i` is before its month, or `end` is in the current year and `i` is after its month; with no bounds, nothing is disabled |
| CalendarSetup.MonthNames | src/index.ts:259 | the month options are the custom values when they are given, and otherwise the twelve default labels |
| CalendarSetup.MonthMask | src/index.ts:259-268 | one disabled flag per month label, each following the formula above |
| CalendarSetup.MaskIsPrefixAndSuffix | src/index.ts:259-268 | an option disabled by `start` has every earlier option disabled too, and one disabled by `end` has every later one disabled too |
| CalendarSetup.CurrentMonthEnabled | src/index.ts:259-268 | once the checks pass, the current month's own option is not disabled |
| CalendarSetup.ResolveWeekdays | src/index.ts:190-194 | seven labels: the custom ones exactly when seven are given; otherwise the table entry for the display type, with the short labels for an unknown key |
| CalendarSetup.ResetRequestOrder | src/index.ts:335-354 | `reset` clears the day grid first and sets the remembered selection last among its own steps. It passes `true` to `selectDayInitial` exactly when a date was given. It then fires `dateChanged` before `monthChanged`, each only when the callback was given, and each right after fetching the events it is passed |
| Header.PrevMonthOffset | src/modules/header/header.ts:87-91 | the previous arrow lowers `yearPickerOffset` by exactly 12 when the current month is January and the current year is at or before the window's first year; in every other case the offset is unchanged |
| Header.NextMonthOffset | src/modules/header/header.ts:106-110 | the next arrow raises `yearPickerOffset` by exactly 12 when the current month is December and the current year is at or after the window's last year; in every other case the offset is unchanged |
| Header.PrevMonthRequests | src/modules/header/header.ts:87-97 | the previous arrow makes three calls, plus one when it pages the window and one in January. It starts with the picker years when it pages, then the year selection of `year - 1` in January. It ends with the month `month - 1`, a step of -1 and a closed picker |
| Header.PrevMonthRequestsContents | src/modules/header/header.ts:88-94 | the previous arrow regenerates the picker years exactly when it pages the window, and moves the year selection exactly in January, to `year - 1` and no other year |
| Header.NextMonthRequests | src/modules/header/header.ts:106-116 | the next arrow makes three calls, plus one when it pages the window and one in December. It starts with the picker years when it pages, then the year selection of `year + 1` in December. It ends with the month `month + 1`, a step of +1 and a closed picker |
| Header.NextMonthRequestsContents | src/modules/header/header.ts:107-113 | the next arrow regenerates the picker years exactly when it pages the window, and moves the year selection exactly in December, to `year + 1` and no other year |
| Header.PrevMonthKeepsYearInWindow | src/modules/header/header.ts:87-91 | when the current year is in the picker window, the year of the previous month is in the window as paged by that arrow. The window is the one the arrows' edge tests imply; `generatePickerYears`, which lays it out, is not part of this model |
| Header.NextMonthKeepsYearInWindow | src/modules/header/header.ts:106-110 | the same for the next arrow, with the same window |
| Header.OffsetAfterPresses | src/modules/header/header.ts:88-110 | over any run of arrow presses starting from the constructor's offset 0 (index.ts:234), the offset stays a multiple of 12 and moves by at most 12 per press |
| Header.TodayMarkerUnique | src/modules/header/header.ts:40-42 | at most one month option carries the today marker, and only when the current year is today's year |
| Header.MonthLabel | src/modules/header/header.ts:122-128 | the month label is the custom value at the current month when there is one, the text `undefined` when the custom list is too short, and the `Intl` month name of the display type otherwise |
| CalendarWidget.StartOf | src/index.ts:201 | `start` exists exactly when `startMonth` is given, and is its normalised bound |
| CalendarWidget.EndOf | src/index.ts:202 | `end` exists exactly when `endMonth` is given, and is its normalised bound |
| CalendarWidget.CreateFailure | src/index.ts:204-205 | construction fails on the first bound check that rejects the current date, with that check's error. Otherwise it fails only when the month picker has no option at today's month index, where index.ts:298 would throw, and then the error is `TodayMonthOptionMissing` |
| CalendarWidget.Create | src/index.ts:159-205 | `new Calendar(options)` fails exactly when `CreateFailure` reports an error, and with that error. Otherwise it returns a fresh calendar in its initial state: the option fields, `stepInfo`, the today marker, both labels and the trace as the constructor leaves them |
| CalendarWidget.Calendar.constructor | src/index.ts:159-333 | every modelled field as the constructor leaves it: the option fields, `start`/`end`, `stepInfo` from the loop, offset 0, and the month picker as the initial type. The month options carry the template's disabled mask. Today's month alone carries the today marker. The labels show the current date. The trace is the closed picker, styles, listeners and then `reset`'s calls with a given date. The selected day cell is not promised (see Left out) |
| CalendarWidget.Calendar.Initialize | src/index.ts:324-332 | the constructor's steps after its fields are set keep the option fields, and end in the constructor's final state |
| CalendarWidget.Calendar.Prepare | src/index.ts:207-330 | the loop sets `stepInfo`, today's month option is marked, and the closed picker, style preferences and event listeners are appended to the trace, in that order |
| CalendarWidget.Calendar.ComputeStepInfo | src/index.ts:207-218 | the `forEach` over `start` then `end` leaves `stepInfo` cleared by each bound for its own direction |
| CalendarWidget.Calendar.Reset | src/index.ts:335-354 | `currentDate` becomes the given date, or the clock's date `now` without one. The labels show it. The trace grows by exactly `reset`'s calls in order. No bound or flag changes |
| CalendarWidget.Calendar.CheckMonth | src/modules/header/header.ts:67-78 | agrees with the template's disabled formula; false when neither bound is set |
| CalendarWidget.Calendar.CheckMonthAgreesWithInitialMask | src/modules/header/header.ts:67-78 | until the current date changes, `checkMonth` recomputes exactly the mask the constructor built |
| CalendarWidget.Calendar.HandleMonthYearDisplayClick | src/modules/header/header.ts:9-61 | a click off the labels, or with the pickers disabled, changes nothing. Otherwise the picker type follows the label clicked. The picker is toggled when the type is unchanged and opened otherwise. A month-label click recomputes every month option's disabled flag with `checkMonth` and its today marker |
| CalendarWidget.Calendar.HandlePrevMonthButtonClick | src/modules/header/header.ts:81-98 | with arrow clicks disabled, nothing changes and nothing is requested. Otherwise the offset becomes `PrevMonthOffset` and the trace grows by `PrevMonthRequests` |
| CalendarWidget.Calendar.HandleNextMonthButtonClick | src/modules/header/header.ts:100-117 | with arrow clicks disabled, nothing changes and nothing is requested. Otherwise the offset becomes `NextMonthOffset` and the trace grows by `NextMonthRequests` |
| CalendarWidget.Calendar.SetMonthDisplayType | src/modules/header/header.ts:3-6 | stores the display type, forgets the selected cell and refreshes the labels with it; the calendar stays valid |
| CalendarWidget.Calendar.UpdateMonthYear | src/modules/header/header.ts:120-130 | forgets the selected cell; the month label is `MonthLabel` of the current date; the year label is the year's decimal text |

## Left out

- DOM work is not modelled: the HTML templates, `querySelector`, class lists, opacity and
  display styles, and layout modifiers. Only the decisions that drive them are kept: the
  disabled and today flags of each month option, the picker type, and the arguments of each
  call.
- `Intl.DateTimeFormat` is a foreign library. The month label it would produce is kept
  symbolic as `IntlMonthName(displayType, date)`.
- The unseen modules are only recorded in the `requests` trace: the picker, year picker,
  day grid, events, style preferences and event listeners. In particular, `updateCurrentDate`
  is not applied, so the model's `currentDate` does not move when an arrow is pressed. The
  year picker's chevrons, which may also move the offset, directly or through
  `yearPickerOffsetTemporary`, live in those modules and are not part of this model.
- `Calendar.Reset` records that the `dateChanged` and `monthChanged` callbacks are fired, and
  with which date, each after the `getDateEvents` or `getMonthEvents` call that fetches its
  events. It does not model what the callbacks do or the event lists passed to them.
- CalendarWidget.Calendar.Reset: does not promise the selected day cell `oldSelectedNode`
  after it returns. `updateMonthYear` clears it, but `reset` then calls `setOldSelectedNode`
  (index.ts:347), whose body is in the day module. That call is only recorded, so the value
  it stores is not modelled.
- CalendarWidget.Calendar.constructor: does not promise `oldSelectedNode` either, for the same
  reason; neither does `CalendarWidget.Calendar.Initialize` or `CalendarWidget.Create`.
- CalendarWidget.Calendar.constructor: time of day is not modelled. The source compares `Date` instants, and
  `new Date()` carries the current time while `start` and `end` are at midnight. So in the
  source, a current date taken from the clock on the last day of the bound compares greater
  than `end` and is rejected; the model accepts it.
- CalendarWidget.Calendar.constructor: the throw when the host element is missing (index.ts:238-241) is not
  modelled; the host element is taken to exist.
- The options that do not reach this logic are not modelled: the id, size, theme, colours,
  fonts, borders, `startWeekday`, `eventsData`, `selectInitialDate` and `disableDayClick`.
  Neither are the day-grid fields and `yearPickerOffsetTemporary`, which the files modelled
  here only declare and initialise.
- `ResolveWeekdays`: the table lookup sees only its three own keys. In JavaScript a key such
  as `constructor` would find an inherited prototype member instead of falling back.
- The prototype wiring of the module functions onto `Calendar` (index.ts:360-404) is not
  modelled; the header functions are methods of the class instead.
- `oldSelectedNode` holds a day cell in the source. Only its clearing is modelled, so the
  field is an `Option<int>`.
- `ValidOptions` takes every date option to be a real calendar day, and years are unbounded
  integers. So an Invalid Date option (`NaN` time value), and dates beyond the ±8.64e15 ms
  range of a JavaScript `Date`, are not modelled.
- Without custom month values, `updateMonthYear` builds `new Intl.DateTimeFormat("default",
  {month: monthDisplayType})` (header.ts:125-127), which throws a RangeError for a display
  type that is not one of Intl's month styles. `monthDisplayType` is an unrestricted string
  here and that throw is not modelled; the label stays the symbolic `IntlMonthName`.
- The source keeps the caller's own `Date` objects by reference: `options.currentDate`
  (index.ts:196) and the argument of `reset(date)` (index.ts:336). Here a `Date` is a value,
  so a later in-place change to such an object is not reflected. Nothing in the modelled
  core depends on it.
