/** Calls the calendar makes into its picker, day-grid, events, style and listener modules,
    which are not part of this model. The model records each call, with its arguments and
    in order, instead of carrying it out. */
module Requests {
  import opened Wrappers
  import opened CalendarMath

  datatype Request =
    | TogglePicker(shouldOpen: Option<bool>)
    | ConfigureStylePreferences
    | AddEventListeners
    | ClearCalendarDays
    | UpdateMonthPickerSelection(newMonthValue: int)
    | GeneratePickerYears
    | UpdateYearPickerSelection(newYearValue: int, newYearIndex: Option<int>)
    | UpdateYearPickerTodaySelection
    | GenerateWeekdays
    | GenerateDays
    | SelectDayInitial(setDate: bool)
    | RenderDays
    | SetOldSelectedNode
    | UpdateCurrentDate(monthOffset: int)
    /** The events module's `getDateEvents(date)`, whose result `dateChanged` receives. */
    | GetDateEvents(date: Date)
    /** The events module's `getMonthEvents()`, whose result `monthChanged` receives. */
    | GetMonthEvents
    /** The user's `dateChanged` callback, given the current date. */
    | DateChanged(date: Date)
    /** The user's `monthChanged` callback, given the current date. */
    | MonthChanged(date: Date)
}
