/** The calendar object: its navigation state, the constructor with its range checks, `reset`
    and the header's handlers, which the source attaches to the same object. Calls into the
    picker, day-grid, style and listener modules are recorded in `requests`. */
module CalendarWidget {
  import opened Wrappers
  import opened CalendarMath
  import opened Requests
  import opened CalendarSetup
  import opened Header

  /** The constructor options this model reads; `dateChanged` and `monthChanged` say only
      whether the callback was given. */
  datatype Options = Options(
    currentDate: Option<Date>,
    startMonth: Option<Date>,
    endMonth: Option<Date>,
    weekdayDisplayType: Option<string>,
    monthDisplayType: Option<string>,
    customMonthValues: Option<seq<string>>,
    customWeekdayValues: Option<seq<string>>,
    disableMonthYearPickers: Option<bool>,
    disableMonthArrowClick: Option<bool>,
    dateChanged: bool,
    monthChanged: bool)

  /** Dates as a JavaScript `Date` reports them. */
  predicate ValidOptions(o: Options)
  {
    (o.currentDate.Some? ==> ValidDate(o.currentDate.value)) &&
    (o.startMonth.Some? ==> ValidDate(o.startMonth.value)) &&
    (o.endMonth.Some? ==> ValidDate(o.endMonth.value))
  }

  function StartOf(o: Options): (r: Option<Date>)
    requires ValidOptions(o)
    ensures r.Some? <==> o.startMonth.Some?
    ensures r.Some? ==> r.value == StartBound(o.startMonth.value)
  {
    match o.startMonth
    case Some(m) => Some(StartBound(m))
    case None => None
  }

  function EndOf(o: Options): (r: Option<Date>)
    requires ValidOptions(o)
    ensures r.Some? <==> o.endMonth.Some?
    ensures r.Some? ==> r.value == EndBound(o.endMonth.value)
  {
    match o.endMonth
    case Some(m) => Some(EndBound(m))
    case None => None
  }

  /** Why construction fails, if it does: the start check, then the end check, then the
      today marker finding no month option at today's month index. */
  function CreateFailure(o: Options, now: Date): (r: Option<CreateError>)
    requires ValidOptions(o) && ValidDate(now)
    ensures r.None? <==>
      CheckBounds(StartOf(o), EndOf(o), o.currentDate.GetOr(now)).None? &&
      now.month < |MonthNames(o.customMonthValues)|
    ensures CheckBounds(StartOf(o), EndOf(o), o.currentDate.GetOr(now)).Some? ==>
      r == CheckBounds(StartOf(o), EndOf(o), o.currentDate.GetOr(now))
    ensures CheckBounds(StartOf(o), EndOf(o), o.currentDate.GetOr(now)).None? && r.Some? ==>
      r == Some(TodayMonthOptionMissing)
  {
    var bounds := CheckBounds(StartOf(o), EndOf(o), o.currentDate.GetOr(now));
    if bounds.Some? then bounds
    else if now.month >= |MonthNames(o.customMonthValues)| then Some(TodayMonthOptionMissing)
    else None
  }

  class Calendar {
    var today: Date
    var currentDate: Date
    var start: Option<Date>
    var end: Option<Date>
    var stepInfo: StepInfo
    var yearPickerOffset: int
    var pickerType: PickerType
    var weekdays: seq<string>
    var monthDisplayType: string
    var customMonthValues: Option<seq<string>>
    var disableMonthYearPickers: bool
    var disableMonthArrowClick: bool
    var hasDateChanged: bool
    var hasMonthChanged: bool
    /** The selected day cell; only its clearing is modelled, so it holds the day number. */
    var oldSelectedNode: Option<int>
    var monthLabel: MonthText
    var yearLabel: string
    /** The `disable` class of each month-picker option. */
    var monthOptionDisabled: seq<bool>
    /** The today marker class of each month-picker option. */
    var monthOptionToday: seq<bool>
    /** The calls made into modules outside this model, oldest first. */
    var requests: seq<Request>

    ghost predicate Valid()
      reads this
    {
      ValidDate(today) && ValidDate(currentDate) &&
      (start.Some? ==> ValidDate(start.value) && start.value.day == 1) &&
      (end.Some? ==> ValidDate(end.value) && end.value.day == DaysInMonth(end.value.year, end.value.month)) &&
      yearPickerOffset % 12 == 0 &&
      Consistent(stepInfo.previous) && Consistent(stepInfo.next) &&
      |weekdays| == 7 &&
      |monthOptionToday| == |monthOptionDisabled|
    }

    /** The fields the constructor copies or derives from its options and `now`; none of
        them changes afterwards except through the handlers. */
    ghost predicate HoldsOptions(options: Options, now: Date)
      requires ValidOptions(options)
      reads this`today, this`start, this`end, this`yearPickerOffset, this`pickerType, this`weekdays,
            this`monthDisplayType, this`customMonthValues, this`disableMonthYearPickers,
            this`disableMonthArrowClick, this`hasDateChanged, this`hasMonthChanged, this`monthOptionDisabled
    {
      today == now && start == StartOf(options) && end == EndOf(options) &&
      yearPickerOffset == 0 && pickerType == MonthPicker &&
      weekdays == ResolveWeekdays(options.customWeekdayValues, options.weekdayDisplayType.GetOr("long-lower")) &&
      monthDisplayType == options.monthDisplayType.GetOr("long") &&
      customMonthValues == options.customMonthValues &&
      disableMonthYearPickers == options.disableMonthYearPickers.GetOr(false) &&
      disableMonthArrowClick == options.disableMonthArrowClick.GetOr(false) &&
      hasDateChanged == options.dateChanged && hasMonthChanged == options.monthChanged &&
      monthOptionDisabled == MonthMask(start, end, options.currentDate.GetOr(now), MonthNames(customMonthValues))
    }

    /** The constructor once its range checks have passed; `Create` below runs the checks. */
    constructor (options: Options, now: Date)
      requires ValidOptions(options) && ValidDate(now)
      requires CreateFailure(options, now).None?
      ensures Valid() && HoldsOptions(options, now)
      ensures currentDate == options.currentDate.GetOr(now)
      ensures stepInfo == InitialStepInfo(start, end, currentDate)
      ensures forall i :: 0 <= i < |monthOptionToday| ==> (monthOptionToday[i] <==> i == today.month)
      ensures monthLabel == MonthLabel(customMonthValues, monthDisplayType, currentDate)
      ensures yearLabel == IntToDecimal(currentDate.year)
      ensures requests ==
        [TogglePicker(Some(false)), ConfigureStylePreferences, AddEventListeners] +
        ResetRequests(currentDate, true, hasDateChanged, hasMonthChanged)
    {
      disableMonthYearPickers := options.disableMonthYearPickers.GetOr(false);
      disableMonthArrowClick := options.disableMonthArrowClick.GetOr(false);
      customMonthValues := options.customMonthValues;
      monthDisplayType := options.monthDisplayType.GetOr("long");
      hasDateChanged := options.dateChanged;
      hasMonthChanged := options.monthChanged;
      weekdays := ResolveWeekdays(options.customWeekdayValues, options.weekdayDisplayType.GetOr("long-lower"));
      var current, startBound, endBound := options.currentDate.GetOr(now), StartOf(options), EndOf(options);
      today := now;
      currentDate := current;
      start := startBound;
      end := endBound;
      stepInfo := StepInfo(next := AllOpen, previous := AllOpen);
      pickerType := MonthPicker;
      oldSelectedNode := None;
      yearPickerOffset := 0;
      monthLabel := Text("");
      yearLabel := "";
      requests := [];
      var labels := MonthNames(options.customMonthValues);
      monthOptionDisabled := MonthMask(startBound, endBound, current, labels);
      monthOptionToday := seq(|labels|, i => false);
      new;
      Initialize(options, now);
    }

    /** The constructor's steps once its fields hold the options: `Prepare`, then a reset
        around the current date. */
    method Initialize(ghost options: Options, now: Date)
      requires ValidOptions(options) && Valid() && HoldsOptions(options, now)
      requires currentDate == options.currentDate.GetOr(now)
      requires stepInfo == StepInfo(next := AllOpen, previous := AllOpen)
      requires today.month < |monthOptionToday| && forall i :: 0 <= i < |monthOptionToday| ==> !monthOptionToday[i]
      requires requests == []
      modifies this`stepInfo, this`monthOptionToday, this`requests, this`currentDate,
               this`oldSelectedNode, this`monthLabel, this`yearLabel
      ensures Valid() && HoldsOptions(options, now)
      ensures currentDate == options.currentDate.GetOr(now)
      ensures stepInfo == InitialStepInfo(start, end, currentDate)
      ensures forall i :: 0 <= i < |monthOptionToday| ==> (monthOptionToday[i] <==> i == today.month)
      ensures monthLabel == MonthLabel(customMonthValues, monthDisplayType, currentDate)
      ensures yearLabel == IntToDecimal(currentDate.year)
      ensures requests ==
        [TogglePicker(Some(false)), ConfigureStylePreferences, AddEventListeners] +
        ResetRequests(currentDate, true, hasDateChanged, hasMonthChanged)
    {
      Prepare(options, now);
      assert requests == [TogglePicker(Some(false)), ConfigureStylePreferences, AddEventListeners];
      Reset(Some(currentDate), today);
    }

    /** The constructor's steps before its reset: the step flags, the today marker, then the
        picker closed, the style preferences and the event listeners. */
    method Prepare(ghost options: Options, now: Date)
      requires ValidOptions(options) && Valid() && HoldsOptions(options, now)
      requires currentDate == options.currentDate.GetOr(now)
      requires stepInfo == StepInfo(next := AllOpen, previous := AllOpen)
      requires today.month < |monthOptionToday| && forall i :: 0 <= i < |monthOptionToday| ==> !monthOptionToday[i]
      modifies this`stepInfo, this`monthOptionToday, this`requests
      ensures Valid() && HoldsOptions(options, now)
      ensures stepInfo == InitialStepInfo(start, end, currentDate)
      ensures forall i :: 0 <= i < |monthOptionToday| ==> (monthOptionToday[i] <==> i == today.month)
      ensures requests == old(requests) + [TogglePicker(Some(false)), ConfigureStylePreferences, AddEventListeners]
    {
      ComputeStepInfo();
      monthOptionToday := monthOptionToday[today.month := true];
      requests := requests + [TogglePicker(Some(false)), ConfigureStylePreferences, AddEventListeners];
    }

    /** The constructor's loop over `start` and `end`, clearing the flags of `stepInfo`. */
    method ComputeStepInfo()
      modifies this`stepInfo
      ensures stepInfo == StepInfo(next := ClearSteps(old(stepInfo.next), end, currentDate),
                                   previous := ClearSteps(old(stepInfo.previous), start, currentDate))
    {
      var keys := [StartKey, EndKey];
      for k := 0 to |keys|
        invariant stepInfo.previous == if k >= 1 then ClearSteps(old(stepInfo.previous), start, currentDate) else old(stepInfo.previous)
        invariant stepInfo.next == if k >= 2 then ClearSteps(old(stepInfo.next), end, currentDate) else old(stepInfo.next)
      {
        var key := keys[k];
        var bound := if key == StartKey then start else end;
        if bound.Some? {
          if currentDate.year == bound.value.year {
            stepInfo := WithStepsAt(stepInfo, key, StepsAt(stepInfo, key).(year := false));
            if currentDate.month == bound.value.month {
              stepInfo := WithStepsAt(stepInfo, key, StepsAt(stepInfo, key).(month := false));
            }
          }
        }
      }
    }

    /** Re-displays the calendar around `date`, or around `now` when no date is given. */
    method Reset(date: Option<Date>, now: Date)
      requires Valid() && ValidDate(now) && (date.Some? ==> ValidDate(date.value))
      modifies this`currentDate, this`requests, this`oldSelectedNode, this`monthLabel, this`yearLabel
      ensures Valid()
      ensures currentDate == date.GetOr(now)
      ensures monthLabel == MonthLabel(customMonthValues, monthDisplayType, currentDate)
      ensures yearLabel == IntToDecimal(currentDate.year)
      ensures requests == old(requests) + ResetRequests(currentDate, date.Some?, hasDateChanged, hasMonthChanged)
    {
      currentDate := if date.Some? then date.value else now;
      var calls: seq<Request> := [ClearCalendarDays];
      UpdateMonthYear();
      calls := calls + RedrawRequests(currentDate, date.Some?);
      calls := calls + CallbackRequests(currentDate, hasDateChanged, hasMonthChanged);
      requests := requests + calls;
    }

    /** Whether month `i` lies outside the bounds in the current year. */
    function CheckMonth(i: int): (disabled: bool)
      reads this`start, this`end, this`currentDate
      ensures disabled == MonthOptionDisabled(start, end, currentDate, i)
      ensures start.None? && end.None? ==> !disabled
    {
      var disabled := false;
      var disabled' := if start.Some? && start.value.year == currentDate.year && i < start.value.month then true else disabled;
      if end.Some? && end.value.year == currentDate.year && i > end.value.month then true else disabled'
    }

    /** Until the current date changes, `checkMonth` recomputes exactly the mask the
        constructor built into the month picker. */
    lemma CheckMonthAgreesWithInitialMask(options: Options, now: Date)
      requires ValidOptions(options) && HoldsOptions(options, now)
      requires currentDate == options.currentDate.GetOr(now)
      ensures forall i :: 0 <= i < |monthOptionDisabled| ==> monthOptionDisabled[i] == CheckMonth(i)
    {
    }

    /** A click in the month/year header: choose the picker, refresh the month options,
        then toggle the picker if its type is unchanged and open it otherwise. */
    method HandleMonthYearDisplayClick(onMonthLabel: bool, onYearLabel: bool)
      requires Valid()
      modifies this`pickerType, this`monthOptionDisabled, this`monthOptionToday, this`requests
      ensures Valid()
      ensures |monthOptionDisabled| == old(|monthOptionDisabled|)
      ensures !(onMonthLabel || onYearLabel) || disableMonthYearPickers ==>
        pickerType == old(pickerType) && requests == old(requests)
      ensures (onMonthLabel || onYearLabel) && !disableMonthYearPickers ==>
        pickerType == (if onMonthLabel then MonthPicker else YearPicker) &&
        requests == old(requests) + [TogglePicker(if pickerType == old(pickerType) then None else Some(true))]
      ensures onMonthLabel && !disableMonthYearPickers ==>
        forall i :: 0 <= i < |monthOptionDisabled| ==>
          monthOptionDisabled[i] == CheckMonth(i) && (monthOptionToday[i] <==> IsTodayMonth(currentDate, today, i))
      ensures !(onMonthLabel && !disableMonthYearPickers) ==>
        monthOptionDisabled == old(monthOptionDisabled) && monthOptionToday == old(monthOptionToday)
    {
      if !(onMonthLabel || onYearLabel) {
        return;
      }
      if disableMonthYearPickers {
        return;
      }
      var oldPickerType := pickerType;
      if onMonthLabel {
        pickerType := MonthPicker;
        var n := |monthOptionDisabled|;
        var disabledFlags, todayFlags := monthOptionDisabled, monthOptionToday;
        for i := 0 to n
          invariant |disabledFlags| == n && |todayFlags| == n
          invariant forall j :: 0 <= j < i ==>
            disabledFlags[j] == CheckMonth(j) && (todayFlags[j] <==> IsTodayMonth(currentDate, today, j))
        {
          disabledFlags := disabledFlags[i := CheckMonth(i)];
          todayFlags := todayFlags[i := IsTodayMonth(currentDate, today, i)];
        }
        monthOptionDisabled, monthOptionToday := disabledFlags, todayFlags;
      } else if onYearLabel {
        pickerType := YearPicker;
      }
      if oldPickerType == pickerType {
        requests := requests + [TogglePicker(None)];
      } else {
        requests := requests + [TogglePicker(Some(true))];
      }
    }

    method HandlePrevMonthButtonClick()
      requires Valid()
      modifies this`yearPickerOffset, this`requests
      ensures Valid()
      ensures disableMonthArrowClick ==> yearPickerOffset == old(yearPickerOffset) && requests == old(requests)
      ensures !disableMonthArrowClick ==>
        yearPickerOffset == PrevMonthOffset(currentDate, today.year, old(yearPickerOffset)) &&
        requests == old(requests) + PrevMonthRequests(currentDate, today.year, old(yearPickerOffset))
    {
      if disableMonthArrowClick {
        return;
      }
      var newMonthValue := currentDate.month - 1;
      var paging: seq<Request> := [];
      if currentDate.year <= today.year + yearPickerOffset - 4 && newMonthValue < 0 {
        yearPickerOffset := yearPickerOffset - 12;
        paging := [GeneratePickerYears];
      }
      var selection: seq<Request> := [];
      if newMonthValue < 0 {
        selection := [UpdateYearPickerSelection(currentDate.year - 1, None)];
      }
      var step := [UpdateMonthPickerSelection(newMonthValue), UpdateCurrentDate(-1), TogglePicker(Some(false))];
      requests := requests + (paging + selection + step);
    }

    method HandleNextMonthButtonClick()
      requires Valid()
      modifies this`yearPickerOffset, this`requests
      ensures Valid()
      ensures disableMonthArrowClick ==> yearPickerOffset == old(yearPickerOffset) && requests == old(requests)
      ensures !disableMonthArrowClick ==>
        yearPickerOffset == NextMonthOffset(currentDate, today.year, old(yearPickerOffset)) &&
        requests == old(requests) + NextMonthRequests(currentDate, today.year, old(yearPickerOffset))
    {
      if disableMonthArrowClick {
        return;
      }
      var newMonthValue := currentDate.month + 1;
      var paging: seq<Request> := [];
      if currentDate.year >= today.year + yearPickerOffset + 7 && newMonthValue > 11 {
        yearPickerOffset := yearPickerOffset + 12;
        paging := [GeneratePickerYears];
      }
      var selection: seq<Request> := [];
      if newMonthValue > 11 {
        selection := [UpdateYearPickerSelection(currentDate.year + 1, None)];
      }
      var step := [UpdateMonthPickerSelection(newMonthValue), UpdateCurrentDate(1), TogglePicker(Some(false))];
      requests := requests + (paging + selection + step);
    }

    /** Changes how the `Intl` month name is written and shows the labels again. */
    method SetMonthDisplayType(newMonthDisplayType: string)
      requires Valid()
      modifies this`monthDisplayType, this`oldSelectedNode, this`monthLabel, this`yearLabel
      ensures Valid()
      ensures monthDisplayType == newMonthDisplayType
      ensures oldSelectedNode.None?
      ensures monthLabel == MonthLabel(customMonthValues, monthDisplayType, currentDate)
      ensures yearLabel == IntToDecimal(currentDate.year)
    {
      monthDisplayType := newMonthDisplayType;
      UpdateMonthYear();
    }

    /** Sets the month and year labels and forgets the selected day cell. */
    method UpdateMonthYear()
      requires Valid()
      modifies this`oldSelectedNode, this`monthLabel, this`yearLabel
      ensures Valid()
      ensures oldSelectedNode.None?
      ensures monthLabel == MonthLabel(customMonthValues, monthDisplayType, currentDate)
      ensures yearLabel == IntToDecimal(currentDate.year)
    {
      oldSelectedNode := None;
      if customMonthValues.Some? {
        var names := customMonthValues.value;
        monthLabel := if 0 <= currentDate.month < |names| then Text(names[currentDate.month]) else Text("undefined");
      } else {
        monthLabel := IntlMonthName(monthDisplayType, currentDate);
      }
      yearLabel := IntToDecimal(currentDate.year);
    }
  }

  /** `new Calendar(options)`: fails with the first check that rejects the options, and
      otherwise returns a calendar in its initial state. */
  method Create(options: Options, now: Date) returns (r: Result<Calendar, CreateError>)
    requires ValidOptions(options) && ValidDate(now)
    ensures r.Failure? <==> CreateFailure(options, now).Some?
    ensures r.Failure? ==> r.error == CreateFailure(options, now).value
    ensures r.Success? ==>
      fresh(r.value) && r.value.Valid() && r.value.HoldsOptions(options, now) &&
      r.value.currentDate == options.currentDate.GetOr(now) &&
      r.value.stepInfo == InitialStepInfo(StartOf(options), EndOf(options), r.value.currentDate) &&
      (forall i :: 0 <= i < |r.value.monthOptionToday| ==> (r.value.monthOptionToday[i] <==> i == now.month)) &&
      r.value.monthLabel == MonthLabel(options.customMonthValues, options.monthDisplayType.GetOr("long"), r.value.currentDate) &&
      r.value.yearLabel == IntToDecimal(r.value.currentDate.year) &&
      r.value.requests ==
        [TogglePicker(Some(false)), ConfigureStylePreferences, AddEventListeners] +
        ResetRequests(r.value.currentDate, true, options.dateChanged, options.monthChanged)
  {
    var failure := CreateFailure(options, now);
    if failure.Some? {
      return Failure(failure.value);
    }
    var c := new Calendar(options, now);
    return Success(c);
  }
}
