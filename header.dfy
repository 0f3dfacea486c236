/** The value computations of the calendar header: the rolling year-picker window and how
    the month arrows page it, the calls each arrow makes, the today marker of the month
    picker and the month and year labels. */
module Header {
  import opened Wrappers
  import opened CalendarMath
  import opened Requests

  /** Which picker the month/year header shows (`pickerType`, 'month' or 'year'). */
  datatype PickerType = MonthPicker | YearPicker

  /** The twelve years `todayYear + offset - 4 .. todayYear + offset + 7` the year picker is
      taken to show. The years are laid out by `generatePickerYears`, which lives in the
      year-picker module and is not part of this model; this window is the one the arrow
      handlers' edge tests (header.ts:88, 107) imply. */
  predicate InWindow(year: int, todayYear: int, offset: int)
  {
    todayYear + offset - 4 <= year <= todayYear + offset + 7
  }

  /** `yearPickerOffset` after the previous-month arrow: it pages back by twelve years when
      the step leaves January while the displayed year is at or before the window's first. */
  function PrevMonthOffset(current: Date, todayYear: int, offset: int): (r: int)
    requires 0 <= current.month < 12
    ensures r == offset - 12 <==> current.month == 0 && current.year <= todayYear + offset - 4
    ensures r == offset || r == offset - 12
  {
    var newMonthValue := current.month - 1;
    if current.year <= todayYear + offset - 4 && newMonthValue < 0 then offset - 12 else offset
  }

  /** `yearPickerOffset` after the next-month arrow: it pages forward by twelve years when
      the step leaves December while the displayed year is at or after the window's last. */
  function NextMonthOffset(current: Date, todayYear: int, offset: int): (r: int)
    requires 0 <= current.month < 12
    ensures r == offset + 12 <==> current.month == 11 && current.year >= todayYear + offset + 7
    ensures r == offset || r == offset + 12
  {
    var newMonthValue := current.month + 1;
    if current.year >= todayYear + offset + 7 && newMonthValue > 11 then offset + 12 else offset
  }

  /** The calls the previous-month arrow makes, in order: the picker years when the window
      is paged, the year selection when the step leaves January, then the month selection,
      the one-month step and the closed picker. */
  function PrevMonthRequests(current: Date, todayYear: int, offset: int): (r: seq<Request>)
    requires 0 <= current.month < 12
    ensures |r| == 3 + (if PrevMonthOffset(current, todayYear, offset) != offset then 1 else 0) + (if current.month == 0 then 1 else 0)
    ensures r[|r| - 3..] == [UpdateMonthPickerSelection(current.month - 1), UpdateCurrentDate(-1), TogglePicker(Some(false))]
    ensures PrevMonthOffset(current, todayYear, offset) != offset ==> r[0] == GeneratePickerYears
    ensures current.month == 0 ==> r[|r| - 4] == UpdateYearPickerSelection(current.year - 1, None)
  {
    var newMonthValue := current.month - 1;
    var paging: seq<Request> := if current.year <= todayYear + offset - 4 && newMonthValue < 0 then [GeneratePickerYears] else [];
    var selection: seq<Request> := if newMonthValue < 0 then [UpdateYearPickerSelection(current.year - 1, None)] else [];
    paging + selection + [UpdateMonthPickerSelection(newMonthValue), UpdateCurrentDate(-1), TogglePicker(Some(false))]
  }

  /** What the previous-month arrow requests, by kind: the picker years exactly when it pages
      the window, and a year selection exactly when the step leaves January, always of the
      year before. */
  lemma PrevMonthRequestsContents(current: Date, todayYear: int, offset: int)
    requires 0 <= current.month < 12
    ensures var r := PrevMonthRequests(current, todayYear, offset);
      (GeneratePickerYears in r <==> PrevMonthOffset(current, todayYear, offset) != offset) &&
      (UpdateYearPickerSelection(current.year - 1, None) in r <==> current.month == 0) &&
      (forall i :: 0 <= i < |r| && r[i].UpdateYearPickerSelection? ==> r[i] == UpdateYearPickerSelection(current.year - 1, None))
  {
    var r := PrevMonthRequests(current, todayYear, offset);
    var tail := [UpdateMonthPickerSelection(current.month - 1), UpdateCurrentDate(-1), TogglePicker(Some(false))];
    var paged := PrevMonthOffset(current, todayYear, offset) != offset;
    if paged && current.month == 0 {
      assert r == [GeneratePickerYears, UpdateYearPickerSelection(current.year - 1, None)] + tail;
    } else if paged {
      assert false;
    } else if current.month == 0 {
      assert r == [UpdateYearPickerSelection(current.year - 1, None)] + tail;
    } else {
      assert r == tail;
    }
  }

  /** The calls the next-month arrow makes, in order: the picker years when the window
      is paged, the year selection when the step leaves December, then the month selection,
      the one-month step and the closed picker. */
  function NextMonthRequests(current: Date, todayYear: int, offset: int): (r: seq<Request>)
    requires 0 <= current.month < 12
    ensures |r| == 3 + (if NextMonthOffset(current, todayYear, offset) != offset then 1 else 0) + (if current.month == 11 then 1 else 0)
    ensures r[|r| - 3..] == [UpdateMonthPickerSelection(current.month + 1), UpdateCurrentDate(1), TogglePicker(Some(false))]
    ensures NextMonthOffset(current, todayYear, offset) != offset ==> r[0] == GeneratePickerYears
    ensures current.month == 11 ==> r[|r| - 4] == UpdateYearPickerSelection(current.year + 1, None)
  {
    var newMonthValue := current.month + 1;
    var paging: seq<Request> := if current.year >= todayYear + offset + 7 && newMonthValue > 11 then [GeneratePickerYears] else [];
    var selection: seq<Request> := if newMonthValue > 11 then [UpdateYearPickerSelection(current.year + 1, None)] else [];
    paging + selection + [UpdateMonthPickerSelection(newMonthValue), UpdateCurrentDate(1), TogglePicker(Some(false))]
  }

  /** What the next-month arrow requests, by kind: the picker years exactly when it pages
      the window, and a year selection exactly when the step leaves December, always of the
      year after. */
  lemma NextMonthRequestsContents(current: Date, todayYear: int, offset: int)
    requires 0 <= current.month < 12
    ensures var r := NextMonthRequests(current, todayYear, offset);
      (GeneratePickerYears in r <==> NextMonthOffset(current, todayYear, offset) != offset) &&
      (UpdateYearPickerSelection(current.year + 1, None) in r <==> current.month == 11) &&
      (forall i :: 0 <= i < |r| && r[i].UpdateYearPickerSelection? ==> r[i] == UpdateYearPickerSelection(current.year + 1, None))
  {
    var r := NextMonthRequests(current, todayYear, offset);
    var tail := [UpdateMonthPickerSelection(current.month + 1), UpdateCurrentDate(1), TogglePicker(Some(false))];
    var paged := NextMonthOffset(current, todayYear, offset) != offset;
    if paged && current.month == 11 {
      assert r == [GeneratePickerYears, UpdateYearPickerSelection(current.year + 1, None)] + tail;
    } else if paged {
      assert false;
    } else if current.month == 11 {
      assert r == [UpdateYearPickerSelection(current.year + 1, None)] + tail;
    } else {
      assert r == tail;
    }
  }

  /** When the displayed year is in the window, the year of the month the previous arrow
      asks for is in the window as paged by that arrow (for the window `InWindow` takes the
      unmodelled `generatePickerYears` to lay out). */
  lemma PrevMonthKeepsYearInWindow(current: Date, todayYear: int, offset: int)
    requires 0 <= current.month < 12 && InWindow(current.year, todayYear, offset)
    ensures InWindow(PrevMonth(current.year, current.month).year, todayYear, PrevMonthOffset(current, todayYear, offset))
  {
  }

  /** The same for the next arrow, with the same window taken for `generatePickerYears`. */
  lemma NextMonthKeepsYearInWindow(current: Date, todayYear: int, offset: int)
    requires 0 <= current.month < 12 && InWindow(current.year, todayYear, offset)
    ensures InWindow(NextMonth(current.year, current.month).year, todayYear, NextMonthOffset(current, todayYear, offset))
  {
  }

  /** One arrow press, with the date displayed when it was pressed. */
  datatype Press = PrevPress(at: Date) | NextPress(at: Date)

  predicate ValidPresses(presses: seq<Press>)
  {
    forall i :: 0 <= i < |presses| ==> 0 <= presses[i].at.month < 12
  }

  /** `yearPickerOffset` after a run of arrow presses. */
  function OffsetAfter(todayYear: int, offset: int, presses: seq<Press>): int
    requires ValidPresses(presses)
    decreases |presses|
  {
    if presses == [] then offset
    else
      var next := match presses[0]
        case PrevPress(at) => PrevMonthOffset(at, todayYear, offset)
        case NextPress(at) => NextMonthOffset(at, todayYear, offset);
      OffsetAfter(todayYear, next, presses[1..])
  }

  /** Starting from a multiple of twelve (the constructor's 0), the offset stays a multiple
      of twelve, and each press moves it by at most twelve. */
  lemma {:induction false} OffsetAfterPresses(todayYear: int, offset: int, presses: seq<Press>)
    requires ValidPresses(presses)
    ensures OffsetAfter(todayYear, offset, presses) % 12 == offset % 12
    ensures offset - 12 * |presses| <= OffsetAfter(todayYear, offset, presses) <= offset + 12 * |presses|
    decreases |presses|
  {
    if presses != [] {
      var next := match presses[0]
        case PrevPress(at) => PrevMonthOffset(at, todayYear, offset)
        case NextPress(at) => NextMonthOffset(at, todayYear, offset);
      assert ValidPresses(presses[1..]) by {
        forall i | 0 <= i < |presses[1..]| ensures 0 <= presses[1..][i].at.month < 12 {
          assert presses[1..][i] == presses[i + 1];
        }
      }
      OffsetAfterPresses(todayYear, next, presses[1..]);
    }
  }

  /** Whether month option `i` carries the today marker when the month picker is opened. */
  predicate IsTodayMonth(current: Date, today: Date, i: int)
  {
    current.year == today.year && i == today.month
  }

  /** At most one month option is marked, and only in today's year. */
  lemma TodayMarkerUnique(current: Date, today: Date, i: int, j: int)
    ensures IsTodayMonth(current, today, i) && IsTodayMonth(current, today, j) ==> i == j
    ensures IsTodayMonth(current, today, i) ==> current.year == today.year
  {
  }

  /** The month label: a custom value, or what `Intl.DateTimeFormat` produces for the date
      in the given month display type (not computed here). */
  datatype MonthText = Text(s: string) | IntlMonthName(monthDisplayType: string, date: Date)

  /** The month label `updateMonthYear` shows. A custom list too short for the month
      yields `undefined`, which the label shows as that word. */
  function MonthLabel(customMonthValues: Option<seq<string>>, monthDisplayType: string, current: Date): (r: MonthText)
    ensures customMonthValues.Some? && 0 <= current.month < |customMonthValues.value| ==>
      r == Text(customMonthValues.value[current.month])
    ensures customMonthValues.Some? && !(0 <= current.month < |customMonthValues.value|) ==> r == Text("undefined")
    ensures customMonthValues.None? ==> r == IntlMonthName(monthDisplayType, current)
  {
    match customMonthValues
    case Some(names) => if 0 <= current.month < |names| then Text(names[current.month]) else Text("undefined")
    case None => IntlMonthName(monthDisplayType, current)
  }
}
