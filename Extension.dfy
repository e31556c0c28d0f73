/** The panel indicator: the labels it shows and its fixed grid of 42 day
    buttons, redrawn in place from the current date. */
module Extension {
  import opened Wrappers
  import opened JsBuiltins
  import opened CalendarMath
  import opened Display
  import opened CalendarGrid

  /** The current Nepali date as the external converter returns it. The grid
      marks today by `nepaliDay`, while the first weekday is worked out from
      `dayOfWeek` and `day`; the two day fields are separate inputs. */
  datatype CurrentDate = CurrentDate(nepaliYear: int, nepaliMonth: int, nepaliDay: int, dayOfWeek: int, day: int)

  /** `yearData[month - 1].days`, or `None` when the year table could not be
      had or has no such month (the lookup throws). */
  function MonthDays(yearData: Option<seq<MonthData>>, month: int): Option<seq<DayData>>
  {
    if yearData.Some? && 1 <= month <= |yearData.value| then Some(yearData.value[month - 1].days) else None
  }

  /** The buttons after one grid redraw for `current`: unchanged when the
      month's days cannot be looked up (nothing is cleared before the
      lookup), otherwise the redraw of that month. */
  function GridUpdate(cells: seq<Cell>, current: CurrentDate, yearData: Option<seq<MonthData>>): seq<Cell>
    requires |cells| == CellCount
  {
    match MonthDays(yearData, current.nepaliMonth)
    case None => cells
    case Some(days) =>
      GridAfter(cells, days,
        FirstDayOfWeek(current.nepaliYear, current.nepaliMonth, current.dayOfWeek, current.day),
        current.nepaliDay)
  }

  /** Whether the four labels show what `info` says. */
  ghost predicate ShowsLabels(top: string, month: string, tithi: string, event: string, info: DateInfo)
  {
    top == TopLabel(info) && month == MonthLabel(info) &&
    tithi == TithiText(info.nepaliTithi) && event == EventText(info.nepaliEvent)
  }

  class Indicator {
    var currentDate: CurrentDate
    var topLabel: string
    var monthLabel: string
    var tithiLabel: string
    var eventLabel: string
    var headings: seq<Heading>
    const dayButtons: array<Cell>

    /** The grid layout: seven headings in row 0 and 42 buttons in
        row-major order below them. */
    ghost predicate Valid()
      reads this, dayButtons
    {
      dayButtons.Length == CellCount && RowMajor(dayButtons[..]) && headings == HeadingRow()
    }

    /** Builds the headings and the buttons row by row, then shows `current`.
        `dateInfo` and `yearData` are what the external formatter and year
        table cache return for it (`None` where the call throws). */
    constructor (current: CurrentDate, dateInfo: Option<DateInfo>, yearData: Option<seq<MonthData>>)
      ensures Valid() && fresh(dayButtons)
      ensures currentDate == current
      ensures dateInfo.Some? ==> ShowsLabels(topLabel, monthLabel, tithiLabel, eventLabel, dateInfo.value)
      ensures dateInfo.None? ==> topLabel == monthLabel == tithiLabel == eventLabel == ""
      ensures dayButtons[..] == GridUpdate(InitialGrid(), current, yearData)
    {
      currentDate := current;
      topLabel, monthLabel, tithiLabel, eventLabel := "", "", "", "";
      var hs: seq<Heading> := [];
      for i := 0 to Columns
        invariant |hs| == i
        invariant forall c :: 0 <= c < i ==> hs[c] == Heading(DaysOfWeek[c], c, 0)
      {
        hs := hs + [Heading(DaysOfWeek[i], i, 0)];
      }
      headings := hs;
      var buttons := new Cell[CellCount];
      for row := 0 to Rows
        invariant forall j :: 0 <= j < row * Columns ==> buttons[j] == Cell("", BaseStyle, j % Columns, j / Columns + 1)
      {
        for col := 0 to Columns
          invariant forall j :: 0 <= j < row * Columns + col ==> buttons[j] == Cell("", BaseStyle, j % Columns, j / Columns + 1)
        {
          buttons[row * Columns + col] := Cell("", BaseStyle, col, row + 1);
        }
      }
      dayButtons := buttons;
      new;
      assert dayButtons[..] == InitialGrid();
      UpdateDisplay(dateInfo);
      UpdateCalendarGrid(yearData);
    }

    /** Sets the four labels from the formatter's record; when the formatter
        throws, no label changes. */
    method UpdateDisplay(dateInfo: Option<DateInfo>)
      modifies this`topLabel, this`monthLabel, this`tithiLabel, this`eventLabel
      ensures dateInfo.Some? ==> ShowsLabels(topLabel, monthLabel, tithiLabel, eventLabel, dateInfo.value)
      ensures dateInfo.None? ==>
        topLabel == old(topLabel) && monthLabel == old(monthLabel) &&
        tithiLabel == old(tithiLabel) && eventLabel == old(eventLabel)
    {
      if dateInfo.None? {
        return;
      }
      var info := dateInfo.value;
      topLabel := info.nepaliDay + " " + info.nepaliMonth + " " + info.nepaliYear;
      monthLabel := info.nepaliMonth + " " + info.nepaliYear;
      tithiLabel := TithiText(info.nepaliTithi);
      eventLabel := EventText(info.nepaliEvent);
    }

    /** Redraws the grid for the current date: looks up the month's days,
        clears every button, then fills them from the month's days. */
    method UpdateCalendarGrid(yearData: Option<seq<MonthData>>)
      requires Valid()
      modifies dayButtons
      ensures Valid()
      ensures dayButtons[..] == GridUpdate(old(dayButtons[..]), currentDate, yearData)
    {
      var lookup := MonthDays(yearData, currentDate.nepaliMonth);
      if lookup.None? {
        return;
      }
      var monthData := lookup.value;
      var firstDayOfWeek := FirstDayOfWeek(currentDate.nepaliYear, currentDate.nepaliMonth, currentDate.dayOfWeek, currentDate.day);
      ghost var before := dayButtons[..];
      ClearButtons();
      GridForgetsPast(before, dayButtons[..], monthData, firstDayOfWeek, currentDate.nepaliDay);
      FillDays(monthData, firstDayOfWeek, currentDate.nepaliDay);
    }

    /** The clear step: every button loses its label and its highlights. */
    method ClearButtons()
      requires Valid()
      modifies dayButtons
      ensures Valid()
      ensures forall j :: 0 <= j < CellCount ==> dayButtons[j] == Cleared(old(dayButtons[j]))
    {
      for i := 0 to dayButtons.Length
        invariant forall j :: 0 <= j < i ==> dayButtons[j] == Cleared(old(dayButtons[j]))
        invariant forall j :: i <= j < dayButtons.Length ==> dayButtons[j] == old(dayButtons[j])
      {
        dayButtons[i] := Cleared(dayButtons[i]);
      }
    }

    /** The fill step on cleared buttons: walks the buttons, skipping the
        `firstDayOfWeek` leading ones, and fills one button per day, in
        order, until the days or the buttons run out. */
    method FillDays(monthData: seq<DayData>, firstDayOfWeek: int, today: int)
      requires Valid()
      requires forall j :: 0 <= j < CellCount ==> dayButtons[j] == Cleared(dayButtons[j])
      modifies dayButtons
      ensures Valid()
      ensures dayButtons[..] == GridAfter(old(dayButtons[..]), monthData, firstDayOfWeek, today)
    {
      ghost var before := dayButtons[..];
      ghost var target := GridAfter(before, monthData, firstDayOfWeek, today);
      ghost var blanks := LeadingBlanks(firstDayOfWeek);
      var dayCounter := 0;
      var i := 0;
      while i < dayButtons.Length && dayCounter < |monthData|
        invariant 0 <= i <= CellCount
        invariant dayCounter == if i <= blanks then 0 else i - blanks
        invariant dayCounter <= |monthData|
        invariant forall j :: 0 <= j < i ==> dayButtons[j] == target[j]
        invariant forall j :: i <= j < CellCount ==> dayButtons[j] == before[j]
      {
        if i < firstDayOfWeek {
          i := i + 1;
          continue;
        }
        var dayData := monthData[dayCounter];
        var button := dayButtons[i];
        var styles := button.styles;
        if ParseInt(dayData.dayInEn) == Some(today) {
          styles := {Day, Today};
        }
        if dayData.isHoliday {
          styles := styles + {Holiday};
        }
        if i % Columns == 6 {
          styles := styles + {Saturday};
        }
        assert styles == DayStyles(dayData, i, today);
        dayButtons[i] := button.(text := dayData.day, styles := styles);
        dayCounter := dayCounter + 1;
        i := i + 1;
      }
      forall j | i <= j < CellCount
        ensures dayButtons[j] == target[j]
      {
        assert !Placed(j, firstDayOfWeek, |monthData|);
      }
      assert dayButtons[..] == target;
      GridKeepsLayout(before, monthData, firstDayOfWeek, today);
    }

    /** The midnight refresh: takes the new current date, then redraws the
        labels and the grid for it. */
    method Refresh(current: CurrentDate, dateInfo: Option<DateInfo>, yearData: Option<seq<MonthData>>)
      requires Valid()
      modifies this, dayButtons
      ensures Valid()
      ensures currentDate == current
      ensures dateInfo.Some? ==> ShowsLabels(topLabel, monthLabel, tithiLabel, eventLabel, dateInfo.value)
      ensures dateInfo.None? ==>
        topLabel == old(topLabel) && monthLabel == old(monthLabel) &&
        tithiLabel == old(tithiLabel) && eventLabel == old(eventLabel)
      ensures dayButtons[..] == GridUpdate(old(dayButtons[..]), current, yearData)
      ensures headings == old(headings)
    {
      currentDate := current;
      UpdateDisplay(dateInfo);
      UpdateCalendarGrid(yearData);
    }
  }
}
