/** The month grid of the popup as values: 6 rows of 7 day cells below a row
    of weekday headings, and what one redraw leaves in every cell. */
module CalendarGrid {
  import opened Wrappers
  import opened JsBuiltins
  import opened CalendarMath

  const Rows: nat := 6
  const Columns: nat := 7
  const CellCount: nat := 42

  /** Style classes of a day button: `np-calendar-day` (always present),
      `np-calendar-today`, `np-calendar-holiday`, `np-calendar-saturday`. */
  datatype Style = Day | Today | Holiday | Saturday

  /** A day button: its label text, its style classes, and where it is
      attached in the grid layout (row 0 holds the headings). */
  datatype Cell = Cell(text: string, styles: set<Style>, col: nat, row: nat)

  /** A weekday heading and where it is attached. */
  datatype Heading = Heading(text: string, col: nat, row: nat)

  /** One day of a month table: its Devanagari label, its day number as
      text, and whether it is a holiday. */
  datatype DayData = DayData(day: string, dayInEn: string, isHoliday: bool)

  /** One month of a year table. */
  datatype MonthData = MonthData(days: seq<DayData>)

  /** The style of a cleared button. */
  const BaseStyle: set<Style> := {Day}

  /** The heading row: weekday `c` attached at column `c` of row 0. */
  function HeadingRow(): (hs: seq<Heading>)
    ensures |hs| == Columns
    ensures forall c :: 0 <= c < Columns ==> hs[c].col == c && hs[c].row == 0 && hs[c].text == DaysOfWeek[c]
  {
    seq(Columns, c requires 0 <= c < Columns => Heading(DaysOfWeek[c], c, 0))
  }

  /** The buttons are kept in row-major order: button `i` sits in column
      `i % 7` of grid row `i / 7 + 1`. */
  ghost predicate RowMajor(cells: seq<Cell>)
  {
    |cells| == CellCount &&
    forall i :: 0 <= i < |cells| ==> cells[i].col == i % Columns && cells[i].row == i / Columns + 1
  }

  /** The buttons as first built: empty, base style, row-major. */
  function InitialGrid(): seq<Cell>
  {
    seq(CellCount, i requires 0 <= i < CellCount => Cell("", BaseStyle, i % Columns, i / Columns + 1))
  }

  /** The number of cells left blank before day 1: `first` when positive. */
  function LeadingBlanks(first: int): nat
  {
    if first < 0 then 0 else first
  }

  /** Whether cell `i` receives a day of an `n`-day month starting in column
      `first`. */
  predicate Placed(i: int, first: int, n: int)
  {
    0 <= i < CellCount && LeadingBlanks(first) <= i < LeadingBlanks(first) + n
  }

  /** A button after the clear step. */
  function Cleared(c: Cell): Cell
  {
    c.(text := "", styles := BaseStyle)
  }

  /** The style classes of a filled button: `np-calendar-day`, plus each tag
      whose condition holds. */
  function Tagged(today: bool, holiday: bool, saturday: bool): (s: set<Style>)
    ensures Day in s
    ensures Today in s <==> today
    ensures Holiday in s <==> holiday
    ensures Saturday in s <==> saturday
  {
    (if today then {Day, Today} else {Day})
    + (if holiday then {Holiday} else {})
    + (if saturday then {Saturday} else {})
  }

  /** The style classes a day gets in cell `i`: today when its day number
      parses to today's day, holiday when flagged, Saturday in column 6. */
  function DayStyles(d: DayData, i: int, today: int): (s: set<Style>)
    ensures Day in s
    ensures Today in s <==> ParseInt(d.dayInEn) == Some(today)
    ensures Holiday in s <==> d.isHoliday
    ensures Saturday in s <==> i % Columns == 6
  {
    Tagged(ParseInt(d.dayInEn) == Some(today), d.isHoliday, i % Columns == 6)
  }

  /** A button showing day `d` in cell `i`. */
  function Filled(c: Cell, d: DayData, i: int, today: int): Cell
  {
    c.(text := d.day, styles := DayStyles(d, i, today))
  }

  /** The buttons after one redraw with month `days`, first column `first`
      and today's day `today`: every button cleared, then the month's days
      placed in order from cell `LeadingBlanks(first)` on, as far as the cells
      reach. */
  function GridAfter(cells: seq<Cell>, days: seq<DayData>, first: int, today: int): (r: seq<Cell>)
    requires |cells| == CellCount
    ensures |r| == CellCount
  {
    seq(CellCount, i requires 0 <= i < CellCount =>
      if Placed(i, first, |days|) then Filled(cells[i], days[i - LeadingBlanks(first)], i, today)
      else Cleared(cells[i]))
  }

  function Min(a: int, b: int): int { if a <= b then a else b }
  function Max(a: int, b: int): int { if a >= b then a else b }

  /** Day `k` of the month is in cell `LeadingBlanks(first) + k` for every
      `k` the cells can hold. */
  lemma GridPlacesDay(cells: seq<Cell>, days: seq<DayData>, first: int, today: int, k: int)
    requires |cells| == CellCount
    requires 0 <= k < Min(|days|, CellCount - LeadingBlanks(first))
    ensures Placed(LeadingBlanks(first) + k, first, |days|)
    ensures GridAfter(cells, days, first, today)[LeadingBlanks(first) + k].text == days[k].day
  {
    var i := LeadingBlanks(first) + k;
    assert i - LeadingBlanks(first) == k;
    assert GridAfter(cells, days, first, today)[i] == Filled(cells[i], days[k], i, today);
  }

  /** What a redraw leaves in cell `i`. A cell before the first column is
      empty. A cell that receives no day is empty and has only the base
      style, whatever it showed before. A cell that receives a day shows its
      label and is tagged today exactly when its day number parses to
      today's day, holiday exactly when the day is a holiday, and Saturday
      exactly in column 6. */
  lemma GridCell(cells: seq<Cell>, days: seq<DayData>, first: int, today: int, i: int)
    requires |cells| == CellCount && 0 <= i < CellCount
    ensures var c := GridAfter(cells, days, first, today)[i];
      (i < first ==> !Placed(i, first, |days|)) &&
      (!Placed(i, first, |days|) ==> c == Cleared(cells[i]) && c.text == "" && c.styles == BaseStyle) &&
      (Placed(i, first, |days|) ==>
        var d := days[i - LeadingBlanks(first)];
        c.text == d.day && Day in c.styles &&
        (Today in c.styles <==> ParseInt(d.dayInEn) == Some(today)) &&
        (Holiday in c.styles <==> d.isHoliday) &&
        (Saturday in c.styles <==> i % Columns == 6))
  {
  }

  /** A day whose number `m` is written in plain decimal is tagged today
      exactly when `m` is today's day. */
  lemma TodayTagDecimal(cells: seq<Cell>, days: seq<DayData>, first: int, today: int, k: int, m: nat)
    requires |cells| == CellCount
    requires 0 <= k < |days| && LeadingBlanks(first) + k < CellCount
    requires days[k].dayInEn == DecimalString(m)
    ensures Today in GridAfter(cells, days, first, today)[LeadingBlanks(first) + k].styles <==> m == today
  {
    var i := LeadingBlanks(first) + k;
    assert Placed(i, first, |days|);
    assert i - LeadingBlanks(first) == k;
    var c := GridAfter(cells, days, first, today)[i];
    assert c == Filled(cells[i], days[k], i, today);
    ParseIntDecimal(m);
  }

  /** A redraw keeps every button where it was attached. */
  lemma GridKeepsLayout(cells: seq<Cell>, days: seq<DayData>, first: int, today: int)
    requires RowMajor(cells)
    ensures RowMajor(GridAfter(cells, days, first, today))
  {
  }

  /** What a redraw shows does not depend on what the buttons showed before:
      any two row-major grids come out equal, so redrawing twice with the
      same data is the same as redrawing once. */
  lemma {:induction false} GridForgetsPast(c1: seq<Cell>, c2: seq<Cell>, days: seq<DayData>, first: int, today: int)
    requires RowMajor(c1) && RowMajor(c2)
    ensures GridAfter(c1, days, first, today) == GridAfter(c2, days, first, today)
    ensures GridAfter(GridAfter(c1, days, first, today), days, first, today) == GridAfter(c1, days, first, today)
  {
    var g1 := GridAfter(c1, days, first, today);
    var g2 := GridAfter(c2, days, first, today);
    assert forall i :: 0 <= i < CellCount ==> c1[i].col == c2[i].col && c1[i].row == c2[i].row;
    assert forall i :: 0 <= i < CellCount ==> g1[i] == g2[i];
    GridKeepsLayout(c1, days, first, today);
    var g3 := GridAfter(g1, days, first, today);
    assert forall i :: 0 <= i < CellCount ==> g1[i].col == c1[i].col && g1[i].row == c1[i].row;
    assert forall i :: 0 <= i < CellCount ==> g3[i] == g1[i];
  }

  /** The integers `a, ..., b - 1`. */
  function Interval(a: int, b: int): (r: set<int>)
    ensures forall i :: i in r <==> a <= i < b
    ensures |r| == if a <= b then b - a else 0
    decreases b - a
  {
    if b <= a then {} else Interval(a, b - 1) + {b - 1}
  }

  /** A redraw places exactly `min(n, max(0, 42 - first))` days: the whole
      month when it fits after the leading blanks, otherwise as many as the
      cells hold. A month of at most 35 days that starts on a weekday
      always fits. */
  lemma PlacedCount(first: int, n: nat)
    ensures |set i | 0 <= i < CellCount && Placed(i, first, n)| == Min(n, Max(0, CellCount - LeadingBlanks(first)))
    ensures 0 <= first <= 6 && n <= 35 ==> |set i | 0 <= i < CellCount && Placed(i, first, n)| == n
  {
    var s := LeadingBlanks(first);
    var placed := set i | 0 <= i < CellCount && Placed(i, first, n);
    var e := s + Min(n, Max(0, CellCount - s));
    if s <= CellCount {
      assert placed == Interval(s, e);
    } else {
      assert placed == {};
    }
  }

  /** The Saturday tag of a placed cell lands exactly under the Saturday
      heading. */
  lemma SaturdayUnderHeading(cells: seq<Cell>, days: seq<DayData>, first: int, today: int, i: int)
    requires RowMajor(cells) && Placed(i, first, |days|)
    ensures var c := GridAfter(cells, days, first, today)[i];
      c.col < Columns &&
      (Saturday in c.styles <==> HeadingRow()[c.col].text == SaturdayHeading)
  {
    SaturdayColumn(i % Columns);
  }

  /** When the month starts in the column `FirstDayOfWeek` computes and today
      is a weekday, today's cell (day `day`, placed `day - 1` cells after the
      blanks) shows today's day and sits in the column of today's weekday. */
  lemma TodayColumn(cells: seq<Cell>, days: seq<DayData>, year: int, month: int, dayOfWeek: int, day: int, today: int)
    requires RowMajor(cells)
    requires 0 <= dayOfWeek <= 6 && 1 <= day <= |days|
    requires FirstDayOfWeek(year, month, dayOfWeek, day) + day - 1 < CellCount
    ensures var first := FirstDayOfWeek(year, month, dayOfWeek, day);
      var c := GridAfter(cells, days, first, today)[first + day - 1];
      Placed(first + day - 1, first, |days|) && c.text == days[day - 1].day &&
      c.col == dayOfWeek && HeadingRow()[c.col].text == DaysOfWeek[dayOfWeek]
  {
  }
}
