# Nepali calendar panel indicator: month grid and display text

This project models the deterministic core of the GNOME Shell extension
`nepali-calendar-gs-extension@aryog.info.np` (file `extension.js`), which shows
today's Bikram Sambat date in the top panel and a month calendar in its popup.
The widget toolkit is stripped away. What remains is modelled and proved:

- **The month grid** (`Extension.Indicator`). The popup has a row of seven
  weekday headings (Sunday first) and 42 day buttons, built row by row in
  row-major order. Each button is a `CalendarGrid.Cell`: its label text, its set
  of style classes (`Day` = `np-calendar-day`, `Today`, `Holiday`,
  `Saturday`) and its attach position. The buttons are a 42-element `array`
  that `UpdateCalendarGrid` rewrites in place. First the day list of the
  current month is looked up. Then every button is cleared (`ClearButtons`).
  Then the buttons are walked: the `firstDayOfWeek` leading ones are skipped
  and one day is placed per button, in order, until the days or the buttons
  run out (`FillDays`). The method is proved against the value-level function
  `CalendarGrid.GridAfter`, and the lemmas of `CalendarGrid` state what that
  function leaves in each cell.
- **The first weekday of the month** (`CalendarMath.FirstDayOfWeek`). It is
  computed from today's weekday and today's day of the month, using
  JavaScript's truncating `%` (`JsBuiltins.Rem`).
- **The fixed month-length table** (`CalendarMath.DaysInMonth`). It lists
  31, 31, 31, 32, 31, 31, 30, 30, 30, 29, 30, 30 and gives 30 for any other
  month.
- **The display text** (`Display`). It covers the panel label, the month
  heading, the tithi line and the event lines. The event lines are the event
  field split on `/` and joined with line breaks.

The date converter, the per-year table cache and the date formatter live in
`utils/NepaliDateConverter.js`, which is not part of this model. The model
takes what they return as inputs:

- a `CurrentDate` record for `getCurrentNepaliDate()`;
- an `Option<DateInfo>` for `formatNepaliDateData(...)`;
- an `Option<seq<MonthData>>` for `getYearDataFromCache(...)`.

`None` stands for a call that throws. The source catches such a throw
(`try`/`logError`), so nothing on screen changes.

`_updateCalendarGrid` is modelled as three methods. `UpdateCalendarGrid` does
the lookup. `ClearButtons` is the `forEach` clear. `FillDays` is the `for`
loop.

Where the code and the system's design description disagree, the model
follows the code:

- Events: the design description turns the event field into a list and
  drops empty pieces. The code joins the pieces with line breaks and keeps
  empty ones. So `"a//b"` gives three lines, one of them empty.
- First weekday: the design description derives it from the Gregorian
  calendar. The code derives it from the current date's `dayOfWeek` and
  `day` fields alone, ignoring the year and month it is given.
- Today highlight: the design description calls a day's `dayInEn` its
  Gregorian day of the month. The code compares `parseInt(dayInEn)` with the
  current date's `nepaliDay`. The model makes the same comparison as the
  code.

## Model

| member | source | states |
|---|---|---|
| `JsBuiltins.Rem` | nepali-calendar-gs-extension@aryog.info.np/extension.js:216 | JavaScript `%` by a positive divisor: the remainder lies strictly between `-b` and `b`, takes the sign of the dividend, and equals Dafny's `%` for a non-negative dividend |
| `JsBuiltins.Split` | nepali-calendar-gs-extension@aryog.info.np/extension.js:152 | `split('/')` gives one more piece than there are separators, no piece holds the separator, and a string without the separator comes back as the only piece |
| `JsBuiltins.ReplaceChar` | nepali-calendar-gs-extension@aryog.info.np/extension.js:152 | reference for split-then-join: same length, each occurrence of `c` becomes `d`, every other character is kept |
| `JsBuiltins.SplitJoinIsReplace` | nepali-calendar-gs-extension@aryog.info.np/extension.js:152 | `s.split(c).join(d)` replaces every `c` by `d` and changes nothing else |
| `JsBuiltins.SplitJoinRoundTrip` | nepali-calendar-gs-extension@aryog.info.np/extension.js:152 | splitting on a character and joining with the same character gives the string back |
| `JsBuiltins.SplitAfterReplace` | nepali-calendar-gs-extension@aryog.info.np/extension.js:152 | when the new separator does not occur in the string, splitting the replaced string on it gives the original pieces |
| `JsBuiltins.ReplaceBack` | nepali-calendar-gs-extension@aryog.info.np/extension.js:152 | a replacement by a character that did not occur is undone by the reverse replacement |
| `JsBuiltins.SplitAround` | nepali-calendar-gs-extension@aryog.info.np/extension.js:149-150 | splitting `a + sep + b` on `sep` splits `a` and `b` separately and concatenates the pieces |
| `JsBuiltins.LeadingSpacesMaximal` | nepali-calendar-gs-extension@aryog.info.np/extension.js:183 | the white space `parseInt` skips is all white space and is the whole leading run |
| `JsBuiltins.DigitPrefixMaximal` | nepali-calendar-gs-extension@aryog.info.np/extension.js:183 | the digits `parseInt` reads are all digits of the radix and are the longest such prefix |
| `JsBuiltins.ParseIntNoDigit` | nepali-calendar-gs-extension@aryog.info.np/extension.js:183 | `parseInt` of a string holding no decimal digit is `NaN` |
| `JsBuiltins.DecimalString` | nepali-calendar-gs-extension@aryog.info.np/extension.js:183 | the decimal rendering of a day number is non-empty, all digits, and has no leading zero |
| `JsBuiltins.ParseIntDecimal` | nepali-calendar-gs-extension@aryog.info.np/extension.js:183 | `parseInt` reads every decimal rendering back to the number it renders |
| `CalendarMath.SaturdayColumn` | nepali-calendar-gs-extension@aryog.info.np/extension.js:36 | among the seven headings, `शनि` is at index 6 and nowhere else |
| `CalendarMath.FirstDayOfWeek` | nepali-calendar-gs-extension@aryog.info.np/extension.js:213-217 | always in (-7, 7). For a weekday in 0..6 it is in 0..6, and day `day` placed `day - 1` cells after it lands in column `dayOfWeek` |
| `CalendarMath.WeekAlignment` | nepali-calendar-gs-extension@aryog.info.np/extension.js:216 | for a weekday in 0..6, the JavaScript expression lies in 0..6, aligns today with its weekday, and equals `(dayOfWeek - (day - 1))` taken modulo 7 |
| `CalendarMath.RemBy7` | nepali-calendar-gs-extension@aryog.info.np/extension.js:216 | the truncating remainder by 7 equals the Euclidean one or is 7 less |
| `CalendarMath.FirstDayOfWeekUnique` | nepali-calendar-gs-extension@aryog.info.np/extension.js:213-217 | the first weekday is the only column 0..6 that puts today under its own weekday. It is today's weekday minus `day - 1`, modulo 7 |
| `CalendarMath.FirstDayOfWeekIgnoresMonth` | nepali-calendar-gs-extension@aryog.info.np/extension.js:213-217 | the result depends on neither the year nor the month argument |
| `CalendarMath.DaysInMonth` | nepali-calendar-gs-extension@aryog.info.np/extension.js:204-211 | always in 29..32, 30 for any month outside 1..12, 32 exactly for month 4, 29 exactly for month 10, the table entry for months 1..12 |
| `CalendarMath.DaysInMonthIgnoresYear` | nepali-calendar-gs-extension@aryog.info.np/extension.js:204-211 | the length does not depend on the year |
| `Display.TithiText` | nepali-calendar-gs-extension@aryog.info.np/extension.js:151 | empty exactly when the tithi is absent or empty, the tithi verbatim when present |
| `Display.EventText` | nepali-calendar-gs-extension@aryog.info.np/extension.js:152 | empty when the event field is absent or empty. Otherwise it has the field's length and contains no `/` |
| `Display.EventTextReplaces` | nepali-calendar-gs-extension@aryog.info.np/extension.js:152 | a present event field comes out with every `/` turned into a line break. A field without `/` comes out unchanged |
| `Display.EventLines` | nepali-calendar-gs-extension@aryog.info.np/extension.js:152 | for a field with no line break of its own, the lines shown are exactly the `/`-separated events in order, and the field can be recovered |
| `Display.TopLabelExtendsMonthLabel` | nepali-calendar-gs-extension@aryog.info.np/extension.js:149-150 | the panel label is the day, a space, then the month heading |
| `Display.LabelsSplitBack` | nepali-calendar-gs-extension@aryog.info.np/extension.js:149-150 | when no field holds a space, the panel label splits on spaces into exactly day, month, year, and the month heading into exactly month, year |
| `CalendarGrid.HeadingRow` | nepali-calendar-gs-extension@aryog.info.np/extension.js:86-92 | seven headings, heading `c` shows `DAYS_OF_WEEK[c]` at column `c` of row 0 |
| `CalendarGrid.Tagged` | nepali-calendar-gs-extension@aryog.info.np/extension.js:182-195 | a filled button has the base class, plus each of today, holiday and Saturday exactly when its condition holds |
| `CalendarGrid.DayStyles` | nepali-calendar-gs-extension@aryog.info.np/extension.js:182-195 | a day is tagged today exactly when `parseInt(dayInEn)` equals today's day, tagged holiday exactly when flagged, and tagged Saturday exactly when its cell index mod 7 is 6 |
| `CalendarGrid.GridPlacesDay` | nepali-calendar-gs-extension@aryog.info.np/extension.js:172-180 | for every `k` below `min(days, 42 - blanks)`, cell `blanks + k` receives day `k` and shows its label |
| `CalendarGrid.GridCell` | nepali-calendar-gs-extension@aryog.info.np/extension.js:165-198 | cells before the first column receive nothing. A cell that receives nothing is empty with only the base style, whatever it showed before. A filled cell shows its day and carries exactly the tags its day and column call for |
| `CalendarGrid.TodayTagDecimal` | nepali-calendar-gs-extension@aryog.info.np/extension.js:183 | a day whose number is written in decimal is tagged today exactly when that number is today's day |
| `CalendarGrid.GridKeepsLayout` | nepali-calendar-gs-extension@aryog.info.np/extension.js:96-111 | a redraw keeps every button at its row-major position |
| `CalendarGrid.GridForgetsPast` | nepali-calendar-gs-extension@aryog.info.np/extension.js:165-169 | a redraw does not depend on what the buttons showed before, so redrawing twice with the same data equals redrawing once |
| `CalendarGrid.Interval` | nepali-calendar-gs-extension@aryog.info.np/extension.js:173 | the cell indices `a .. b - 1`, which number `b - a` |
| `CalendarGrid.PlacedCount` | nepali-calendar-gs-extension@aryog.info.np/extension.js:172-198 | exactly `min(days, max(0, 42 - blanks))` cells receive a day. A month of at most 35 days starting on a weekday is placed whole |
| `CalendarGrid.SaturdayUnderHeading` | nepali-calendar-gs-extension@aryog.info.np/extension.js:192-195 | a filled cell is tagged Saturday exactly when the heading of its column is `शनि` |
| `CalendarGrid.TodayColumn` | nepali-calendar-gs-extension@aryog.info.np/extension.js:163-180 | with the computed first weekday, the cell of day `day` receives that day and sits under the heading of today's weekday |
| `Extension.Indicator.constructor` | nepali-calendar-gs-extension@aryog.info.np/extension.js:86-140 | builds the seven headings and the 42 empty buttons in row-major order, then shows the labels and the grid for the current date |
| `Extension.Indicator.UpdateDisplay` | nepali-calendar-gs-extension@aryog.info.np/extension.js:146-156 | sets the panel label, month heading, tithi and event text from the formatter's record. No label changes when the formatter throws |
| `Extension.Indicator.UpdateCalendarGrid` | nepali-calendar-gs-extension@aryog.info.np/extension.js:158-202 | the buttons stay unchanged when the year or month lookup throws. Otherwise they become the redraw of the month with the computed first weekday and today's day, and their layout is kept |
| `Extension.Indicator.ClearButtons` | nepali-calendar-gs-extension@aryog.info.np/extension.js:165-169 | every one of the 42 buttons ends empty with only the base style, in its place |
| `Extension.Indicator.FillDays` | nepali-calendar-gs-extension@aryog.info.np/extension.js:171-198 | on cleared buttons, the fill loop produces exactly `GridAfter`. It never reads past the 42 buttons or past the month's days |
| `Extension.Indicator.Refresh` | nepali-calendar-gs-extension@aryog.info.np/extension.js:233-235 | the midnight refresh takes the new current date, then redraws the labels and the grid for it |

## Left out

- Gregorian-to-Nepali conversion, the per-year table loader and cache, and the formatter (`getCurrentNepaliDate`, `getYearDataFromCache`, `formatNepaliDateData`). Their source, `utils/NepaliDateConverter.js`, is not part of this model. What they return is a parameter.
- Widget construction and styling calls (`St.*`, `Clutter.GridLayout`, `PopupMenu`, `PanelMenu.Button`, `add_child`, `attach`). A button is modelled as a cell record holding its attach position.
- Panel placement and settings wiring (`NepaliCalendar.enable`, `disable`, `_moveIndicator`, `_addToPanel`, `_removeFromPanel`, `init`). These are shell glue.
- The midnight timer in `_setupAutomaticUpdates` and its removal in `destroy`. They depend on the wall clock and the GLib event loop. `Refresh` models only what the timer callback does.
- `logError` logging. A caught throw is modelled only by leaving the state unchanged.
- A throw part-way through `_updateDisplay`, after some labels are already set, is not modelled. All formatter fields are taken to be strings.
- A month entry without a `days` list is not modelled. In the source its `.length` throws after the buttons have been cleared. Every `MonthData` here has a day list.
- `style_class` is a space-separated string in the source. It is modelled as a set of classes, so class order is not modelled.
- JavaScript dynamic typing. Day numbers, months and weekdays are integers; `NaN` and non-numeric fields are not modelled. `dayInEn` is taken to be a string.
- `JsBuiltins.ParseInt`: results above 2^53 lose precision in JavaScript, and `-0` is not kept apart from `0`. The model returns the exact integer.
- `JsBuiltins.Rem` requires a positive divisor. The source only ever divides by 7.
- `_getDaysInMonth` is modelled as written, but nothing in the source calls it.
