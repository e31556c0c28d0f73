/** The text the indicator shows for the current date: the panel label, the
    month heading of the popup, the tithi line and the event lines, shaped
    from the record the external date formatter returns. */
module Display {
  import opened Wrappers
  import opened JsBuiltins

  /** The formatter's record for the current date. Tithi and event may be
      absent (`undefined`), which `None` stands for. */
  datatype DateInfo = DateInfo(
    nepaliDay: string,
    nepaliMonth: string,
    nepaliYear: string,
    nepaliTithi: Option<string>,
    nepaliEvent: Option<string>)

  /** The month heading of the popup: month, a space, year. */
  function MonthLabel(info: DateInfo): string
  {
    info.nepaliMonth + " " + info.nepaliYear
  }

  /** The panel label: day, month and year separated by single spaces. */
  function TopLabel(info: DateInfo): string
  {
    info.nepaliDay + " " + info.nepaliMonth + " " + info.nepaliYear
  }

  /** The tithi line, `nepaliTithi || ''`: empty when the tithi is absent or
      empty, the tithi itself otherwise. */
  function TithiText(tithi: Option<string>): (text: string)
    ensures text == "" <==> tithi == None || tithi == Some("")
    ensures tithi.Some? ==> text == tithi.value
  {
    match tithi
    case None => ""
    case Some(t) => if t == "" then "" else t
  }

  /** The event lines, `nepaliEvent ? nepaliEvent.split('/').join('\n') : ''`:
      empty when the event field is absent or empty; otherwise the field with
      each `/` turned into a line break, so it keeps its length and no `/` is
      left in it. */
  function EventText(event: Option<string>): (text: string)
    ensures event == None || event == Some("") ==> text == ""
    ensures event.Some? ==> |text| == |event.value|
    ensures '/' !in text
  {
    match event
    case None => ""
    case Some(e) =>
      if e == "" then ""
      else
        SplitJoinIsReplace(e, '/', '\n');
        Join(Split(e, '/'), "\n")
  }

  /** The panel label is the day followed by the month heading. */
  lemma TopLabelExtendsMonthLabel(info: DateInfo)
    ensures TopLabel(info) == info.nepaliDay + " " + MonthLabel(info)
  {
    assert TopLabel(info) == info.nepaliDay + " " + (info.nepaliMonth + " " + info.nepaliYear);
  }

  /** When no field holds a space, the labels split back on spaces into
      exactly the fields they were built from, in order. */
  lemma LabelsSplitBack(info: DateInfo)
    requires ' ' !in info.nepaliDay && ' ' !in info.nepaliMonth && ' ' !in info.nepaliYear
    ensures Split(MonthLabel(info), ' ') == [info.nepaliMonth, info.nepaliYear]
    ensures Split(TopLabel(info), ' ') == [info.nepaliDay, info.nepaliMonth, info.nepaliYear]
  {
    SplitAround(info.nepaliMonth, info.nepaliYear, ' ');
    assert MonthLabel(info) == info.nepaliMonth + [' '] + info.nepaliYear;
    SplitAround(info.nepaliDay, MonthLabel(info), ' ');
    TopLabelExtendsMonthLabel(info);
    assert TopLabel(info) == info.nepaliDay + [' '] + MonthLabel(info);
  }

  /** A present, non-empty event field comes out with every `/` replaced by a
      line break and nothing else changed; a field without `/` comes out as
      it is. */
  lemma EventTextReplaces(e: string)
    requires e != ""
    ensures EventText(Some(e)) == ReplaceChar(e, '/', '\n')
    ensures '/' !in e ==> EventText(Some(e)) == e
  {
    SplitJoinIsReplace(e, '/', '\n');
    if '/' !in e {
      assert Split(e, '/') == [e];
    }
  }

  /** When the field has no line break of its own, the lines of the event
      text are exactly the `/`-separated events, in order, and turning line
      breaks back into `/` restores the field. */
  lemma EventLines(e: string)
    requires e != "" && '\n' !in e
    ensures Split(EventText(Some(e)), '\n') == Split(e, '/')
    ensures ReplaceChar(EventText(Some(e)), '\n', '/') == e
  {
    EventTextReplaces(e);
    SplitAfterReplace(e, '/', '\n');
    ReplaceBack(e, '/', '\n');
  }
}
