/**
 The conditions that time ranges render to (internal/catalog/timeparse.go, RenderTimeCondition).

 A condition is kept as a tree over its literals, and each tree says which stored values it selects: texts compare
 byte by byte, dates and timestamps by their place on the time line.
 */
module TimeRange {
  import opened Basics
  import opened Calendar

  datatype SemanticType = MonthYyyymm | DateYyyymmdd | DateColumn | TimestampColumn | DatetimeDigits | OtherType

  datatype Condition =
    | NoCondition
    | Equals(text: string)
    | Between(lo: string, hi: string)
    | DateHalfOpen(from: string, before: string)
    | TextHalfOpen(from: string, before: string)

  /** The texts are sliced, so a non-empty range has six or more characters at both ends. */
  function RenderTimeCondition(column: Option<SemanticType>, start: string, end: string): Condition
    requires start != "" ==> |start| >= 6 && |end| >= 6
  {
    if column == None || start == "" then NoCondition
    else
      match column.value
      case MonthYyyymm =>
        var s, e := start[..6], end[..6];
        if s == e then Equals(s) else Between(s, e)
      case DateYyyymmdd => if start == end then Equals(start) else Between(start, end)
      case OtherType => if start == end then Equals(start) else Between(start, end)
      case DateColumn => RenderHalfOpen(false, start, end)
      case TimestampColumn => RenderHalfOpen(false, start, end)
      case DatetimeDigits => RenderHalfOpen(true, start, end)
  }

  function RenderHalfOpen(digits: bool, start: string, end: string): Condition
    requires |start| >= 6
  {
    var parsed := Parse(end);
    if parsed == None then NoCondition
    else
      FormatUndoesParse(end);
      var next := NextDay(parsed.value);
      if digits then TextHalfOpen(start + "000000", Format(next) + "000000")
      else DateHalfOpen(start[..4] + "-" + start[4..6] + "-" + start[6..], FormatDashed(next))
  }

  // ---------------------------------------------------------------- what conditions select

  predicate InRange(start: Date, end: Date, x: Date) {
    DateLe(start, x) && DateLe(x, end)
  }

  /** Rows of a text column. */
  predicate SelectsText(c: Condition, stored: string) {
    match c
    case NoCondition => true
    case Equals(text) => stored == text
    case Between(lo, hi) => LexLe(lo, stored) && LexLe(stored, hi)
    case TextHalfOpen(from, before) => LexLe(from, stored) && !LexLe(before, stored)
    case DateHalfOpen(_, _) => false
  }

  function Instant(day: Date, second: nat): int {
    DayNumber(day) * 86400 + second
  }

  /** Rows of a date or timestamp column; literals that are no dates make the statement fail. */
  predicate SelectsInstant(c: Condition, day: Date, second: nat) {
    match c
    case NoCondition => true
    case DateHalfOpen(from, before) =>
      var lo, hi := ReadDashed(from), ReadDashed(before);
      lo.Some? && hi.Some? && Instant(lo.value, 0) <= Instant(day, second) < Instant(hi.value, 0)
    case _ => false
  }

  /** The years that have four-digit texts. */
  predicate Printable(d: Date) {
    ValidDate(d) && 0 <= d.year <= 9999
  }

  predicate TimeOfDay(t: string) {
    |t| == 6 && AllDigits(t)
  }

  // ---------------------------------------------------------------- the eight-digit form

  /** Columns of day texts get exactly the days of the range. */
  lemma {:induction false} DayTextsSelected(column: SemanticType, start: Date, end: Date, x: Date)
    requires Printable(start) && Printable(end) && Printable(x)
    requires column == DateYyyymmdd || column == OtherType
    ensures |Format(start)| == |Format(end)| == 8
    ensures SelectsText(RenderTimeCondition(Some(column), Format(start), Format(end)), Format(x)) <==>
              InRange(start, end, x)
  {
    ParseUndoesFormat(start);
    ParseUndoesFormat(end);
    TextOrderIsDateOrder(start, x);
    TextOrderIsDateOrder(x, end);
    TextOrderIsDateOrder(start, end);
  }

  // ---------------------------------------------------------------- the DATE form

  lemma {:induction false} Dashes(d: Date)
    requires Printable(d)
    ensures |Format(d)| == 8
    ensures Format(d)[..4] + "-" + Format(d)[4..6] + "-" + Format(d)[6..] == FormatDashed(d)
  {
    var s := Format(d);
    assert s[..4] == YearText(d.year) && s[4..6] == Pad(d.month, 2) && s[6..] == Pad(d.day, 2);
  }

  lemma {:induction false} InstantsOfDays(start: Date, end: Date, x: Date, second: nat)
    requires ValidDate(start) && ValidDate(end) && ValidDate(x) && second < 86400
    ensures Instant(start, 0) <= Instant(x, second) < Instant(NextDay(end), 0) <==> InRange(start, end, x)
  {
    NextDayIsSuccessor(end);
    OrderIsDayOrder(start, x);
    OrderIsDayOrder(x, end);
  }

  lemma {:induction false} DashedRendered(column: SemanticType, start: Date, end: Date)
    requires Printable(start) && Printable(end) && (column == DateColumn || column == TimestampColumn)
    ensures |Format(start)| == |Format(end)| == 8 && ValidDate(NextDay(end)) && 0 <= NextDay(end).year <= 10000
    ensures RenderTimeCondition(Some(column), Format(start), Format(end)) ==
            DateHalfOpen(FormatDashed(start), FormatDashed(NextDay(end)))
  {
    Dashes(start);
    ParseUndoesFormat(end);
    NextDayIsSuccessor(end);
  }

  /** Date and timestamp columns get exactly the instants of the days of the range, to the last second. */
  lemma {:induction false} InstantsSelected(column: SemanticType, start: Date, end: Date, x: Date, second: nat)
    requires Printable(start) && Printable(end) && ValidDate(x) && second < 86400
    requires column == DateColumn || column == TimestampColumn
    ensures |Format(start)| == |Format(end)| == 8
    ensures SelectsInstant(RenderTimeCondition(Some(column), Format(start), Format(end)), x, second) <==>
              InRange(start, end, x)
  {
    DashedRendered(column, start, end);
    ReadUndoesDashed(start);
    ReadUndoesDashed(NextDay(end));
    InstantsOfDays(start, end, x, second);
  }

  // ---------------------------------------------------------------- the fourteen-digit form

  lemma {:induction false} ZerosLeast(t: string, n: nat)
    requires |t| == n && AllDigits(t)
    ensures LexLe(Pad(0, n), t)
  {
    PadUndoesRead(t);
    ReadUndoesPad(ReadNumber(t), n);
    PadOrder(0, ReadNumber(t), n);
  }

  lemma {:induction false} SixZeros()
    ensures Pad(0, 6) == "000000"
  {
    assert Pad(0, 2) == "00";
    assert Pad(0, 4) == "0000";
  }

  /** A day text followed by a time is at or past a midnight exactly when the day is. */
  lemma {:induction false} MidnightOrder(d: Date, x: Date, t: string)
    requires Printable(d) && Printable(x) && TimeOfDay(t)
    ensures LexLe(Format(d) + "000000", Format(x) + t) <==> DateLe(d, x)
  {
    SixZeros();
    ZerosLeast(t, 6);
    ParseUndoesFormat(d);
    ParseUndoesFormat(x);
    TextOrderIsDateOrder(d, x);
    LexConcat(Format(d), Format(x), "000000", t);
  }

  lemma {:induction false} DatetimeRendered(start: Date, end: Date)
    requires Printable(start) && Printable(end)
    ensures |Format(start)| == |Format(end)| == 8 && ValidDate(NextDay(end)) && 0 <= NextDay(end).year <= 10000
    ensures RenderTimeCondition(Some(DatetimeDigits), Format(start), Format(end)) ==
            TextHalfOpen(Format(start) + "000000", Format(NextDay(end)) + "000000")
  {
    FourDigitYear(start);
    ParseUndoesFormat(end);
    NextDayIsSuccessor(end);
  }

  lemma {:induction false} FourDigitYear(d: Date)
    requires Printable(d)
    ensures |Format(d)| == 8
  {
  }

  lemma {:induction false} DatetimesSelected(start: Date, end: Date, x: Date, t: string)
    requires Printable(start) && Printable(end) && Printable(x) && TimeOfDay(t) && end != Date(9999, 12, 31)
    ensures |Format(start)| == |Format(end)| == 8
    ensures SelectsText(RenderTimeCondition(Some(DatetimeDigits), Format(start), Format(end)), Format(x) + t) <==>
              InRange(start, end, x)
  {
    DatetimeRendered(start, end);
    NextDayIsSuccessor(end);
    MidnightOrder(start, x, t);
    MidnightOrder(NextDay(end), x, t);
  }

  lemma {:induction false} SameFirstDigit(n: nat, width: nat)
    requires width > 0
    ensures Pad(n, width + 1)[0] == Pad(n / 10, width)[0]
  {
  }

  lemma {:induction false} FirstDigits(a: nat, b: nat)
    requires a == 10000 && b == 9999
    ensures Pad(a, 5)[0] == '1' && Pad(b, 4)[0] == '9'
  {
    SameFirstDigit(a, 4);
    SameFirstDigit(a / 10, 3);
    SameFirstDigit(a / 100, 2);
    SameFirstDigit(a / 1000, 1);
    SameFirstDigit(b, 3);
    SameFirstDigit(b / 10, 2);
    SameFirstDigit(b / 100, 1);
    assert a / 10 / 10 == a / 100 && a / 100 / 10 == a / 1000 && b / 10 / 10 == b / 100;
  }

  /** The day after the last printable one sorts before it. */
  lemma {:induction false} LastDayLost(end: Date, t: string)
    requires Printable(end) && NextDay(end) == Date(10000, 1, 1) && TimeOfDay(t)
    ensures ValidDate(NextDay(end)) && 0 <= NextDay(end).year <= 99999
    ensures LexLe(Format(NextDay(end)) + "000000", Format(end) + t)
  {
    var next := NextDay(end);
    NextDayIsSuccessor(end);
    assert end.year == 9999;
    FirstDigits(next.year, end.year);
    assert Format(next)[0] == '1' && Format(end)[0] == '9';
  }

  ghost predicate DatetimeFormRight(start: Date, end: Date)
    requires Printable(start) && Printable(end)
    requires |Format(start)| == |Format(end)| == 8
  {
    forall x, t | Printable(x) && TimeOfDay(t) ::
      SelectsText(RenderTimeCondition(Some(DatetimeDigits), Format(start), Format(end)), Format(x) + t) <==>
        InRange(start, end, x)
  }

  lemma {:induction false} LastDayWrong(start: Date, end: Date)
    requires Printable(start) && Printable(end) && NextDay(end) == Date(10000, 1, 1) && DateLe(start, end)
    ensures |Format(start)| == |Format(end)| == 8
    ensures !DatetimeFormRight(start, end)
  {
    var t := "000000";
    assert TimeOfDay(t);
    DatetimeRendered(start, end);
    LastDayLost(end, t);
    var c := RenderTimeCondition(Some(DatetimeDigits), Format(start), Format(end));
    assert !SelectsText(c, Format(end) + t);
    assert InRange(start, end, end);
  }

  /** The fourteen-digit form selects the days of the range exactly when the range ends before 9999-12-31. */
  lemma {:induction false} DatetimeFormRightUnlessLastDay(start: Date, end: Date)
    requires Printable(start) && Printable(end)
    ensures |Format(start)| == |Format(end)| == 8
    ensures DatetimeFormRight(start, end) <==> end != Date(9999, 12, 31)
  {
    if end == Date(9999, 12, 31) {
      LastDayWrong(start, end);
    } else {
      DatetimeRendered(start, end);
      forall x, t | Printable(x) && TimeOfDay(t)
        ensures SelectsText(RenderTimeCondition(Some(DatetimeDigits), Format(start), Format(end)), Format(x) + t) <==>
                  InRange(start, end, x)
      {
        DatetimesSelected(start, end, x, t);
      }
    }
  }

  // ---------------------------------------------------------------- the month form

  lemma {:induction false} MonthText(d: Date)
    requires Printable(d)
    ensures |Format(d)| == 8 && Format(d)[..6] == Pad(d.year, 4) + Pad(d.month, 2)
  {
  }

  lemma {:induction false} MonthTextOrder(a: Date, b: Date)
    requires Printable(a) && Printable(b)
    ensures LexLe(Pad(a.year, 4) + Pad(a.month, 2), Pad(b.year, 4) + Pad(b.month, 2)) <==>
              MonthIndex(a) <= MonthIndex(b)
    ensures Pad(a.year, 4) + Pad(a.month, 2) == Pad(b.year, 4) + Pad(b.month, 2) <==> MonthIndex(a) == MonthIndex(b)
  {
    assert Power10(4) == 10000 && Power10(2) == 100;
    PadOrder(a.year, b.year, 4);
    PadOrder(a.month, b.month, 2);
    LexConcat(Pad(a.year, 4), Pad(b.year, 4), Pad(a.month, 2), Pad(b.month, 2));
    assert (Pad(a.year, 4) + Pad(a.month, 2))[..4] == Pad(a.year, 4);
    assert (Pad(b.year, 4) + Pad(b.month, 2))[..4] == Pad(b.year, 4);
    assert (Pad(a.year, 4) + Pad(a.month, 2))[4..] == Pad(a.month, 2);
    assert (Pad(b.year, 4) + Pad(b.month, 2))[4..] == Pad(b.month, 2);
  }

  /** Month columns get the months from that of the first day to that of the last. */
  lemma {:induction false} MonthsSelected(start: Date, end: Date, x: Date)
    requires Printable(start) && Printable(end) && Printable(x)
    ensures |Format(start)| == |Format(end)| == |Format(x)| == 8
    ensures SelectsText(RenderTimeCondition(Some(MonthYyyymm), Format(start), Format(end)), Format(x)[..6]) <==>
              MonthIndex(start) <= MonthIndex(x) <= MonthIndex(end)
  {
    MonthText(start);
    MonthText(end);
    MonthText(x);
    MonthTextOrder(start, x);
    MonthTextOrder(x, end);
    MonthTextOrder(start, end);
  }

  /** The months from that of the first day to that of the last hold the days of the range and no others. */
  ghost predicate MonthFormRight(start: Date, end: Date) {
    forall x | Printable(x) :: MonthIndex(start) <= MonthIndex(x) <= MonthIndex(end) <==> InRange(start, end, x)
  }

  predicate WholeMonths(start: Date, end: Date) {
    start.day == 1 && end.day == DaysIn(end.year, end.month)
  }

  lemma {:induction false} WholeMonthsRight(start: Date, end: Date, x: Date)
    requires ValidDate(start) && ValidDate(end) && ValidDate(x) && WholeMonths(start, end)
    ensures MonthIndex(start) <= MonthIndex(x) <= MonthIndex(end) <==> InRange(start, end, x)
  {
    var a, b := MonthIndex(start), MonthIndex(end);
    assert start == FirstOfMonth(a);
    assert NextDay(end) == FirstOfMonth(b + 1);
    NextDayIsSuccessor(end);
    MonthIsAnInterval(a, x);
    MonthIsAnInterval(b, x);
  }

  lemma {:induction false} PartMonthsWrong(start: Date, end: Date)
    requires Printable(start) && Printable(end) && DateLe(start, end) && !WholeMonths(start, end)
    ensures !MonthFormRight(start, end)
  {
    var first, last := Date(start.year, start.month, 1), Date(end.year, end.month, DaysIn(end.year, end.month));
    assert Printable(first) && Printable(last);
    assert MonthIndex(first) == MonthIndex(start) <= MonthIndex(end) == MonthIndex(last);
    if start.day != 1 {
      assert !InRange(start, end, first);
    } else {
      assert !InRange(start, end, last);
    }
  }

  /** A month column shows the days of the range exactly when the range is made of whole months. */
  lemma {:induction false} MonthFormRightForWholeMonths(start: Date, end: Date)
    requires Printable(start) && Printable(end) && DateLe(start, end)
    ensures MonthFormRight(start, end) <==> WholeMonths(start, end)
  {
    if WholeMonths(start, end) {
      forall x | Printable(x)
        ensures MonthIndex(start) <= MonthIndex(x) <= MonthIndex(end) <==> InRange(start, end, x)
      {
        WholeMonthsRight(start, end, x);
      }
    } else {
      PartMonthsWrong(start, end);
    }
  }

  // ---------------------------------------------------------------- raw dates

  /** The eight digits that the pattern for raw dates lets through: a year 20xx, a month, and a day from 00 to 31. */
  predicate Recognised(raw: string) {
    && |raw| == 8 && AllDigits(raw[..4]) && AllDigits(raw[4..6]) && AllDigits(raw[6..])
    && 2000 <= ReadNumber(raw[..4]) <= 2099 && 1 <= ReadNumber(raw[4..6]) <= 12 && ReadNumber(raw[6..]) <= 31
  }

  /** What the condition of a raw date should select: the rows of one day, or for a month column of its month. */
  ghost predicate InstantsOf(c: Condition, d: Date) {
    forall x, second | ValidDate(x) && second < 86400 :: SelectsInstant(c, x, second) <==> x == d
  }

  ghost predicate DatetimesOf(c: Condition, d: Date) {
    forall x, t | Printable(x) && TimeOfDay(t) :: SelectsText(c, Format(x) + t) <==> x == d
  }

  ghost predicate DayTextsOf(c: Condition, d: Date) {
    forall x | Printable(x) :: SelectsText(c, Format(x)) <==> x == d
  }

  ghost predicate MonthTextsOf(c: Condition, d: Date) {
    forall x | Printable(x) :: SelectsText(c, Format(x)[..6]) <==> MonthIndex(x) == MonthIndex(d)
  }

  lemma {:induction false} OnlyDayInRange(d: Date, x: Date)
    ensures InRange(d, d, x) <==> x == d
  {
  }

  /** Date and timestamp columns: the condition selects one day, the one written, exactly when there is such a day;
      otherwise there is no condition at all and every row comes back. */
  lemma {:induction false} RawDateInstants(column: SemanticType, raw: string)
    requires |raw| == 8 && (column == DateColumn || column == TimestampColumn)
    ensures var c := RenderTimeCondition(Some(column), raw, raw);
            && (Parse(raw).Some? ==> InstantsOf(c, Parse(raw).value))
            && ((exists d :: InstantsOf(c, d)) <==> Parse(raw).Some?)
            && (c == NoCondition <==> Parse(raw).None?)
  {
    var c := RenderTimeCondition(Some(column), raw, raw);
    if Parse(raw).Some? {
      FormatUndoesParse(raw);
      var d := Parse(raw).value;
      forall x, second | ValidDate(x) && second < 86400 ensures SelectsInstant(c, x, second) <==> x == d {
        InstantsSelected(column, d, d, x, second);
        OnlyDayInRange(d, x);
      }
      assert InstantsOf(c, d);
    } else {
      forall d ensures !InstantsOf(c, d) {
        assert SelectsInstant(c, Date(2000, 1, 1), 0) && SelectsInstant(c, Date(2000, 1, 2), 0);
      }
    }
  }

  lemma {:induction false} RealDateDatetimes(d: Date)
    requires Printable(d) && d != Date(9999, 12, 31)
    ensures |Format(d)| == 8 && DatetimesOf(RenderTimeCondition(Some(DatetimeDigits), Format(d), Format(d)), d)
  {
    hide RenderTimeCondition, SelectsText, InRange, Format;
    DatetimeFormRightUnlessLastDay(d, d);
    var c := RenderTimeCondition(Some(DatetimeDigits), Format(d), Format(d));
    forall x, t | Printable(x) && TimeOfDay(t) ensures SelectsText(c, Format(x) + t) <==> x == d {
      OnlyDayInRange(d, x);
    }
  }

  lemma {:induction false} NoDateSelectsAll(d: Date)
    ensures !DatetimesOf(NoCondition, d)
  {
    var t, a, b := "000000", Date(2000, 1, 1), Date(2000, 1, 2);
    assert TimeOfDay(t) && Printable(a) && Printable(b);
    assert SelectsText(NoCondition, Format(a) + t) && SelectsText(NoCondition, Format(b) + t);
  }

  /** Fourteen-digit columns: one day exactly when there is such a day and it is not the last printable one. */
  lemma {:induction false} RawDateDatetimes(raw: string)
    requires |raw| == 8
    ensures var c := RenderTimeCondition(Some(DatetimeDigits), raw, raw);
            && (Parse(raw).Some? && raw != "99991231" ==> DatetimesOf(c, Parse(raw).value))
            && ((exists d :: Printable(d) && DatetimesOf(c, d)) <==> Parse(raw).Some? && raw != "99991231")
            && (c == NoCondition <==> Parse(raw).None?)
  {
    hide DatetimesOf;
    var c := RenderTimeCondition(Some(DatetimeDigits), raw, raw);
    LastDayText();
    if Parse(raw).Some? {
      FormatUndoesParse(raw);
      if raw != "99991231" {
        RealDateDatetimes(Parse(raw).value);
      } else {
        forall d | Printable(d) ensures !DatetimesOf(c, d) { LastDaySelectsNothing(raw, d); }
      }
    } else {
      forall d ensures !DatetimesOf(c, d) { NoDateSelectsAll(d); }
    }
  }

  lemma {:induction false} LastDayText()
    ensures Format(Date(9999, 12, 31)) == "99991231"
  {
    assert Pad(9999, 4) == "9999" && Pad(12, 2) == "12" && Pad(31, 2) == "31";
  }

  lemma {:induction false} LastDaySelectsNothing(raw: string, x: Date)
    requires |raw| == 8 && raw == Format(Date(9999, 12, 31)) && Printable(x)
    ensures !DatetimesOf(RenderTimeCondition(Some(DatetimeDigits), raw, raw), x)
  {
    var last, t := Date(9999, 12, 31), "000000";
    assert TimeOfDay(t);
    DatetimeRendered(last, last);
    MidnightOrder(last, x, t);
    LastDayLost(last, t);
    assert DateLe(last, x) ==> x == last;
    hide LexLe, RenderTimeCondition, Format;
    assert !SelectsText(RenderTimeCondition(Some(DatetimeDigits), raw, raw), Format(x) + t);
  }

  /** Day texts: that day exactly when there is one, and otherwise no row. */
  lemma {:induction false} RawDateDayTexts(column: SemanticType, raw: string)
    requires |raw| == 8 && (column == DateYyyymmdd || column == OtherType)
    ensures var c := RenderTimeCondition(Some(column), raw, raw);
            && (Parse(raw).Some? ==> DayTextsOf(c, Parse(raw).value))
            && ((exists d :: Printable(d) && DayTextsOf(c, d)) <==> Parse(raw).Some?)
            && (Parse(raw).None? <==> forall x | Printable(x) :: !SelectsText(c, Format(x)))
  {
    var c := RenderTimeCondition(Some(column), raw, raw);
    forall x | Printable(x)
      ensures SelectsText(c, Format(x)) <==> Parse(raw) == Some(x)
    {
      ParseUndoesFormat(x);
      if Parse(raw).Some? { FormatUndoesParse(raw); }
    }
    if Parse(raw).Some? {
      FormatUndoesParse(raw);
      assert DayTextsOf(c, Parse(raw).value);
    }
  }

  /** Month columns: the month written, for every text the pattern lets through, whatever its day. */
  lemma {:induction false} RawDateMonth(raw: string)
    requires Recognised(raw)
    ensures MonthTextsOf(RenderTimeCondition(Some(MonthYyyymm), raw, raw),
                         Date(ReadNumber(raw[..4]), ReadNumber(raw[4..6]), 1))
  {
    var d := Date(ReadNumber(raw[..4]), ReadNumber(raw[4..6]), 1);
    PadUndoesRead(raw[..4]);
    PadUndoesRead(raw[4..6]);
    assert raw[..6] == raw[..4] + raw[4..6];
    forall x | Printable(x)
      ensures Format(x)[..6] == raw[..6] <==> MonthIndex(x) == MonthIndex(d)
    {
      MonthText(x);
      MonthTextOrder(x, d);
    }
  }

  /** Of the texts the pattern lets through, those are days whose day is in the month. */
  lemma {:induction false} RecognisedDays(raw: string)
    requires Recognised(raw)
    ensures Parse(raw).Some? <==> 1 <= ReadNumber(raw[6..]) <= DaysIn(ReadNumber(raw[..4]), ReadNumber(raw[4..6]))
    ensures raw != "99991231"
  {
    LastDayText();
    if raw == "99991231" { ParseUndoesFormat(Date(9999, 12, 31)); }
  }

  /** The pattern lets texts through that are no days. */
  lemma {:induction false} ThirtyFirstOfFebruary()
    ensures Recognised("20250231") && Parse("20250231") == None
  {
    var raw := "20250231";
    assert raw[..4] == "2025" && raw[4..6] == "02" && raw[6..] == "31";
    ReadFour("2025");
    ReadTwo("02");
    ReadTwo("31");
  }

  lemma {:induction false} ReadTwo(s: string)
    requires |s| == 2 && AllDigits(s)
    ensures ReadNumber(s) == 10 * (s[0] as int - '0' as int) + (s[1] as int - '0' as int)
  {
    assert ReadNumber(s[..1]) == 10 * ReadNumber("") + (s[0] as int - '0' as int) by { assert s[..1][..0] == ""; }
  }

  lemma {:induction false} ReadFour(s: string)
    requires |s| == 4 && AllDigits(s)
    ensures ReadNumber(s) == 100 * ReadNumber(s[..2]) + 10 * (s[2] as int - '0' as int) + (s[3] as int - '0' as int)
    ensures ReadNumber(s[..2]) == 10 * (s[0] as int - '0' as int) + (s[1] as int - '0' as int)
  {
    ReadTwo(s[..2]);
    assert s[..3][..2] == s[..2];
    assert ReadNumber(s[..3]) == 10 * ReadNumber(s[..2]) + (s[2] as int - '0' as int);
  }
}
