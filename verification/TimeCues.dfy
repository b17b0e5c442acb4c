/**
 The time expressions of a question, the ranges of days they stand for (internal/catalog/timeparse.go,
 ParseTimeExpressions), and the way from an expression to the rows its condition selects.
 */
module TimeCues {
  import opened Basics
  import opened Calendar
  import opened TimeRange

  /** A recognised expression, with the numbers read from the question. */
  datatype Cue =
    | Today
    | Yesterday
    | ThisMonth
    | LastMonth
    | ThisYear
    | LastYear
    | RecentMonths(n: nat)
    | RecentYears(n: nat)
    | YearMonth(year: int, month: int)
    | FirstHalf(year: int)
    | SecondHalf(year: int)
    | WholeYear(year: int)

  datatype Span = Span(start: Date, end: Date)

  /** The range of an expression; a month outside 1 to 12 gives none. */
  function RangeOf(cue: Cue, today: Date): Option<Span> {
    var startOfMonth := Date(today.year, today.month, 1);
    match cue
    case Today => Some(Span(today, today))
    case Yesterday => var y := AddDate(today, 0, 0, -1); Some(Span(y, y))
    case ThisMonth => Some(Span(startOfMonth, today))
    case LastMonth => Some(Span(AddDate(startOfMonth, 0, -1, 0), AddDate(startOfMonth, 0, 0, -1)))
    case ThisYear => Some(Span(Date(today.year, 1, 1), today))
    case LastYear => Some(Span(Date(today.year - 1, 1, 1), Date(today.year - 1, 12, 31)))
    case RecentMonths(n) => Some(Span(AddDate(startOfMonth, 0, 0 - n, 0), today))
    case RecentYears(n) => Some(Span(AddDate(today, 0 - n, 0, 0), today))
    case YearMonth(year, month) =>
      if month < 1 || month > 12 then None
      else
        var start := Date(year, month, 1);
        Some(Span(start, AddDate(start, 0, 1, -1)))
    case FirstHalf(year) => Some(Span(Date(year, 1, 1), Date(year, 6, 30)))
    case SecondHalf(year) => Some(Span(Date(year, 7, 1), Date(year, 12, 31)))
    case WholeYear(year) => Some(Span(Date(year, 1, 1), Date(year, 12, 31)))
  }

  /** The days an expression speaks of. */
  predicate Means(cue: Cue, today: Date, x: Date) {
    match cue
    case Today => x == today
    case Yesterday => DayNumber(x) == DayNumber(today) - 1
    case ThisMonth => MonthIndex(x) == MonthIndex(today) && x.day <= today.day
    case LastMonth => MonthIndex(x) == MonthIndex(today) - 1
    case ThisYear => x.year == today.year && DayNumber(x) <= DayNumber(today)
    case LastYear => x.year == today.year - 1
    case RecentMonths(n) => MonthIndex(today) - n <= MonthIndex(x) && DayNumber(x) <= DayNumber(today)
    case RecentYears(n) =>
      // a 29th of February counts from the 1st of March when its year has none
      DateLe(Date(today.year - n, today.month, today.day), x) && DayNumber(x) <= DayNumber(today)
    case YearMonth(year, month) => x.year == year && x.month == month
    case FirstHalf(year) => x.year == year && x.month <= 6
    case SecondHalf(year) => x.year == year && x.month >= 7
    case WholeYear(year) => x.year == year
  }

  lemma {:induction false} StartOfMonth(d: Date, months: int, days: int)
    requires ValidDate(d) && d.day == 1
    ensures AddDate(d, 0, months, days) == AddDays(FirstOfMonth(MonthIndex(d) + months), days)
    ensures AddDate(d, 0, months, 0) == FirstOfMonth(MonthIndex(d) + months)
    ensures AddDate(d, 0, months, -1) == PreviousDay(FirstOfMonth(MonthIndex(d) + months))
  {
    var first := FirstOfMonth(MonthIndex(d) + months);
    assert AddDays(first, 0) == first;
  }

  lemma {:induction false} DayBefore(today: Date)
    requires ValidDate(today)
    ensures ValidDate(AddDate(today, 0, 0, -1)) && DayNumber(AddDate(today, 0, 0, -1)) == DayNumber(today) - 1
  {
    var first := FirstOfMonth(MonthIndex(today));
    assert first == Date(today.year, today.month, 1);
    AddDaysMovesDayNumber(first, today.day - 2);
  }

  lemma {:induction false} YearsBackFirst(today: Date, n: nat)
    requires ValidDate(today)
    ensures AddDate(today, 0 - n, 0, 0) == AddDays(Date(today.year - n, today.month, 1), today.day - 1)
  {
    var index := MonthIndex(today) + 12 * (0 - n) + 0;
    assert index == 12 * (today.year - n) + (today.month - 1);
    assert FirstOfMonth(index) == Date(today.year - n, today.month, 1);
  }

  /** Going back whole years keeps month and day, except that a missing 29th of February becomes the 1st of March. */
  lemma {:induction false} YearsBack(today: Date, n: nat)
    requires ValidDate(today)
    ensures AddDate(today, 0 - n, 0, 0) ==
            if ValidDate(Date(today.year - n, today.month, today.day)) then
              Date(today.year - n, today.month, today.day)
            else Date(today.year - n, 3, 1)
  {
    var year := today.year - n;
    var first := Date(year, today.month, 1);
    YearsBackFirst(today, n);
    AddDaysMovesDayNumber(first, today.day - 1);
    var target := if today.day <= DaysIn(year, today.month) then Date(year, today.month, today.day)
                  else Date(year, 3, 1);
    OrderIsDayOrder(AddDays(first, today.day - 1), target);
  }

  lemma {:induction false} LastMonthRange(today: Date, x: Date)
    requires ValidDate(today) && ValidDate(x)
    ensures RangeRight(LastMonth, today, x)
  {
    var startOfMonth := Date(today.year, today.month, 1);
    var index := MonthIndex(startOfMonth);
    StartOfMonth(startOfMonth, -1, 0);
    StartOfMonth(startOfMonth, 0, -1);
    FirstOfMonthIndex(index - 1);
    MonthIsAnInterval(index - 1, x);
    FirstOfMonthIndex(index);
    PreviousDayIsPredecessor(FirstOfMonth(index));
  }

  lemma {:induction false} RecentMonthsRange(n: nat, today: Date, x: Date)
    requires ValidDate(today) && ValidDate(x)
    ensures RangeRight(RecentMonths(n), today, x)
  {
    var startOfMonth := Date(today.year, today.month, 1);
    StartOfMonth(startOfMonth, 0 - n, 0);
    FirstOfMonthIndex(MonthIndex(today) - n);
    MonthIsAnInterval(MonthIndex(today) - n, x);
    OrderIsDayOrder(x, today);
  }

  lemma {:induction false} YearMonthRange(year: int, month: int, today: Date, x: Date)
    requires ValidDate(today) && ValidDate(x) && 1 <= month <= 12
    ensures RangeRight(YearMonth(year, month), today, x)
  {
    var start := Date(year, month, 1);
    var index := MonthIndex(start);
    StartOfMonth(start, 1, -1);
    assert start == FirstOfMonth(index);
    MonthIsAnInterval(index, x);
    FirstOfMonthIndex(index + 1);
    PreviousDayIsPredecessor(FirstOfMonth(index + 1));
  }

  lemma {:induction false} YesterdayRange(today: Date, x: Date)
    requires ValidDate(today) && ValidDate(x)
    ensures RangeRight(Yesterday, today, x)
  {
    DayBefore(today);
    OrderIsDayOrder(x, AddDate(today, 0, 0, -1));
    OrderIsDayOrder(AddDate(today, 0, 0, -1), x);
  }

  /** The range is valid at both ends and holds exactly the days the expression speaks of. */
  predicate RangeRight(cue: Cue, today: Date, x: Date) {
    match RangeOf(cue, today)
    case None => !Means(cue, today, x)
    case Some(r) => ValidDate(r.start) && ValidDate(r.end) && (InRange(r.start, r.end, x) <==> Means(cue, today, x))
  }

  /** Every expression but a month outside 1 to 12 has a range, and the range is right. */
  lemma {:induction false} RangeIsMeaning(cue: Cue, today: Date, x: Date)
    requires ValidDate(today) && ValidDate(x)
    ensures RangeOf(cue, today) == None <==> cue.YearMonth? && !(1 <= cue.month <= 12)
    ensures RangeRight(cue, today, x)
  {
    match cue
    case Yesterday => YesterdayRange(today, x);
    case LastMonth => LastMonthRange(today, x);
    case RecentMonths(n) => RecentMonthsRange(n, today, x);
    case RecentYears(n) =>
      YearsBack(today, n);
      OrderIsDayOrder(x, today);
    case YearMonth(year, month) =>
      if 1 <= month <= 12 {
        YearMonthRange(year, month, today, x);
      }
    case _ =>
      OrderIsDayOrder(x, today);
  }

  /** From question to rows: the rendered condition selects exactly the days the expression speaks of. */
  lemma {:induction false} ExpressionSelects(cue: Cue, today: Date, x: Date, second: nat, t: string)
    requires ValidDate(today) && Printable(x) && second < 86400 && TimeOfDay(t)
    requires RangeOf(cue, today).Some?
    requires Printable(RangeOf(cue, today).value.start) && Printable(RangeOf(cue, today).value.end)
    ensures var r := RangeOf(cue, today).value;
            var start, end := Format(r.start), Format(r.end);
            && |start| == |end| == 8
            && (SelectsText(RenderTimeCondition(Some(DateYyyymmdd), start, end), Format(x)) <==> Means(cue, today, x))
            && (SelectsInstant(RenderTimeCondition(Some(TimestampColumn), start, end), x, second) <==>
                  Means(cue, today, x))
            && (r.end != Date(9999, 12, 31) ==>
                  (SelectsText(RenderTimeCondition(Some(DatetimeDigits), start, end), Format(x) + t) <==>
                     Means(cue, today, x)))
  {
    var r := RangeOf(cue, today).value;
    RangeIsMeaning(cue, today, x);
    DayTextsSelected(DateYyyymmdd, r.start, r.end, x);
    InstantsSelected(TimestampColumn, r.start, r.end, x, second);
    if r.end != Date(9999, 12, 31) {
      DatetimesSelected(r.start, r.end, x, t);
    }
  }

}
