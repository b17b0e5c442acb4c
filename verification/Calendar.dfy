/**
 The Gregorian calendar (ISO 8601:2004, section 3.2.1) and the calendar arithmetic the time expressions use, with the
 eight-digit texts that stand for days.
 */
module Calendar {
  import opened Basics

  datatype Date = Date(year: int, month: int, day: int)

  predicate Leap(year: int) {
    year % 4 == 0 && (year % 100 != 0 || year % 400 == 0)
  }

  function DaysIn(year: int, month: int): int {
    if month == 2 then if Leap(year) then 29 else 28
    else if month == 4 || month == 6 || month == 9 || month == 11 then 30
    else 31
  }

  predicate ValidDate(d: Date) {
    1 <= d.month <= 12 && 1 <= d.day <= DaysIn(d.year, d.month)
  }

  /** Calendar order. */
  predicate DateLe(a: Date, b: Date) {
    a.year < b.year || (a.year == b.year && (a.month < b.month || (a.month == b.month && a.day <= b.day)))
  }

  // ---------------------------------------------------------------- day numbers

  /** Days from the start of year 0 to the start of `year`. */
  function DaysBeforeYear(year: int): int {
    365 * year + (year + 3) / 4 - (year + 99) / 100 + (year + 399) / 400
  }

  function DaysBeforeMonth(year: int, month: int): int
    decreases month
  {
    if month <= 1 then 0 else DaysBeforeMonth(year, month - 1) + DaysIn(year, month - 1)
  }

  function DayNumber(d: Date): int {
    DaysBeforeYear(d.year) + DaysBeforeMonth(d.year, d.month) + d.day - 1
  }

  lemma {:induction false} YearLength(year: int)
    ensures DaysBeforeYear(year + 1) == DaysBeforeYear(year) + DaysBeforeMonth(year, 13)
  {
    LeapDays(year);
    assert DaysBeforeMonth(year, 4) == 59 + (if Leap(year) then 1 else 0) + 31;
    assert DaysBeforeMonth(year, 7) == DaysBeforeMonth(year, 4) + 91;
    assert DaysBeforeMonth(year, 10) == DaysBeforeMonth(year, 7) + 92;
    assert DaysBeforeMonth(year, 13) == DaysBeforeMonth(year, 10) + 92;
  }

  lemma {:induction false} LeapDays(year: int)
    ensures DaysBeforeYear(year + 1) == DaysBeforeYear(year) + if Leap(year) then 366 else 365
  {
    Quarters(year);
    Centuries(year);
    FourCenturies(year);
  }

  lemma {:induction false} Quarters(year: int)
    ensures (year + 4) / 4 == (year + 3) / 4 + if year % 4 == 0 then 1 else 0
  {
  }

  lemma {:induction false} Centuries(year: int)
    ensures (year + 100) / 100 == (year + 99) / 100 + if year % 100 == 0 then 1 else 0
    ensures year % 100 == 0 ==> year % 4 == 0
  {
  }

  lemma {:induction false} FourCenturies(year: int)
    ensures (year + 400) / 400 == (year + 399) / 400 + if year % 400 == 0 then 1 else 0
    ensures year % 400 == 0 ==> year % 100 == 0
  {
  }

  lemma {:induction false} MonthsGrow(year: int, a: int, b: int)
    requires 1 <= a < b <= 13
    ensures DaysBeforeMonth(year, a) + DaysIn(year, a) <= DaysBeforeMonth(year, b)
    decreases b
  {
    if a < b - 1 {
      MonthsGrow(year, a, b - 1);
    }
  }

  lemma {:induction false} YearsGrow(a: int, b: int)
    requires a <= b
    ensures DaysBeforeYear(a) <= DaysBeforeYear(b)
    decreases b - a
  {
    if a < b {
      YearsGrow(a, b - 1);
      LeapDays(b - 1);
    }
  }

  lemma {:induction false} LaterHasGreaterNumber(a: Date, b: Date)
    requires ValidDate(a) && ValidDate(b) && DateLe(a, b) && a != b
    ensures DayNumber(a) < DayNumber(b)
  {
    if a.year < b.year {
      MonthsGrow(a.year, a.month, 13);
      YearLength(a.year);
      YearsGrow(a.year + 1, b.year);
      if b.month > 1 { MonthsGrow(b.year, 1, b.month); }
    } else if a.month < b.month {
      MonthsGrow(a.year, a.month, b.month);
    }
  }

  /** Calendar order is the order of day numbers, and a day number names one day. */
  lemma {:induction false} OrderIsDayOrder(a: Date, b: Date)
    requires ValidDate(a) && ValidDate(b)
    ensures DateLe(a, b) <==> DayNumber(a) <= DayNumber(b)
    ensures DayNumber(a) == DayNumber(b) ==> a == b
  {
    if a != b {
      if DateLe(a, b) { LaterHasGreaterNumber(a, b); } else { LaterHasGreaterNumber(b, a); }
    }
  }

  // ---------------------------------------------------------------- moving by days and months

  function NextDay(d: Date): Date {
    if d.day < DaysIn(d.year, d.month) then Date(d.year, d.month, d.day + 1)
    else if d.month < 12 then Date(d.year, d.month + 1, 1)
    else Date(d.year + 1, 1, 1)
  }

  function PreviousDay(d: Date): Date {
    if d.day > 1 then Date(d.year, d.month, d.day - 1)
    else if d.month > 1 then Date(d.year, d.month - 1, DaysIn(d.year, d.month - 1))
    else Date(d.year - 1, 12, 31)
  }

  /** The next day is the successor: valid, one greater, with nothing between. */
  lemma {:induction false} NextDayIsSuccessor(d: Date)
    requires ValidDate(d)
    ensures ValidDate(NextDay(d)) && DayNumber(NextDay(d)) == DayNumber(d) + 1
    ensures PreviousDay(NextDay(d)) == d
    ensures forall x :: ValidDate(x) ==> (DateLe(x, d) <==> !DateLe(NextDay(d), x))
  {
    if d.day == DaysIn(d.year, d.month) && d.month == 12 {
      YearLength(d.year);
    }
    forall x | ValidDate(x) ensures DateLe(x, d) <==> !DateLe(NextDay(d), x) {
      OrderIsDayOrder(x, d);
      OrderIsDayOrder(NextDay(d), x);
    }
  }

  lemma {:induction false} PreviousDayIsPredecessor(d: Date)
    requires ValidDate(d)
    ensures ValidDate(PreviousDay(d)) && NextDay(PreviousDay(d)) == d
    ensures DayNumber(PreviousDay(d)) == DayNumber(d) - 1
  {
    NextDayIsSuccessor(PreviousDay(d));
  }

  function AddDays(d: Date, n: int): Date
    decreases if n < 0 then -n else n
  {
    if n == 0 then d else if n > 0 then NextDay(AddDays(d, n - 1)) else PreviousDay(AddDays(d, n + 1))
  }

  lemma {:induction false} AddDaysMovesDayNumber(d: Date, n: int)
    requires ValidDate(d)
    ensures ValidDate(AddDays(d, n)) && DayNumber(AddDays(d, n)) == DayNumber(d) + n
    decreases if n < 0 then -n else n
  {
    if n > 0 {
      AddDaysMovesDayNumber(d, n - 1);
      NextDayIsSuccessor(AddDays(d, n - 1));
    } else if n < 0 {
      AddDaysMovesDayNumber(d, n + 1);
      PreviousDayIsPredecessor(AddDays(d, n + 1));
    }
  }

  /** Months since January of year 0. */
  function MonthIndex(d: Date): int {
    12 * d.year + d.month - 1
  }

  function FirstOfMonth(index: int): Date {
    Date(index / 12, index % 12 + 1, 1)
  }

  /** Go's Time.AddDate: the month overflows into the year, then the day into the month. */
  function AddDate(d: Date, years: int, months: int, days: int): Date {
    AddDays(FirstOfMonth(MonthIndex(d) + 12 * years + months), d.day - 1 + days)
  }

  lemma {:induction false} FirstOfMonthIndex(index: int)
    ensures ValidDate(FirstOfMonth(index)) && MonthIndex(FirstOfMonth(index)) == index
  {
  }

  /** The days of a month are those from its first day to the day before the first of the next month. */
  lemma {:induction false} MonthIsAnInterval(index: int, x: Date)
    requires ValidDate(x)
    ensures MonthIndex(x) >= index <==> DateLe(FirstOfMonth(index), x)
    ensures MonthIndex(x) <= index <==> DateLe(x, PreviousDay(FirstOfMonth(index + 1)))
  {
    FirstOfMonthIndex(index);
    FirstOfMonthIndex(index + 1);
    var first, next := FirstOfMonth(index), FirstOfMonth(index + 1);
    assert MonthIndex(x) >= index <==> DateLe(first, x);
    assert MonthIndex(x) >= index + 1 <==> DateLe(next, x);
    PreviousDayIsPredecessor(next);
    NextDayIsSuccessor(PreviousDay(next));
  }

  // ---------------------------------------------------------------- fixed-width decimals

  function Digit(n: int): char
    requires 0 <= n < 10
  {
    ('0' as int + n) as char
  }

  /** The last `width` decimal digits of `n`. */
  function Pad(n: nat, width: nat): (s: string)
    ensures |s| == width
    decreases width
  {
    if width == 0 then "" else Pad(n / 10, width - 1) + [Digit(n % 10)]
  }

  function Power10(width: nat): nat {
    if width == 0 then 1 else 10 * Power10(width - 1)
  }

  predicate AllDigits(s: string) {
    forall i :: 0 <= i < |s| ==> '0' <= s[i] <= '9'
  }

  function ReadNumber(s: string): nat
    requires AllDigits(s)
  {
    if s == "" then 0 else 10 * ReadNumber(s[..|s| - 1]) + (s[|s| - 1] as int - '0' as int)
  }

  lemma {:induction false} ReadUndoesPad(n: nat, width: nat)
    requires n < Power10(width)
    ensures AllDigits(Pad(n, width)) && ReadNumber(Pad(n, width)) == n
    decreases width
  {
    if width > 0 {
      ReadUndoesPad(n / 10, width - 1);
      assert Pad(n, width)[..width - 1] == Pad(n / 10, width - 1);
    }
  }

  lemma {:induction false} PadUndoesRead(s: string)
    requires AllDigits(s)
    ensures ReadNumber(s) < Power10(|s|) && Pad(ReadNumber(s), |s|) == s
  {
    if s != "" {
      var rest := s[..|s| - 1];
      PadUndoesRead(rest);
      assert ReadNumber(s) / 10 == ReadNumber(rest);
      assert s == rest + [s[|s| - 1]];
    }
  }

  /** Byte-wise order of texts, as the database compares them. */
  predicate LexLe(a: string, b: string) {
    a == "" || (b != "" && (a[0] < b[0] || (a[0] == b[0] && LexLe(a[1..], b[1..]))))
  }

  /** Texts whose heads have one length compare by their heads, then by their tails. */
  lemma {:induction false} LexConcat(a: string, b: string, s: string, t: string)
    requires |a| == |b|
    ensures LexLe(a + s, b + t) <==> if a == b then LexLe(s, t) else LexLe(a, b)
  {
    if a == "" {
      assert a + s == s && b + t == t;
    } else {
      LexConcat(a[1..], b[1..], s, t);
      assert (a + s)[1..] == a[1..] + s && (b + t)[1..] == b[1..] + t;
      assert a == [a[0]] + a[1..] && b == [b[0]] + b[1..];
    }
  }

  /** Equal-width decimals compare as their numbers. */
  lemma {:induction false} PadOrder(a: nat, b: nat, width: nat)
    requires a < Power10(width) && b < Power10(width)
    ensures LexLe(Pad(a, width), Pad(b, width)) <==> a <= b
    ensures Pad(a, width) == Pad(b, width) ==> a == b
    decreases width
  {
    if width > 0 {
      PadOrder(a / 10, b / 10, width - 1);
      LexConcat(Pad(a / 10, width - 1), Pad(b / 10, width - 1), [Digit(a % 10)], [Digit(b % 10)]);
      assert Pad(a, width)[width - 1] == Digit(a % 10) && Pad(b, width)[width - 1] == Digit(b % 10);
      assert Pad(a, width)[..width - 1] == Pad(a / 10, width - 1);
      assert Pad(b, width)[..width - 1] == Pad(b / 10, width - 1);
    }
  }

  // ---------------------------------------------------------------- texts for days

  /** Years print with four digits, and with five from 10000 on. */
  function YearText(year: int): string
    requires 0 <= year <= 99999
  {
    Pad(year, if year < 10000 then 4 else 5)
  }

  /** The format "20060102". */
  function Format(d: Date): string
    requires ValidDate(d) && 0 <= d.year <= 99999
  {
    YearText(d.year) + (Pad(d.month, 2) + Pad(d.day, 2))
  }

  /** The format "2006-01-02". */
  function FormatDashed(d: Date): string
    requires ValidDate(d) && 0 <= d.year <= 99999
  {
    YearText(d.year) + ("-" + Pad(d.month, 2) + "-" + Pad(d.day, 2))
  }

  function ReadDate(year: string, month: string, day: string): Option<Date> {
    if AllDigits(year) && AllDigits(month) && AllDigits(day) then
      var d := Date(ReadNumber(year), ReadNumber(month), ReadNumber(day));
      if ValidDate(d) then Some(d) else None
    else None
  }

  /** time.Parse with the format "20060102". */
  function Parse(s: string): Option<Date> {
    if |s| == 8 then ReadDate(s[..4], s[4..6], s[6..]) else None
  }

  /** A date as the database reads it from a literal. */
  function ReadDashed(s: string): Option<Date> {
    var n := |s|;
    if n >= 10 && s[n - 6] == '-' && s[n - 3] == '-' then ReadDate(s[..n - 6], s[n - 5..n - 3], s[n - 2..]) else None
  }

  lemma {:induction false} ReadParts(d: Date, width: nat)
    requires ValidDate(d) && 0 <= d.year < Power10(width)
    ensures ReadDate(Pad(d.year, width), Pad(d.month, 2), Pad(d.day, 2)) == Some(d)
  {
    assert Power10(2) == 100;
    ReadUndoesPad(d.year, width);
    ReadUndoesPad(d.month, 2);
    ReadUndoesPad(d.day, 2);
  }

  /** Parsing is the inverse of formatting, both ways, up to year 9999. */
  lemma {:induction false} ParseUndoesFormat(d: Date)
    requires ValidDate(d) && 0 <= d.year <= 9999
    ensures |Format(d)| == 8 && Parse(Format(d)) == Some(d)
  {
    assert Power10(4) == 10000;
    ReadParts(d, 4);
    var s := Format(d);
    assert s[..4] == Pad(d.year, 4) && s[4..6] == Pad(d.month, 2) && s[6..] == Pad(d.day, 2);
  }

  lemma {:induction false} FormatUndoesRead(year: string, month: string, day: string)
    requires |year| == 4 && |month| == |day| == 2 && ReadDate(year, month, day).Some?
    ensures var d := ReadDate(year, month, day).value;
            ValidDate(d) && 0 <= d.year <= 9999 && Format(d) == year + (month + day)
  {
    assert Power10(4) == 10000;
    PadUndoesRead(year);
    PadUndoesRead(month);
    PadUndoesRead(day);
  }

  lemma {:induction false} FormatUndoesParse(s: string)
    requires Parse(s).Some?
    ensures ValidDate(Parse(s).value) && 0 <= Parse(s).value.year <= 9999 && Format(Parse(s).value) == s
  {
    FormatUndoesRead(s[..4], s[4..6], s[6..]);
    assert s == s[..4] + (s[4..6] + s[6..]);
  }

  lemma {:induction false} ReadUndoesDashed(d: Date)
    requires ValidDate(d) && 0 <= d.year <= 99999
    ensures ReadDashed(FormatDashed(d)) == Some(d)
  {
    var w := |YearText(d.year)|;
    assert Power10(5) == 100000 && Power10(4) == 10000;
    ReadParts(d, w);
    var s := FormatDashed(d);
    assert s[..w] == YearText(d.year) && s[w + 1..w + 3] == Pad(d.month, 2) && s[w + 4..] == Pad(d.day, 2);
  }

  lemma {:induction false} MonthDayOrder(a: Date, b: Date)
    requires ValidDate(a) && ValidDate(b)
    ensures LexLe(Pad(a.month, 2) + Pad(a.day, 2), Pad(b.month, 2) + Pad(b.day, 2)) <==>
              a.month < b.month || (a.month == b.month && a.day <= b.day)
  {
    assert Power10(2) == 100;
    PadOrder(a.month, b.month, 2);
    PadOrder(a.day, b.day, 2);
    LexConcat(Pad(a.month, 2), Pad(b.month, 2), Pad(a.day, 2), Pad(b.day, 2));
  }

  /** The order of the eight-digit texts is calendar order. */
  lemma {:induction false} TextOrderIsDateOrder(a: Date, b: Date)
    requires ValidDate(a) && ValidDate(b) && 0 <= a.year <= 9999 && 0 <= b.year <= 9999
    ensures LexLe(Format(a), Format(b)) <==> DateLe(a, b)
    ensures Format(a) == Format(b) <==> a == b
  {
    assert Power10(4) == 10000;
    PadOrder(a.year, b.year, 4);
    MonthDayOrder(a, b);
    LexConcat(YearText(a.year), YearText(b.year), Pad(a.month, 2) + Pad(a.day, 2), Pad(b.month, 2) + Pad(b.day, 2));
    ParseUndoesFormat(a);
    ParseUndoesFormat(b);
  }

}
