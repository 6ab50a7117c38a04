/** Proleptic Gregorian dates as Python's datetime.date and polars' Date
    column see them, with the YYYYMMDD rendering and parsing used for file
    names and CSV fields. */
module Calendar {
  import opened Wrappers
  import opened Text

  datatype Date = Date(year: int, month: int, day: int)

  predicate IsLeapYear(y: int) { y % 4 == 0 && (y % 100 != 0 || y % 400 == 0) }

  function DaysInMonth(y: int, m: int): (n: int)
    requires 1 <= m <= 12
    ensures 28 <= n <= 31
  {
    if m == 2 then (if IsLeapYear(y) then 29 else 28)
    else if m == 4 || m == 6 || m == 9 || m == 11 then 30
    else 31
  }

  predicate ValidDate(d: Date)
  {
    1 <= d.month <= 12 && 1 <= d.day <= DaysInMonth(d.year, d.month)
  }

  /** A date datetime.date can hold: MINYEAR 1 to MAXYEAR 9999. */
  predicate InPythonRange(d: Date) { ValidDate(d) && 1 <= d.year <= 9999 }

  /** Chronological order, a < b. */
  predicate Before(a: Date, b: Date)
  {
    a.year < b.year || (a.year == b.year && (a.month < b.month || (a.month == b.month && a.day < b.day)))
  }

  predicate AtOrBefore(a: Date, b: Date) { a == b || Before(a, b) }

  lemma AtOrBeforeTotal(a: Date, b: Date)
    ensures AtOrBefore(a, b) || AtOrBefore(b, a)
  {
  }

  /** date(y, m, 1) + one month, with December rolling into January of y + 1. */
  function FirstOfNextMonth(y: int, m: int): (r: Date)
    requires 1 <= m <= 12
    ensures ValidDate(r) && r.day == 1
  {
    if m == 12 then Date(y + 1, 1, 1) else Date(y, m + 1, 1)
  }

  /** d - timedelta(days=1). */
  function PrevDay(d: Date): (r: Date)
    requires ValidDate(d)
    ensures ValidDate(r) && Before(r, d)
  {
    if d.day > 1 then Date(d.year, d.month, d.day - 1)
    else if d.month > 1 then Date(d.year, d.month - 1, DaysInMonth(d.year, d.month - 1))
    else Date(d.year - 1, 12, 31)
  }

  /** d + timedelta(days=1). */
  function NextDay(d: Date): (r: Date)
    requires ValidDate(d)
    ensures ValidDate(r) && Before(d, r)
  {
    if d.day < DaysInMonth(d.year, d.month) then Date(d.year, d.month, d.day + 1)
    else FirstOfNextMonth(d.year, d.month)
  }

  /** End of month the way both scripts compute it: the first of the next month minus one day. */
  function EndOfMonth(y: int, m: int): Date
    requires 1 <= m <= 12
  {
    PrevDay(FirstOfNextMonth(y, m))
  }

  lemma EndOfMonthIsLastDay(y: int, m: int)
    requires 1 <= m <= 12
    ensures EndOfMonth(y, m) == Date(y, m, DaysInMonth(y, m))
    ensures forall d :: ValidDate(d) && d.year == y && d.month == m ==> AtOrBefore(d, EndOfMonth(y, m))
  {
    if m == 12 {
      assert FirstOfNextMonth(y, m) == Date(y + 1, 1, 1);
    } else {
      assert FirstOfNextMonth(y, m) == Date(y, m + 1, 1);
    }
  }

  lemma PrevNextDay(d: Date)
    requires ValidDate(d)
    ensures PrevDay(NextDay(d)) == d && NextDay(PrevDay(d)) == d
  {
  }

  // ---------- YYYYMMDD ----------

  /** strftime("%Y%m%d") for a year of at most four digits. */
  function FormatDate8(d: Date): (s: string)
    requires 0 <= d.year <= 9999 && ValidDate(d)
    ensures |s| == 8 && AllDigits(s)
  {
    PadDigits(d.year, 4) + PadDigits(d.month, 2) + PadDigits(d.day, 2)
  }

  /** strptime(s, "%Y%m%d"), taken as exactly eight decimal digits naming a date datetime.date can hold. */
  function ParseDate8(s: string): (r: Option<Date>)
    ensures r.Some? ==> InPythonRange(r.value)
    ensures r.Some? ==> |s| == 8 && AllDigits(s)
  {
    if |s| == 8 && AllDigits(s) then
      var d := Date(DigitsValue(s[..4]), DigitsValue(s[4..6]), DigitsValue(s[6..]));
      DigitsValueBound(s[..4]);
      if 1 <= d.year && ValidDate(d) then Some(d) else None
    else None
  }

  lemma {:induction false} ParseFormatDate8(d: Date)
    requires InPythonRange(d)
    ensures ParseDate8(FormatDate8(d)) == Some(d)
  {
    var y, m, dd := PadDigits(d.year, 4), PadDigits(d.month, 2), PadDigits(d.day, 2);
    var s := y + m + dd;
    assert s[..4] == y && s[4..6] == m && s[6..] == dd;
    PadDigitsValue(d.year, 4);
    PadDigitsValue(d.month, 2);
    PadDigitsValue(d.day, 2);
  }

  lemma {:induction false} FormatParseDate8(s: string)
    requires ParseDate8(s).Some?
    ensures FormatDate8(ParseDate8(s).value) == s
  {
    PadDigitsOfValue(s[..4]);
    PadDigitsOfValue(s[4..6]);
    PadDigitsOfValue(s[6..]);
    assert s == s[..4] + s[4..6] + s[6..];
  }

  /** Two in-range dates render to the same YYYYMMDD text only when they are equal. */
  lemma FormatDate8Injective(a: Date, b: Date)
    requires InPythonRange(a) && InPythonRange(b)
    requires FormatDate8(a) == FormatDate8(b)
    ensures a == b
  {
    ParseFormatDate8(a);
    ParseFormatDate8(b);
  }
}
