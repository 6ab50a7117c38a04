/** The reporting-period columns derived from a fails row's settlement date: monthly
    periods before 2009-07-01, half-month periods from then on, and the estimated date
    on which the SEC publishes each half-month. */
module Periods {
  import opened Wrappers
  import opened Text
  import opened Calendar
  import opened Distribution

  const Cutover := Date(2009, 7, 1)

  datatype Scheme = MonthlyPre2009 | SemiMonthlyPost2009

  function SchemeName(s: Scheme): string
  {
    if s == MonthlyPre2009 then "monthly_pre_2009_07" else "semi_monthly_post_2009_07"
  }

  /** The scheme column. A date that did not parse is null, the comparison with the
      cutover is null, and when() takes a null condition as false: such a row lands in
      the semi-monthly scheme. */
  function SchemeOf(d: Option<Date>): Scheme
  {
    if d.Some? && Before(d.value, Cutover) then MonthlyPre2009 else SemiMonthlyPost2009
  }

  predicate FirstHalf(d: Date) { d.day <= 15 }

  /** strftime("%Y-%m"). */
  function YearMonth(d: Date): (s: string)
    requires 0 <= d.year <= 9999 && 1 <= d.month <= 12
    ensures |s| == 7
  {
    PadDigits(d.year, 4) + "-" + PadDigits(d.month, 2)
  }

  /** The period column: YYYY-MM before the cutover, YYYY-MM-H1 or YYYY-MM-H2 after it. */
  function PeriodLabel(d: Date): (s: string)
    requires ValidDate(d) && 0 <= d.year <= 9999
  {
    if Before(d, Cutover) then YearMonth(d)
    else if FirstHalf(d) then YearMonth(d) + "-H1"
    else YearMonth(d) + "-H2"
  }

  /** period_start: the first of the month, or the 16th for a second half-month. */
  function PeriodStart(d: Date): (r: Date)
    requires ValidDate(d)
  {
    if Before(d, Cutover) || FirstHalf(d) then Date(d.year, d.month, 1) else Date(d.year, d.month, 16)
  }

  /** period_end: the 15th for a first half-month, else the end of the month, taken as the
      first of the month plus a month minus a day. */
  function PeriodEnd(d: Date): (r: Date)
    requires ValidDate(d)
  {
    if !Before(d, Cutover) && FirstHalf(d) then Date(d.year, d.month, 15) else EndOfMonth(d.year, d.month)
  }

  /** release_date_est: none for the monthly scheme; the end of the month for a first
      half-month; the 15th of the next month for a second half-month. */
  function ReleaseDateEst(d: Date): (r: Option<Date>)
    requires ValidDate(d)
  {
    if SchemeOf(Some(d)) != SemiMonthlyPost2009 then None
    else if FirstHalf(d) then Some(EndOfMonth(d.year, d.month))
    else
      var next := FirstOfNextMonth(d.year, d.month);
      Some(Date(next.year, next.month, 15))
  }

  /** The period columns of one row; every column but the scheme is null when the date is. */
  datatype PeriodColumns = PeriodColumns(scheme: Scheme, period: Option<string>, periodStart: Option<Date>,
                                         periodEnd: Option<Date>, releaseDateEst: Option<Date>)

  function PeriodRow(d: Option<Date>): (r: PeriodColumns)
    requires d.Some? ==> ValidDate(d.value) && 0 <= d.value.year <= 9999
    ensures d.None? ==> r == PeriodColumns(SemiMonthlyPost2009, None, None, None, None)
  {
    match d
    case None => PeriodColumns(SchemeOf(d), None, None, None, None)
    case Some(v) => PeriodColumns(SchemeOf(d), Some(PeriodLabel(v)), Some(PeriodStart(v)), Some(PeriodEnd(v)), ReleaseDateEst(v))
  }

  // ---------- properties ----------

  /** The cutover is the first of a month, so all the dates of a month share one scheme. */
  lemma SchemeByMonth(d: Date, e: Date)
    requires ValidDate(d) && ValidDate(e) && d.year == e.year && d.month == e.month
    ensures SchemeOf(Some(d)) == SchemeOf(Some(e))
    ensures SchemeOf(Some(d)) == MonthlyPre2009 <==> d.year < 2009 || (d.year == 2009 && d.month < 7)
  {
  }

  /** Every date lies in its own period, and a period stays within one month. */
  lemma PeriodBounds(d: Date)
    requires ValidDate(d)
    ensures ValidDate(PeriodStart(d)) && ValidDate(PeriodEnd(d))
    ensures AtOrBefore(PeriodStart(d), d) && AtOrBefore(d, PeriodEnd(d))
    ensures PeriodStart(d).year == PeriodEnd(d).year == d.year
    ensures PeriodStart(d).month == PeriodEnd(d).month == d.month
  {
    EndOfMonthIsLastDay(d.year, d.month);
  }

  /** The periods tile the calendar: every date between a period's bounds has that period. */
  lemma PeriodsTile(d: Date, e: Date)
    requires ValidDate(d) && ValidDate(e)
    requires AtOrBefore(PeriodStart(d), e) && AtOrBefore(e, PeriodEnd(d))
    ensures PeriodStart(e) == PeriodStart(d) && PeriodEnd(e) == PeriodEnd(d)
  {
    EndOfMonthIsLastDay(d.year, d.month);
    EndOfMonthIsLastDay(e.year, e.month);
  }

  lemma YearMonthInjective(d: Date, e: Date)
    requires ValidDate(d) && 0 <= d.year <= 9999 && ValidDate(e) && 0 <= e.year <= 9999
    requires YearMonth(d) == YearMonth(e)
    ensures d.year == e.year && d.month == e.month
  {
    assert YearMonth(d)[..4] == PadDigits(d.year, 4);
    assert YearMonth(e)[..4] == PadDigits(e.year, 4);
    assert YearMonth(d)[5..] == PadDigits(d.month, 2);
    assert YearMonth(e)[5..] == PadDigits(e.month, 2);
    assert Pow10(4) == 10000 && Pow10(2) == 100;
    PadDigitsInjective(d.year, e.year, 4);
    PadDigitsInjective(d.month, e.month, 2);
  }

  /** Two dates carry the same period label exactly when their periods start on the same day. */
  lemma LabelIffStart(d: Date, e: Date)
    requires ValidDate(d) && 0 <= d.year <= 9999 && ValidDate(e) && 0 <= e.year <= 9999
    ensures PeriodLabel(d) == PeriodLabel(e) <==> PeriodStart(d) == PeriodStart(e)
  {
    if PeriodLabel(d) == PeriodLabel(e) {
      var l := PeriodLabel(d);
      assert Before(d, Cutover) <==> |l| == 7;
      assert Before(e, Cutover) <==> |l| == 7;
      assert YearMonth(d) == l[..7] == YearMonth(e);
      YearMonthInjective(d, e);
      if !Before(d, Cutover) {
        assert FirstHalf(d) <==> l[9] == '1';
        assert FirstHalf(e) <==> l[9] == '1';
      }
    }
  }

  /** The estimate is the publication rule of the downloader: half a for a first
      half-month, half b for a second. */
  lemma ReleaseIsProcessingDate(d: Date)
    requires ValidDate(d) && ProcessableYearMonth(d.year, d.month)
    ensures ReleaseDateEst(d).None? <==> Before(d, Cutover)
    ensures !Before(d, Cutover) ==>
      ReleaseDateEst(d) == Some(ProcessingDate(d.year, d.month, if FirstHalf(d) then 'a' else 'b'))
  {
  }

  /** A period is published no earlier than its last day. */
  lemma ReleaseAfterPeriodEnd(d: Date)
    requires ValidDate(d)
    ensures ReleaseDateEst(d).Some? ==> AtOrBefore(PeriodEnd(d), ReleaseDateEst(d).value)
  {
    EndOfMonthIsLastDay(d.year, d.month);
  }
}
