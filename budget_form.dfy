/**
 * Setting a group's monthly budget (components/groups/SetBudgetForm.tsx): the
 * amount is checked, and the budget period of the current month is written with
 * its period key and its first and last days.
 */
module BudgetForm {
  import opened Common
  import opened Calendar
  import opened Drafts

  const InvalidBudget := "Please enter a valid budget amount"

  /** The row upserted into `budget_periods`. */
  datatype BudgetPeriod = BudgetPeriod(groupId: string, periodKey: string, amount: real,
                                       startDate: CalendarDate, endDate: CalendarDate)

  datatype BudgetOutcome = Refused(message: string) | Upsert(period: BudgetPeriod)

  /** `new Date(year, month, 1)`: the first day of the month. */
  function MonthStart(now: YearMonth): (r: CalendarDate)
    ensures r == CalendarDate(now.year, now.monthIndex + 1, 1)
  {
    MakeDate(now.year, now.monthIndex, 1)
  }

  /** `new Date(year, month + 1, 0)`: day 0 of the next month, the last day of this one. */
  function MonthEnd(now: YearMonth): (r: CalendarDate)
    ensures r == CalendarDate(now.year, now.monthIndex + 1, DaysInMonth(now.year, now.monthIndex + 1))
  {
    DayZeroIsLastDay(now.year, now.monthIndex);
    MakeDate(now.year, now.monthIndex + 1, 0)
  }

  /**
   * `toISOString().split('T')[0]` of local midnight on `d`: the UTC date of that
   * instant. `offset` is what `getTimezoneOffset()` answers (UTC minus local time,
   * in minutes, so negative east of Greenwich), less than a day either way; east of
   * Greenwich local midnight is still the day before in UTC.
   */
  function UtcDateOfMidnight(d: CalendarDate, offset: int): (r: CalendarDate)
    requires ValidDate(d) && -1440 < offset < 1440
    ensures ValidDate(r)
    ensures offset >= 0 ==> r == d
    ensures offset < 0 && d.day > 1 ==> r == CalendarDate(d.year, d.month, d.day - 1)
  {
    if offset < 0 then NormalizeDay(d.year, d.month, d.day - 1) else d
  }

  /** The budget amount is refused when `parseFloat` gave NaN or a number not above zero. */
  predicate ValidBudget(amount: Amount) { amount.Value? && amount.value > 0.0 }

  /**
   * `handleSubmit` up to the upsert, with the dates written as the form writes them.
   * The two dates are two different instants, so each has its own time-zone offset:
   * `startOffset` at local midnight on the 1st, `endOffset` at local midnight on the
   * last day (they differ when summer time starts or ends within the month).
   */
  function SubmitBudget(amount: Amount, groupId: string, now: YearMonth, startOffset: int, endOffset: int): (r: BudgetOutcome)
    requires -1440 < startOffset < 1440 && -1440 < endOffset < 1440
    ensures r.Refused? <==> !ValidBudget(amount)
    ensures r.Refused? ==> r.message == InvalidBudget
    ensures r.Upsert? ==> r.period.groupId == groupId && r.period.amount == amount.value > 0.0
                          && r.period.periodKey == PeriodKey(now)
                          && r.period.startDate == UtcDateOfMidnight(MonthStart(now), startOffset)
                          && r.period.endDate == UtcDateOfMidnight(MonthEnd(now), endOffset)
  {
    if !ValidBudget(amount) then Refused(InvalidBudget)
    else Upsert(BudgetPeriod(groupId, PeriodKey(now), amount.value,
                             UtcDateOfMidnight(MonthStart(now), startOffset),
                             UtcDateOfMidnight(MonthEnd(now), endOffset)))
  }

  /**
   * Each date written at a negative offset (east of Greenwich, or under a summer time
   * that puts local time ahead of UTC) is shifted a day back: the start becomes the
   * last day of the previous month, the end a day before the month's last day.
   * A date written at an offset of zero or more is the local day.
   */
  lemma PeriodSlipsEastOfGreenwich(amount: Amount, groupId: string, now: YearMonth, startOffset: int, endOffset: int)
    requires ValidBudget(amount) && -1440 < startOffset < 1440 && -1440 < endOffset < 1440
    ensures var p := SubmitBudget(amount, groupId, now, startOffset, endOffset).period;
            && (startOffset < 0 ==> p.startDate == MakeDate(now.year, now.monthIndex, 0)
                                    && p.startDate.month != now.monthIndex + 1)
            && (startOffset >= 0 ==> p.startDate == MonthStart(now))
            && (endOffset < 0 ==> p.endDate.day == DaysInMonth(now.year, now.monthIndex + 1) - 1)
            && (endOffset >= 0 ==> p.endDate == MonthEnd(now))
  {
    var p := SubmitBudget(amount, groupId, now, startOffset, endOffset).period;
    if startOffset < 0 {
      assert p.startDate == NormalizeDay(now.year, now.monthIndex + 1, 0);
      assert p.startDate == MakeDate(now.year, now.monthIndex, 0);
    }
  }

  /**
   * A summer-time change within the month splits the period: in London in March 2026
   * local midnight on the 1st is UTC (offset 0) and on the 31st is summer time
   * (offset -60), so the period written runs from 1 March to 30 March.
   */
  lemma SummerTimeSplitsThePeriod(amount: Amount, groupId: string, now: YearMonth)
    requires ValidBudget(amount) && now == YearMonth(2026, 2)
    ensures var p := SubmitBudget(amount, groupId, now, 0, -60).period;
            && p.startDate == CalendarDate(2026, 3, 1)
            && p.endDate == CalendarDate(2026, 3, 30)
            && p != SubmitBudgetLocal(amount, groupId, now).period
  {
    assert DaysInMonth(2026, 3) == 31;
    PeriodSlipsEastOfGreenwich(amount, groupId, now, 0, -60);
  }

  /** The intended submission: the period's first and last days are the local calendar days. */
  function SubmitBudgetLocal(amount: Amount, groupId: string, now: YearMonth): (r: BudgetOutcome)
    ensures r.Refused? <==> !ValidBudget(amount)
    ensures r.Refused? ==> r.message == InvalidBudget
    ensures r.Upsert? ==> r.period.groupId == groupId && r.period.amount == amount.value > 0.0
                          && r.period.periodKey == PeriodKey(now)
  {
    if !ValidBudget(amount) then Refused(InvalidBudget)
    else Upsert(BudgetPeriod(groupId, PeriodKey(now), amount.value, MonthStart(now), MonthEnd(now)))
  }

  /** The day `d` falls within the month of period key `now`. */
  predicate InMonth(d: CalendarDate, now: YearMonth) {
    d.year == now.year && d.month == now.monthIndex + 1 && ValidDate(d)
  }

  /**
   * The corrected period covers exactly its month: it starts on the 1st, ends on the
   * month's last day, both days lie in the month its key names, and the key reads back
   * to that month.
   */
  lemma LocalPeriodCoversMonth(amount: Amount, groupId: string, now: YearMonth)
    requires ValidBudget(amount) && now.year >= 0
    ensures var p := SubmitBudgetLocal(amount, groupId, now).period;
            && p.startDate.day == 1 && p.endDate.day == DaysInMonth(now.year, now.monthIndex + 1)
            && InMonth(p.startDate, now) && InMonth(p.endDate, now)
            && ParsePeriodKey(p.periodKey) == Some(now)
  {
    PeriodKeyRoundTrip(now);
  }

  /**
   * When neither midnight is ahead of UTC (west of Greenwich, or at UTC, on both days)
   * the form's own dates are the intended ones.
   */
  lemma WestOfGreenwichIsLocal(amount: Amount, groupId: string, now: YearMonth, startOffset: int, endOffset: int)
    requires 0 <= startOffset < 1440 && 0 <= endOffset < 1440
    ensures SubmitBudget(amount, groupId, now, startOffset, endOffset) == SubmitBudgetLocal(amount, groupId, now)
  {
  }
}
