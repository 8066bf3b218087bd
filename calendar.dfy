/**
 * Calendar arithmetic shared by the forms: the `YYYY-MM` period key every
 * budget, expense and draft is filed under, and the day normalisation that
 * `new Date(year, monthIndex, day)` performs.
 */
module Calendar {
  import opened Common
  import opened Text

  /** What `getMonth()` returns: 0 for January up to 11 for December. */
  type MonthIndex = m: int | 0 <= m < 12

  datatype YearMonth = YearMonth(year: int, monthIndex: MonthIndex)

  /**
   * `new Date(value)` read back in local time through `getFullYear()` and
   * `getMonth()`; `None` for an Invalid Date. The parser itself is JavaScript's
   * and is left abstract.
   */
  type DateReader = string -> Option<YearMonth>

  /** `String(m).padStart(2, '0')` for a month number 1..12. */
  function TwoDigitMonth(m: int): (r: string)
    requires 1 <= m <= 12
    ensures |r| == 2 && AllDigits(r) && DigitsValue(r) == m
  {
    NatToStringRoundTrip(m);
    if m < 10 then
      assert DigitsValue("0" + NatToString(m)) == DigitsValue(NatToString(m)) by {
        var s := "0" + NatToString(m);
        assert s[..1] == "0";
      }
      "0" + NatToString(m)
    else NatToString(m)
  }

  /** The period key `${year}-${month}` of a year and month. */
  function PeriodKey(ym: YearMonth): string {
    IntToString(ym.year) + "-" + TwoDigitMonth(ym.monthIndex + 1)
  }

  /** `getPeriodKey(dateValue)`: an Invalid Date prints as "NaN-NaN". */
  function PeriodKeyOf(dateValue: string, read: DateReader): (r: string)
    ensures read(dateValue).None? ==> r == "NaN-NaN"
    ensures read(dateValue).Some? ==> r == PeriodKey(read(dateValue).value)
  {
    match read(dateValue)
    case None => "NaN-NaN"
    case Some(ym) => PeriodKey(ym)
  }

  /** Reads a period key `YYYY-MM` (a non-negative year) back into its year and month. */
  function ParsePeriodKey(k: string): Option<YearMonth> {
    if |k| >= 4 && k[|k| - 3] == '-' && AllDigits(k[..|k| - 3]) && AllDigits(k[|k| - 2..]) then
      var m := DigitsValue(k[|k| - 2..]);
      if 1 <= m <= 12 then Some(YearMonth(DigitsValue(k[..|k| - 3]), m - 1)) else None
    else None
  }

  /**
   * The period key of a month of a year from 0 on is `YYYY-MM`: the year's numeral,
   * a dash and the month 01..12 in two digits, so that it reads back to the same month.
   */
  lemma PeriodKeyRoundTrip(ym: YearMonth)
    requires ym.year >= 0
    ensures ParsePeriodKey(PeriodKey(ym)) == Some(ym)
    ensures |PeriodKey(ym)| == |NatToString(ym.year)| + 3
  {
    var y := NatToString(ym.year);
    var m := TwoDigitMonth(ym.monthIndex + 1);
    assert PeriodKey(ym) == y + "-" + m;
    NatToStringRoundTrip(ym.year);
    ParseJoinedKey(y, m);
  }

  /** A key built from two runs of digits, the second of length two, splits back at its dash. */
  lemma ParseJoinedKey(y: string, m: string)
    requires |y| > 0 && AllDigits(y) && |m| == 2 && AllDigits(m)
    ensures var k := y + "-" + m;
      ParsePeriodKey(k) == if 1 <= DigitsValue(m) <= 12 then Some(YearMonth(DigitsValue(y), DigitsValue(m) - 1)) else None
  {
    var k := y + "-" + m;
    assert |k| == |y| + 3;
    assert k[..|k| - 3] == y;
    assert k[|k| - 2..] == m;
    assert k[|k| - 3] == '-';
    assert AllDigits(k[..|k| - 3]) && AllDigits(k[|k| - 2..]);
    assert DigitsValue(k[..|k| - 3]) == DigitsValue(y);
    assert DigitsValue(k[|k| - 2..]) == DigitsValue(m);
    var mv := DigitsValue(m);
    if 1 <= mv <= 12 {
      assert ParsePeriodKey(k) == Some(YearMonth(DigitsValue(y), mv - 1));
    } else {
      assert ParsePeriodKey(k) == None;
    }
  }

  // ---------------------------------------------------------------------------
  // new Date(year, monthIndex, day)

  /** The Gregorian leap-year rule. */
  predicate IsLeapYear(y: int) {
    y % 4 == 0 && (y % 100 != 0 || y % 400 == 0)
  }

  /** Days in month `m` (1..12) of year `y`. */
  function DaysInMonth(y: int, m: int): (r: int)
    requires 1 <= m <= 12
    ensures 28 <= r <= 31
  {
    if m == 2 then (if IsLeapYear(y) then 29 else 28)
    else if m == 4 || m == 6 || m == 9 || m == 11 then 30
    else 31
  }

  /** A calendar day; `month` counts from 1. */
  datatype CalendarDate = CalendarDate(year: int, month: int, day: int)

  predicate ValidDate(d: CalendarDate) {
    1 <= d.month <= 12 && 1 <= d.day <= DaysInMonth(d.year, d.month)
  }

  /** Moves a day number that lies outside month `m` into the month where it falls. */
  function NormalizeDay(y: int, m: int, d: int): (r: CalendarDate)
    requires 1 <= m <= 12
    ensures ValidDate(r)
    ensures 1 <= d <= DaysInMonth(y, m) ==> r == CalendarDate(y, m, d)
    decreases if d < 1 then 1 else 0, if d < 1 then -d else d
  {
    if d < 1 then
      var py := if m == 1 then y - 1 else y;
      var pm := if m == 1 then 12 else m - 1;
      NormalizeDay(py, pm, d + DaysInMonth(py, pm))
    else if d > DaysInMonth(y, m) then
      var ny := if m == 12 then y + 1 else y;
      var nm := if m == 12 then 1 else m + 1;
      NormalizeDay(ny, nm, d - DaysInMonth(y, m))
    else CalendarDate(y, m, d)
  }

  /**
   * `new Date(year, monthIndex, day)` on integers: a month index outside 0..11
   * carries into the year, and a day outside the month carries into the months
   * around it (day 0 is the last day of the month before).
   */
  function MakeDate(year: int, monthIndex: int, day: int): (r: CalendarDate)
    ensures ValidDate(r)
  {
    NormalizeDay(year + monthIndex / 12, monthIndex % 12 + 1, day)
  }

  /** Day 0 of the month after `m` is the last day of month `m`. */
  lemma DayZeroIsLastDay(year: int, monthIndex: MonthIndex)
    ensures MakeDate(year, monthIndex + 1, 0) == CalendarDate(year, monthIndex + 1, DaysInMonth(year, monthIndex + 1))
  {
    if monthIndex == 11 {
      assert (monthIndex + 1) / 12 == 1 && (monthIndex + 1) % 12 == 0;
    } else {
      assert (monthIndex + 1) / 12 == 0 && (monthIndex + 1) % 12 == monthIndex + 1;
    }
  }
}
