/**
  The part of java.time.LocalDate and java.time.YearMonth the leave and
  payroll rules use: the proleptic Gregorian calendar (leap years as in
  Appendix C of RFC 3339), month lengths, the epoch-day count behind
  `ChronoUnit.DAYS.between`, the lexicographic order behind `isBefore` and
  `isAfter`, `plusMonths`, `minusDays(1)`, and the RFC 3339 `full-date`
  text form written by `LocalDate.toString` and read by `LocalDate.parse`.
*/
module Calendar {
  import opened Wrappers
  import opened Text

  datatype Date = Date(year: int, month: int, day: int)

  predicate IsLeapYear(year: int) {
    year % 4 == 0 && (year % 100 != 0 || year % 400 == 0)
  }

  function LengthOfYear(year: int): (n: int)
    ensures n == 366 <==> IsLeapYear(year)
    ensures n == 365 <==> !IsLeapYear(year)
  {
    if IsLeapYear(year) then 366 else 365
  }

  /** `YearMonth.of(year, month).lengthOfMonth()`. */
  function LengthOfMonth(year: int, month: int): (n: int)
    requires 1 <= month <= 12
    ensures 28 <= n <= 31
    ensures n == 29 <==> month == 2 && IsLeapYear(year)
    ensures n == 28 <==> month == 2 && !IsLeapYear(year)
  {
    if month == 2 then (if IsLeapYear(year) then 29 else 28)
    else if month == 4 || month == 6 || month == 9 || month == 11 then 30
    else 31
  }

  predicate IsValidDate(d: Date) {
    1 <= d.month <= 12 && 1 <= d.day <= LengthOfMonth(d.year, d.month)
  }

  /** The values a java.time.LocalDate can hold (its +/-999999999 year bound aside). */
  type LocalDate = d: Date | IsValidDate(d) witness Date(1970, 1, 1)

  // ---------------------------------------------------------------------
  // Day counting

  /** Days from 0000-01-01 to January 1st of `year` (floor division, so any year works). */
  function DaysBeforeYear(year: int): int {
    365 * year + (year + 3) / 4 - (year + 99) / 100 + (year + 399) / 400
  }

  /** Days from January 1st to the first day of `month` in `year`. */
  function DaysBeforeMonth(year: int, month: int): int
    requires 1 <= month <= 13
    decreases month
  {
    if month == 1 then 0 else DaysBeforeMonth(year, month - 1) + LengthOfMonth(year, month - 1)
  }

  /** Days from 0000-01-01 to 1970-01-01. */
  const DaysZeroToEpoch := 719528

  /** `LocalDate.toEpochDay()`: days since 1970-01-01. */
  function EpochDay(d: LocalDate): int {
    DaysBeforeYear(d.year) + DaysBeforeMonth(d.year, d.month) + d.day - 1 - DaysZeroToEpoch
  }

  /** `ChronoUnit.DAYS.between(from, to)`. */
  function DaysBetween(from: LocalDate, to: LocalDate): int {
    EpochDay(to) - EpochDay(from)
  }

  /** `a.isBefore(b)`: year first, then month, then day, as `LocalDate.compareTo` orders. */
  predicate IsBefore(a: Date, b: Date) {
    a.year < b.year || (a.year == b.year && (a.month < b.month || (a.month == b.month && a.day < b.day)))
  }

  /** `a.isAfter(b)`. */
  predicate IsAfter(a: Date, b: Date) {
    IsBefore(b, a)
  }

  /** Floor division by a constant steps up by one exactly at its multiples. */
  lemma FloorDivStep4(year: int)
    ensures (year + 4) / 4 == (year + 3) / 4 + (if year % 4 == 0 then 1 else 0)
  {
  }

  lemma FloorDivStep100(year: int)
    ensures (year + 100) / 100 == (year + 99) / 100 + (if year % 100 == 0 then 1 else 0)
  {
  }

  lemma FloorDivStep400(year: int)
    ensures (year + 400) / 400 == (year + 399) / 400 + (if year % 400 == 0 then 1 else 0)
  {
  }

  /** A multiple of 400 is a multiple of 100, and a multiple of 100 one of 4. */
  lemma MultipleFacts(year: int)
    ensures year % 400 == 0 ==> year % 100 == 0
    ensures year % 100 == 0 ==> year % 4 == 0
  {
    if year % 400 == 0 {
      var q := year / 400;
      assert year == 400 * q;
      assert year / 100 == 4 * q;
    }
    if year % 100 == 0 {
      var q := year / 100;
      assert year == 100 * q;
      assert year / 4 == 25 * q;
    }
  }

  lemma YearStep(year: int)
    ensures DaysBeforeYear(year + 1) == DaysBeforeYear(year) + LengthOfYear(year)
  {
    FloorDivStep4(year);
    FloorDivStep100(year);
    FloorDivStep400(year);
    MultipleFacts(year);
    var step4 := if year % 4 == 0 then 1 else 0;
    var step100 := if year % 100 == 0 then 1 else 0;
    var step400 := if year % 400 == 0 then 1 else 0;
    assert DaysBeforeYear(year + 1) == DaysBeforeYear(year) + 365 + step4 - step100 + step400;
    assert LengthOfYear(year) == 365 + step4 - step100 + step400;
  }

  lemma DaysBeforeMonthsOfYear(year: int)
    ensures DaysBeforeMonth(year, 13) == LengthOfYear(year)
  {
  }

  /** A month counted from January of year 0: 12 * year + month - 1. */
  function MonthIndex(year: int, month: int): int {
    12 * year + month - 1
  }

  /** `YearMonth` of a month index (floor division, as `Math.floorDiv`). */
  function YearOfIndex(k: int): int {
    k / 12
  }

  function MonthOfIndex(k: int): (m: int)
    ensures 1 <= m <= 12
  {
    k % 12 + 1
  }

  lemma IndexRoundTrip(year: int, month: int)
    requires 1 <= month <= 12
    ensures YearOfIndex(MonthIndex(year, month)) == year
    ensures MonthOfIndex(MonthIndex(year, month)) == month
  {
  }

  /** Epoch day of the first day of month number `k`. */
  function MonthStartDay(k: int): int {
    EpochDay(Date(YearOfIndex(k), MonthOfIndex(k), 1))
  }

  function MonthLength(k: int): (n: int)
    ensures 28 <= n <= 31
  {
    LengthOfMonth(YearOfIndex(k), MonthOfIndex(k))
  }

  /** The months tile the day line: each starts where the previous one ends. */
  lemma NextMonthStart(k: int)
    ensures MonthStartDay(k + 1) == MonthStartDay(k) + MonthLength(k)
  {
    var y, m := YearOfIndex(k), MonthOfIndex(k);
    if m == 12 {
      assert YearOfIndex(k + 1) == y + 1 && MonthOfIndex(k + 1) == 1;
      YearStep(y);
      DaysBeforeMonthsOfYear(y);
    } else {
      assert YearOfIndex(k + 1) == y && MonthOfIndex(k + 1) == m + 1;
    }
  }

  lemma {:induction false} MonthStartsIncrease(j: int, k: int)
    requires j < k
    ensures MonthStartDay(j) + MonthLength(j) <= MonthStartDay(k)
    decreases k - j
  {
    NextMonthStart(j);
    if j + 1 < k {
      MonthStartsIncrease(j + 1, k);
    }
  }

  /** Every date lies inside its own month's run of epoch days. */
  lemma DateWithinItsMonth(d: LocalDate)
    ensures MonthStartDay(MonthIndex(d.year, d.month)) <= EpochDay(d)
    ensures EpochDay(d) < MonthStartDay(MonthIndex(d.year, d.month)) + LengthOfMonth(d.year, d.month)
  {
    IndexRoundTrip(d.year, d.month);
  }

  /** A date's epoch day lies between the first day of its month and the first day of the next. */
  lemma DateBetweenMonthStarts(d: LocalDate)
    ensures var k := MonthIndex(d.year, d.month);
      MonthStartDay(k) <= EpochDay(d) < MonthStartDay(k + 1)
  {
    var k := MonthIndex(d.year, d.month);
    DateWithinItsMonth(d);
    IndexRoundTrip(d.year, d.month);
    NextMonthStart(k);
  }

  /** Later months start later. */
  lemma MonthStartsMonotone(j: int, k: int)
    requires j <= k
    ensures MonthStartDay(j) <= MonthStartDay(k)
  {
    if j < k {
      MonthStartsIncrease(j, k);
    }
  }

  /** A date whose epoch day falls inside month `k` belongs to month `k`. */
  lemma MonthOfEpochDay(d: LocalDate, k: int)
    requires MonthStartDay(k) <= EpochDay(d) < MonthStartDay(k) + MonthLength(k)
    ensures MonthIndex(d.year, d.month) == k
  {
    var kd := MonthIndex(d.year, d.month);
    DateWithinItsMonth(d);
    IndexRoundTrip(d.year, d.month);
    if kd < k {
      MonthStartsIncrease(kd, k);
    } else if kd > k {
      MonthStartsIncrease(k, kd);
    }
  }

  /** The lexicographic order of `compareTo` is the order of epoch days. */
  lemma BeforeIsEarlierEpochDay(a: LocalDate, b: LocalDate)
    ensures IsBefore(a, b) <==> EpochDay(a) < EpochDay(b)
  {
    var ka, kb := MonthIndex(a.year, a.month), MonthIndex(b.year, b.month);
    DateWithinItsMonth(a);
    DateWithinItsMonth(b);
    IndexRoundTrip(a.year, a.month);
    IndexRoundTrip(b.year, b.month);
    if ka < kb {
      MonthStartsIncrease(ka, kb);
    } else if kb < ka {
      MonthStartsIncrease(kb, ka);
    }
  }

  /** Two LocalDates are equal exactly when their epoch days are. */
  lemma EpochDayInjective(a: LocalDate, b: LocalDate)
    ensures a == b <==> EpochDay(a) == EpochDay(b)
  {
    BeforeIsEarlierEpochDay(a, b);
    BeforeIsEarlierEpochDay(b, a);
  }

  // ---------------------------------------------------------------------
  // Month arithmetic

  /**
    `d.plusMonths(n)`: move by whole months and clamp the day to the length
    of the month reached (`resolvePreviousValid`).
  */
  function PlusMonths(d: LocalDate, n: int): (r: LocalDate)
    ensures MonthIndex(r.year, r.month) == MonthIndex(d.year, d.month) + n
    ensures r.day == if d.day <= LengthOfMonth(r.year, r.month) then d.day else LengthOfMonth(r.year, r.month)
  {
    var k := MonthIndex(d.year, d.month) + n;
    var y, m := YearOfIndex(k), MonthOfIndex(k);
    Date(y, m, if d.day <= LengthOfMonth(y, m) then d.day else LengthOfMonth(y, m))
  }

  /** `d.minusDays(1)`: the day before. */
  function PreviousDay(d: LocalDate): (r: LocalDate)
    ensures EpochDay(r) == EpochDay(d) - 1
  {
    if d.day > 1 then Date(d.year, d.month, d.day - 1)
    else if d.month > 1 then Date(d.year, d.month - 1, LengthOfMonth(d.year, d.month - 1))
    else
      NewYearEve(d.year - 1);
      Date(d.year - 1, 12, 31)
  }

  /** December 31st is the day before the next January 1st. */
  lemma NewYearEve(year: int)
    ensures EpochDay(Date(year, 12, 31)) + 1 == EpochDay(Date(year + 1, 1, 1))
  {
    YearStep(year);
    DaysBeforeMonthsOfYear(year);
    assert DaysBeforeMonth(year, 13) == DaysBeforeMonth(year, 12) + 31;
  }

  /** The first day of a month. */
  function FirstOfMonth(year: int, month: int): LocalDate
    requires 1 <= month <= 12
  {
    Date(year, month, 1)
  }

  lemma FirstOfMonthStartsMonth(year: int, month: int)
    requires 1 <= month <= 12
    ensures EpochDay(FirstOfMonth(year, month)) == MonthStartDay(MonthIndex(year, month))
  {
    IndexRoundTrip(year, month);
  }

  /** `LocalDate.of(year, month, 1).plusMonths(1).minusDays(1)`. */
  function LastOfMonth(year: int, month: int): LocalDate
    requires 1 <= month <= 12
  {
    PreviousDay(PlusMonths(FirstOfMonth(year, month), 1))
  }

  /** Adding a month and stepping back a day lands on the month's last day. */
  lemma LastOfMonthIsLastDay(year: int, month: int)
    requires 1 <= month <= 12
    ensures LastOfMonth(year, month) == Date(year, month, LengthOfMonth(year, month))
    ensures EpochDay(LastOfMonth(year, month)) == MonthStartDay(MonthIndex(year, month)) + LengthOfMonth(year, month) - 1
  {
    var k := MonthIndex(year, month);
    IndexRoundTrip(year, month);
    FirstOfMonthStartsMonth(year, month);
    NextMonthStart(k);
    var next := PlusMonths(FirstOfMonth(year, month), 1);
    assert EpochDay(next) == MonthStartDay(k + 1);
    var last: LocalDate := Date(year, month, LengthOfMonth(year, month));
    assert EpochDay(last) == MonthStartDay(k) + LengthOfMonth(year, month) - 1;
    EpochDayInjective(LastOfMonth(year, month), last);
  }

  // ---------------------------------------------------------------------
  // RFC 3339 full-date text, as LocalDate.toString writes it

  /**
    The year field of `LocalDate.toString`: at least four digits, a '-' for
    years before 0 and a '+' for years after 9999.
  */
  function FormatYear(year: int): (s: string)
    ensures 4 <= |s|
  {
    if year > 9999 then "+" + NatToString(year)
    else if year >= 0 then ZeroPad(NatToString(year), 4)
    else "-" + ZeroPad(NatToString(-year), 4)
  }

  function TwoDigits(n: int): (s: string)
    requires 0 <= n < 100
    ensures |s| == 2 && AllDigits(s) && DigitsValue(s) == n
  {
    DigitsValueOfNatToString(n);
    ZeroPad(NatToString(n), 2)
  }

  /** `LocalDate.toString`: yyyy-MM-dd. */
  function FormatDate(d: LocalDate): (s: string)
    ensures ',' !in s && ';' !in s
  {
    FormatYear(d.year) + "-" + TwoDigits(d.month) + "-" + TwoDigits(d.day)
  }

  function ParseYear(s: string): Option<int> {
    if s == [] then None
    else if s[0] == '+' || s[0] == '-' then
      var digits := s[1..];
      if digits != [] && AllDigits(digits) then
        var magnitude: int := DigitsValue(digits);
        Some(if s[0] == '-' then -magnitude else magnitude)
      else None
    else if AllDigits(s) then Some(DigitsValue(s))
    else None
  }

  /**
    `LocalDate.parse` of the text `LocalDate.toString` writes; None stands for
    the DateTimeParseException thrown on text that is not a valid date.
  */
  function ParseDate(s: string): (r: Option<LocalDate>)
  {
    if |s| < 7 then None
    else
      var n := |s|;
      var yearText, monthText, dayText := s[..n - 6], s[n - 5..n - 3], s[n - 2..];
      if s[n - 6] != '-' || s[n - 3] != '-' || !AllDigits(monthText) || !AllDigits(dayText) then None
      else match ParseYear(yearText)
        case None => None
        case Some(year) =>
          var d := Date(year, DigitsValue(monthText), DigitsValue(dayText));
          if IsValidDate(d) then Some(d) else None
  }

  lemma ParseFormatYear(year: int)
    ensures ParseYear(FormatYear(year)) == Some(year)
  {
    var s := FormatYear(year);
    if year > 9999 {
      assert s[1..] == NatToString(year);
      DigitsValueOfNatToString(year);
    } else if year >= 0 {
      DigitsValueOfNatToString(year);
    } else {
      assert s[1..] == ZeroPad(NatToString(-year), 4);
      DigitsValueOfNatToString(-year);
    }
  }

  /** Where the pieces of a formatted date sit, counted from its end. */
  lemma FormatDateLayout(d: LocalDate)
    ensures var s := FormatDate(d); var n := |s|;
      && 10 <= n
      && s[..n - 6] == FormatYear(d.year) && s[n - 6] == '-' && s[n - 3] == '-'
      && s[n - 5..n - 3] == TwoDigits(d.month) && s[n - 2..] == TwoDigits(d.day)
  {
    var y, m, dd := FormatYear(d.year), TwoDigits(d.month), TwoDigits(d.day);
    var s := y + "-" + m + "-" + dd;
    assert FormatDate(d) == s;
    var n := |s|;
    assert n == |y| + 6;
    assert s[..n - 6] == y;
    assert s[n - 5..n - 3] == m;
    assert s[n - 2..] == dd;
  }

  /** Reading back what `LocalDate.toString` wrote gives the same date. */
  lemma ParseFormatDate(d: LocalDate)
    ensures ParseDate(FormatDate(d)) == Some(d)
  {
    FormatDateLayout(d);
    ParseFormatYear(d.year);
  }
}
