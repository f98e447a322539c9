/**
  A leave request: its inclusive duration, how many of its days fall in a
  calendar month, its CSV line, and the leave object whose status the
  ledger changes in place.
*/
module Leaves {
  import opened Wrappers
  import opened Calendar
  import opened Text

  const Pending := "PENDING"
  const Approved := "APPROVED"
  const Rejected := "REJECTED"

  /** A snapshot of a leave's fields. The status is free text, as read from a CSV line. */
  datatype LeaveRecord = LeaveRecord(
    employeeId: string,
    startDate: LocalDate,
    endDate: LocalDate,
    leaveType: string,
    reason: string,
    status: string)

  /** `getDuration()`: days from start to end, both included. */
  function Duration(l: LeaveRecord): (n: int)
    ensures n <= 0 <==> IsBefore(l.endDate, l.startDate)
    ensures l.startDate == l.endDate ==> n == 1
  {
    BeforeIsEarlierEpochDay(l.endDate, l.startDate);
    DaysBetween(l.startDate, l.endDate) + 1
  }

  function Max(a: int, b: int): int {
    if a < b then b else a
  }

  function Min(a: int, b: int): int {
    if a < b then a else b
  }

  /** Number of whole days shared by the day ranges [a, b] and [c, d]. */
  function Overlap(a: int, b: int, c: int, d: int): (n: int)
    ensures 0 <= n
    ensures n == 0 <==> Max(a, c) > Min(b, d)
  {
    if Max(a, c) > Min(b, d) then 0 else Min(b, d) - Max(a, c) + 1
  }

  /** Cutting [c, d] at `m` splits the overlap with [a, b] into two parts. */
  lemma OverlapSplit(a: int, b: int, c: int, m: int, d: int)
    requires c <= m <= d + 1
    ensures Overlap(a, b, c, d) == Overlap(a, b, c, m - 1) + Overlap(a, b, m, d)
  {
  }

  /**
    `getDaysInMonth(month, year)`: clamp the leave to the month, from
    `LocalDate.of(year, month, 1)` to `plusMonths(1).minusDays(1)` of it,
    and count the days left, or 0 when nothing is left.
  */
  function DaysInMonth(l: LeaveRecord, month: int, year: int): int
    requires 1 <= month <= 12
  {
    var monthStart := FirstOfMonth(year, month);
    var monthEnd := LastOfMonth(year, month);
    var overlapStart := if IsAfter(l.startDate, monthStart) then l.startDate else monthStart;
    var overlapEnd := if IsBefore(l.endDate, monthEnd) then l.endDate else monthEnd;
    if IsAfter(overlapStart, overlapEnd) then 0 else DaysBetween(overlapStart, overlapEnd) + 1
  }

  /** First and last epoch day of a month. */
  function MonthFirst(month: int, year: int): int
    requires 1 <= month <= 12
  {
    MonthStartDay(MonthIndex(year, month))
  }

  function MonthLast(month: int, year: int): int
    requires 1 <= month <= 12
  {
    MonthStartDay(MonthIndex(year, month)) + LengthOfMonth(year, month) - 1
  }

  /** The day count is the size of the intersection of the leave with the month on the day line. */
  lemma DaysInMonthIsOverlap(l: LeaveRecord, month: int, year: int)
    requires 1 <= month <= 12
    ensures DaysInMonth(l, month, year)
         == Overlap(EpochDay(l.startDate), EpochDay(l.endDate), MonthFirst(month, year), MonthLast(month, year))
  {
    var monthStart := FirstOfMonth(year, month);
    var monthEnd := LastOfMonth(year, month);
    FirstOfMonthStartsMonth(year, month);
    LastOfMonthIsLastDay(year, month);
    BeforeIsEarlierEpochDay(monthStart, l.startDate);
    BeforeIsEarlierEpochDay(l.endDate, monthEnd);
    var overlapStart := if IsAfter(l.startDate, monthStart) then l.startDate else monthStart;
    var overlapEnd := if IsBefore(l.endDate, monthEnd) then l.endDate else monthEnd;
    BeforeIsEarlierEpochDay(overlapEnd, overlapStart);
  }

  /** Never negative and never more than the month has days. */
  lemma DaysInMonthBounds(l: LeaveRecord, month: int, year: int)
    requires 1 <= month <= 12
    ensures 0 <= DaysInMonth(l, month, year) <= LengthOfMonth(year, month)
  {
    DaysInMonthIsOverlap(l, month, year);
  }

  /** Zero for a leave ending before the month, starting after it, or ending before it starts. */
  lemma DaysInMonthZero(l: LeaveRecord, month: int, year: int)
    requires 1 <= month <= 12
    requires || IsBefore(l.endDate, FirstOfMonth(year, month))
             || IsAfter(l.startDate, LastOfMonth(year, month))
             || IsBefore(l.endDate, l.startDate)
    ensures DaysInMonth(l, month, year) == 0
  {
    DaysInMonthIsOverlap(l, month, year);
    FirstOfMonthStartsMonth(year, month);
    LastOfMonthIsLastDay(year, month);
    BeforeIsEarlierEpochDay(l.endDate, FirstOfMonth(year, month));
    BeforeIsEarlierEpochDay(LastOfMonth(year, month), l.startDate);
    BeforeIsEarlierEpochDay(l.endDate, l.startDate);
  }

  /** A leave covering the whole month counts every day of it. */
  lemma DaysInMonthFull(l: LeaveRecord, month: int, year: int)
    requires 1 <= month <= 12
    requires !IsAfter(l.startDate, FirstOfMonth(year, month))
    requires !IsBefore(l.endDate, LastOfMonth(year, month))
    ensures DaysInMonth(l, month, year) == LengthOfMonth(year, month)
  {
    DaysInMonthIsOverlap(l, month, year);
    FirstOfMonthStartsMonth(year, month);
    LastOfMonthIsLastDay(year, month);
    BeforeIsEarlierEpochDay(FirstOfMonth(year, month), l.startDate);
    BeforeIsEarlierEpochDay(l.endDate, LastOfMonth(year, month));
  }

  /** A leave from 2024-01-30 to 2024-02-02 has two days in January... */
  lemma AcrossMonthEndJanuary()
    ensures DaysInMonth(LeaveRecord("D001", Date(2024, 1, 30), Date(2024, 2, 2), "ANNUAL", "", Approved), 1, 2024) == 2
  {
    assert YearOfIndex(24289) == 2024 && MonthOfIndex(24289) == 2;
    assert PlusMonths(Date(2024, 1, 1), 1) == Date(2024, 2, 1);
    assert PreviousDay(Date(2024, 2, 1)) == Date(2024, 1, 31);
    assert LastOfMonth(2024, 1) == Date(2024, 1, 31);
    assert EpochDay(Date(2024, 1, 31)) == 19753;
    assert EpochDay(Date(2024, 1, 30)) == 19752;
  }

  /** ...two in February, a 29-day month in that leap year... */
  lemma AcrossMonthEndFebruary()
    ensures DaysInMonth(LeaveRecord("D001", Date(2024, 1, 30), Date(2024, 2, 2), "ANNUAL", "", Approved), 2, 2024) == 2
  {
    assert YearOfIndex(24290) == 2024 && MonthOfIndex(24290) == 3;
    assert PlusMonths(Date(2024, 2, 1), 1) == Date(2024, 3, 1);
    assert PreviousDay(Date(2024, 3, 1)) == Date(2024, 2, 29);
    assert LastOfMonth(2024, 2) == Date(2024, 2, 29);
    assert EpochDay(Date(2024, 2, 1)) == 19754;
    assert EpochDay(Date(2024, 2, 2)) == 19755;
  }

  /** ...and lasts four days. */
  lemma AcrossMonthEndDuration()
    ensures Duration(LeaveRecord("D001", Date(2024, 1, 30), Date(2024, 2, 2), "ANNUAL", "", Approved)) == 4
  {
    assert EpochDay(Date(2024, 1, 30)) == 19752 && EpochDay(Date(2024, 2, 2)) == 19755;
  }

  /**
    `isInMonth(month, year)`: the start or the end lies in the month, or the
    leave starts before the month's first day and ends after its last.
  */
  predicate IsInMonth(l: LeaveRecord, month: int, year: int)
    requires 1 <= month <= 12
  {
    || (l.startDate.month == month && l.startDate.year == year)
    || (l.endDate.month == month && l.endDate.year == year)
    || (IsBefore(l.startDate, FirstOfMonth(year, month)) && IsAfter(l.endDate, LastOfMonth(year, month)))
  }

  /** For a leave that does not end before it starts, `isInMonth` holds exactly when some day falls in the month. */
  lemma IsInMonthIffDays(l: LeaveRecord, month: int, year: int)
    requires 1 <= month <= 12
    requires !IsBefore(l.endDate, l.startDate)
    ensures IsInMonth(l, month, year) <==> DaysInMonth(l, month, year) > 0
  {
    var k := MonthIndex(year, month);
    var s, e := EpochDay(l.startDate), EpochDay(l.endDate);
    DaysInMonthIsOverlap(l, month, year);
    FirstOfMonthStartsMonth(year, month);
    LastOfMonthIsLastDay(year, month);
    IndexRoundTrip(year, month);
    BeforeIsEarlierEpochDay(l.endDate, l.startDate);
    BeforeIsEarlierEpochDay(l.startDate, FirstOfMonth(year, month));
    BeforeIsEarlierEpochDay(LastOfMonth(year, month), l.endDate);
    DateWithinItsMonth(l.startDate);
    DateWithinItsMonth(l.endDate);
    if MonthFirst(month, year) <= s <= MonthLast(month, year) {
      MonthOfEpochDay(l.startDate, k);
    }
    if MonthFirst(month, year) <= e <= MonthLast(month, year) {
      MonthOfEpochDay(l.endDate, k);
    }
  }

  /** The day count of month number `k` (see Calendar.MonthIndex). */
  function DaysInMonthAt(l: LeaveRecord, k: int): int {
    DaysInMonth(l, MonthOfIndex(k), YearOfIndex(k))
  }

  /** Day counts of the months numbered `first` to `last`, added up (0 when `last < first`). */
  function DaysInMonths(l: LeaveRecord, first: int, last: int): int
    decreases last - first + 1
  {
    if last < first then 0 else DaysInMonths(l, first, last - 1) + DaysInMonthAt(l, last)
  }

  lemma DaysInMonthAtIsOverlap(l: LeaveRecord, k: int)
    ensures DaysInMonthAt(l, k)
         == Overlap(EpochDay(l.startDate), EpochDay(l.endDate), MonthStartDay(k), MonthStartDay(k + 1) - 1)
  {
    var y, m := YearOfIndex(k), MonthOfIndex(k);
    assert MonthIndex(y, m) == k;
    DaysInMonthIsOverlap(l, m, y);
    NextMonthStart(k);
  }

  /**
    Overlaps of [s, e] with the ranges [f(i), f(i + 1) - 1] for `i` from
    `first` to `last`, added up. The boundaries are a parameter so that the
    sums below can be reasoned about without the calendar arithmetic behind them.
  */
  function OverlapSum(s: int, e: int, f: int -> int, first: int, last: int): int
    decreases last - first + 1
  {
    if last < first then 0 else OverlapSum(s, e, f, first, last - 1) + Overlap(s, e, f(last), f(last + 1) - 1)
  }

  /** Over ascending boundaries, the pieces add up to the overlap with their union. */
  lemma {:induction false} OverlapSumTelescopes(s: int, e: int, f: int -> int, first: int, last: int)
    requires forall i :: f(i) <= f(i + 1)
    requires first <= last + 1
    ensures f(first) <= f(last + 1)
    ensures OverlapSum(s, e, f, first, last) == Overlap(s, e, f(first), f(last + 1) - 1)
    decreases last - first + 1
  {
    if first <= last {
      OverlapSumTelescopes(s, e, f, first, last - 1);
      assert f(last) <= f(last + 1);
      OverlapSplit(s, e, f(first), f(last), f(last + 1) - 1);
    }
  }

  /** Month sums agree with overlap sums whenever every month count is its overlap. */
  lemma {:induction false} DaysInMonthsAsOverlapSum(l: LeaveRecord, s: int, e: int, f: int -> int, first: int, last: int)
    requires forall i :: DaysInMonthAt(l, i) == Overlap(s, e, f(i), f(i + 1) - 1)
    ensures DaysInMonths(l, first, last) == OverlapSum(s, e, f, first, last)
    decreases last - first + 1
  {
    if first <= last {
      DaysInMonthsAsOverlapSum(l, s, e, f, first, last - 1);
    }
  }

  lemma EveryMonthIsOverlap(l: LeaveRecord, f: int -> int)
    requires f == MonthStartDay
    ensures forall i :: DaysInMonthAt(l, i) == Overlap(EpochDay(l.startDate), EpochDay(l.endDate), f(i), f(i + 1) - 1)
  {
    forall i
      ensures DaysInMonthAt(l, i) == Overlap(EpochDay(l.startDate), EpochDay(l.endDate), f(i), f(i + 1) - 1)
    {
      DaysInMonthAtIsOverlap(l, i);
    }
  }

  lemma MonthStartsAscend(f: int -> int)
    requires f == MonthStartDay
    ensures forall i :: f(i) <= f(i + 1)
  {
    forall i
      ensures f(i) <= f(i + 1)
    {
      NextMonthStart(i);
    }
  }

  /** The day counts of consecutive months add up to the leave's overlap with all of them. */
  lemma DaysInMonthsIsOverlap(l: LeaveRecord, first: int, last: int)
    requires first <= last + 1
    ensures DaysInMonths(l, first, last)
         == Overlap(EpochDay(l.startDate), EpochDay(l.endDate), MonthStartDay(first), MonthStartDay(last + 1) - 1)
  {
    var s, e := EpochDay(l.startDate), EpochDay(l.endDate);
    var f: int -> int := MonthStartDay;
    EveryMonthIsOverlap(l, f);
    DaysInMonthsAsOverlapSum(l, s, e, f, first, last);
    MonthStartsAscend(f);
    OverlapSumTelescopes(s, e, f, first, last);
  }

  /** An overlap with a range that contains all of [s, e] is the length of [s, e]. */
  lemma OverlapOfContained(s: int, e: int, a: int, b: int)
    requires a <= s <= e <= b
    ensures Overlap(s, e, a, b) == e - s + 1
  {
  }

  /** A leave that does not end before it starts lies within the months from its start's to its end's. */
  lemma LeaveWithinItsMonths(l: LeaveRecord)
    requires !IsBefore(l.endDate, l.startDate)
    ensures var first, last := MonthIndex(l.startDate.year, l.startDate.month), MonthIndex(l.endDate.year, l.endDate.month);
      && first <= last
      && MonthStartDay(first) <= EpochDay(l.startDate) <= EpochDay(l.endDate) < MonthStartDay(last + 1)
  {
    var first, last := MonthIndex(l.startDate.year, l.startDate.month), MonthIndex(l.endDate.year, l.endDate.month);
    BeforeIsEarlierEpochDay(l.endDate, l.startDate);
    DateBetweenMonthStarts(l.startDate);
    DateBetweenMonthStarts(l.endDate);
    if last < first {
      MonthStartsMonotone(last + 1, first);
    }
  }

  /**
    Adding up the day counts of every month from the start's month to the
    end's month gives the duration: each leave day is counted exactly once.
  */
  lemma DaysInMonthsSumToDuration(l: LeaveRecord)
    requires !IsBefore(l.endDate, l.startDate)
    ensures var first, last := MonthIndex(l.startDate.year, l.startDate.month), MonthIndex(l.endDate.year, l.endDate.month);
      first <= last && DaysInMonths(l, first, last) == Duration(l)
  {
    var first, last := MonthIndex(l.startDate.year, l.startDate.month), MonthIndex(l.endDate.year, l.endDate.month);
    var s, e := EpochDay(l.startDate), EpochDay(l.endDate);
    LeaveWithinItsMonths(l);
    OverlapOfContained(s, e, MonthStartDay(first), MonthStartDay(last + 1) - 1);
    DaysInMonthsIsOverlap(l, first, last);
  }

  // ---------------------------------------------------------------------
  // CSV line

  /** The six fields of `toCsv()`, commas in the reason turned into ';'. */
  function CsvFields(l: LeaveRecord): seq<string> {
    [l.employeeId, FormatDate(l.startDate), FormatDate(l.endDate), l.leaveType, Replace(l.reason, ',', ';'), l.status]
  }

  /** `toCsv()`. */
  function ToCsv(l: LeaveRecord): string {
    Join(CsvFields(l), ',')
  }

  /**
    `fromCsv(line)`: split into at most six fields, parse the two dates, turn
    ';' in the reason back into commas; the sixth field, commas and all, is
    the status. None stands for the exception thrown on a short line or a bad date.
  */
  function FromCsv(line: string): Option<LeaveRecord> {
    var parts := SplitLimit(line, ',', 6);
    if |parts| < 6 then None
    else match (ParseDate(parts[1]), ParseDate(parts[2]))
      case (Some(startDate), Some(endDate)) =>
        Some(LeaveRecord(parts[0], startDate, endDate, parts[3], Replace(parts[4], ';', ','), parts[5]))
      case _ => None
  }

  /** Splitting a written line into at most six pieces gives its six fields back. */
  lemma SplitLeaveLine(l: LeaveRecord)
    requires ',' !in l.employeeId && ',' !in l.leaveType
    ensures SplitLimit(ToCsv(l), ',', 6) == CsvFields(l)
  {
    var fields := CsvFields(l);
    assert ',' !in Replace(l.reason, ',', ';');
    assert forall k :: 0 <= k < 5 ==> ',' !in fields[k];
    SplitLimitJoin(fields, ',');
  }

  /**
    With no comma in the employee id and the leave type, a written line reads
    back as the same leave with the status kept; the reason survives exactly
    when it held no ';'.
  */
  lemma FromCsvToCsv(l: LeaveRecord)
    requires ',' !in l.employeeId && ',' !in l.leaveType
    ensures FromCsv(ToCsv(l)) == Some(l.(reason := Replace(Replace(l.reason, ',', ';'), ';', ',')))
    ensures FromCsv(ToCsv(l)) == Some(l) <==> ';' !in l.reason
  {
    SplitLeaveLine(l);
    ParseFormatDate(l.startDate);
    ParseFormatDate(l.endDate);
    ReplaceBack(l.reason, ',', ';');
  }

  /** A leave object: only its status ever changes after construction. */
  class Leave {
    const employeeId: string
    const startDate: LocalDate
    const endDate: LocalDate
    const leaveType: string
    const reason: string
    var status: string

    function Value(): LeaveRecord
      reads this
    {
      LeaveRecord(employeeId, startDate, endDate, leaveType, reason, status)
    }

    /** The five-argument constructor: a new request is PENDING. */
    constructor (employeeId: string, startDate: LocalDate, endDate: LocalDate, leaveType: string, reason: string)
      ensures Value() == LeaveRecord(employeeId, startDate, endDate, leaveType, reason, Pending)
    {
      this.employeeId := employeeId;
      this.startDate := startDate;
      this.endDate := endDate;
      this.leaveType := leaveType;
      this.reason := reason;
      this.status := Pending;
    }

    /** The six-argument constructor keeps the given status. */
    constructor WithStatus(employeeId: string, startDate: LocalDate, endDate: LocalDate, leaveType: string,
                           reason: string, status: string)
      ensures Value() == LeaveRecord(employeeId, startDate, endDate, leaveType, reason, status)
    {
      this.employeeId := employeeId;
      this.startDate := startDate;
      this.endDate := endDate;
      this.leaveType := leaveType;
      this.reason := reason;
      this.status := status;
    }

    /** `setStatus(status)`. */
    method SetStatus(status: string)
      modifies this
      ensures Value() == old(Value()).(status := status)
    {
      this.status := status;
    }
  }

  /** Only the dates of a leave decide its days in a month: the status does not. */
  lemma DaysInMonthIgnoresStatus(l: LeaveRecord, status: string, month: int, year: int)
    requires 1 <= month <= 12
    ensures DaysInMonth(l.(status := status), month, year) == DaysInMonth(l, month, year)
    ensures IsInMonth(l.(status := status), month, year) == IsInMonth(l, month, year)
  {
    var l' := l.(status := status);
    assert l'.startDate == l.startDate && l'.endDate == l.endDate;
  }

  /** The current field values of a list of leave objects, in list order. */
  function Records(ls: seq<Leave>): (rs: seq<LeaveRecord>)
    reads ls
    ensures |rs| == |ls|
    ensures forall i :: 0 <= i < |ls| ==> rs[i] == ls[i].Value()
  {
    if ls == [] then [] else Records(ls[..|ls| - 1]) + [ls[|ls| - 1].Value()]
  }
}
