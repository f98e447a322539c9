/**
  PayrollService: processes one month's salaries. For each employee it adds
  up the approved leave days that fall in the month, deducts a day's basic
  pay per leave day from the role's gross salary, taxes what is left, and
  records the slip twice: at the end of the master list and at the tail of
  that employee's queue of slips waiting to be paid out.
*/
module Payroll {
  import opened Wrappers
  import opened Calendar
  import opened Employees
  import opened Leaves
  import opened Salaries

  // ---------------------------------------------------------------------
  // Leave days

  /** The filter of `calculateLeaveDays`: the employee's APPROVED leaves touching the month. */
  predicate Counts(l: LeaveRecord, employeeId: string, month: int, year: int)
    requires 1 <= month <= 12
  {
    l.employeeId == employeeId && l.status == Approved && IsInMonth(l, month, year)
  }

  /** `calculateLeaveDays`: the month's days of every leave that passes the filter. */
  function LeaveDays(rs: seq<LeaveRecord>, employeeId: string, month: int, year: int): int
    requires 1 <= month <= 12
    decreases |rs|
  {
    if rs == [] then 0
    else
      var l := rs[|rs| - 1];
      LeaveDays(rs[..|rs| - 1], employeeId, month, year) + Contribution(l, employeeId, month, year)
  }

  /** Reference sum: every APPROVED leave of the employee, without asking whether it touches the month. */
  function ApprovedDays(rs: seq<LeaveRecord>, employeeId: string, month: int, year: int): int
    requires 1 <= month <= 12
    decreases |rs|
  {
    if rs == [] then 0
    else
      var l := rs[|rs| - 1];
      ApprovedDays(rs[..|rs| - 1], employeeId, month, year)
        + (if l.employeeId == employeeId && l.status == Approved then DaysInMonth(l, month, year) else 0)
  }

  /** A leave that does not touch the month has no days in it, even when it ends before it starts. */
  lemma OutsideMonthHasNoDays(l: LeaveRecord, month: int, year: int)
    requires 1 <= month <= 12
    requires !IsInMonth(l, month, year)
    ensures DaysInMonth(l, month, year) == 0
  {
    if IsBefore(l.endDate, l.startDate) {
      DaysInMonthZero(l, month, year);
    } else {
      IsInMonthIffDays(l, month, year);
      DaysInMonthBounds(l, month, year);
    }
  }

  /** The `isInMonth` test in the filter never changes the sum. */
  lemma {:induction false} InMonthFilterIsRedundant(rs: seq<LeaveRecord>, employeeId: string, month: int, year: int)
    requires 1 <= month <= 12
    ensures LeaveDays(rs, employeeId, month, year) == ApprovedDays(rs, employeeId, month, year)
    decreases |rs|
  {
    if rs != [] {
      var l := rs[|rs| - 1];
      InMonthFilterIsRedundant(rs[..|rs| - 1], employeeId, month, year);
      if !IsInMonth(l, month, year) {
        OutsideMonthHasNoDays(l, month, year);
      }
    }
  }

  /** Leave days are never negative. */
  lemma {:induction false} LeaveDaysNonNegative(rs: seq<LeaveRecord>, employeeId: string, month: int, year: int)
    requires 1 <= month <= 12
    ensures 0 <= LeaveDays(rs, employeeId, month, year)
    decreases |rs|
  {
    if rs != [] {
      LeaveDaysNonNegative(rs[..|rs| - 1], employeeId, month, year);
      DaysInMonthBounds(rs[|rs| - 1], month, year);
    }
  }

  /** Each leave adds at most the month's length. */
  lemma {:induction false} LeaveDaysAtMost(rs: seq<LeaveRecord>, employeeId: string, month: int, year: int, len: int)
    requires 1 <= month <= 12 && len == LengthOfMonth(year, month)
    ensures LeaveDays(rs, employeeId, month, year) <= |rs| * len
    decreases |rs|
  {
    if rs != [] {
      var n := |rs| - 1;
      LeaveDaysAtMost(rs[..n], employeeId, month, year, len);
      DaysInMonthBounds(rs[n], month, year);
      MultiplySucc(n, len);
    }
  }

  /** One more factor of `len`. */
  lemma MultiplySucc(n: int, len: int)
    ensures n * len + len == (n + 1) * len
  {
  }

  /** What one leave adds to `calculateLeaveDays`'s sum. */
  function Contribution(l: LeaveRecord, employeeId: string, month: int, year: int): int
    requires 1 <= month <= 12
  {
    if Counts(l, employeeId, month, year) then DaysInMonth(l, month, year) else 0
  }

  /** The employee's leave, once approved, adds its days in the month. */
  lemma ApprovedContribution(l: LeaveRecord, employeeId: string, month: int, year: int)
    requires 1 <= month <= 12 && l.employeeId == employeeId
    ensures Contribution(l.(status := Approved), employeeId, month, year) == DaysInMonth(l, month, year)
  {
    DaysInMonthIgnoresStatus(l, Approved, month, year);
    if !IsInMonth(l, month, year) {
      OutsideMonthHasNoDays(l, month, year);
    }
  }

  /**
    Approving one of the employee's PENDING leaves adds exactly that leave's
    days in the month; a PENDING leave therefore never counts.
  */
  lemma {:induction false} ApprovalAddsItsDays(rs: seq<LeaveRecord>, i: int, employeeId: string, month: int, year: int)
    requires 1 <= month <= 12
    requires 0 <= i < |rs| && rs[i].status == Pending && rs[i].employeeId == employeeId
    ensures LeaveDays(rs[i := rs[i].(status := Approved)], employeeId, month, year)
         == LeaveDays(rs, employeeId, month, year) + DaysInMonth(rs[i], month, year)
    decreases |rs|
  {
    var rs' := rs[i := rs[i].(status := Approved)];
    var n := |rs| - 1;
    assert LeaveDays(rs, employeeId, month, year)
        == LeaveDays(rs[..n], employeeId, month, year) + Contribution(rs[n], employeeId, month, year);
    assert LeaveDays(rs', employeeId, month, year)
        == LeaveDays(rs'[..n], employeeId, month, year) + Contribution(rs'[n], employeeId, month, year);
    if i == n {
      assert rs'[..n] == rs[..n];
      assert Contribution(rs[n], employeeId, month, year) == 0;
      ApprovedContribution(rs[i], employeeId, month, year);
    } else {
      assert rs'[..n] == rs[..n][i := rs[i].(status := Approved)];
      assert rs'[n] == rs[n];
      ApprovalAddsItsDays(rs[..n], i, employeeId, month, year);
    }
  }

  // ---------------------------------------------------------------------
  // One salary slip

  /** The deduction of `processSalary`: a day's basic pay per leave day, applied only when there are leave days. */
  function Deduction(basicSalary: real, leaveDays: int, totalDaysInMonth: int): real
    requires totalDaysInMonth > 0
  {
    if leaveDays > 0 then basicSalary / totalDaysInMonth as real * leaveDays as real else 0.0
  }

  /** The share of `basicSalary` that `leaveDays` days are of a month of `totalDaysInMonth` days. */
  function ProRata(basicSalary: real, leaveDays: int, totalDaysInMonth: int): real
    requires totalDaysInMonth > 0
  {
    basicSalary * leaveDays as real / totalDaysInMonth as real
  }

  /** For a non-negative number of leave days the guard is immaterial: the deduction is pro rata. */
  lemma DeductionIsProRata(basicSalary: real, leaveDays: int, totalDaysInMonth: int)
    requires totalDaysInMonth > 0 && leaveDays >= 0
    ensures Deduction(basicSalary, leaveDays, totalDaysInMonth) == ProRata(basicSalary, leaveDays, totalDaysInMonth)
  {
  }

  /** `processSalary`'s record for one employee; `today` stands for the clock. */
  function SalaryFor(e: EmployeeRecord, rs: seq<LeaveRecord>, month: int, year: int, today: LocalDate): Salary
    requires 1 <= month <= 12
  {
    var leaveDays := LeaveDays(rs, e.id, month, year);
    var gross := GrossSalary(e.basicSalary, e.role) - Deduction(e.basicSalary, leaveDays, LengthOfMonth(year, month));
    var tax := CalculateTax(gross);
    Salary(e.id, e.basicSalary, gross, tax, gross - tax, month, year, leaveDays, today)
  }

  /**
    Every slip is consistent: the tax is the bracket tax of the gross, the
    net is what the tax leaves, and the leave days are the employee's
    APPROVED days in the month.
  */
  lemma SalaryForConsistent(e: EmployeeRecord, rs: seq<LeaveRecord>, month: int, year: int, today: LocalDate)
    requires 1 <= month <= 12
    ensures var s := SalaryFor(e, rs, month, year, today);
      && s.employeeId == e.id && s.basicSalary == e.basicSalary && s.month == month && s.year == year
      && s.leaveDays == ApprovedDays(rs, e.id, month, year) && s.leaveDays >= 0
      && s.taxAmount == CalculateTax(s.grossSalary)
      && s.netSalary == s.grossSalary - s.taxAmount
  {
    InMonthFilterIsRedundant(rs, e.id, month, year);
    LeaveDaysNonNegative(rs, e.id, month, year);
  }

  /** The gross is the role's gross less one day's basic pay per leave day; it is not clamped at zero. */
  lemma SalaryForGross(e: EmployeeRecord, rs: seq<LeaveRecord>, month: int, year: int, today: LocalDate)
    requires 1 <= month <= 12
    ensures SalaryFor(e, rs, month, year, today).grossSalary
         == GrossSalary(e.basicSalary, e.role) - ProRata(e.basicSalary, SalaryFor(e, rs, month, year, today).leaveDays, LengthOfMonth(year, month))
  {
    var leaveDays := LeaveDays(rs, e.id, month, year);
    var len := LengthOfMonth(year, month);
    LeaveDaysNonNegative(rs, e.id, month, year);
    DeductionIsProRata(e.basicSalary, leaveDays, len);
  }

  /** With no leave days in the month the slip's net is the employee's own net salary. */
  lemma NoLeaveFullPay(e: EmployeeRecord, rs: seq<LeaveRecord>, month: int, year: int, today: LocalDate)
    requires 1 <= month <= 12
    requires LeaveDays(rs, e.id, month, year) == 0
    ensures SalaryFor(e, rs, month, year, today).grossSalary == GrossSalary(e.basicSalary, e.role)
    ensures SalaryFor(e, rs, month, year, today).netSalary == NetSalary(e)
  {
  }

  /** An approved leave that covers the whole month takes away exactly the basic salary. */
  lemma WholeMonthLeave(e: EmployeeRecord, l: LeaveRecord, month: int, year: int, today: LocalDate)
    requires 1 <= month <= 12
    requires l.employeeId == e.id && l.status == Approved
    requires !IsAfter(l.startDate, FirstOfMonth(year, month)) && !IsBefore(l.endDate, LastOfMonth(year, month))
    ensures SalaryFor(e, [l], month, year, today).leaveDays == LengthOfMonth(year, month)
    ensures SalaryFor(e, [l], month, year, today).grossSalary == GrossSalary(e.basicSalary, e.role) - e.basicSalary
  {
    var days := LengthOfMonth(year, month);
    DaysInMonthFull(l, month, year);
    assert [l][..0] == [];
    assert LeaveDays([l], e.id, month, year) == days;
    WholeMonthDeduction(e.basicSalary, days);
  }

  /** Leave on every day of the month deducts the whole basic salary. */
  lemma WholeMonthDeduction(basicSalary: real, totalDaysInMonth: int)
    requires totalDaysInMonth > 0
    ensures Deduction(basicSalary, totalDaysInMonth, totalDaysInMonth) == basicSalary
  {
  }

  // ---------------------------------------------------------------------
  // Lists and queues of slips

  /** The slips of one employee, in list order. */
  function SalariesOf(ss: seq<Salary>, employeeId: string): (r: seq<Salary>)
    ensures |r| <= |ss|
    ensures forall i :: 0 <= i < |r| ==> r[i] in ss && r[i].employeeId == employeeId
    ensures forall i :: 0 <= i < |ss| && ss[i].employeeId == employeeId ==> ss[i] in r
    decreases |ss|
  {
    if ss == [] then []
    else
      var rest := SalariesOf(ss[..|ss| - 1], employeeId);
      var s := ss[|ss| - 1];
      if s.employeeId == employeeId then rest + [s] else rest
  }

  /** Filtering a concatenation filters each part: the selection keeps list order. */
  lemma {:induction false} SalariesOfAppend(a: seq<Salary>, b: seq<Salary>, employeeId: string)
    ensures SalariesOf(a + b, employeeId) == SalariesOf(a, employeeId) + SalariesOf(b, employeeId)
    decreases |b|
  {
    if b == [] {
      assert a + b == a;
    } else {
      var b' := b[..|b| - 1];
      assert (a + b)[..|a + b| - 1] == a + b';
      assert (a + b)[|a + b| - 1] == b[|b| - 1];
      SalariesOfAppend(a, b', employeeId);
    }
  }

  /** `getOrDefault(employeeId, new LinkedList<>())`. */
  function QueueOf(pending: map<string, seq<Salary>>, employeeId: string): seq<Salary> {
    if employeeId in pending then pending[employeeId] else []
  }

  /** Adding a slip at the tail of its employee's queue, creating the queue if absent. */
  function Enqueue(pending: map<string, seq<Salary>>, s: Salary): map<string, seq<Salary>> {
    pending[s.employeeId := QueueOf(pending, s.employeeId) + [s]]
  }

  /** Enqueuing a list of slips one after the other. */
  function EnqueueAll(pending: map<string, seq<Salary>>, ss: seq<Salary>): map<string, seq<Salary>>
    decreases |ss|
  {
    if ss == [] then pending else Enqueue(EnqueueAll(pending, ss[..|ss| - 1]), ss[|ss| - 1])
  }

  /** Enqueuing a list and then one more slip. */
  lemma EnqueueAllSnoc(pending: map<string, seq<Salary>>, ss: seq<Salary>, s: Salary)
    ensures EnqueueAll(pending, ss + [s]) == Enqueue(EnqueueAll(pending, ss), s)
  {
    assert (ss + [s])[..|ss|] == ss;
  }

  /** Each queue grows by the enqueued slips of its employee, in order: first in, first out. */
  lemma {:induction false} QueueOfEnqueueAll(pending: map<string, seq<Salary>>, ss: seq<Salary>, employeeId: string)
    ensures QueueOf(EnqueueAll(pending, ss), employeeId) == QueueOf(pending, employeeId) + SalariesOf(ss, employeeId)
    ensures employeeId in EnqueueAll(pending, ss) <==> employeeId in pending || SalariesOf(ss, employeeId) != []
    decreases |ss|
  {
    if ss != [] {
      QueueOfEnqueueAll(pending, ss[..|ss| - 1], employeeId);
    }
  }

  /** Whether `q` is what is left of `all` after some slips were taken off its front. */
  predicate IsSuffix(q: seq<Salary>, all: seq<Salary>) {
    |q| <= |all| && all[|all| - |q|..] == q
  }

  /** `pendingSalaries.get(id).add(s)` preserves: every queue is a suffix of the employee's slips. */
  lemma SuffixGrows(q: seq<Salary>, all: seq<Salary>, s: Salary)
    requires IsSuffix(q, all)
    ensures IsSuffix(q + [s], all + [s])
  {
    assert (all + [s])[|all + [s]| - |q + [s]|..] == all[|all| - |q|..] + [s];
  }

  /** `queue.poll()` preserves it too. */
  lemma SuffixShrinks(q: seq<Salary>, all: seq<Salary>)
    requires IsSuffix(q, all) && q != []
    ensures IsSuffix(q[1..], all)
  {
    assert all[|all| - |q[1..]|..] == all[|all| - |q|..][1..];
  }

  /** `viewSalaryDetails`'s match. */
  predicate IsSlipFor(s: Salary, employeeId: string, month: int, year: int) {
    s.employeeId == employeeId && s.month == month && s.year == year
  }

  /** The position of the first slip of the employee for the period, or -1. */
  function FindSlip(ss: seq<Salary>, employeeId: string, month: int, year: int): (i: int)
    ensures -1 <= i < |ss|
    ensures 0 <= i ==> IsSlipFor(ss[i], employeeId, month, year)
    ensures forall j :: 0 <= j < |ss| && (i < 0 || j < i) ==> !IsSlipFor(ss[j], employeeId, month, year)
    decreases |ss|
  {
    if ss == [] then -1
    else if IsSlipFor(ss[0], employeeId, month, year) then 0
    else
      var k := FindSlip(ss[1..], employeeId, month, year);
      if k < 0 then -1 else k + 1
  }

  /**
    Slips added later never hide an earlier one: once a period has been
    processed for an employee, processing it again keeps both slips and the
    lookup still finds the first.
  */
  lemma FindSlipKeepsFirst(ss: seq<Salary>, later: seq<Salary>, employeeId: string, month: int, year: int)
    requires 0 <= FindSlip(ss, employeeId, month, year)
    ensures FindSlip(ss + later, employeeId, month, year) == FindSlip(ss, employeeId, month, year)
  {
    var i := FindSlip(ss, employeeId, month, year);
    assert (ss + later)[i] == ss[i];
    assert forall j :: 0 <= j < i ==> (ss + later)[j] == ss[j];
  }

  /** The first slip appended for a period nobody had processed is the one found. */
  lemma FindSlipAppended(ss: seq<Salary>, s: Salary, employeeId: string, month: int, year: int)
    requires FindSlip(ss, employeeId, month, year) < 0 && IsSlipFor(s, employeeId, month, year)
    ensures FindSlip(ss + [s], employeeId, month, year) == |ss|
  {
    assert (ss + [s])[|ss|] == s;
    assert forall j :: 0 <= j < |ss| ==> (ss + [s])[j] == ss[j];
  }

  /** The current fields of a list of employees, in list order. */
  function Values(es: seq<Employee>): (r: seq<EmployeeRecord>)
    reads es
    ensures |r| == |es|
    ensures forall i :: 0 <= i < |es| ==> r[i] == es[i].Value()
  {
    if es == [] then [] else Values(es[..|es| - 1]) + [es[|es| - 1].Value()]
  }

  /** A prefix one longer is the prefix and the next element. */
  lemma PrefixSnoc<T>(s: seq<T>, k: int)
    requires 0 <= k < |s|
    ensures s[..k + 1] == s[..k] + [s[k]]
  {
  }

  /**
    Where `processSalaries` stands after the first `k` employees: the list
    grew by their slips, in order, each dated by the clock reading taken
    for it, and each went to the tail of its queue.
  */
  ghost predicate Processed(all: seq<Salary>, pending: map<string, seq<Salary>>,
                            start: seq<Salary>, startPending: map<string, seq<Salary>>,
                            es: seq<EmployeeRecord>, rs: seq<LeaveRecord>, month: int, year: int, todays: seq<LocalDate>, k: int)
    requires 1 <= month <= 12
  {
    && 0 <= k <= |es| == |todays|
    && |all| == |start| + k && all[..|start|] == start
    && (forall i :: 0 <= i < k ==> all[|start| + i] == SalaryFor(es[i], rs, month, year, todays[i]))
    && pending == EnqueueAll(startPending, all[|start|..])
  }

  /** One more employee processed. */
  lemma ProcessedStep(before: seq<Salary>, beforePending: map<string, seq<Salary>>,
                      after: seq<Salary>, afterPending: map<string, seq<Salary>>,
                      start: seq<Salary>, startPending: map<string, seq<Salary>>,
                      es: seq<EmployeeRecord>, rs: seq<LeaveRecord>, month: int, year: int, todays: seq<LocalDate>, k: int)
    requires 1 <= month <= 12 && k < |es|
    requires Processed(before, beforePending, start, startPending, es, rs, month, year, todays, k)
    requires after == before + [SalaryFor(es[k], rs, month, year, todays[k])]
    requires afterPending == Enqueue(beforePending, after[|after| - 1])
    ensures Processed(after, afterPending, start, startPending, es, rs, month, year, todays, k + 1)
  {
    var n := |start|;
    forall i | 0 <= i < k + 1
      ensures after[n + i] == SalaryFor(es[i], rs, month, year, todays[i])
    {
      if i < k {
        assert after[n + i] == before[n + i];
      }
    }
    assert after[n..] == before[n..] + [after[n + k]];
    EnqueueAllSnoc(startPending, before[n..], after[n + k]);
  }

  class PayrollService {
    /** `salaries`: every slip, in the order it was made or loaded. */
    var salaries: seq<Salary>
    /** `pendingSalaries`: per employee, the slips not yet paid out, oldest first. */
    var pending: map<string, seq<Salary>>

    /** Every queue holds the latest of its employee's slips, in list order. */
    ghost predicate Valid()
      reads this
    {
      forall employeeId :: employeeId in pending ==> IsSuffix(pending[employeeId], SalariesOf(salaries, employeeId))
    }

    constructor ()
      ensures Valid() && salaries == [] && pending == map[]
    {
      salaries := [];
      pending := map[];
    }

    /** Adding a slip to the master list and to the tail of its employee's queue. */
    method Append(s: Salary)
      requires Valid()
      modifies this
      ensures Valid()
      ensures salaries == old(salaries) + [s] && pending == Enqueue(old(pending), s)
    {
      forall employeeId | employeeId in Enqueue(pending, s)
        ensures IsSuffix(Enqueue(pending, s)[employeeId], SalariesOf(salaries + [s], employeeId))
      {
        assert (salaries + [s])[..|salaries|] == salaries;
        if employeeId == s.employeeId {
          SuffixGrows(QueueOf(pending, employeeId), SalariesOf(salaries, employeeId), s);
        }
      }
      salaries := salaries + [s];
      pending := Enqueue(pending, s);
    }

    /** `calculateLeaveDays`. */
    method CalculateLeaveDays(employeeId: string, leaves: seq<Leave>, month: int, year: int) returns (leaveDays: int)
      requires 1 <= month <= 12
      ensures leaveDays == LeaveDays(Records(leaves), employeeId, month, year)
    {
      ghost var rs := Records(leaves);
      leaveDays := 0;
      for k := 0 to |leaves|
        invariant leaveDays == LeaveDays(rs[..k], employeeId, month, year)
      {
        assert rs[..k + 1][..k] == rs[..k];
        var l := leaves[k].Value();
        if l.employeeId == employeeId && l.status == Approved && IsInMonth(l, month, year) {
          leaveDays := leaveDays + DaysInMonth(l, month, year);
        }
      }
      assert rs[..|leaves|] == rs;
    }

    /** `processSalary`: the employee's slip for the month, appended and enqueued. */
    method ProcessSalary(employee: Employee, leaves: seq<Leave>, month: int, year: int, today: LocalDate)
      requires 1 <= month <= 12
      requires Valid()
      modifies this
      ensures Valid()
      ensures salaries == old(salaries) + [SalaryFor(old(employee.Value()), old(Records(leaves)), month, year, today)]
      ensures pending == Enqueue(old(pending), salaries[|salaries| - 1])
    {
      var leaveDays := CalculateLeaveDays(employee.id, leaves, month, year);
      var totalDaysInMonth := LengthOfMonth(year, month);
      var leaveDeduction := Deduction(employee.basicSalary, leaveDays, totalDaysInMonth);
      var basicSalary := employee.basicSalary;
      var grossSalary := GrossSalary(employee.basicSalary, employee.role) - leaveDeduction;
      var taxAmount := CalculateTax(grossSalary);
      var netSalary := grossSalary - taxAmount;
      var salary := Salary(employee.id, basicSalary, grossSalary, taxAmount, netSalary, month, year, leaveDays, today);
      assert salary == SalaryFor(employee.Value(), Records(leaves), month, year, today);
      Append(salary);
    }

    /**
      `processSalaries`: one slip per employee, in the order of the given list.
      Each slip's constructor reads the clock; `todays[i]` is the reading for
      employee `i`, so a run across midnight may date its slips differently.
    */
    method ProcessSalaries(employees: seq<Employee>, leaves: seq<Leave>, month: int, year: int, todays: seq<LocalDate>)
      requires 1 <= month <= 12
      requires Valid()
      requires |todays| == |employees|
      modifies this
      ensures Valid()
      ensures |salaries| == |old(salaries)| + |employees| && salaries[..|old(salaries)|] == old(salaries)
      ensures forall i :: 0 <= i < |employees| ==>
        salaries[|old(salaries)| + i] == SalaryFor(old(Values(employees))[i], old(Records(leaves)), month, year, todays[i])
      ensures pending == EnqueueAll(old(pending), salaries[|old(salaries)|..])
    {
      ghost var rs := Records(leaves);
      ghost var es := Values(employees);
      for k := 0 to |employees|
        invariant Valid()
        invariant Processed(salaries, pending, old(salaries), old(pending), es, rs, month, year, todays, k)
      {
        ghost var before := salaries;
        ghost var beforePending := pending;
        assert Records(leaves) == rs && employees[k].Value() == es[k];
        ProcessSalary(employees[k], leaves, month, year, todays[k]);
        ProcessedStep(before, beforePending, salaries, pending, old(salaries), old(pending), es, rs, month, year, todays, k);
      }
    }

    /** `viewSalaryDetails` as a lookup: the first slip of the employee for the period. */
    method ViewSalaryDetails(employeeId: string, month: int, year: int) returns (r: Option<Salary>)
      ensures var i := FindSlip(salaries, employeeId, month, year);
        r == if i < 0 then None else Some(salaries[i])
    {
      r := None;
      var k := 0;
      while k < |salaries|
        invariant 0 <= k <= |salaries|
        invariant forall j :: 0 <= j < k ==> !IsSlipFor(salaries[j], employeeId, month, year)
      {
        var s := salaries[k];
        if s.employeeId == employeeId && s.month == month && s.year == year {
          assert FindSlip(salaries, employeeId, month, year) == k;
          r := Some(s);
          break;
        }
        k := k + 1;
      }
    }

    /** `getSalariesByEmployeeId`: a new list of the employee's slips, in list order. */
    method GetSalariesByEmployeeId(employeeId: string) returns (r: seq<Salary>)
      ensures r == SalariesOf(salaries, employeeId)
    {
      r := [];
      for k := 0 to |salaries|
        invariant r == SalariesOf(salaries[..k], employeeId)
      {
        assert salaries[..k + 1][..k] == salaries[..k];
        if salaries[k].employeeId == employeeId {
          r := r + [salaries[k]];
        }
      }
      assert salaries[..|salaries|] == salaries;
    }

    /** `getPendingSalaries`: the employee's queue, empty for an unknown id; the map is not touched. */
    method GetPendingSalaries(employeeId: string) returns (q: seq<Salary>)
      requires Valid()
      ensures q == QueueOf(pending, employeeId)
      ensures IsSuffix(q, SalariesOf(salaries, employeeId))
    {
      if employeeId in pending {
        return pending[employeeId];
      }
      return [];
    }

    /** `processNextSalary`: takes the oldest waiting slip off the employee's queue; the master list stays. */
    method ProcessNextSalary(employeeId: string) returns (r: Option<Salary>)
      requires Valid()
      modifies this
      ensures Valid()
      ensures salaries == old(salaries)
      ensures QueueOf(old(pending), employeeId) == [] ==> r == None && pending == old(pending)
      ensures QueueOf(old(pending), employeeId) != [] ==>
        && r == Some(old(pending)[employeeId][0])
        && pending == old(pending)[employeeId := old(pending)[employeeId][1..]]
    {
      if employeeId !in pending || pending[employeeId] == [] {
        return None;
      }
      var queue := pending[employeeId];
      SuffixShrinks(queue, SalariesOf(salaries, employeeId));
      pending := pending[employeeId := queue[1..]];
      return Some(queue[0]);
    }

    /** The in-memory effect of `loadSalaries`: every stored slip is appended and enqueued again. */
    method LoadSalaries(stored: seq<Salary>)
      requires Valid()
      modifies this
      ensures Valid()
      ensures salaries == old(salaries) + stored && pending == EnqueueAll(old(pending), stored)
    {
      for k := 0 to |stored|
        invariant Valid()
        invariant salaries == old(salaries) + stored[..k] && pending == EnqueueAll(old(pending), stored[..k])
      {
        Append(stored[k]);
        EnqueueAllSnoc(old(pending), stored[..k], stored[k]);
        PrefixSnoc(stored, k);
      }
      assert stored[..|stored|] == stored;
    }
  }
}
