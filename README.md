# EmployeePayrollPro payroll core in Dafny

This project models the payroll-calculation and leave-accounting engine of
EmployeePayrollPro, a Java console application. The engine has five parts:

- **Employees.** Managers and developers each have a role-specific gross-salary formula. All roles share one bracket tax. An employee has a balance of leave days.
- **Leave requests.** A request has a start and an end date. The engine computes its duration, its days inside a calendar month, and its CSV line.
- **The leave ledger.** The ledger keeps an ordered list and an undo stack that hold the same leave objects. It approves and rejects the first matching PENDING request and undoes the most recent application.
- **The payroll processor.** It builds one salary slip per employee for a month. It deducts a day's basic pay for every approved leave day in that month and taxes the result. Each slip goes to the end of a master list and to the tail of that employee's queue of slips waiting to be paid out.
- **The employee registry.** It rejects duplicate ids, updates only known ids, decrements a leave balance only when the balance covers the request, and skips malformed lines when loading.

Modules, one per source file, plus three support modules:

| module | file | models |
|---|---|---|
| `Wrappers` | wrappers.dfy | `Option`, standing for Java's `null` results and for parse failures |
| `Calendar` | calendar.dfy | the part of `java.time.LocalDate` the core uses: proleptic Gregorian dates, epoch days, `isBefore`/`isAfter`, `plusMonths`, `minusDays(1)`, `YearMonth.lengthOfMonth`, the `yyyy-MM-dd` text form |
| `Text` | text.dfy | `String.split` (with and without a limit), `String.replace`, the comma-separated layout that `String.format` gives the `toCsv` lines (`Join`), and integer formatting and parsing |
| `Employees` | employee.dfy | Employee, Manager, Developer |
| `Leaves` | leave.dfy | Leave |
| `Salaries` | salary.dfy | Salary |
| `LeaveServices` | leave_service.dfy | LeaveService |
| `Payroll` | payroll_service.dfy | PayrollService |
| `EmployeeServices` | employee_service.dfy | EmployeeService |

Some objects are changed in place and shared between several holders. These are modelled as classes whose methods state their whole new state:

- an employee, whose leave balance the registry decrements;
- a leave, whose status the ledger sets;
- the three services.

Pure computations are functions on value snapshots: `EmployeeRecord`, `LeaveRecord` and `Salary`. The snapshots are obtained with `Value()` and `Records(...)`. Approving a leave changes the one shared object. The ledger's contracts state this per object: every list position that holds that object shows the new status.

Money is `real`. The model is exact where the source rounds to IEEE doubles.

Some of the source's outside dependencies become parameters:

- **The clock.** `LocalDate.now()` becomes a `today` argument, one per slip (`todays` in `ProcessSalaries`).
- **Money formatting.** The `%.2f` formatting becomes a caller-supplied `money` function.
- **Number parsing.** `Double.parseDouble` becomes a caller-supplied `parseMoney` function.
- **Employee-line parsing.** `Manager.fromCsv`/`Developer.fromCsv` become a caller-supplied `parse` function.

Month numbers must be 1 to 12 wherever the source builds a `YearMonth` or `LocalDate.of(year, month, 1)`. That is the only range Java accepts there. Any other value throws.

Saving and reloading an employee does not keep its leave balance, and the model follows the code here:

- `toCsv` (Manager.java:75-86, Developer.java:75-86) never writes `availableLeaveDays`.
- The constructor that `fromCsv` calls sets the balance to 20 (Employee.java:39).

So a reloaded employee always has 20 leave days, whatever balance was saved. `EmployeeServices.Reloaded` and `EmployeeServices.LoadAllLookup` state this.

## Model

| member | source | states |
|---|---|---|
| Employees.EmployeeType | src/main/java/com/payroll/models/Manager.java:52-54 | the tag is "Manager" exactly for a manager and "Developer" exactly for a developer (Developer.java:52-54 likewise) |
| Employees.CalculateTax | src/main/java/com/payroll/models/Employee.java:56-64 | for a non-negative gross the tax lies between 5% and 15% of it; a negative gross falls in the 5% bracket and gets a negative tax above the gross |
| Employees.TaxBrackets | src/main/java/com/payroll/models/Employee.java:56-64 | the tax is 5% of the whole gross up to and including 20000, 10% up to and including 50000, 15% above |
| Employees.TaxAtBracketEdges | src/main/java/com/payroll/models/Employee.java:57-60 | the edges belong to the lower bracket: tax(20000) = 1000, tax(20000.01) = 2000.001, tax(50000) = 5000, tax(50000.01) = 7500.0015 |
| Employees.NetOf | src/main/java/com/payroll/models/Employee.java:71-75 | net is gross minus the tax of that gross, and between 85% and 95% of a non-negative gross |
| Employees.NetDropsAcrossBracketEdge | src/main/java/com/payroll/models/Employee.java:56-75 | because the rate applies to the whole gross, net falls when gross crosses an edge (19000 at 20000, 18000.009 at 20000.01) |
| Employees.NetSalary | src/main/java/com/payroll/models/Employee.java:71-75 | an employee's net is its role gross minus the tax on it, and lies in 0..gross for a non-negative gross |
| Employees.DeveloperGrossMonotone | src/main/java/com/payroll/models/Developer.java:39-44 | for non-negative basic and experience the gross is at least 115% of basic and does not decrease with experience; the programming language plays no part |
| Employees.ManagerGrossMonotone | src/main/java/com/payroll/models/Manager.java:39-44 | for non-negative basic, team size and level the gross is at least basic and does not decrease with team size or level |
| Employees.ManagerSystemTest | src/main/java/com/payroll/Main.java:63-72 | basic 50000, team 5, level 2: gross 61250, tax 9187.5, net 52062.5 |
| Employees.DeveloperSystemTest | src/main/java/com/payroll/Main.java:78-87 | basic 45000, 5 years: gross 56250, tax 8437.5, net 47812.5 |
| Employees.RoleFields | src/main/java/com/payroll/models/Manager.java:75-86 | a line carries two role fields after the tag, the last never empty (Developer.java:75-86 likewise) |
| Employees.TypeTagAtField7 | src/main/java/com/payroll/models/Developer.java:75-86 | a line written for a comma-free employee splits back into its ten fields, with the type tag at index 7 (Manager.java:75-86 likewise) |
| Employees.GrossSalary | src/main/java/com/payroll/models/Manager.java:39-44 | `calculateGrossSalary` of both roles (also Developer.java:39-44); no contract of its own, pinned down by `Employees.ManagerGrossMonotone`, `Employees.DeveloperGrossMonotone` and the two system-test rows |
| Employees.ToCsv | src/main/java/com/payroll/models/Manager.java:75-86 | `toCsv` of both roles (also Developer.java:75-86) as the comma join of the fields; no contract of its own, pinned down by `Employees.RoleFields`, `Employees.TypeTagAtField7` and `EmployeeServices.WrittenLineIsAccepted` |
| Employees.Employee.constructor | src/main/java/com/payroll/models/Employee.java:30-40 | every argument is stored unchanged and the leave balance starts at 20 |
| Employees.Employee.SetName | src/main/java/com/payroll/models/Employee.java:128-130 | only the name changes |
| Employees.Employee.SetEmail | src/main/java/com/payroll/models/Employee.java:136-138 | only the email changes |
| Employees.Employee.SetPhone | src/main/java/com/payroll/models/Employee.java:144-146 | only the phone changes |
| Employees.Employee.SetDepartment | src/main/java/com/payroll/models/Employee.java:152-154 | only the department changes |
| Employees.Employee.SetBasicSalary | src/main/java/com/payroll/models/Employee.java:168-170 | only the basic salary changes |
| Employees.Employee.SetAvailableLeaveDays | src/main/java/com/payroll/models/Employee.java:176-178 | only the leave balance changes |
| Leaves.Duration | src/main/java/com/payroll/models/Leave.java:59-61 | the inclusive day count is at most 0 exactly when the end lies before the start, and 1 for a one-day leave |
| Leaves.AcrossMonthEndDuration | src/main/java/com/payroll/models/Leave.java:59-61 | 2024-01-30 to 2024-02-02 lasts 4 days |
| Leaves.DaysInMonthIsOverlap | src/main/java/com/payroll/models/Leave.java:118-130 | the days in a month are the size of the intersection of the leave with the month on the day line |
| Leaves.DaysInMonthBounds | src/main/java/com/payroll/models/Leave.java:118-130 | the days in a month lie between 0 and the month's length |
| Leaves.DaysInMonthZero | src/main/java/com/payroll/models/Leave.java:122-127 | zero for a leave ending before the month, starting after it, or ending before it starts |
| Leaves.DaysInMonthFull | src/main/java/com/payroll/models/Leave.java:118-130 | a leave covering the whole month counts every day of it |
| Leaves.AcrossMonthEndJanuary | src/main/java/com/payroll/models/Leave.java:118-130 | 2024-01-30 to 2024-02-02 has 2 days in January 2024 |
| Leaves.AcrossMonthEndFebruary | src/main/java/com/payroll/models/Leave.java:118-130 | the same leave has 2 days in February 2024 |
| Leaves.IsInMonthIffDays | src/main/java/com/payroll/models/Leave.java:104-130 | for a leave not ending before it starts, it is in the month exactly when it has a day in the month |
| Leaves.DaysInMonthsSumToDuration | src/main/java/com/payroll/models/Leave.java:59-130 | for a leave not ending before it starts, its days in each month from its first to its last add up to its duration |
| Leaves.DaysInMonthIgnoresStatus | src/main/java/com/payroll/models/Leave.java:104-130 | the status plays no part in the days in a month or in the month test |
| Leaves.SplitLeaveLine | src/main/java/com/payroll/models/Leave.java:68-87 | a line written for a leave whose id and type hold no comma splits, with limit 6, into exactly its six fields |
| Leaves.FromCsvToCsv | src/main/java/com/payroll/models/Leave.java:68-95 | a written line reads back as the same leave, status and dates included, with every ';' in the reason read back as ','; so the leave comes back whole exactly when its reason holds no ';' |
| Leaves.DaysInMonth | src/main/java/com/payroll/models/Leave.java:118-130 | `getDaysInMonth`, clamping the leave to the month and counting both ends; no contract of its own, pinned down by `Leaves.DaysInMonthIsOverlap`, `Leaves.DaysInMonthBounds`, `Leaves.DaysInMonthZero`, `Leaves.DaysInMonthFull` and `Leaves.DaysInMonthsSumToDuration` |
| Leaves.IsInMonth | src/main/java/com/payroll/models/Leave.java:104-109 | `isInMonth`, the three-way disjunction; no contract of its own, pinned down by `Leaves.IsInMonthIffDays` |
| Leaves.ToCsv | src/main/java/com/payroll/models/Leave.java:68-77 | `toCsv`, six fields with ',' in the reason turned into ';'; no contract of its own, pinned down by `Leaves.SplitLeaveLine` and `Leaves.FromCsvToCsv` |
| Leaves.FromCsv | src/main/java/com/payroll/models/Leave.java:84-95 | `fromCsv`, a split into at most six fields with ';' in the reason turned back into ','; None where the source throws; no contract of its own, pinned down by `Leaves.FromCsvToCsv` |
| Leaves.Leave.constructor | src/main/java/com/payroll/models/Leave.java:26-33 | the fields are the arguments and the status is PENDING |
| Leaves.Leave.WithStatus | src/main/java/com/payroll/models/Leave.java:45-52 | the fields are the arguments, the status included |
| Leaves.Leave.SetStatus | src/main/java/com/payroll/models/Leave.java:179-181 | only the status changes |
| Salaries.CsvFields | src/main/java/com/payroll/models/Salary.java:49-60 | a slip is written as nine fields |
| Salaries.ToCsv | src/main/java/com/payroll/models/Salary.java:49-60 | `toCsv` as the comma join of `Salaries.CsvFields`; no contract of its own, pinned down by `Salaries.CsvFields`, `Salaries.SplitSalaryLine` and `Salaries.FromCsvToCsv` |
| Salaries.FromCsv | src/main/java/com/payroll/models/Salary.java:68-82 | a line is read only when it has at least nine fields; the id is field 0 and the process date is the date in field 8, replacing the clock's |
| Salaries.SplitSalaryLine | src/main/java/com/payroll/models/Salary.java:49-72 | a written line for a comma-free id splits back into its nine fields |
| Salaries.FromCsvToCsv | src/main/java/com/payroll/models/Salary.java:49-82 | id, month, year, leave days and process date round-trip exactly; each amount comes back as the amount parser reads its formatted text, so the slip comes back whole when the amounts survive that text round trip |
| LeaveServices.FirstPending | src/main/java/com/payroll/services/LeaveService.java:52-63 | the position found is the first PENDING request of that employee starting on that date, or -1 when there is none; the end date plays no part |
| LeaveServices.LeavesOf | src/main/java/com/payroll/services/LeaveService.java:100-110 | the selection holds exactly the employee's leaves |
| LeaveServices.LeavesOfAppend | src/main/java/com/payroll/services/LeaveService.java:100-110 | selecting from a concatenation concatenates the selections, so list order is kept |
| LeaveServices.Top | src/main/java/com/payroll/services/LeaveService.java:117-123 | the top is None exactly for an empty stack, otherwise the last element pushed |
| LeaveServices.FirstIndex | src/main/java/com/payroll/services/LeaveService.java:135-137 | the first position holding that very object, -1 exactly when none does |
| LeaveServices.RemoveFirst | src/main/java/com/payroll/services/LeaveService.java:136 | `leaves.remove(leave)`; no contract of its own, pinned down by `LeaveServices.RemoveFirstCutsFirstOccurrence` and `LeaveServices.RemoveFirstMultiset` |
| LeaveServices.RemoveFirstCutsFirstOccurrence | src/main/java/com/payroll/services/LeaveService.java:135-137 | removing an object cuts out exactly its first occurrence and keeps the order of the rest; removing an absent object changes nothing |
| LeaveServices.RemoveFirstMultiset | src/main/java/com/payroll/services/LeaveService.java:135-137 | removing an object the list holds takes away exactly one of its occurrences |
| LeaveServices.UndoAfterApply | src/main/java/com/payroll/services/LeaveService.java:39-43 | undoing the application of a new leave gives back the list as it was before (with undoRecentLeave at LeaveService.java:130-138) |
| LeaveServices.LeaveService.constructor | src/main/java/com/payroll/services/LeaveService.java:27-31 | the list and the stack start empty |
| LeaveServices.LeaveService.ApplyLeave | src/main/java/com/payroll/services/LeaveService.java:39-43 | the leave goes to the end of the list and onto the stack top, without a duplicate or overlap check, and the answer is always true |
| LeaveServices.LeaveService.SetFirstPending | src/main/java/com/payroll/services/LeaveService.java:52-83 | found exactly when a matching PENDING request exists; that object alone gets the new status, at every list position holding it; a leave that was not PENDING never changes |
| LeaveServices.LeaveService.ApproveLeave | src/main/java/com/payroll/services/LeaveService.java:52-63 | the first matching PENDING request becomes APPROVED; with no match the answer is false and nothing changes |
| LeaveServices.LeaveService.RejectLeave | src/main/java/com/payroll/services/LeaveService.java:72-83 | the first matching PENDING request becomes REJECTED; with no match the answer is false and nothing changes |
| LeaveServices.LeaveService.GetLeavesByEmployeeId | src/main/java/com/payroll/services/LeaveService.java:100-110 | the result is the employee's leaves in list order |
| LeaveServices.LeaveService.GetMostRecentLeave | src/main/java/com/payroll/services/LeaveService.java:117-123 | the result is the stack top, None for an empty stack, and nothing changes |
| LeaveServices.LeaveService.UndoRecentLeave | src/main/java/com/payroll/services/LeaveService.java:130-138 | on an empty stack: None and nothing changes; otherwise the top is popped and its first occurrence in the list removed, whatever its status, each structure shrinking by one; the list and the stack keep holding the same objects |
| LeaveServices.LeaveService.LoadLeaves | src/main/java/com/payroll/services/LeaveService.java:143-152 | each stored leave becomes a new object appended to the list and pushed on the stack, in order |
| Payroll.LeaveDays | src/main/java/com/payroll/services/PayrollService.java:110-122 | `calculateLeaveDays` as a recursive sum over APPROVED, in-month leaves of the employee; no contract of its own, pinned down by `Payroll.InMonthFilterIsRedundant`, `Payroll.LeaveDaysNonNegative`, `Payroll.LeaveDaysAtMost`, `Payroll.ApprovalAddsItsDays` and `Payroll.PayrollService.CalculateLeaveDays` |
| Payroll.Deduction | src/main/java/com/payroll/services/PayrollService.java:67-71 | the leave deduction, zero unless the leave days are positive; no contract of its own, pinned down by `Payroll.DeductionIsProRata` and `Payroll.WholeMonthLeave` |
| Payroll.SalaryFor | src/main/java/com/payroll/services/PayrollService.java:60-89 | the slip `processSalary` builds; no contract of its own, pinned down by `Payroll.SalaryForConsistent`, `Payroll.SalaryForGross`, `Payroll.NoLeaveFullPay`, `Payroll.WholeMonthLeave` and `Payroll.PayrollService.ProcessSalary` |
| Payroll.QueueOf | src/main/java/com/payroll/services/PayrollService.java:231 | an employee's queue, empty when absent, as `getOrDefault` gives; no contract of its own, pinned down by `Payroll.QueueOfEnqueueAll` and `Payroll.SuffixShrinks` |
| Payroll.Enqueue | src/main/java/com/payroll/services/PayrollService.java:95-98 | a slip joins the tail of its employee's queue, which is created when absent; no contract of its own, pinned down by `Payroll.QueueOfEnqueueAll` and `Payroll.PayrollService.Append` |
| Payroll.EnqueueAll | src/main/java/com/payroll/services/PayrollService.java:170-174 | enqueuing slips one after the other, as `loadSalaries` and a run of `processSalary` do; no contract of its own, pinned down by `Payroll.QueueOfEnqueueAll` |
| Payroll.InMonthFilterIsRedundant | src/main/java/com/payroll/services/PayrollService.java:110-123 | the month filter does not change the sum: it equals the sum over every APPROVED leave of the employee |
| Payroll.LeaveDaysNonNegative | src/main/java/com/payroll/services/PayrollService.java:110-123 | the leave days of a month are never negative |
| Payroll.LeaveDaysAtMost | src/main/java/com/payroll/services/PayrollService.java:110-123 | the leave days are at most the number of leaves times the month's length |
| Payroll.ApprovalAddsItsDays | src/main/java/com/payroll/services/PayrollService.java:110-123 | approving one of the employee's PENDING leaves adds exactly that leave's days in the month, so PENDING leaves never count |
| Payroll.DeductionIsProRata | src/main/java/com/payroll/services/PayrollService.java:65-71 | for non-negative leave days the guarded deduction is basic times leave days over the month's length |
| Payroll.SalaryForConsistent | src/main/java/com/payroll/services/PayrollService.java:60-99 | a slip carries the employee's id, basic and period, leave days equal to the APPROVED days in the month (never negative), tax equal to the bracket tax of the gross, and net equal to gross minus tax |
| Payroll.SalaryForGross | src/main/java/com/payroll/services/PayrollService.java:65-75 | the gross is the role gross minus the pro-rata deduction, not clamped at zero |
| Payroll.NoLeaveFullPay | src/main/java/com/payroll/services/PayrollService.java:65-77 | with no leave days, the slip has the role gross and the employee's net salary |
| Payroll.WholeMonthLeave | src/main/java/com/payroll/services/PayrollService.java:65-75 | an approved leave covering the whole month counts every day of it and deducts the whole basic salary |
| Payroll.SalariesOf | src/main/java/com/payroll/services/PayrollService.java:212-222 | the selection holds exactly the employee's slips |
| Payroll.SalariesOfAppend | src/main/java/com/payroll/services/PayrollService.java:212-222 | selecting from a concatenation concatenates the selections |
| Payroll.QueueOfEnqueueAll | src/main/java/com/payroll/services/PayrollService.java:92-98 | enqueuing a run of slips adds the employee's slips from that run to the tail of its queue, in order; a queue exists afterwards exactly when it existed before or the run had a slip for it |
| Payroll.FindSlip | src/main/java/com/payroll/services/PayrollService.java:135-152 | the position found is the first slip of the employee for the period, or -1 when there is none |
| Payroll.FindSlipKeepsFirst | src/main/java/com/payroll/services/PayrollService.java:135-152 | once a period has a slip, slips added later for the same period are never the one found |
| Payroll.FindSlipAppended | src/main/java/com/payroll/services/PayrollService.java:135-152 | the first slip appended for a period is the one found |
| Payroll.SuffixShrinks | src/main/java/com/payroll/services/PayrollService.java:240-247 | taking the head off a queue keeps it the latest part of the employee's slips |
| Payroll.PayrollService.constructor | src/main/java/com/payroll/services/PayrollService.java:32-36 | no slips and no queues |
| Payroll.PayrollService.Append | src/main/java/com/payroll/services/PayrollService.java:92-98 | the slip goes to the end of the master list and to the tail of its employee's queue, which is created when absent; each queue stays the latest part of its employee's slips |
| Payroll.PayrollService.CalculateLeaveDays | src/main/java/com/payroll/services/PayrollService.java:110-123 | the loop's sum equals the month's days of the employee's APPROVED leaves touching the month |
| Payroll.PayrollService.ProcessSalary | src/main/java/com/payroll/services/PayrollService.java:60-99 | exactly one slip, the one for the employee's current fields and the leaves' current statuses, is appended and enqueued |
| Payroll.PayrollService.ProcessSalaries | src/main/java/com/payroll/services/PayrollService.java:46-50 | one slip per employee, in the order of the given list and dated by the clock reading taken for it, is appended after the earlier slips, and each is enqueued |
| Payroll.PayrollService.ViewSalaryDetails | src/main/java/com/payroll/services/PayrollService.java:132-158 | the first slip in insertion order for that employee and period, None when there is none |
| Payroll.PayrollService.GetSalariesByEmployeeId | src/main/java/com/payroll/services/PayrollService.java:212-222 | the employee's slips in list order |
| Payroll.PayrollService.GetPendingSalaries | src/main/java/com/payroll/services/PayrollService.java:230-232 | the employee's queue, empty for an unknown id, without adding a map entry; it is the latest part of the employee's slips |
| Payroll.PayrollService.ProcessNextSalary | src/main/java/com/payroll/services/PayrollService.java:240-247 | a missing or empty queue gives None and changes nothing; otherwise the head is removed and returned (first in, first out) and the master list is untouched |
| Payroll.PayrollService.LoadSalaries | src/main/java/com/payroll/services/PayrollService.java:163-177 | every stored slip is appended to the master list and enqueued again, in order |
| EmployeeServices.AcceptsLine | src/main/java/com/payroll/services/EmployeeService.java:91-104 | the skip rule: at least eight fields and field 7 "Manager" or "Developer"; no contract of its own, pinned down by `EmployeeServices.WrittenLineIsAccepted`, `EmployeeServices.UnknownTagIsSkipped` and `EmployeeServices.EmployeeService.LoadLine` |
| EmployeeServices.LoadAll | src/main/java/com/payroll/services/EmployeeService.java:87-113 | the registry content a load gives, line by line; no contract of its own, pinned down by `EmployeeServices.LoadAllLookup`, `EmployeeServices.LoadAllKeepsIds` and `EmployeeServices.EmployeeService.LoadEmployees` |
| EmployeeServices.WrittenLineIsAccepted | src/main/java/com/payroll/services/EmployeeService.java:91-107 | a line written for a comma-free employee passes the load rule |
| EmployeeServices.UnknownTagIsSkipped | src/main/java/com/payroll/services/EmployeeService.java:97-104 | a line whose field 7 is neither "Manager" nor "Developer" is skipped |
| EmployeeServices.Reloaded | src/main/java/com/payroll/services/EmployeeService.java:98-102 | a loaded employee keeps the id, role and basic salary it was read with, and its leave balance is 20 |
| EmployeeServices.LastLineFor | src/main/java/com/payroll/services/EmployeeService.java:87-113 | the position found is the last accepted line for that id, or -1 when there is none |
| EmployeeServices.LoadAllLookup | src/main/java/com/payroll/services/EmployeeService.java:87-113 | after loading, an id is present exactly when an accepted line carries it or it was present before; the last such line wins; an id no accepted line carries keeps its entry |
| EmployeeServices.TouchedHasLastLine | src/main/java/com/payroll/services/EmployeeService.java:87-113 | an id is stored under by the load exactly when some accepted line carries it |
| EmployeeServices.LoadAllKeepsIds | src/main/java/com/payroll/services/EmployeeService.java:107 | loading keeps every employee under its own id |
| EmployeeServices.EmployeeService.constructor | src/main/java/com/payroll/services/EmployeeService.java:28-31 | the registry starts empty |
| EmployeeServices.EmployeeService.AddEmployee | src/main/java/com/payroll/services/EmployeeService.java:39-47 | false and no change for an id already present; otherwise true and the employee is stored under its id, no other entry changing |
| EmployeeServices.EmployeeService.UpdateEmployee | src/main/java/com/payroll/services/EmployeeService.java:55-63 | false and no change for an unknown id; otherwise true and the entry under that id is replaced, the set of ids staying the same |
| EmployeeServices.EmployeeService.GetEmployeeById | src/main/java/com/payroll/services/EmployeeService.java:71-73 | the stored object for a known id, carrying that id; None exactly for an unknown id |
| EmployeeServices.EmployeeService.GetAllEmployees | src/main/java/com/payroll/services/EmployeeService.java:80-82 | a new list holding every stored employee exactly once, in an order left open |
| EmployeeServices.EmployeeService.DeductLeaveDays | src/main/java/com/payroll/services/EmployeeService.java:137-149 | true exactly when the id is known and its balance covers the days; then the balance drops by exactly that many and stays non-negative, and no other field and no other employee changes; on false nothing changes |
| EmployeeServices.EmployeeService.LoadLine | src/main/java/com/payroll/services/EmployeeService.java:91-107 | one line: stored exactly when it has at least eight fields and a known tag; then a new employee object with the line's fields and 20 leave days goes under its id and no other entry changes; otherwise nothing changes |
| EmployeeServices.EmployeeService.LoadEmployees | src/main/java/com/payroll/services/EmployeeService.java:87-113 | the registry afterwards holds the fields the load rule gives: lines with fewer than eight fields or an unknown tag are skipped, every other line stores a new employee under its id, and a later line overwrites an earlier one; every id present before stays, an id no accepted line carries keeps its very object, and an id some accepted line carries holds a newly allocated object |
| Calendar.LengthOfMonth | src/main/java/com/payroll/services/PayrollService.java:65 | a month has 28 to 31 days; February has 29 exactly in a leap year |
| Calendar.LastOfMonthIsLastDay | src/main/java/com/payroll/models/Leave.java:119-120 | the first of the month plus one month minus one day is the month's last day |
| Calendar.BeforeIsEarlierEpochDay | src/main/java/com/payroll/models/Leave.java:121-124 | comparing dates field by field agrees with comparing their epoch days |
| Calendar.ParseFormatDate | src/main/java/com/payroll/models/Leave.java:68-95 | reading back a date written in yyyy-MM-dd form gives the same date |
| Text.ParseIntToString | src/main/java/com/payroll/models/Salary.java:49-82 | reading back a written integer gives the same integer |
| Text.SplitJoin | src/main/java/com/payroll/models/Salary.java:49-72 | splitting on every comma gives back comma-free fields joined by commas when the last field is not empty |
| Text.SplitLimitJoin | src/main/java/com/payroll/models/Leave.java:68-87 | splitting into at most n pieces gives back n fields joined by the separator when only the last may hold it |
| Text.ReplaceBack | src/main/java/com/payroll/models/Leave.java:68-95 | turning every ',' into ';' and back restores the text exactly when it held no ';' |

## Left out

- File I/O: the reading and writing of files and the `IOException` handling in `loadLeaves`, `loadSalaries` and `loadEmployees` are not modelled. The in-memory effect of each load is modelled. `saveLeaves`, `saveSalaries` and `saveEmployees` only write files, so they are not modelled. FileService and PayrollConstants are file plumbing and are not part of this model.
- LeaveServices.LeaveService.LoadLeaves: takes the leaves already parsed. A line that `Leave.fromCsv` cannot read throws in the source and ends the load. The model has no such line.
- Payroll.PayrollService.LoadSalaries: takes the slips already parsed, for the same reason.
- EmployeeServices.EmployeeService.LoadEmployees: `Manager.fromCsv`/`Developer.fromCsv` field parsing is the `parse` parameter, a total function. Only the acceptance rule, the constructor's defaults and the overwrite order are modelled. For an accepted line that `fromCsv` cannot read, the model stores `parse(line)`, where the source throws and abandons the rest of the load; the exception is not an `IOException`, so `loadEmployees` does not catch it. An example is an eight-field line tagged "Manager": Manager.java:105 reads `parts[8]`.
- IEEE-754 doubles: money is exact `real`. The rounding of every product, of the division by the month's length, and of `%.2f` is not modelled. `%.2f` itself is the `money` parameter, including its locale.
- Java `int` range: month, year, leave days, team size, level and experience are unbounded integers. `Integer.parseInt` is modelled without its 32-bit range check, and `(int)` narrowing of the long leave-day sum is not modelled.
- `LocalDate` year bounds (±999999999) are not modelled. `Calendar.ParseDate` is laxer than `LocalDate.parse` about the year: it accepts any run of digits with an optional sign, where Java demands four digits and a sign above 9999. It agrees with Java on every text `Calendar.FormatDate` writes, and that is all the round trips use.
- Month numbers outside 1-12: the source throws from `YearMonth.of` / `LocalDate.of`. The model requires 1 <= month <= 12 wherever that is called.
- `toString`, `getDetailedInfo`, the printing in `viewSalaryDetails`, the console messages of `addEmployee` and `updateEmployee` (EmployeeService.java:41, :57) and the "Loaded N ..." messages of `loadEmployees`, `loadLeaves` and `loadSalaries` are display only. `viewSalaryDetails` is modelled as the lookup it performs.
- `getAllLeaves` and `getAllSalaries` return the live internal list (LeaveService.java:90-92, PayrollService.java:202-204), not a copy. They are not modelled: the model assumes no caller changes that list, as Main does not (Main.java:111 and :395 only pass it to `processSalaries`, which only reads it). A caller that did could break `LeaveServices.LeaveService.Valid` or `Payroll.PayrollService.Valid`.
- The setters no core operation calls are not modelled: `setId`, `setJoiningDate`, the role-field setters, the Leave setters other than `setStatus`, and the Salary setters. The id, the joining date and the role are constant fields for that reason.
- Payroll.PayrollService.GetPendingSalaries: returns the queue as a value. The source hands out the live `LinkedList`, through which a caller could change the queue.
- EmployeeServices.EmployeeService.GetAllEmployees: the order of `HashMap.values()` is left open, not modelled.
- Salaries.FromCsvToCsv: the money amounts are stated to round-trip only through the caller's `money`/`parseMoney` pair, since `%.2f` loses digits.
- Manager `managementLevel` is documented as 1 to 3, but no constructor checks it. The model accepts any integer, as the source does. The monotonicity lemmas assume non-negative values.
- The console menu in Main.java is not part of this model. Its system-test figures appear only as the worked examples `Employees.ManagerSystemTest` and `Employees.DeveloperSystemTest`.
