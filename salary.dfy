/**
  Salary: one processed pay slip, and its nine-field CSV line.
  The record is never changed after it is built (the only setter the core
  calls is the one that restores the stored process date while reading a
  line back), so it is a value here. The process date, which the source
  takes from the clock, is an argument.
*/
module Salaries {
  import opened Wrappers
  import opened Calendar
  import opened Text

  datatype Salary = Salary(
    employeeId: string,
    basicSalary: real,
    grossSalary: real,
    taxAmount: real,
    netSalary: real,
    month: int,
    year: int,
    leaveDays: int,
    processDate: LocalDate)

  /**
    The nine fields of `toCsv()`. `money` stands for `%.2f`, whose rounding
    of a double to two decimals is not modelled.
  */
  function CsvFields(s: Salary, money: real -> string): (fields: seq<string>)
    ensures |fields| == 9
  {
    [s.employeeId, money(s.basicSalary), money(s.grossSalary), money(s.taxAmount), money(s.netSalary),
     IntToString(s.month), IntToString(s.year), IntToString(s.leaveDays), FormatDate(s.processDate)]
  }

  function ToCsv(s: Salary, money: real -> string): string {
    Join(CsvFields(s, money), ',')
  }

  /**
    `fromCsv(line)`: split on every comma (trailing empty fields dropped),
    parse fields 1-4 as amounts, 5-7 as integers and 8 as a date; fields past
    the ninth are ignored. `parseMoney` stands for `Double.parseDouble`. None
    stands for the exception thrown on a short line or an unreadable field.
  */
  function FromCsv(line: string, parseMoney: string -> Option<real>): (r: Option<Salary>)
    ensures r.Some? ==> |Split(line, ',')| >= 9 && r.value.employeeId == Split(line, ',')[0]
    ensures r.Some? ==> ParseDate(Split(line, ',')[8]) == Some(r.value.processDate)
  {
    var parts := Split(line, ',');
    if |parts| < 9 then None
    else match (parseMoney(parts[1]), parseMoney(parts[2]), parseMoney(parts[3]), parseMoney(parts[4]))
      case (Some(basic), Some(gross), Some(tax), Some(net)) =>
        (match (ParseInt(parts[5]), ParseInt(parts[6]), ParseInt(parts[7]), ParseDate(parts[8]))
         case (Some(month), Some(year), Some(leaveDays), Some(processDate)) =>
           Some(Salary(parts[0], basic, gross, tax, net, month, year, leaveDays, processDate))
         case _ => None)
      case _ => None
  }

  /** No field of a written line holds a comma, and the last one is never empty. */
  lemma SplitSalaryLine(s: Salary, money: real -> string)
    requires ',' !in s.employeeId
    requires forall x :: ',' !in money(x)
    ensures Split(ToCsv(s, money), ',') == CsvFields(s, money)
  {
    var fields := CsvFields(s, money);
    IntToStringHasNoComma(s.month);
    IntToStringHasNoComma(s.year);
    IntToStringHasNoComma(s.leaveDays);
    assert forall k :: 0 <= k < 9 ==> ',' !in fields[k];
    assert fields[8] != "";
    SplitJoin(fields, ',');
  }

  /**
    A written line reads back with the employee id, the period, the leave
    days and the process date unchanged; each amount comes back as whatever
    the amount parser makes of its two-decimal text, so a slip whose amounts
    survive that text round trip reads back whole.
  */
  lemma FromCsvToCsv(s: Salary, money: real -> string, parseMoney: string -> Option<real>)
    requires ',' !in s.employeeId
    requires forall x :: ',' !in money(x)
    requires forall x :: parseMoney(money(x)).Some?
    ensures FromCsv(ToCsv(s, money), parseMoney)
         == Some(s.(basicSalary := parseMoney(money(s.basicSalary)).value,
                    grossSalary := parseMoney(money(s.grossSalary)).value,
                    taxAmount := parseMoney(money(s.taxAmount)).value,
                    netSalary := parseMoney(money(s.netSalary)).value))
    ensures (forall x :: parseMoney(money(x)) == Some(x)) ==> FromCsv(ToCsv(s, money), parseMoney) == Some(s)
  {
    SplitSalaryLine(s, money);
    ParseIntToString(s.month);
    ParseIntToString(s.year);
    ParseIntToString(s.leaveDays);
    ParseFormatDate(s.processDate);
  }
}
