/**
  Employee, Manager and Developer: the role-specific gross-salary formulas,
  the bracket tax shared by every role, and the employee object whose
  fields the registry and the console update in place.
  Money is `real`: the model computes exactly where the source rounds to
  IEEE doubles (the literals 0.1, 0.15, 0.02, 0.005 and 0.05 are exact here).
*/
module Employees {
  import opened Calendar
  import opened Text

  /** The two subclasses of Employee, with the fields each adds. */
  datatype Role =
    | Manager(teamSize: int, managementLevel: int)
    | Developer(programmingLanguage: string, experienceYears: int)

  /** `getEmployeeType()`: the tag written at field 7 of the CSV line. */
  function EmployeeType(role: Role): (tag: string)
    ensures tag == "Manager" <==> role.Manager?
    ensures tag == "Developer" <==> role.Developer?
  {
    match role
    case Manager(_, _) => "Manager"
    case Developer(_, _) => "Developer"
  }

  /**
    `calculateGrossSalary()`. A manager earns 10% of basic per management
    level and 0.5% per team member on top of basic; a developer earns a 15%
    technical allowance and 2% per year of experience. Only the basic salary
    and the role's numbers enter: names, contact data and the programming
    language never do.
  */
  function GrossSalary(basicSalary: real, role: Role): real {
    match role
    case Manager(teamSize, managementLevel) =>
      basicSalary + basicSalary * (0.1 * managementLevel as real) + basicSalary * (0.005 * teamSize as real)
    case Developer(_, experienceYears) =>
      basicSalary + basicSalary * 0.15 + basicSalary * (0.02 * experienceYears as real)
  }

  /**
    `calculateTax(gross)`: 5% up to and including 20000, 10% up to and
    including 50000, 15% above. The rate applies to the whole amount.
  */
  function CalculateTax(gross: real): (tax: real)
    ensures 0.0 <= gross ==> 0.05 * gross <= tax <= 0.15 * gross
    ensures gross < 0.0 ==> gross < tax < 0.0
  {
    if gross <= 20000.0 then gross * 0.05
    else if gross <= 50000.0 then gross * 0.1
    else gross * 0.15
  }

  /** The rate of the bracket `gross` falls in. */
  function TaxRate(gross: real): real {
    if gross <= 20000.0 then 0.05 else if gross <= 50000.0 then 0.1 else 0.15
  }

  /** The tax is the bracket rate times the gross, brackets closed on the right. */
  lemma TaxBrackets(gross: real)
    ensures gross <= 20000.0 ==> CalculateTax(gross) == 0.05 * gross
    ensures 20000.0 < gross <= 50000.0 ==> CalculateTax(gross) == 0.1 * gross
    ensures 50000.0 < gross ==> CalculateTax(gross) == 0.15 * gross
    ensures CalculateTax(gross) == TaxRate(gross) * gross
  {
  }

  /** The bracket edges belong to the lower bracket. */
  lemma TaxAtBracketEdges()
    ensures CalculateTax(20000.0) == 1000.0
    ensures CalculateTax(20000.01) == 2000.001
    ensures CalculateTax(50000.0) == 5000.0
    ensures CalculateTax(50000.01) == 7500.0015
  {
  }

  /**
    Net pay after tax. Because a rate applies to the whole gross, crossing a
    bracket edge lowers the net: 20000 nets 19000 but 20000.01 nets 18000.009.
  */
  function NetOf(gross: real): (net: real)
    ensures 0.0 <= gross ==> 0.85 * gross <= net <= 0.95 * gross
    ensures gross - net == CalculateTax(gross)
  {
    gross - CalculateTax(gross)
  }

  lemma NetDropsAcrossBracketEdge()
    ensures NetOf(20000.0) == 19000.0 && NetOf(20000.01) == 18000.009
    ensures NetOf(50000.0) == 45000.0 && NetOf(50000.01) == 42500.0085
  {
  }

  /** A non-negative factor keeps the order of the other. */
  lemma ScaleMonotone(basicSalary: real, low: real, high: real)
    requires 0.0 <= basicSalary && 0.0 <= low <= high
    ensures 0.0 <= basicSalary * low <= basicSalary * high
  {
  }

  /** A developer's gross is at least 115% of a non-negative basic and grows with experience. */
  lemma DeveloperGrossMonotone(basicSalary: real, language1: string, years1: int, language2: string, years2: int)
    requires 0.0 <= basicSalary && 0 <= years1 <= years2
    ensures 1.15 * basicSalary <= GrossSalary(basicSalary, Developer(language1, years1))
    ensures GrossSalary(basicSalary, Developer(language1, years1)) <= GrossSalary(basicSalary, Developer(language2, years2))
  {
    ScaleMonotone(basicSalary, 0.02 * years1 as real, 0.02 * years2 as real);
  }

  /** A manager's gross is at least a non-negative basic and grows with team size and level. */
  lemma ManagerGrossMonotone(basicSalary: real, team1: int, level1: int, team2: int, level2: int)
    requires 0.0 <= basicSalary && 0 <= team1 <= team2 && 0 <= level1 <= level2
    ensures basicSalary <= GrossSalary(basicSalary, Manager(team1, level1))
    ensures GrossSalary(basicSalary, Manager(team1, level1)) <= GrossSalary(basicSalary, Manager(team2, level2))
  {
    ScaleMonotone(basicSalary, 0.1 * level1 as real, 0.1 * level2 as real);
    ScaleMonotone(basicSalary, 0.005 * team1 as real, 0.005 * team2 as real);
  }

  /** The manager of the built-in system test: basic 50000, team of 5, level 2. */
  lemma ManagerSystemTest()
    ensures GrossSalary(50000.0, Manager(5, 2)) == 61250.0
    ensures CalculateTax(61250.0) == 9187.5
    ensures NetOf(61250.0) == 52062.5
  {
  }

  /** The developer of the built-in system test: basic 45000, 5 years of experience. */
  lemma DeveloperSystemTest()
    ensures GrossSalary(45000.0, Developer("Java", 5)) == 56250.0
    ensures CalculateTax(56250.0) == 8437.5
    ensures NetOf(56250.0) == 47812.5
  {
  }

  /** A snapshot of an employee's fields. */
  datatype EmployeeRecord = EmployeeRecord(
    id: string,
    name: string,
    email: string,
    phone: string,
    department: string,
    joiningDate: LocalDate,
    basicSalary: real,
    availableLeaveDays: int,
    role: Role)

  /** `calculateNetSalary()` of an employee: its gross minus the tax on that gross. */
  function NetSalary(e: EmployeeRecord): (net: real)
    ensures var gross := GrossSalary(e.basicSalary, e.role);
      net == gross - CalculateTax(gross) && (0.0 <= gross ==> 0.0 <= net <= gross)
  {
    NetOf(GrossSalary(e.basicSalary, e.role))
  }

  /** The role-specific fields written after the type tag. */
  function RoleFields(role: Role): (fields: seq<string>)
    ensures |fields| == 2 && fields[1] != ""
  {
    match role
    case Manager(teamSize, managementLevel) => [IntToString(teamSize), IntToString(managementLevel)]
    case Developer(programmingLanguage, experienceYears) => [programmingLanguage, IntToString(experienceYears)]
  }

  /** The fields of `toCsv()`, in order; `money` stands for the `%.2f` formatting. */
  function CsvFields(e: EmployeeRecord, money: real -> string): seq<string> {
    [e.id, e.name, e.email, e.phone, e.department, FormatDate(e.joiningDate), money(e.basicSalary),
     EmployeeType(e.role)] + RoleFields(e.role)
  }

  /** `toCsv()`: the fields joined by commas. The leave-day balance is not written. */
  function ToCsv(e: EmployeeRecord, money: real -> string): string {
    Join(CsvFields(e, money), ',')
  }

  /** Free-text fields and the formatted salary hold no comma. */
  predicate CsvSafe(e: EmployeeRecord, money: real -> string) {
    && ',' !in e.id && ',' !in e.name && ',' !in e.email && ',' !in e.phone
    && ',' !in e.department && ',' !in money(e.basicSalary)
    && (e.role.Developer? ==> ',' !in e.role.programmingLanguage)
  }

  /** Neither type tag holds a comma. */
  lemma TypeTagHasNoComma(role: Role)
    ensures ',' !in EmployeeType(role)
  {
    var tag := EmployeeType(role);
    assert forall k :: 0 <= k < |tag| ==> tag[k] != ',';
  }

  /** The role fields of a comma-free role hold no comma. */
  lemma RoleFieldsHaveNoComma(role: Role)
    requires role.Developer? ==> ',' !in role.programmingLanguage
    ensures forall k :: 0 <= k < 2 ==> ',' !in RoleFields(role)[k]
  {
    match role
    case Manager(teamSize, managementLevel) =>
      IntToStringHasNoComma(teamSize);
      IntToStringHasNoComma(managementLevel);
    case Developer(_, experienceYears) =>
      IntToStringHasNoComma(experienceYears);
  }

  /** Splitting a written line gives ten fields back, the type tag at index 7. */
  lemma TypeTagAtField7(e: EmployeeRecord, money: real -> string)
    requires CsvSafe(e, money)
    ensures var parts := Split(ToCsv(e, money), ',');
      |parts| == 10 && parts == CsvFields(e, money) && parts[7] == EmployeeType(e.role)
  {
    var head := [e.id, e.name, e.email, e.phone, e.department, FormatDate(e.joiningDate), money(e.basicSalary),
                 EmployeeType(e.role)];
    var extra := RoleFields(e.role);
    var fields := CsvFields(e, money);
    assert fields == head + extra;
    TypeTagHasNoComma(e.role);
    RoleFieldsHaveNoComma(e.role);
    assert forall k :: 0 <= k < 8 ==> ',' !in head[k];
    assert forall k :: 0 <= k < |fields| ==> ',' !in fields[k] by {
      forall k | 0 <= k < |fields|
        ensures ',' !in fields[k]
      {
        if k < 8 {
          assert fields[k] == head[k];
        } else {
          assert fields[k] == extra[k - 8];
        }
      }
    }
    SplitJoin(fields, ',');
  }

  /**
    An employee object. Subclass fields never change after construction, so
    the role is a constant; so are the id and the joining date, which the
    core never reassigns. The console's setters assign the `var` fields directly.
  */
  class Employee {
    const id: string
    var name: string
    var email: string
    var phone: string
    var department: string
    const joiningDate: LocalDate
    var basicSalary: real
    var availableLeaveDays: int
    const role: Role

    /** The fields as a value. */
    function Value(): EmployeeRecord
      reads this
    {
      EmployeeRecord(id, name, email, phone, department, joiningDate, basicSalary, availableLeaveDays, role)
    }

    /** `new Manager(...)` / `new Developer(...)`: every argument is kept, leave balance 20. */
    constructor (id: string, name: string, email: string, phone: string, department: string,
                 joiningDate: LocalDate, basicSalary: real, role: Role)
      ensures Value() == EmployeeRecord(id, name, email, phone, department, joiningDate, basicSalary, 20, role)
    {
      this.id := id;
      this.name := name;
      this.email := email;
      this.phone := phone;
      this.department := department;
      this.joiningDate := joiningDate;
      this.basicSalary := basicSalary;
      this.availableLeaveDays := 20;
      this.role := role;
    }

    /** `setName`. */
    method SetName(name: string)
      modifies this
      ensures Value() == old(Value()).(name := name)
    {
      this.name := name;
    }

    /** `setEmail`. */
    method SetEmail(email: string)
      modifies this
      ensures Value() == old(Value()).(email := email)
    {
      this.email := email;
    }

    /** `setPhone`. */
    method SetPhone(phone: string)
      modifies this
      ensures Value() == old(Value()).(phone := phone)
    {
      this.phone := phone;
    }

    /** `setDepartment`. */
    method SetDepartment(department: string)
      modifies this
      ensures Value() == old(Value()).(department := department)
    {
      this.department := department;
    }

    /** `setBasicSalary`. */
    method SetBasicSalary(basicSalary: real)
      modifies this
      ensures Value() == old(Value()).(basicSalary := basicSalary)
    {
      this.basicSalary := basicSalary;
    }

    /** `setAvailableLeaveDays`. */
    method SetAvailableLeaveDays(availableLeaveDays: int)
      modifies this
      ensures Value() == old(Value()).(availableLeaveDays := availableLeaveDays)
    {
      this.availableLeaveDays := availableLeaveDays;
    }
  }
}
