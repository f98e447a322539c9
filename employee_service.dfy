/**
  EmployeeService: the registry of employees by id. The map holds the
  employee objects themselves, so a leave-day deduction changes the object
  every other holder of it sees.
*/
module EmployeeServices {
  import opened Wrappers
  import opened Text
  import opened Employees

  // ---------------------------------------------------------------------
  // Reading the stored lines back

  /** `loadEmployees` keeps a line only if it has at least eight fields and field 7 is a known type tag. */
  predicate AcceptsLine(line: string) {
    var parts := Split(line, ',');
    |parts| >= 8 && (parts[7] == "Manager" || parts[7] == "Developer")
  }

  /** A line that `toCsv` wrote for a comma-free employee is never skipped. */
  lemma WrittenLineIsAccepted(e: EmployeeRecord, money: real -> string)
    requires CsvSafe(e, money)
    ensures AcceptsLine(ToCsv(e, money))
  {
    TypeTagAtField7(e, money);
  }

  /** A line whose type tag is anything else is skipped, whatever the rest holds. */
  lemma UnknownTagIsSkipped(line: string)
    requires var parts := Split(line, ','); |parts| >= 8 && parts[7] != "Manager" && parts[7] != "Developer"
    ensures !AcceptsLine(line)
  {
  }

  /**
    The employee a `fromCsv` builds: the fields the line holds, and the
    constructor's balance of 20 leave days, which the line never holds.
  */
  function Reloaded(r: EmployeeRecord): (e: EmployeeRecord)
    ensures e.availableLeaveDays == 20 && e.id == r.id && e.role == r.role && e.basicSalary == r.basicSalary
  {
    r.(availableLeaveDays := 20)
  }

  /**
    The registry's content after `loadEmployees` read `lines`, starting from
    `m`. `parse` stands for `Manager.fromCsv` / `Developer.fromCsv`, which
    the tag selects; every accepted line is put under its id.
  */
  function LoadAll(m: map<string, EmployeeRecord>, lines: seq<string>, parse: string -> EmployeeRecord): map<string, EmployeeRecord>
    decreases |lines|
  {
    if lines == [] then m
    else
      var loaded := LoadAll(m, lines[..|lines| - 1], parse);
      var line := lines[|lines| - 1];
      if AcceptsLine(line) then loaded[parse(line).id := Reloaded(parse(line))] else loaded
  }

  /** Whether line `i` is one that `loadEmployees` stores under `id`. */
  predicate LoadsAs(lines: seq<string>, parse: string -> EmployeeRecord, i: int, id: string)
    requires 0 <= i < |lines|
  {
    AcceptsLine(lines[i]) && parse(lines[i]).id == id
  }

  /** The position of the last line stored under `id`, or -1 when there is none. */
  function LastLineFor(lines: seq<string>, parse: string -> EmployeeRecord, id: string): (i: int)
    ensures -1 <= i < |lines|
    ensures 0 <= i ==> LoadsAs(lines, parse, i, id)
    ensures forall j :: i < j < |lines| ==> !LoadsAs(lines, parse, j, id)
    decreases |lines|
  {
    if lines == [] then -1
    else if LoadsAs(lines, parse, |lines| - 1, id) then |lines| - 1
    else
      var i := LastLineFor(lines[..|lines| - 1], parse, id);
      assert forall j :: 0 <= j < |lines| - 1 ==> LoadsAs(lines[..|lines| - 1], parse, j, id) == LoadsAs(lines, parse, j, id);
      i
  }

  /** One more line moves the last line of its own id, if it is accepted, and of no other id. */
  lemma LastLineForSnoc(lines: seq<string>, parse: string -> EmployeeRecord)
    requires lines != []
    ensures forall id :: LastLineFor(lines, parse, id)
                      == if LoadsAs(lines, parse, |lines| - 1, id) then |lines| - 1
                         else LastLineFor(lines[..|lines| - 1], parse, id)
  {
  }

  /**
    The last accepted line for an id wins: an employee is present after
    loading exactly when some accepted line carries its id or it was there
    before, and it then holds the fields of the LAST such line; skipped
    lines and lines for other ids change nothing.
  */
  lemma {:induction false} LoadAllLookup(m: map<string, EmployeeRecord>, lines: seq<string>, parse: string -> EmployeeRecord, id: string)
    ensures var i := LastLineFor(lines, parse, id);
      && (id in LoadAll(m, lines, parse) <==> 0 <= i || id in m)
      && (0 <= i ==> LoadAll(m, lines, parse)[id] == Reloaded(parse(lines[i])))
      && (i < 0 && id in m ==> LoadAll(m, lines, parse)[id] == m[id])
    decreases |lines|
  {
    if lines != [] {
      var init := lines[..|lines| - 1];
      LoadAllLookup(m, init, parse, id);
      if !LoadsAs(lines, parse, |lines| - 1, id) {
        assert forall j :: 0 <= j < |init| ==> LoadsAs(init, parse, j, id) == LoadsAs(lines, parse, j, id);
        assert LastLineFor(lines, parse, id) == LastLineFor(init, parse, id);
      }
    }
  }

  /** Every entry sits under its own id. */
  predicate KeyedById(m: map<string, EmployeeRecord>) {
    forall id :: id in m ==> m[id].id == id
  }

  /** Loading keeps every entry under its own id. */
  lemma {:induction false} LoadAllKeepsIds(m: map<string, EmployeeRecord>, lines: seq<string>, parse: string -> EmployeeRecord)
    requires KeyedById(m)
    ensures KeyedById(LoadAll(m, lines, parse))
    decreases |lines|
  {
    if lines != [] {
      LoadAllKeepsIds(m, lines[..|lines| - 1], parse);
    }
  }

  /** The current fields of every registered employee, by id. */
  function Snapshot(employees: map<string, Employee>): (m: map<string, EmployeeRecord>)
    reads employees.Values
    ensures m.Keys == employees.Keys
    ensures forall id :: id in employees ==> m[id] == employees[id].Value()
  {
    map id | id in employees :: employees[id].Value()
  }

  /** The ids some accepted line among `lines` is stored under. */
  function Touched(lines: seq<string>, parse: string -> EmployeeRecord): set<string>
    decreases |lines|
  {
    if lines == [] then {}
    else
      var line := lines[|lines| - 1];
      Touched(lines[..|lines| - 1], parse) + if AcceptsLine(line) then {parse(line).id} else {}
  }

  /** An id is touched by the load exactly when some accepted line is stored under it. */
  lemma {:induction false} TouchedHasLastLine(lines: seq<string>, parse: string -> EmployeeRecord)
    ensures forall id :: id in Touched(lines, parse) <==> 0 <= LastLineFor(lines, parse, id)
    decreases |lines|
  {
    if lines != [] {
      TouchedHasLastLine(lines[..|lines| - 1], parse);
      LastLineForSnoc(lines, parse);
    }
  }

  /**
    Which object sits under each id while loading: every id present before
    is still present, and an id no accepted line carried keeps its own object.
  */
  predicate IdentityKept(now: map<string, Employee>, before: map<string, Employee>, touched: set<string>)
  {
    && (forall id :: id in before ==> id in now)
    && (forall id :: id in before && id !in touched ==> now[id] == before[id])
  }

  /** The objects of `now` hold, id by id, exactly the fields `m` records. */
  predicate Mirrors(now: map<string, Employee>, m: map<string, EmployeeRecord>)
    reads now.Values
  {
    now.Keys == m.Keys && forall id :: id in now ==> now[id].Value() == m[id]
  }

  /** Storing an object under its id records its fields under that id. */
  lemma MirrorsStore(now: map<string, Employee>, m: map<string, EmployeeRecord>, e: Employee)
    requires Mirrors(now, m)
    ensures Mirrors(now[e.id := e], m[e.id := e.Value()])
  {
  }

  /** The last line decides the last step of the load. */
  lemma LoadAllSnoc(m: map<string, EmployeeRecord>, lines: seq<string>, parse: string -> EmployeeRecord)
    requires lines != []
    ensures var line := lines[|lines| - 1];
      var loaded := LoadAll(m, lines[..|lines| - 1], parse);
      LoadAll(m, lines, parse) == if AcceptsLine(line) then loaded[parse(line).id := Reloaded(parse(line))] else loaded
  {
  }

  /** Line `k` decides how loading the first `k + 1` lines differs from loading the first `k`. */
  lemma LoadStep(m: map<string, EmployeeRecord>, lines: seq<string>, parse: string -> EmployeeRecord, k: nat)
    requires k < |lines|
    ensures var line := lines[k];
      && LoadAll(m, lines[..k + 1], parse)
         == (if AcceptsLine(line) then LoadAll(m, lines[..k], parse)[parse(line).id := Reloaded(parse(line))]
             else LoadAll(m, lines[..k], parse))
      && Touched(lines[..k + 1], parse)
         == Touched(lines[..k], parse) + (if AcceptsLine(line) then {parse(line).id} else {})
  {
    var upTo := lines[..k + 1];
    assert upTo[..k] == lines[..k] && upTo[k] == lines[k];
    LoadAllSnoc(m, upTo, parse);
  }

  /**
    The value-level facts that hold after the first `k` lines: `recs` and
    `touched` are what those lines load and which ids they carry, the
    objects under the untouched ids are still those of `before`, and every
    touched id holds one of the `created` objects.
  */
  predicate Progress(now: map<string, Employee>, before: map<string, Employee>, start: map<string, EmployeeRecord>,
                     lines: seq<string>, parse: string -> EmployeeRecord, k: nat,
                     recs: map<string, EmployeeRecord>, touched: set<string>, created: set<Employee>)
    requires k <= |lines|
  {
    && recs == LoadAll(start, lines[..k], parse)
    && touched == Touched(lines[..k], parse)
    && IdentityKept(now, before, touched)
    && (forall id :: id in now && id in touched ==> now[id] in created)
  }

  /** Handling line `k` as `loadEmployees` does moves the facts from the first `k` lines to the first `k + 1`. */
  lemma ProgressStep(now: map<string, Employee>, next: map<string, Employee>, before: map<string, Employee>,
                     start: map<string, EmployeeRecord>, lines: seq<string>, parse: string -> EmployeeRecord, k: nat,
                     recs: map<string, EmployeeRecord>, touched: set<string>, created: set<Employee>,
                     stored: bool, added: set<Employee>)
    requires k < |lines| && Progress(now, before, start, lines, parse, k, recs, touched, created)
    requires stored <==> AcceptsLine(lines[k])
    requires !stored ==> next == now && added == {}
    requires stored ==> var id := parse(lines[k]).id; id in next && added == {next[id]} && next == now[id := next[id]]
    ensures var id := parse(lines[k]).id;
      stored ==> Progress(next, before, start, lines, parse, k + 1,
                          recs[id := Reloaded(parse(lines[k]))], touched + {id}, created + added)
    ensures !stored ==> Progress(next, before, start, lines, parse, k + 1, recs, touched, created + added)
  {
    LoadStep(start, lines, parse, k);
  }

  // ---------------------------------------------------------------------
  // The registry

  class EmployeeService {
    /** `employees`: id to employee object. */
    var employees: map<string, Employee>

    /** Every employee is registered under its own id. */
    ghost predicate Valid()
      reads this
    {
      forall id :: id in employees ==> employees[id].id == id
    }

    constructor ()
      ensures Valid() && employees == map[]
    {
      employees := map[];
    }

    /** `addEmployee`: refused for an id already present, otherwise stored under its id. */
    method AddEmployee(employee: Employee) returns (ok: bool)
      requires Valid()
      modifies this
      ensures Valid()
      ensures ok <==> employee.id !in old(employees)
      ensures employees == if ok then old(employees)[employee.id := employee] else old(employees)
    {
      if employee.id in employees {
        return false;
      }
      employees := employees[employee.id := employee];
      return true;
    }

    /** `updateEmployee`: refused for an unknown id, otherwise replaces the entry under that id. */
    method UpdateEmployee(employee: Employee) returns (ok: bool)
      requires Valid()
      modifies this
      ensures Valid()
      ensures ok <==> employee.id in old(employees)
      ensures employees == if ok then old(employees)[employee.id := employee] else old(employees)
      ensures employees.Keys == old(employees).Keys
    {
      if employee.id !in employees {
        return false;
      }
      employees := employees[employee.id := employee];
      return true;
    }

    /** `getEmployeeById`: the stored object, or None where the source returns null; it carries the id asked for. */
    method GetEmployeeById(id: string) returns (r: Option<Employee>)
      requires Valid()
      ensures r.Some? <==> id in employees
      ensures r.Some? ==> r.value == employees[id] && r.value.id == id
    {
      if id in employees {
        r := Some(employees[id]);
      } else {
        r := None;
      }
    }

    /**
      `getAllEmployees`: a new list holding every stored employee exactly
      once. The order is whichever the map hands out, so it is left open.
    */
    method GetAllEmployees() returns (list: seq<Employee>)
      requires Valid()
      ensures |list| == |employees|
      ensures forall id :: id in employees ==> employees[id] in list
      ensures forall i :: 0 <= i < |list| ==> list[i].id in employees && employees[list[i].id] == list[i]
      ensures forall i, j :: 0 <= i < j < |list| ==> list[i] != list[j]
    {
      list := [];
      var todo := employees.Keys;
      while todo != {}
        invariant todo <= employees.Keys
        invariant |list| + |todo| == |employees|
        invariant forall id :: id in employees && id !in todo ==> employees[id] in list
        invariant forall i :: 0 <= i < |list| ==> list[i].id in employees && list[i].id !in todo && employees[list[i].id] == list[i]
        invariant forall i, j :: 0 <= i < j < |list| ==> list[i].id != list[j].id
        decreases |todo|
      {
        var id :| id in todo;
        assert employees[id].id == id;
        list := list + [employees[id]];
        todo := todo - {id};
      }
    }

    /**
      `deductLeaveDays`: refused for an unknown id or a balance below
      `days`; otherwise the balance drops by exactly `days`, so it stays
      non-negative, and no other field and no other employee changes.
    */
    method DeductLeaveDays(employeeId: string, days: int) returns (ok: bool)
      requires Valid()
      modifies employees.Values
      ensures ok <==> employeeId in employees && old(employees[employeeId].availableLeaveDays) >= days
      ensures ok ==> employees[employeeId].Value()
                     == old(employees[employeeId].Value()).(availableLeaveDays := old(employees[employeeId].availableLeaveDays) - days)
      ensures ok ==> employees[employeeId].availableLeaveDays >= 0
      ensures forall id :: id in employees && (!ok || id != employeeId) ==> employees[id].Value() == old(employees[id].Value())
    {
      var found := GetEmployeeById(employeeId);
      if found.None? {
        return false;
      }
      var employee := found.value;
      if employee.availableLeaveDays < days {
        return false;
      }
      employee.SetAvailableLeaveDays(employee.availableLeaveDays - days);
      return true;
    }

    /**
      One pass of the loop of `loadEmployees`: a line with fewer than eight
      fields or an unknown type tag is skipped; any other line becomes a new
      employee object stored under its id.
    */
    method LoadLine(line: string, parse: string -> EmployeeRecord, ghost recs: map<string, EmployeeRecord>)
        returns (stored: bool, ghost added: set<Employee>)
      requires Valid() && Mirrors(employees, recs)
      modifies this
      ensures Valid()
      ensures stored <==> AcceptsLine(line)
      ensures fresh(added)
      ensures !stored ==> added == {} && employees == old(employees) && Mirrors(employees, recs)
      ensures stored ==> var r := parse(line);
        && r.id in employees && added == {employees[r.id]}
        && employees == old(employees)[r.id := employees[r.id]]
        && Mirrors(employees, recs[r.id := Reloaded(r)])
    {
      var parts := Split(line, ',');
      if |parts| < 8 {
        return false, {};
      }
      var employeeType := parts[7];
      if employeeType != "Manager" && employeeType != "Developer" {
        return false, {};
      }
      var r := parse(line);
      var e := new Employee(r.id, r.name, r.email, r.phone, r.department, r.joiningDate, r.basicSalary, r.role);
      MirrorsStore(employees, recs, e);
      employees := employees[e.id := e];
      return true, {e};
    }

    /**
      The in-memory effect of `loadEmployees`: every accepted line becomes
      a new employee object stored under its id; skipped lines change nothing.
    */
    method LoadEmployees(lines: seq<string>, parse: string -> EmployeeRecord)
      requires Valid()
      modifies this
      ensures Valid()
      ensures employees.Keys == LoadAll(old(Snapshot(employees)), lines, parse).Keys
      ensures forall id :: id in employees ==> employees[id].Value() == LoadAll(old(Snapshot(employees)), lines, parse)[id]
      ensures forall id :: id in old(employees) ==> id in employees
      ensures forall id :: id in old(employees) && id !in Touched(lines, parse) ==> employees[id] == old(employees[id])
      ensures forall id :: id in employees && id in Touched(lines, parse) ==> fresh(employees[id])
    {
      ghost var start := Snapshot(employees);
      ghost var recs := start;
      ghost var touched: set<string> := {};
      ghost var created: set<Employee> := {};
      for k := 0 to |lines|
        invariant Valid()
        invariant Progress(employees, old(employees), start, lines, parse, k, recs, touched, created)
        invariant Mirrors(employees, recs)
        invariant fresh(created)
      {
        ghost var now := employees;
        var stored, added := LoadLine(lines[k], parse, recs);
        ProgressStep(now, employees, old(employees), start, lines, parse, k, recs, touched, created, stored, added);
        if stored {
          ghost var r := parse(lines[k]);
          recs := recs[r.id := Reloaded(r)];
          touched := touched + {r.id};
        }
        created := created + added;
      }
      assert lines[..|lines|] == lines;
    }
  }
}
