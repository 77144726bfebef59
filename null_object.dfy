/**
 * The employee database with a null object: a lookup that finds nobody
 * answers with `NullEmployee`, whose pay is zero, instead of nothing.
 * JavaScript numbers are modelled as integers.
 */
module NullObjects {
  import opened Wrappers

  datatype Employee = Employee(id: int, salary: int, tenure: int, canReceiveBonuses: bool)

  /** `new RegularEmployee(...)`: bonuses allowed unless said otherwise. */
  function RegularEmployee(id: int, salary: int, tenure: int, canReceiveBonuses: bool := true): (e: Employee)
    ensures e.id == id && e.salary == salary && e.tenure == tenure && e.canReceiveBonuses == canReceiveBonuses
  {
    Employee(id, salary, tenure, canReceiveBonuses)
  }

  const NullEmployee: Employee := Employee(-1, 0, 0, false)

  /** `find`: the first employee with the id, if any. */
  function FindById(employees: seq<Employee>, id: int): (r: Option<Employee>)
    ensures r.None? <==> forall i :: 0 <= i < |employees| ==> employees[i].id != id
    ensures r.Some? ==> exists i :: (0 <= i < |employees| && employees[i] == r.value && r.value.id == id &&
      (forall j :: 0 <= j < i ==> employees[j].id != id))
  {
    if employees == [] then None
    else if employees[0].id == id then Some(employees[0])
    else
      var r := FindById(employees[1..], id);
      if r.Some? then
        ghost var i :| 0 <= i < |employees[1..]| && employees[1..][i] == r.value && r.value.id == id &&
          (forall j :: 0 <= j < i ==> employees[1..][j].id != id);
        assert employees[i + 1] == r.value;
        r
      else r
  }

  /**
   * What the reducer adds for one employee: salary times tenure, plus the
   * bonus only for an employee who may receive it.
   */
  function Pay(employee: Employee, oneTimeBonus: int): (r: int)
    ensures !employee.canReceiveBonuses || oneTimeBonus == 0 ==> r == employee.salary * employee.tenure
    ensures oneTimeBonus >= 0 ==> r >= employee.salary * employee.tenure
  {
    employee.salary * employee.tenure + (if employee.canReceiveBonuses then oneTimeBonus else 0)
  }

  /** The `reduce` from 0, left to right: no pay that is negative makes a negative total, and null employees add nothing. */
  function TotalPay(employees: seq<Employee>, oneTimeBonus: int): (r: int)
    ensures (forall i :: 0 <= i < |employees| ==> Pay(employees[i], oneTimeBonus) >= 0) ==> r >= 0
    ensures (forall i :: 0 <= i < |employees| ==> employees[i] == NullEmployee) ==> r == 0
  {
    if employees == [] then 0
    else TotalPay(employees[..|employees| - 1], oneTimeBonus) + Pay(employees[|employees| - 1], oneTimeBonus)
  }

  class EmployeeDatabase {
    var employees: seq<Employee>
    const oneTimeBonus: int

    constructor(oneTimeBonus: int := 0)
      ensures employees == [] && this.oneTimeBonus == oneTimeBonus
    {
      employees := [];
      this.oneTimeBonus := oneTimeBonus;
    }

    method AddEmployee(employee: Employee)
      modifies this
      ensures employees == old(employees) + [employee]
    {
      employees := employees + [employee];
    }

    /** `getEmployeeById`: the first employee with the id, or `NullEmployee` when there is none. */
    function GetEmployeeById(id: int): (e: Employee)
      reads this
      ensures (forall i :: 0 <= i < |employees| ==> employees[i].id != id) ==> e == NullEmployee
      ensures (exists i :: 0 <= i < |employees| && employees[i].id == id) ==>
        exists i :: (0 <= i < |employees| && employees[i] == e && e.id == id &&
          (forall j :: 0 <= j < i ==> employees[j].id != id))
    {
      var found := FindById(employees, id);
      if found.Some? then found.value else NullEmployee
    }

    function CalculateTotalPayedAmount(): int
      reads this
    {
      TotalPay(employees, oneTimeBonus)
    }
  }

  /** Adding an employee adds exactly that employee's pay to the total. */
  lemma TotalPayAppend(employees: seq<Employee>, employee: Employee, oneTimeBonus: int)
    ensures TotalPay(employees + [employee], oneTimeBonus) == TotalPay(employees, oneTimeBonus) + Pay(employee, oneTimeBonus)
  {
    assert (employees + [employee])[..|employees|] == employees;
  }

  /** The total is the sum of each employee's pay, in any split of the list. */
  lemma {:induction false} TotalPaySplit(a: seq<Employee>, b: seq<Employee>, oneTimeBonus: int)
    ensures TotalPay(a + b, oneTimeBonus) == TotalPay(a, oneTimeBonus) + TotalPay(b, oneTimeBonus)
    decreases |b|
  {
    if b == [] {
      assert a + b == a;
    } else {
      var last := b[|b| - 1];
      TotalPaySplit(a, b[..|b| - 1], oneTimeBonus);
      assert a + b == (a + b[..|b| - 1]) + [last];
      TotalPayAppend(a + b[..|b| - 1], last, oneTimeBonus);
    }
  }

  /** The null employee is paid nothing, so it never changes a total it takes part in. */
  lemma NullEmployeeIsPaidNothing(employees: seq<Employee>, oneTimeBonus: int)
    ensures Pay(NullEmployee, oneTimeBonus) == 0
    ensures TotalPay(employees + [NullEmployee], oneTimeBonus) == TotalPay(employees, oneTimeBonus)
  {
    TotalPayAppend(employees, NullEmployee, oneTimeBonus);
  }

  /** The one-time bonus is paid once to each employee who may receive bonuses, and to nobody else. */
  lemma {:induction false} BonusCountsPerEligibleEmployee(employees: seq<Employee>, oneTimeBonus: int)
    ensures TotalPay(employees, oneTimeBonus) == TotalPay(employees, 0) + oneTimeBonus * Eligible(employees)
    decreases |employees|
  {
    if employees != [] {
      var init, e := employees[..|employees| - 1], employees[|employees| - 1];
      BonusCountsPerEligibleEmployee(init, oneTimeBonus);
      var k := Eligible(init);
      var b := if e.canReceiveBonuses then 1 else 0;
      assert Eligible(employees) == k + b;
      assert Pay(e, oneTimeBonus) == Pay(e, 0) + oneTimeBonus * b;
      Distribute(oneTimeBonus, k, b);
    }
  }

  lemma Distribute(x: int, k: int, b: int)
    ensures x * (k + b) == x * k + x * b
  {
  }

  /** How many employees may receive the bonus. */
  function Eligible(employees: seq<Employee>): nat
  {
    if employees == [] then 0
    else Eligible(employees[..|employees| - 1]) + (if employees[|employees| - 1].canReceiveBonuses then 1 else 0)
  }
}
