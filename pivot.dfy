/** The employee-hours pivot of the data table (src/components/DataTable.tsx, `pivotedData`):
    every parsed row is filed under job description → employee → check date, and its sick
    hours plus WALI hours are added to that leaf. */
module Pivot {
  import opened Common
  import opened Objects
  import opened JsValues

  /** A parsed CSV row: its columns in header order and the cell under each. */
  type Record = Obj<Value>

  /** check date → accumulated hours */
  type Dates = Obj<real>
  /** employee name → that employee's dates */
  type Employees = Obj<Dates>
  /** job description → the employees under it */
  type PivotData = Obj<Employees>

  /** `row[name]`; a column the row does not have reads as nothing. */
  function Field(r: Record, name: string): Value {
    if name in r.vals then r.vals[name] else Null
  }

  /** `String(v || 'Unknown')`: a falsy cell is filed under "Unknown". */
  function GroupKey(v: Value): string {
    if Truthy(v) then Text(v) else "Unknown"
  }

  function JobOf(r: Record): string { GroupKey(Field(r, "JobDescription")) }
  function EmpOf(r: Record): string { GroupKey(Field(r, "EmpName")) }
  function DateOf(r: Record): string { GroupKey(Field(r, "CheckDate")) }

  /** `(Number(sick) || 0) + (Number(wali) || 0)`: what one row adds to its leaf. */
  function HoursOf(r: Record): real {
    Coerce(Field(r, "ESSickHours")) + Coerce(Field(r, "EWALIWALIHours"))
  }

  /** The row is filed under the key path (job, emp, date). */
  predicate OnPath(r: Record, job: string, emp: string, date: string) {
    JobOf(r) == job && EmpOf(r) == emp && DateOf(r) == date
  }

  // ------------------------------------------------------------------------------------------
  // What the pivot should hold, stated directly over the rows

  /** The job key of every row, in row order. */
  function JobKeys(data: seq<Record>): seq<string> {
    if data == [] then [] else JobKeys(data[..|data| - 1]) + [JobOf(data[|data| - 1])]
  }

  /** The employee key of every row filed under `job`, in row order. */
  function EmpKeysUnder(data: seq<Record>, job: string): seq<string> {
    if data == [] then []
    else
      var last := data[|data| - 1];
      EmpKeysUnder(data[..|data| - 1], job) + (if JobOf(last) == job then [EmpOf(last)] else [])
  }

  /** Some row is filed under (job, emp, date). */
  predicate Occurs(data: seq<Record>, job: string, emp: string, date: string) {
    exists r :: r in data && OnPath(r, job, emp, date)
  }

  /** The sum of `w` over the rows. */
  function SumRows(data: seq<Record>, w: Record -> real): real {
    if data == [] then 0.0 else SumRows(data[..|data| - 1], w) + w(data[|data| - 1])
  }

  /** The hours of exactly the rows filed under (job, emp, date). */
  function HoursAt(data: seq<Record>, job: string, emp: string, date: string): real {
    SumRows(data, r => if OnPath(r, job, emp, date) then HoursOf(r) else 0.0)
  }

  /** The hours of all rows. */
  function TotalHours(data: seq<Record>): real {
    SumRows(data, HoursOf)
  }

  // ------------------------------------------------------------------------------------------
  // Reading a pivot

  /** Every level lists each of its keys once. */
  ghost predicate WellFormed(p: PivotData) {
    && p.Valid()
    && forall j :: j in p.vals ==>
         && p.vals[j].Valid()
         && forall e :: e in p.vals[j].vals ==> p.vals[j].vals[e].Valid()
  }

  /** `Object.keys(pivot[job])`, or no employees for a job the pivot does not have. */
  function EmployeesOf(p: PivotData, job: string): seq<string> {
    if job in p.vals then p.vals[job].keys else []
  }

  predicate HasCell(p: PivotData, job: string, emp: string, date: string) {
    job in p.vals && emp in p.vals[job].vals && date in p.vals[job].vals[emp].vals
  }

  /** `pivot[job][emp][date] || 0`: the hours shown in a cell of the table. */
  function CellHours(p: PivotData, job: string, emp: string, date: string): real {
    if HasCell(p, job, emp, date) then p.vals[job].vals[emp].vals[date] else 0.0
  }

  function LeafTotal(d: Dates): real { Total(d, (x: real) => x) }
  function EmployeeTotal(e: Employees): real { Total(e, LeafTotal) }
  /** The sum of all leaves of the pivot. */
  function PivotTotal(p: PivotData): real { Total(p, EmployeeTotal) }

  /** `p` is the pivot of `data`: job keys in the order their job is first seen, within each job
      the employee keys in the order they are first seen under it, a leaf exactly for each key
      path some row is filed under, holding the hours of exactly those rows. */
  ghost predicate Represents(p: PivotData, data: seq<Record>) {
    && WellFormed(p)
    && p.keys == FirstSeen(JobKeys(data))
    && (forall j :: EmployeesOf(p, j) == FirstSeen(EmpKeysUnder(data, j)))
    && (forall j, e, d :: HasCell(p, j, e, d) <==> Occurs(data, j, e, d))
    && (forall j, e, d :: CellHours(p, j, e, d) == HoursAt(data, j, e, d))
  }

  // ------------------------------------------------------------------------------------------
  // Building the pivot (DataTable.tsx, the `data.forEach` in `pivotedData`)

  /** The pivot of `data`, built row by row as the component does. */
  method BuildPivot(data: seq<Record>) returns (pivot: PivotData)
    ensures pivot == PivotOf(data)
    ensures Represents(pivot, data)
    ensures PivotTotal(pivot) == TotalHours(data)
  {
    pivot := Empty();
    var i := 0;
    while i < |data|
      invariant 0 <= i <= |data|
      invariant pivot == PivotOf(data[..i])
    {
      pivot := FileRow(pivot, data[i]);
      PivotOfPrefix(data, i);
      i := i + 1;
    }
    assert data[..|data|] == data;
    PivotOfRepresents(data);
  }

  /** The body of the `forEach`: read the row's key path and hours, then file them. */
  method FileRow(pivot: PivotData, row: Record) returns (pivot': PivotData)
    ensures pivot' == Accumulated(pivot, JobOf(row), EmpOf(row), DateOf(row), HoursOf(row))
  {
    var jobDescription := JobOf(row);
    var empName := EmpOf(row);
    var checkDate := DateOf(row);
    var sickHours := Coerce(Field(row, "ESSickHours"));
    var waliHours := Coerce(Field(row, "EWALIWALIHours"));
    var totalHours := sickHours + waliHours;
    assert totalHours == HoursOf(row);
    pivot' := FileHours(pivot, jobDescription, empName, checkDate, totalHours);
  }

  /** Create the job, employee and date entries the key path needs, then add the hours to its
      leaf. */
  method FileHours(pivot: PivotData, jobDescription: string, empName: string, checkDate: string,
                   totalHours: real)
    returns (pivot': PivotData)
    ensures pivot' == Accumulated(pivot, jobDescription, empName, checkDate, totalHours)
  {
    pivot' := pivot;
    if jobDescription !in pivot'.vals {
      pivot' := pivot'.Put(jobDescription, Empty());
    }
    var employees := pivot'.vals[jobDescription];
    ghost var employees0 := employees;
    if empName !in employees.vals {
      employees := employees.Put(empName, Empty());
    }
    var dates := employees.vals[empName];
    ghost var dates0 := dates;
    if !(checkDate in dates.vals && dates.vals[checkDate] != 0.0) {
      dates := dates.Put(checkDate, 0.0);
    }
    dates := dates.Put(checkDate, dates.vals[checkDate] + totalHours);
    assert dates == AddHours(dates0, checkDate, totalHours) by {
      PutPut(dates0, checkDate, 0.0, totalHours);
    }
    // the component changes the nested objects in place; here they are written back
    assert employees0 == Child(pivot, jobDescription);
    assert dates0 == Child(employees0, empName);
    PutOverDefault(employees0, empName, Empty(), dates);
    employees := employees.Put(empName, dates);
    PutOverDefault(pivot, jobDescription, Empty(), employees);
    pivot' := pivot'.Put(jobDescription, employees);
  }

  /** A date object after `hours` more are added at `date` (a missing date starting from 0). */
  ghost function AddHours(ds: Dates, date: string, h: real): Dates {
    ds.Put(date, (if date in ds.vals then ds.vals[date] else 0.0) + h)
  }

  /** An employee object after `hours` more are added at (emp, date). */
  ghost function AddToEmployee(es: Employees, emp: string, date: string, h: real): Employees {
    es.Put(emp, AddHours(Child(es, emp), date, h))
  }

  /** The pivot after one more row's hours are added at (job, emp, date). */
  ghost function Accumulated(p: PivotData, job: string, emp: string, date: string, h: real): PivotData {
    p.Put(job, AddToEmployee(Child(p, job), emp, date, h))
  }

  /** The pivot of `data`, one accumulation per row in row order. */
  ghost function PivotOf(data: seq<Record>): PivotData {
    if data == [] then Empty()
    else
      var r := data[|data| - 1];
      Accumulated(PivotOf(data[..|data| - 1]), JobOf(r), EmpOf(r), DateOf(r), HoursOf(r))
  }

  lemma PivotOfPrefix(data: seq<Record>, i: nat)
    requires i < |data|
    ensures PivotOf(data[..i + 1])
            == Accumulated(PivotOf(data[..i]), JobOf(data[i]), EmpOf(data[i]), DateOf(data[i]), HoursOf(data[i]))
  {
    PrefixSnoc(data, i);
    assert data[..i + 1][..i] == data[..i];
  }

  lemma SnocJobKeys(s: seq<Record>, r: Record)
    ensures JobKeys(s + [r]) == JobKeys(s) + [JobOf(r)]
  {
    assert (s + [r])[..|s|] == s;
  }

  lemma SnocEmpKeys(s: seq<Record>, r: Record, j: string)
    ensures EmpKeysUnder(s + [r], j) == EmpKeysUnder(s, j) + (if JobOf(r) == j then [EmpOf(r)] else [])
  {
    assert (s + [r])[..|s|] == s;
  }

  lemma SnocSum(s: seq<Record>, r: Record, w: Record -> real)
    ensures SumRows(s + [r], w) == SumRows(s, w) + w(r)
  {
    assert (s + [r])[..|s|] == s;
  }

  lemma EmptyRepresents()
    ensures Represents(Empty(), []) && PivotTotal(Empty()) == TotalHours([])
  {
  }

  /** The fold's invariant: after any number of rows the pivot is the pivot of those rows. */
  lemma {:induction false} PivotOfRepresents(data: seq<Record>)
    ensures Represents(PivotOf(data), data)
    ensures PivotTotal(PivotOf(data)) == TotalHours(data)
  {
    if data != [] {
      var n := |data| - 1;
      SplitLast(data);
      PivotOfRepresents(data[..n]);
      AccumulatedRepresents(PivotOf(data[..n]), data[..n], data[n]);
      SnocSum(data[..n], data[n], HoursOf);
    } else {
      EmptyRepresents();
    }
  }

  /** Adding one row keeps the pivot a pivot of the longer row sequence, and adds that row's
      hours to the grand total. */
  lemma AccumulatedRepresents(p: PivotData, s: seq<Record>, r: Record)
    requires Represents(p, s)
    ensures Represents(Accumulated(p, JobOf(r), EmpOf(r), DateOf(r), HoursOf(r)), s + [r])
    ensures PivotTotal(Accumulated(p, JobOf(r), EmpOf(r), DateOf(r), HoursOf(r))) == PivotTotal(p) + HoursOf(r)
  {
    var p' := Accumulated(p, JobOf(r), EmpOf(r), DateOf(r), HoursOf(r));
    AccumulatedWellFormed(p, JobOf(r), EmpOf(r), DateOf(r), HoursOf(r));
    AccumulatedKeys(p, s, r);
    AccumulatedEmployees(p, s, r);
    AccumulatedCells(p, s, r);
    AccumulatedTotal(p, JobOf(r), EmpOf(r), DateOf(r), HoursOf(r));
  }

  lemma AccumulatedWellFormed(p: PivotData, job: string, emp: string, date: string, h: real)
    requires WellFormed(p)
    ensures WellFormed(Accumulated(p, job, emp, date, h))
  {
    var es := Child(p, job);
    var ds := Child(es, emp);
    var ds' := AddHours(ds, date, h);
    var es' := es.Put(emp, ds');
    var p' := p.Put(job, es');
    PutValid(ds, date, (if date in ds.vals then ds.vals[date] else 0.0) + h);
    PutValid(es, emp, ds');
    PutValid(p, job, es');
    forall j | j in p'.vals
      ensures p'.vals[j].Valid() && forall e :: e in p'.vals[j].vals ==> p'.vals[j].vals[e].Valid()
    {
      if j != job {
        assert p'.vals[j] == p.vals[j];
      }
    }
  }

  lemma AccumulatedKeys(p: PivotData, s: seq<Record>, r: Record)
    requires p.Valid() && p.keys == FirstSeen(JobKeys(s))
    ensures Accumulated(p, JobOf(r), EmpOf(r), DateOf(r), HoursOf(r)).keys == FirstSeen(JobKeys(s + [r]))
  {
    SnocJobKeys(s, r);
    FirstSeenSnoc(JobKeys(s), JobOf(r));
  }

  lemma AccumulatedEmployees(p: PivotData, s: seq<Record>, r: Record)
    requires WellFormed(p)
    requires forall j :: EmployeesOf(p, j) == FirstSeen(EmpKeysUnder(s, j))
    ensures forall j :: EmployeesOf(Accumulated(p, JobOf(r), EmpOf(r), DateOf(r), HoursOf(r)), j)
                        == FirstSeen(EmpKeysUnder(s + [r], j))
  {
    forall j
      ensures EmployeesOf(Accumulated(p, JobOf(r), EmpOf(r), DateOf(r), HoursOf(r)), j)
              == FirstSeen(EmpKeysUnder(s + [r], j))
    {
      EmployeesStep(p, s, r, j);
    }
  }

  lemma EmployeesStep(p: PivotData, s: seq<Record>, r: Record, j: string)
    requires WellFormed(p)
    requires EmployeesOf(p, j) == FirstSeen(EmpKeysUnder(s, j))
    ensures EmployeesOf(Accumulated(p, JobOf(r), EmpOf(r), DateOf(r), HoursOf(r)), j)
            == FirstSeen(EmpKeysUnder(s + [r], j))
  {
    var p' := Accumulated(p, JobOf(r), EmpOf(r), DateOf(r), HoursOf(r));
    SnocEmpKeys(s, r, j);
    if j == JobOf(r) {
      var emp := EmpOf(r);
      var es := Child(p, j);
      var es' := AddToEmployee(es, emp, DateOf(r), HoursOf(r));
      var E := EmpKeysUnder(s, j);
      assert es.Valid();
      assert es.keys == EmployeesOf(p, j) == FirstSeen(E);
      assert EmployeesOf(p', j) == es'.keys;
      assert es'.keys == if emp in es.vals then es.keys else es.keys + [emp];
      assert emp in es.vals <==> emp in E;
      FirstSeenSnoc(E, emp);
      assert EmpKeysUnder(s + [r], j) == E + [emp];
    } else {
      assert EmployeesOf(p', j) == EmployeesOf(p, j);
      assert EmpKeysUnder(s + [r], j) == EmpKeysUnder(s, j);
    }
  }

  lemma AccumulatedCells(p: PivotData, s: seq<Record>, r: Record)
    requires forall j, e, d :: HasCell(p, j, e, d) <==> Occurs(s, j, e, d)
    requires forall j, e, d :: CellHours(p, j, e, d) == HoursAt(s, j, e, d)
    ensures forall j, e, d :: HasCell(Accumulated(p, JobOf(r), EmpOf(r), DateOf(r), HoursOf(r)), j, e, d)
                              <==> Occurs(s + [r], j, e, d)
    ensures forall j, e, d :: CellHours(Accumulated(p, JobOf(r), EmpOf(r), DateOf(r), HoursOf(r)), j, e, d)
                              == HoursAt(s + [r], j, e, d)
  {
    forall j, e, d
      ensures HasCell(Accumulated(p, JobOf(r), EmpOf(r), DateOf(r), HoursOf(r)), j, e, d)
              <==> Occurs(s + [r], j, e, d)
      ensures CellHours(Accumulated(p, JobOf(r), EmpOf(r), DateOf(r), HoursOf(r)), j, e, d)
              == HoursAt(s + [r], j, e, d)
    {
      CellStep(p, s, r, j, e, d);
    }
  }

  lemma CellStep(p: PivotData, s: seq<Record>, r: Record, j: string, e: string, d: string)
    requires HasCell(p, j, e, d) <==> Occurs(s, j, e, d)
    requires CellHours(p, j, e, d) == HoursAt(s, j, e, d)
    ensures HasCell(Accumulated(p, JobOf(r), EmpOf(r), DateOf(r), HoursOf(r)), j, e, d)
            <==> Occurs(s + [r], j, e, d)
    ensures CellHours(Accumulated(p, JobOf(r), EmpOf(r), DateOf(r), HoursOf(r)), j, e, d)
            == HoursAt(s + [r], j, e, d)
  {
    AccumulatedCell(p, JobOf(r), EmpOf(r), DateOf(r), HoursOf(r), j, e, d);
    SnocSum(s, r, x => if OnPath(x, j, e, d) then HoursOf(x) else 0.0);
    assert Occurs(s + [r], j, e, d) <==> Occurs(s, j, e, d) || OnPath(r, j, e, d);
  }

  /** One accumulation creates or grows exactly the leaf at its key path. */
  lemma AccumulatedCell(p: PivotData, job: string, emp: string, date: string, h: real,
                        j: string, e: string, d: string)
    ensures HasCell(Accumulated(p, job, emp, date, h), j, e, d)
            <==> HasCell(p, j, e, d) || (j == job && e == emp && d == date)
    ensures CellHours(Accumulated(p, job, emp, date, h), j, e, d)
            == CellHours(p, j, e, d) + (if j == job && e == emp && d == date then h else 0.0)
  {
  }

  lemma AccumulatedTotal(p: PivotData, job: string, emp: string, date: string, h: real)
    requires WellFormed(p)
    ensures PivotTotal(Accumulated(p, job, emp, date, h)) == PivotTotal(p) + h
  {
    var es := Child(p, job);
    assert es.Valid() && forall e :: e in es.vals ==> es.vals[e].Valid();
    AddToEmployeeTotal(es, emp, date, h);
    PutTotal(p, job, AddToEmployee(es, emp, date, h), EmployeeTotal);
  }

  lemma AddToEmployeeTotal(es: Employees, emp: string, date: string, h: real)
    requires es.Valid() && Child(es, emp).Valid()
    ensures EmployeeTotal(AddToEmployee(es, emp, date, h)) == EmployeeTotal(es) + h
  {
    AddHoursTotal(Child(es, emp), date, h);
    PutTotal(es, emp, AddHours(Child(es, emp), date, h), LeafTotal);
  }

  lemma AddHoursTotal(ds: Dates, date: string, h: real)
    requires ds.Valid()
    ensures LeafTotal(AddHours(ds, date, h)) == LeafTotal(ds) + h
  {
    PutTotal(ds, date, (if date in ds.vals then ds.vals[date] else 0.0) + h, (x: real) => x);
  }

  // ------------------------------------------------------------------------------------------
  // What the pivot promises

  /** No row is dropped: every row, whatever its keys and hours, has a leaf at its key path. */
  lemma EveryRowFiled(p: PivotData, data: seq<Record>, k: nat)
    requires Represents(p, data) && k < |data|
    ensures HasCell(p, JobOf(data[k]), EmpOf(data[k]), DateOf(data[k]))
  {
    assert OnPath(data[k], JobOf(data[k]), EmpOf(data[k]), DateOf(data[k]));
    assert Occurs(data, JobOf(data[k]), EmpOf(data[k]), DateOf(data[k]));
  }

  /** A row with no job description, no name or no check date is filed under "Unknown". */
  lemma MissingKeyIsUnknown(r: Record)
    ensures !Truthy(Field(r, "JobDescription")) ==> JobOf(r) == "Unknown"
    ensures !Truthy(Field(r, "EmpName")) ==> EmpOf(r) == "Unknown"
    ensures !Truthy(Field(r, "CheckDate")) ==> DateOf(r) == "Unknown"
    ensures "JobDescription" !in r.vals ==> JobOf(r) == "Unknown"
    ensures "EmpName" !in r.vals ==> EmpOf(r) == "Unknown"
    ensures "CheckDate" !in r.vals ==> DateOf(r) == "Unknown"
  {
  }

  lemma {:induction false} JobKeysAt(data: seq<Record>, k: nat)
    requires k < |data|
    ensures |JobKeys(data)| == |data| && JobKeys(data)[k] == JobOf(data[k])
  {
    var n := |data| - 1;
    JobKeysLength(data[..n]);
    if k < n {
      JobKeysAt(data[..n], k);
    }
  }

  lemma {:induction false} JobKeysLength(data: seq<Record>)
    ensures |JobKeys(data)| == |data|
  {
    if data != [] {
      JobKeysLength(data[..|data| - 1]);
    }
  }

  /** The index of the first row filed under `job`. */
  function FirstRowOf(data: seq<Record>, job: string): (k: nat)
    requires exists r :: r in data && JobOf(r) == job
    ensures k < |data| && JobOf(data[k]) == job
    ensures forall i :: 0 <= i < k ==> JobOf(data[i]) != job
  {
    if JobOf(data[0]) == job then 0
    else
      assert exists r :: r in data[1..] && JobOf(r) == job by {
        var r :| r in data && JobOf(r) == job;
        assert r != data[0];
      }
      1 + FirstRowOf(data[1..], job)
  }

  /** Job groups appear in the order their job description first occurs in the rows. */
  lemma {:induction false} JobOrder(p: PivotData, data: seq<Record>, a: nat, b: nat)
    requires Represents(p, data) && a < b < |p.keys|
    ensures p.keys[a] in p.vals && p.keys[b] in p.vals
    ensures exists r :: r in data && JobOf(r) == p.keys[a]
    ensures exists r :: r in data && JobOf(r) == p.keys[b]
    ensures FirstRowOf(data, p.keys[a]) < FirstRowOf(data, p.keys[b])
  {
    var js := JobKeys(data);
    JobKeysLength(data);
    FirstSeenOrder(js, a, b);
    forall x | x in js
      ensures exists r :: r in data && JobOf(r) == x
      ensures FirstIndex(js, x) == FirstRowOf(data, x)
    {
      var k := FirstIndex(js, x);
      JobKeysAt(data, k);
      assert data[k] in data;
      var f := FirstRowOf(data, x);
      JobKeysAt(data, f);
    }
  }

  /** Taking row `k` out of the rows takes its weight out of the sum. */
  lemma {:induction false} SumRowsRemove(b: seq<Record>, k: nat, w: Record -> real)
    requires k < |b|
    ensures SumRows(b, w) == SumRows(b[..k] + b[k + 1..], w) + w(b[k])
  {
    var n := |b| - 1;
    if k == n {
      assert b[..k] + b[k + 1..] == b[..n];
    } else {
      var b' := b[..n];
      SumRowsRemove(b', k, w);
      assert b[..k] + b[k + 1..] == (b'[..k] + b'[k + 1..]) + [b[n]];
      SnocSum(b'[..k] + b'[k + 1..], b[n], w);
    }
  }

  /** A sum over the rows does not depend on their order. */
  lemma {:induction false} SumRowsPermutation(a: seq<Record>, b: seq<Record>, w: Record -> real)
    requires multiset(a) == multiset(b)
    ensures SumRows(a, w) == SumRows(b, w)
    decreases |a|
  {
    if a == [] {
      assert |b| == |multiset(b)| == 0;
    } else {
      var n := |a| - 1;
      var x := a[n];
      assert a == a[..n] + [x];
      assert x in multiset(b);
      var k :| 0 <= k < |b| && b[k] == x;
      var c := b[..k] + b[k + 1..];
      assert b == b[..k] + [x] + b[k + 1..];
      assert multiset(c) == multiset(b) - multiset{x};
      assert multiset(a[..n]) == multiset(a) - multiset{x};
      SumRowsPermutation(a[..n], c, w);
      SumRowsRemove(b, k, w);
    }
  }

  /** Reordering the rows changes only the order of the keys: the same leaves exist, with the
      same hours, and the grand total is the same. */
  lemma OrderIndependent(p: PivotData, q: PivotData, a: seq<Record>, b: seq<Record>,
                         j: string, e: string, d: string)
    requires Represents(p, a) && Represents(q, b) && multiset(a) == multiset(b)
    ensures HasCell(p, j, e, d) <==> HasCell(q, j, e, d)
    ensures CellHours(p, j, e, d) == CellHours(q, j, e, d)
  {
    assert Occurs(a, j, e, d) <==> Occurs(b, j, e, d) by {
      forall r ensures r in a <==> r in b {
        assert r in a <==> r in multiset(a);
        assert r in b <==> r in multiset(b);
      }
    }
    SumRowsPermutation(a, b, r => if OnPath(r, j, e, d) then HoursOf(r) else 0.0);
  }

  /** Two rows on the same key path make one group with one employee and one leaf, which holds
      the hours of both. */
  lemma SamePathMerges(p: PivotData, a: Record, b: Record)
    requires Represents(p, [a, b]) && OnPath(b, JobOf(a), EmpOf(a), DateOf(a))
    ensures p.keys == [JobOf(a)] && EmployeesOf(p, JobOf(a)) == [EmpOf(a)]
    ensures HasCell(p, JobOf(a), EmpOf(a), DateOf(a))
    ensures CellHours(p, JobOf(a), EmpOf(a), DateOf(a)) == HoursOf(a) + HoursOf(b)
  {
    SamePathKeys(p, a, b);
    var j, e, d := JobOf(a), EmpOf(a), DateOf(a);
    assert OnPath(a, j, e, d);
    assert a in [a, b];
    assert Occurs([a, b], j, e, d);
    PairHours(a, b, j, e, d);
  }

  lemma SamePathKeys(p: PivotData, a: Record, b: Record)
    requires Represents(p, [a, b]) && OnPath(b, JobOf(a), EmpOf(a), DateOf(a))
    ensures p.keys == [JobOf(a)] && EmployeesOf(p, JobOf(a)) == [EmpOf(a)]
  {
    PairKeys(a, b);
    OnlyOnce(JobOf(a));
    OnlyOnce(EmpOf(a));
  }

  /** The key lists of two rows on the same path. */
  lemma PairKeys(a: Record, b: Record)
    requires OnPath(b, JobOf(a), EmpOf(a), DateOf(a))
    ensures JobKeys([a, b]) == [JobOf(a), JobOf(a)]
    ensures EmpKeysUnder([a, b], JobOf(a)) == [EmpOf(a), EmpOf(a)]
  {
    assert [a, b][..1] == [a] && [a][..0] == [];
    assert JobKeys([a]) == [JobOf(a)];
    assert EmpKeysUnder([a], JobOf(a)) == [EmpOf(a)];
  }

  lemma PairHours(a: Record, b: Record, j: string, e: string, d: string)
    requires OnPath(a, j, e, d) && OnPath(b, j, e, d)
    ensures HoursAt([a, b], j, e, d) == HoursOf(a) + HoursOf(b)
  {
    var w := r => if OnPath(r, j, e, d) then HoursOf(r) else 0.0;
    assert [a, b][..1] == [a] && [a][..0] == [];
    assert SumRows([a], w) == SumRows([], w) + w(a);
    assert SumRows([a, b], w) == SumRows([a], w) + w(b);
  }

  lemma OnlyOnce(x: string)
    ensures FirstSeen([x, x]) == [x]
  {
    assert [x, x][..1] == [x] && [x][..0] == [];
    assert FirstSeen([x]) == [x];
  }
}
