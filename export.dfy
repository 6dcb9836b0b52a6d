/** The rows handed to the spreadsheet writer by "Export to Excel"
    (src/components/DataTable.tsx:74-94): per job group, in pivot order, one row per employee
    with the hours of every date column, then the group's count row, then an empty row. */
module Export {
  import opened Common
  import opened Objects
  import opened JsValues
  import opened Pivot
  import opened TableView

  /** A spreadsheet cell: text or a number. */
  datatype Cell = TextCell(s: string) | NumberCell(x: real)

  /** An exported row: its columns in insertion order and the cell under each. */
  type Row = Obj<Cell>

  /** `{ JobDescription: job, Employee: emp }` */
  function Heading(job: string, emp: string): (r: Row)
    ensures r.Valid()
  {
    Obj(["JobDescription", "Employee"], map["JobDescription" := TextCell(job), "Employee" := TextCell(emp)])
  }

  /** `COUNT ≥ ${threshold} HRS` */
  function CountLabel(threshold: Decimal): (text: string)
    ensures |text| == 12 + |NumberText(threshold)|
    ensures text[..8] == "COUNT \U{2265} " && text[|text| - 4..] == " HRS"
    ensures text[8..|text| - 4] == NumberText(threshold)
  {
    "COUNT \U{2265} " + NumberText(threshold) + " HRS"
  }

  /** `row[date] = cell(date)` for every date in order. */
  function FillDates(row: Row, dates: seq<string>, cell: string -> Cell): Row {
    if dates == [] then row
    else FillDates(row, dates[..|dates| - 1], cell).Put(dates[|dates| - 1], cell(dates[|dates| - 1]))
  }

  /** The row of one employee: `dates[date] || 0` under every date column. */
  function EmployeeRow(job: string, emp: string, dates: Dates, axis: seq<string>): Row {
    FillDates(Heading(job, emp), axis, d => NumberCell(HoursOn(dates, d)))
  }

  /** The rows of the listed employees of a job, in order. */
  function EmployeeRows(job: string, es: Employees, emps: seq<string>, axis: seq<string>): seq<Row> {
    if emps == [] then []
    else
      var emp := emps[|emps| - 1];
      EmployeeRows(job, es, emps[..|emps| - 1], axis) + [EmployeeRow(job, emp, Child(es, emp), axis)]
  }

  /** The count row of a job group: `getThresholdCount(job, date)` under every date column. */
  function CountRow(p: PivotData, job: string, axis: seq<string>, threshold: Decimal): Row
    requires job in p.vals
  {
    FillDates(Heading(CountLabel(threshold), ""), axis,
              d => NumberCell(ThresholdCount(p, job, d, Real(threshold)) as real))
  }

  /** All rows of one job group. */
  function GroupRows(p: PivotData, job: string, axis: seq<string>, threshold: Decimal): seq<Row>
    requires job in p.vals
  {
    EmployeeRows(job, p.vals[job], p.vals[job].keys, axis) + [CountRow(p, job, axis, threshold), Empty()]
  }

  /** The rows of the listed job groups, in order. */
  function ExportRows(p: PivotData, jobs: seq<string>, axis: seq<string>, threshold: Decimal): seq<Row>
    requires forall j :: j in jobs ==> j in p.vals
  {
    if jobs == [] then []
    else
      var job := jobs[|jobs| - 1];
      ExportRows(p, jobs[..|jobs| - 1], axis, threshold) + GroupRows(p, job, axis, threshold)
  }

  // ------------------------------------------------------------------------------------------
  // The builder

  /** `exportToExcel` up to the spreadsheet writer: the flattened rows. */
  method Flatten(p: PivotData, allCheckDates: seq<string>, threshold: Decimal) returns (flattenedData: seq<Row>)
    requires WellFormed(p)
    ensures flattenedData == ExportRows(p, p.keys, allCheckDates, threshold)
  {
    flattenedData := [];
    var g := 0;
    while g < |p.keys|
      invariant 0 <= g <= |p.keys|
      invariant flattenedData == ExportRows(p, p.keys[..g], allCheckDates, threshold)
    {
      var group := FlattenGroup(p, p.keys[g], allCheckDates, threshold);
      flattenedData := flattenedData + group;
      ExportRowsPrefix(p, p.keys, g, allCheckDates, threshold);
      g := g + 1;
    }
    assert p.keys[..g] == p.keys;
  }

  /** The body of the outer `forEach`: one row per employee of the group, its count row and an
      empty row. */
  method FlattenGroup(p: PivotData, jobDescription: string, allCheckDates: seq<string>, threshold: Decimal)
    returns (rows: seq<Row>)
    requires jobDescription in p.vals
    ensures rows == GroupRows(p, jobDescription, allCheckDates, threshold)
  {
    var employees := p.vals[jobDescription];
    rows := [];
    var e := 0;
    while e < |employees.keys|
      invariant 0 <= e <= |employees.keys|
      invariant rows == EmployeeRows(jobDescription, employees, employees.keys[..e], allCheckDates)
    {
      var empName := employees.keys[e];
      var row := FillEmployeeRow(jobDescription, empName, Child(employees, empName), allCheckDates);
      EmployeeRowsPrefix(jobDescription, employees, employees.keys, e, allCheckDates);
      rows := rows + [row];
      e := e + 1;
    }
    assert employees.keys[..e] == employees.keys;
    var countRow := FillCountRow(p, jobDescription, allCheckDates, threshold);
    rows := rows + [countRow];
    rows := rows + [Empty()];
  }

  /** One employee's row: the heading, then `row[date] = dates[date] || 0` per date column. */
  method FillEmployeeRow(jobDescription: string, empName: string, dates: Dates, allCheckDates: seq<string>)
    returns (row: Row)
    ensures row == EmployeeRow(jobDescription, empName, dates, allCheckDates)
  {
    row := Heading(jobDescription, empName);
    var d := 0;
    while d < |allCheckDates|
      invariant 0 <= d <= |allCheckDates|
      invariant row == FillDates(Heading(jobDescription, empName), allCheckDates[..d], x => NumberCell(HoursOn(dates, x)))
    {
      FillDatesPrefix(Heading(jobDescription, empName), allCheckDates, d, x => NumberCell(HoursOn(dates, x)));
      row := row.Put(allCheckDates[d], NumberCell(HoursOn(dates, allCheckDates[d])));
      d := d + 1;
    }
    assert allCheckDates[..d] == allCheckDates;
  }

  /** A group's count row: the label, then `countRow[date] = getThresholdCount(job, date)` per
      date column. */
  method FillCountRow(p: PivotData, jobDescription: string, allCheckDates: seq<string>, threshold: Decimal)
    returns (countRow: Row)
    requires jobDescription in p.vals
    ensures countRow == CountRow(p, jobDescription, allCheckDates, threshold)
  {
    countRow := Heading(CountLabel(threshold), "");
    var d := 0;
    while d < |allCheckDates|
      invariant 0 <= d <= |allCheckDates|
      invariant countRow == FillDates(Heading(CountLabel(threshold), ""), allCheckDates[..d],
                                      x => NumberCell(ThresholdCount(p, jobDescription, x, Real(threshold)) as real))
    {
      FillDatesPrefix(Heading(CountLabel(threshold), ""), allCheckDates, d,
                      x => NumberCell(ThresholdCount(p, jobDescription, x, Real(threshold)) as real));
      countRow := countRow.Put(allCheckDates[d],
                               NumberCell(ThresholdCount(p, jobDescription, allCheckDates[d], Real(threshold)) as real));
      d := d + 1;
    }
    assert allCheckDates[..d] == allCheckDates;
  }

  lemma FillDatesPrefix(row: Row, dates: seq<string>, d: nat, cell: string -> Cell)
    requires d < |dates|
    ensures FillDates(row, dates[..d + 1], cell) == FillDates(row, dates[..d], cell).Put(dates[d], cell(dates[d]))
  {
    PrefixSnoc(dates, d);
    assert dates[..d + 1][..d] == dates[..d];
  }

  lemma EmployeeRowsPrefix(job: string, es: Employees, emps: seq<string>, e: nat, axis: seq<string>)
    requires e < |emps|
    ensures EmployeeRows(job, es, emps[..e + 1], axis)
            == EmployeeRows(job, es, emps[..e], axis) + [EmployeeRow(job, emps[e], Child(es, emps[e]), axis)]
  {
    PrefixSnoc(emps, e);
    assert emps[..e + 1][..e] == emps[..e];
  }

  lemma ExportRowsPrefix(p: PivotData, jobs: seq<string>, g: nat, axis: seq<string>, threshold: Decimal)
    requires g < |jobs| && forall j :: j in jobs ==> j in p.vals
    ensures forall j :: j in jobs[..g + 1] ==> j in p.vals
    ensures forall j :: j in jobs[..g] ==> j in p.vals
    ensures ExportRows(p, jobs[..g + 1], axis, threshold)
            == ExportRows(p, jobs[..g], axis, threshold) + GroupRows(p, jobs[g], axis, threshold)
  {
    PrefixSnoc(jobs, g);
    assert jobs[..g + 1][..g] == jobs[..g];
  }

  // ------------------------------------------------------------------------------------------
  // What the export holds

  /** A filled column holds the cell of its date; any other column keeps what the row had. */
  lemma {:induction false} FillDatesAt(row: Row, dates: seq<string>, cell: string -> Cell, k: string)
    ensures k in dates ==> k in FillDates(row, dates, cell).vals && FillDates(row, dates, cell).vals[k] == cell(k)
    ensures k !in dates ==> FillDates(row, dates, cell).Get(k) == row.Get(k)
  {
    if dates != [] {
      var n := |dates| - 1;
      FillDatesAt(row, dates[..n], cell, k);
      assert dates == dates[..n] + [dates[n]];
    }
  }

  /** With distinct date columns that differ from the two heading columns, a row lists the
      headings and then the dates, in order. */
  lemma {:induction false} FillDatesKeys(row: Row, dates: seq<string>, cell: string -> Cell)
    requires Distinct(dates) && forall d :: d in dates ==> d !in row.vals
    ensures FillDates(row, dates, cell).keys == row.keys + dates
  {
    if dates != [] {
      var n := |dates| - 1;
      assert forall d :: d in dates[..n] ==> d in dates;
      FillDatesKeys(row, dates[..n], cell);
      FillDatesAt(row, dates[..n], cell, dates[n]);
      assert dates[n] !in dates[..n];
      assert dates == dates[..n] + [dates[n]];
    }
  }

  lemma {:induction false} EmployeeRowsAt(job: string, es: Employees, emps: seq<string>, axis: seq<string>, i: nat)
    requires i < |emps|
    ensures |EmployeeRows(job, es, emps, axis)| == |emps|
    ensures EmployeeRows(job, es, emps, axis)[i] == EmployeeRow(job, emps[i], Child(es, emps[i]), axis)
  {
    var n := |emps| - 1;
    EmployeeRowsLength(job, es, emps[..n], axis);
    if i < n {
      EmployeeRowsAt(job, es, emps[..n], axis, i);
    }
  }

  lemma {:induction false} EmployeeRowsLength(job: string, es: Employees, emps: seq<string>, axis: seq<string>)
    ensures |EmployeeRows(job, es, emps, axis)| == |emps|
  {
    if emps != [] {
      EmployeeRowsLength(job, es, emps[..|emps| - 1], axis);
    }
  }

  /** A job group is its employees' rows in key order, then the count row, then an empty row;
      every employee row shows under each date column the hours of that employee's pivot cell,
      and the count row shows the threshold count of each date. */
  lemma GroupShape(p: PivotData, job: string, axis: seq<string>, threshold: Decimal, i: nat, date: string)
    requires job in p.vals && date in axis
    ensures var rows := GroupRows(p, job, axis, threshold);
            var emps := EmployeesOf(p, job);
            && |rows| == |emps| + 2
            && (i < |emps| ==> date in rows[i].vals && rows[i].vals[date] == NumberCell(CellHours(p, job, emps[i], date)))
            && rows[|emps|] == CountRow(p, job, axis, threshold)
            && date in rows[|emps|].vals
            && rows[|emps|].vals[date] == NumberCell(ThresholdCount(p, job, date, Real(threshold)) as real)
            && rows[|emps| + 1] == Empty()
  {
    var emps := p.vals[job].keys;
    EmployeeRowsLength(job, p.vals[job], emps, axis);
    if i < |emps| {
      EmployeeRowsAt(job, p.vals[job], emps, axis, i);
      var dates := Child(p.vals[job], emps[i]);
      FillDatesAt(Heading(job, emps[i]), axis, d => NumberCell(HoursOn(dates, d)), date);
    }
    FillDatesAt(Heading(CountLabel(threshold), ""), axis,
                d => NumberCell(ThresholdCount(p, job, d, Real(threshold)) as real), date);
  }

  /** Unless a date column is called "JobDescription" or "Employee", an employee row starts with
      the job and the name, and the count row with its label and an empty name. */
  lemma Headings(p: PivotData, job: string, emp: string, dates: Dates, axis: seq<string>, threshold: Decimal)
    requires job in p.vals && "JobDescription" !in axis && "Employee" !in axis
    ensures EmployeeRow(job, emp, dates, axis).Get("JobDescription") == Some(TextCell(job))
    ensures EmployeeRow(job, emp, dates, axis).Get("Employee") == Some(TextCell(emp))
    ensures CountRow(p, job, axis, threshold).Get("JobDescription") == Some(TextCell(CountLabel(threshold)))
    ensures CountRow(p, job, axis, threshold).Get("Employee") == Some(TextCell(""))
  {
    FillDatesAt(Heading(job, emp), axis, d => NumberCell(HoursOn(dates, d)), "JobDescription");
    FillDatesAt(Heading(job, emp), axis, d => NumberCell(HoursOn(dates, d)), "Employee");
    var cell := d => NumberCell(ThresholdCount(p, job, d, Real(threshold)) as real);
    FillDatesAt(Heading(CountLabel(threshold), ""), axis, cell, "JobDescription");
    FillDatesAt(Heading(CountLabel(threshold), ""), axis, cell, "Employee");
  }

  /** The number of rows the listed groups produce: each employee plus two. */
  function GroupSizes(p: PivotData, jobs: seq<string>): nat {
    if jobs == [] then 0
    else GroupSizes(p, jobs[..|jobs| - 1]) + |EmployeesOf(p, jobs[|jobs| - 1])| + 2
  }

  lemma {:induction false} ExportLength(p: PivotData, jobs: seq<string>, axis: seq<string>, threshold: Decimal)
    requires forall j :: j in jobs ==> j in p.vals
    ensures |ExportRows(p, jobs, axis, threshold)| == GroupSizes(p, jobs)
  {
    if jobs != [] {
      var n := |jobs| - 1;
      assert forall j :: j in jobs[..n] ==> j in jobs;
      ExportLength(p, jobs[..n], axis, threshold);
      EmployeeRowsLength(jobs[n], p.vals[jobs[n]], p.vals[jobs[n]].keys, axis);
    }
  }

  /** Exporting one list of groups after another is exporting both in turn. */
  lemma {:induction false} ExportAppend(p: PivotData, a: seq<string>, b: seq<string>, axis: seq<string>, threshold: Decimal)
    requires forall j :: j in a + b ==> j in p.vals
    ensures forall j :: j in a ==> j in p.vals
    ensures forall j :: j in b ==> j in p.vals
    ensures ExportRows(p, a + b, axis, threshold) == ExportRows(p, a, axis, threshold) + ExportRows(p, b, axis, threshold)
    decreases |b|
  {
    assert forall j :: j in a ==> j in a + b;
    assert forall j :: j in b ==> j in a + b;
    if b == [] {
      assert a + b == a;
    } else {
      var n := |b| - 1;
      assert (a + b)[..|a + b| - 1] == a + b[..n];
      assert forall j :: j in a + b[..n] ==> j in a + b;
      ExportAppend(p, a, b[..n], axis, threshold);
    }
  }

  /** Group `g` of the pivot occupies the rows right after the groups before it, in pivot order. */
  lemma GroupPlacement(p: PivotData, axis: seq<string>, threshold: Decimal, g: nat)
    requires WellFormed(p) && g < |p.keys|
    ensures p.keys[g] in p.vals
    ensures forall j :: j in p.keys[..g] ==> j in p.vals
    ensures forall j :: j in p.keys[g + 1..] ==> j in p.vals
    ensures ExportRows(p, p.keys, axis, threshold)
            == ExportRows(p, p.keys[..g], axis, threshold) + GroupRows(p, p.keys[g], axis, threshold)
               + ExportRows(p, p.keys[g + 1..], axis, threshold)
    ensures |ExportRows(p, p.keys[..g], axis, threshold)| == GroupSizes(p, p.keys[..g])
  {
    var ks := p.keys;
    assert ks == ks[..g + 1] + ks[g + 1..];
    assert forall j :: j in ks[..g] ==> j in ks;
    assert forall j :: j in ks[g + 1..] ==> j in ks;
    ExportAppend(p, ks[..g + 1], ks[g + 1..], axis, threshold);
    ExportRowsPrefix(p, ks, g, axis, threshold);
    ExportLength(p, ks[..g], axis, threshold);
  }

  // ------------------------------------------------------------------------------------------
  // A worked example

  /** A shift of Alice, a nurse, on 2024-01-01. */
  function NurseRow(sick: int, wali: int): Record {
    Obj(["JobDescription", "EmpName", "CheckDate", "ESSickHours", "EWALIWALIHours"],
        map["JobDescription" := Str("Nurse"), "EmpName" := Str("Alice"),
            "CheckDate" := Str("2024-01-01"), "ESSickHours" := Num(Decimal(sick, 0)),
            "EWALIWALIHours" := Num(Decimal(wali, 0))])
  }

  /** The example's rows: shifts of 20 + 25 and 0 + 0 hours. */
  function NurseRows(): seq<Record> {
    [NurseRow(20, 25), NurseRow(0, 0)]
  }

  lemma NurseRowFacts(sick: int, wali: int)
    ensures var r := NurseRow(sick, wali);
            JobOf(r) == "Nurse" && EmpOf(r) == "Alice" && DateOf(r) == "2024-01-01"
            && HoursOf(r) == (sick + wali) as real
  {
    var r := NurseRow(sick, wali);
    assert Field(r, "ESSickHours") == Num(Decimal(sick, 0));
    assert Field(r, "EWALIWALIHours") == Num(Decimal(wali, 0));
    assert Field(r, "JobDescription") == Str("Nurse");
    assert Field(r, "EmpName") == Str("Alice");
    assert Field(r, "CheckDate") == Str("2024-01-01");
  }

  /** The pivot of the example holds one group with one cell: 45 hours. */
  lemma NursePivot(p: PivotData)
    requires Represents(p, NurseRows())
    ensures p.keys == ["Nurse"] && EmployeesOf(p, "Nurse") == ["Alice"]
    ensures CellHours(p, "Nurse", "Alice", "2024-01-01") == 45.0
  {
    NurseRowFacts(20, 25);
    NurseRowFacts(0, 0);
    SamePathMerges(p, NurseRow(20, 25), NurseRow(0, 0));
  }

  /** At the default threshold of 40 the example's count is 1. */
  lemma NurseCount(p: PivotData)
    requires Represents(p, NurseRows())
    ensures ThresholdCount(p, "Nurse", "2024-01-01", 40.0) == 1
  {
    NursePivot(p);
    var es := p.vals["Nurse"];
    assert es.keys == ["Alice"] && es.keys[..0] == [];
    assert "Alice" in es.vals;
    HoursOnIsCell(p, "Nurse", "Alice", "2024-01-01");
    assert CountReaching(es.keys, es, "2024-01-01", 40.0)
           == CountReaching([], es, "2024-01-01", 40.0) + 1;
  }

  /** The count row of the default threshold is labelled "COUNT ≥ 40 HRS". */
  lemma DefaultLabel()
    ensures CountLabel(Decimal(40, 0)) == "COUNT \U{2265} 40 HRS"
  {
    assert DigitsText(40) == DigitsText(4) + ['0'];
  }

  /** The export of a pivot with a single group of a single employee, over one date column:
      the employee's row, the count row and an empty row. */
  lemma SingleGroupExport(p: PivotData, job: string, emp: string, date: string, t: Decimal)
    requires p.keys == [job] && job in p.vals && EmployeesOf(p, job) == [emp]
    ensures var rows := ExportRows(p, p.keys, [date], t);
            && |rows| == 3
            && rows[0].Get(date) == Some(NumberCell(CellHours(p, job, emp, date)))
            && rows[1].Get(date) == Some(NumberCell(ThresholdCount(p, job, date, Real(t)) as real))
            && rows[2] == Empty()
  {
    assert p.keys[..0] == [];
    assert ExportRows(p, p.keys, [date], t) == GroupRows(p, job, [date], t);
    GroupShape(p, job, [date], t, 0, date);
  }

  lemma WholeReal(n: int)
    ensures Real(Decimal(n, 0)) == n as real
  {
    assert Pow10(0) == 1;
  }

  /** The example's export: Alice's row with 45 hours, the count row with 1, an empty row. */
  lemma NurseExport(p: PivotData)
    requires Represents(p, NurseRows())
    ensures WellFormed(p)
    ensures var rows := ExportRows(p, p.keys, ["2024-01-01"], Decimal(40, 0));
            && |rows| == 3
            && rows[0].Get("2024-01-01") == Some(NumberCell(45.0))
            && rows[1].Get("2024-01-01") == Some(NumberCell(1.0))
            && rows[2] == Empty()
  {
    NursePivot(p);
    NurseCount(p);
    WholeReal(40);
    NurseExportFrom(p);
  }

  lemma NurseExportFrom(p: PivotData)
    requires p.keys == ["Nurse"] && "Nurse" in p.vals && EmployeesOf(p, "Nurse") == ["Alice"]
    requires CellHours(p, "Nurse", "Alice", "2024-01-01") == 45.0
    requires ThresholdCount(p, "Nurse", "2024-01-01", Real(Decimal(40, 0))) == 1
    ensures var rows := ExportRows(p, p.keys, ["2024-01-01"], Decimal(40, 0));
            && |rows| == 3
            && rows[0].Get("2024-01-01") == Some(NumberCell(45.0))
            && rows[1].Get("2024-01-01") == Some(NumberCell(1.0))
            && rows[2] == Empty()
  {
    SingleGroupExport(p, "Nurse", "Alice", "2024-01-01", Decimal(40, 0));
  }
}
