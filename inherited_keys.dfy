/** The pivot as src/components/DataTable.tsx:36-46 literally builds it on a plain `{}`: the
    existence tests `!pivot[jobDescription]` and `!pivot[jobDescription][empName]` look the key
    up through the prototype chain, so a job or employee called like a method every object
    inherits ("toString", "constructor", ...) reads as an existing (function) value. No own
    entry is created for it and its hours are added to the inherited function instead, where
    `Object.keys` and `Object.entries` never see them. */
module InheritedKeys {
  import opened Objects
  import opened JsValues
  import opened Pivot

  /** The names of the methods a plain object inherits from `Object.prototype`. */
  const InheritedNames: set<string> := {
    "constructor", "hasOwnProperty", "isPrototypeOf", "propertyIsEnumerable",
    "toLocaleString", "toString", "valueOf",
    "__defineGetter__", "__defineSetter__", "__lookupGetter__", "__lookupSetter__"
  }

  /** One row filed as written: an inherited job name changes no own key; an inherited
      employee name creates the job entry but nothing under it. Either way every other job
      keeps its entry. */
  ghost function AccumulatedAsWritten(p: PivotData, job: string, emp: string, date: string, h: real): (q: PivotData)
    ensures forall j :: j in q.vals <==> j in p.vals || (j == job && job !in InheritedNames)
    ensures q.keys == if job in InheritedNames || job in p.vals then p.keys else p.keys + [job]
    ensures forall j :: j in p.vals && j != job ==> q.vals[j] == p.vals[j]
    ensures job in InheritedNames ==> q == p
  {
    if job in InheritedNames then p
    else if emp in InheritedNames then p.Put(job, Child(p, job))
    else Accumulated(p, job, emp, date, h)
  }

  /** The pivot of `data` as written. Its jobs are the rows' jobs except the inherited names:
      a job named like an inherited method never becomes a key, however many rows carry it. */
  ghost function PivotAsWritten(data: seq<Record>): (p: PivotData)
    ensures forall j :: j in p.vals <==> j !in InheritedNames && j in JobKeys(data)
  {
    if data == [] then Empty()
    else
      var r := data[|data| - 1];
      AccumulatedAsWritten(PivotAsWritten(data[..|data| - 1]), JobOf(r), EmpOf(r), DateOf(r), HoursOf(r))
  }

  /** One shift of a nurse called "Alice" whose job description cell reads "toString". */
  function ToStringRow(): Record {
    Obj(["JobDescription", "EmpName", "CheckDate", "ESSickHours", "EWALIWALIHours"],
        map["JobDescription" := Str("toString"), "EmpName" := Str("Alice"),
            "CheckDate" := Str("2024-01-05"), "ESSickHours" := Num(Decimal(8, 0)),
            "EWALIWALIHours" := Null])
  }

  /** As written, the row's eight hours vanish: the pivot has no job at all, so neither the
      table nor the export shows them. */
  lemma ToStringRowLostAsWritten()
    ensures TotalHours([ToStringRow()]) == 8.0
    ensures PivotAsWritten([ToStringRow()]).keys == []
    ensures PivotTotal(PivotAsWritten([ToStringRow()])) == 0.0
  {
    var r := ToStringRow();
    assert JobOf(r) == "toString";
    assert HoursOf(r) == 8.0;
    assert [r][..0] == [];
  }

  /** With own-key lookups (the model in `Pivot`), the same row is filed and keeps its hours. */
  lemma ToStringRowKept(p: PivotData)
    requires Represents(p, [ToStringRow()])
    ensures p.keys == ["toString"]
    ensures HasCell(p, "toString", "Alice", "2024-01-05")
    ensures CellHours(p, "toString", "Alice", "2024-01-05") == 8.0
  {
    var r := ToStringRow();
    assert JobOf(r) == "toString" && EmpOf(r) == "Alice" && DateOf(r) == "2024-01-05";
    assert HoursOf(r) == 8.0;
    assert [r][..0] == [];
    assert JobKeys([r]) == ["toString"];
    assert OnPath(r, "toString", "Alice", "2024-01-05");
    assert Occurs([r], "toString", "Alice", "2024-01-05");
    assert HoursAt([r], "toString", "Alice", "2024-01-05") == 8.0;
  }

  /** For names outside the inherited ones the literal code and the model agree. */
  lemma {:induction false} AsWrittenAgrees(data: seq<Record>)
    requires forall k :: 0 <= k < |data| ==> JobOf(data[k]) !in InheritedNames && EmpOf(data[k]) !in InheritedNames
    ensures PivotAsWritten(data) == PivotOf(data)
  {
    if data != [] {
      AsWrittenAgrees(data[..|data| - 1]);
    }
  }
}
