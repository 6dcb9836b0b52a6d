/** The numbers behind the dashboard's charts (src/components/Dashboard.tsx:22-59): the first
    numeric column of the first row, summed per text of each row's first field, at most five
    groups. */
module Dashboard {
  import opened Common
  import opened Objects
  import opened JsValues
  import opened Pivot

  /** `typeof v === 'number'` */
  predicate IsNumber(v: Value) {
    v.Num?
  }

  /** `numericColumns`: the columns of the row that hold a number, in column order. */
  function NumericColumns(r: Record): (cols: seq<string>)
    ensures IsSubsequence(cols, r.keys)
    ensures forall c :: c in cols <==> c in r.keys && IsNumber(Field(r, c))
  {
    Filter(r.keys, c => IsNumber(Field(r, c)))
  }

  /** `row[Object.keys(row)[0]]`: the cell of the row's first column. A row without columns reads
      the property named "undefined", which it does not have either. */
  function FirstField(r: Record): Value {
    Field(r, if r.keys == [] then "undefined" else r.keys[0])
  }

  /** The row has a first field and a metric (`!= null` also rules out `undefined`). */
  predicate IsValidRow(r: Record, metric: string) {
    FirstField(r) != Null && Field(r, metric) != Null
  }

  /** `validData` */
  function ValidRows(data: seq<Record>, metric: string): (rows: seq<Record>)
    ensures IsSubsequence(rows, data)
    ensures forall r :: r in rows <==> r in data && IsValidRow(r, metric)
  {
    Filter(data, r => IsValidRow(r, metric))
  }

  /** Each valid row is kept as often as it occurs in the data, and an invalid row not at all. */
  lemma ValidRowsCounts(data: seq<Record>, metric: string)
    ensures forall r :: multiset(ValidRows(data, metric))[r] == if IsValidRow(r, metric) then multiset(data)[r] else 0
  {
    FilterCounts(data, r => IsValidRow(r, metric));
  }

  /** `String(row[Object.keys(row)[0]])`: the group a row adds to. */
  function NameOf(r: Record): string {
    Text(FirstField(r))
  }

  /** The group of every row, in row order. */
  function Names(rows: seq<Record>): (ns: seq<string>)
    ensures |ns| == |rows|
  {
    if rows == [] then [] else Names(rows[..|rows| - 1]) + [NameOf(rows[|rows| - 1])]
  }

  /** `x + y` on JavaScript numbers: NaN absorbs everything. */
  function Add(a: JsNumber, b: JsNumber): JsNumber {
    if a.NaN? || b.NaN? then NaN else Finite(a.x + b.x)
  }

  /** `acc[key] || 0`: a missing entry, 0 and NaN all read as 0. */
  function SoFar(acc: Obj<JsNumber>, key: string): JsNumber {
    if key in acc.vals && acc.vals[key].Finite? then acc.vals[key] else Finite(0.0)
  }

  /** The `reduce`: `acc[key] = (acc[key] || 0) + Number(row[metric])` for every row in order. */
  function GroupSums(rows: seq<Record>, metric: string): (acc: Obj<JsNumber>)
    ensures forall name {:trigger name in acc.vals} :: name in acc.vals <==> name in Names(rows)
  {
    if rows == [] then Empty()
    else
      var r := rows[|rows| - 1];
      var acc := GroupSums(rows[..|rows| - 1], metric);
      acc.Put(NameOf(r), Add(SoFar(acc, NameOf(r)), ToNumber(Field(r, metric))))
  }

  /** `{ name, value }` */
  datatype Entry = Entry(name: string, value: JsNumber)

  /** `Object.entries(acc).map(([name, value]) => ({ name, value }))` */
  function Entries(acc: Obj<JsNumber>): (es: seq<Entry>)
    ensures |es| == |acc.keys|
    ensures forall i :: 0 <= i < |es| ==> es[i].name == acc.keys[i]
    ensures acc.Valid() ==> forall i :: 0 <= i < |es| ==> es[i].value == acc.vals[acc.keys[i]]
  {
    seq(|acc.keys|, i requires 0 <= i < |acc.keys| =>
      Entry(acc.keys[i], if acc.keys[i] in acc.vals then acc.vals[acc.keys[i]] else NaN))
  }

  /** `slice(0, 5)` */
  function TakeFive<T>(s: seq<T>): (r: seq<T>)
    ensures |r| == if |s| < 5 then |s| else 5
    ensures r == s[..|r|]
  {
    if |s| <= 5 then s else s[..5]
  }

  /** What the dashboard draws. */
  datatype Output = Nothing | NoValidData | Charts(entries: seq<Entry>)

  /** The component: nothing without rows or without a numeric first-row column, the "no valid
      numeric data" message when no group remains, otherwise the charts of the first five
      groups. */
  function Render(data: seq<Record>): (out: Output)
    ensures |data| == 0 ==> out == Nothing
    ensures out.Charts? ==> 0 < |out.entries| <= 5
  {
    if |data| == 0 then Nothing
    else
      var numericColumns := NumericColumns(data[0]);
      if |numericColumns| == 0 then Nothing
      else
        var primaryMetric := numericColumns[0];
        var aggregatedData := TakeFive(Entries(GroupSums(ValidRows(data, primaryMetric), primaryMetric)));
        if |aggregatedData| == 0 then NoValidData else Charts(aggregatedData)
  }

  // ------------------------------------------------------------------------------------------
  // What the dashboard promises

  /** The groups are the distinct names of the rows, in the order each first occurs, and every
      group has a value. */
  lemma {:induction false} GroupSumsKeys(rows: seq<Record>, metric: string)
    ensures GroupSums(rows, metric).Valid()
    ensures GroupSums(rows, metric).keys == FirstSeen(Names(rows))
  {
    if rows != [] {
      var n := |rows| - 1;
      var acc := GroupSums(rows[..n], metric);
      GroupSumsKeys(rows[..n], metric);
      PutValid(acc, NameOf(rows[n]), Add(SoFar(acc, NameOf(rows[n])), ToNumber(Field(rows[n], metric))));
      FirstSeenSnoc(Names(rows[..n]), NameOf(rows[n]));
      assert Names(rows) == Names(rows[..n]) + [NameOf(rows[n])];
    }
  }

  /** Every metric of the rows reads as a number. */
  predicate AllNumeric(rows: seq<Record>, metric: string) {
    forall i :: 0 <= i < |rows| ==> ToNumber(Field(rows[i], metric)).Finite?
  }

  /** The sum of `Number(row[metric])` over the rows of group `name`. */
  function SumFor(rows: seq<Record>, metric: string, name: string): real {
    if rows == [] then 0.0
    else
      var r := rows[|rows| - 1];
      SumFor(rows[..|rows| - 1], metric, name)
      + (if NameOf(r) == name then OrZero(ToNumber(Field(r, metric))) else 0.0)
  }

  /** When every metric is a number, a group's value is the sum of its rows' metrics; a name
      that no row has is no group. */
  lemma {:induction false} GroupValue(rows: seq<Record>, metric: string, name: string)
    requires AllNumeric(rows, metric)
    ensures name in GroupSums(rows, metric).vals <==> name in Names(rows)
    ensures name in GroupSums(rows, metric).vals ==>
              GroupSums(rows, metric).vals[name] == Finite(SumFor(rows, metric, name))
    ensures name !in Names(rows) ==> SumFor(rows, metric, name) == 0.0
  {
    if rows != [] {
      var n := |rows| - 1;
      assert AllNumeric(rows[..n], metric) by {
        forall i | 0 <= i < n ensures ToNumber(Field(rows[..n][i], metric)).Finite? {
          assert rows[..n][i] == rows[i];
        }
      }
      GroupValue(rows[..n], metric, name);
      GroupStep(rows, metric, name);
    }
  }

  lemma GroupStep(rows: seq<Record>, metric: string, name: string)
    requires rows != [] && ToNumber(Field(rows[|rows| - 1], metric)).Finite?
    requires var front := rows[..|rows| - 1];
             && (name !in Names(front) ==> SumFor(front, metric, name) == 0.0)
             && (name in GroupSums(front, metric).vals ==>
                   GroupSums(front, metric).vals[name] == Finite(SumFor(front, metric, name)))
    ensures name in GroupSums(rows, metric).vals ==>
              GroupSums(rows, metric).vals[name] == Finite(SumFor(rows, metric, name))
    ensures name !in Names(rows) ==> SumFor(rows, metric, name) == 0.0
  {
    var n := |rows| - 1;
    var key := NameOf(rows[n]);
    var x := ToNumber(Field(rows[n], metric));
    assert Names(rows) == Names(rows[..n]) + [key];
    AddNumber(GroupSums(rows[..n], metric), key, x.x, name, SumFor(rows[..n], metric, name));
  }

  /** One more finite metric for group `key`: that group's value grows by it, the others stay. */
  lemma AddNumber(acc: Obj<JsNumber>, key: string, x: real, name: string, before: real)
    requires name in acc.vals ==> acc.vals[name] == Finite(before)
    requires name !in acc.vals ==> before == 0.0
    ensures var acc' := acc.Put(key, Add(SoFar(acc, key), Finite(x)));
            && (name in acc'.vals <==> name in acc.vals || name == key)
            && (name in acc'.vals ==> acc'.vals[name] == Finite(before + if name == key then x else 0.0))
  {
  }

  /** A metric that does not read as a number makes its group NaN. */
  lemma NaNMakesGroupNaN(a: Record, metric: string)
    requires ToNumber(Field(a, metric)).NaN?
    ensures GroupSums([a], metric).vals[NameOf(a)] == NaN
  {
    assert [a][..0] == [];
  }

  /** The next row of the same group starts a NaN group again from 0 (`NaN || 0`): the earlier
      rows are forgotten. */
  lemma NaNIsForgotten(a: Record, b: Record, metric: string)
    requires NameOf(a) == NameOf(b)
    requires ToNumber(Field(a, metric)).NaN? && ToNumber(Field(b, metric)).Finite?
    ensures GroupSums([a, b], metric).vals[NameOf(a)] == ToNumber(Field(b, metric))
  {
    assert [a, b][..1] == [a] && [a][..0] == [];
  }

  /** A NaN metric after a number makes the group NaN. */
  lemma NaNAbsorbs(a: Record, b: Record, metric: string)
    requires NameOf(a) == NameOf(b)
    requires ToNumber(Field(a, metric)).NaN? && ToNumber(Field(b, metric)).Finite?
    ensures GroupSums([b, a], metric).vals[NameOf(a)] == NaN
  {
    assert [b, a][..1] == [b] && [b][..0] == [];
  }

  /** Without rows, and without a numeric column in the first row, nothing is drawn. */
  lemma NothingWithoutMetric(data: seq<Record>)
    requires |data| == 0 || forall c :: c in data[0].keys ==> !IsNumber(Field(data[0], c))
    ensures Render(data) == Nothing
  {
    if |data| > 0 {
      var r := data[0];
      forall i | 0 <= i < |r.keys| ensures !IsNumber(Field(r, r.keys[i])) {
        assert r.keys[i] in r.keys;
      }
      FilterNone(r.keys, c => IsNumber(Field(r, c)));
    }
  }

  /** The metric is the first column of the first row that holds a number. */
  lemma MetricIsFirstNumeric(data: seq<Record>, k: nat)
    requires |data| > 0 && k < |data[0].keys| && IsNumber(Field(data[0], data[0].keys[k]))
    requires forall i :: 0 <= i < k ==> !IsNumber(Field(data[0], data[0].keys[i]))
    ensures |NumericColumns(data[0])| > 0 && NumericColumns(data[0])[0] == data[0].keys[k]
  {
    var r := data[0];
    FilterHead(r.keys, c => IsNumber(Field(r, c)), k);
  }

  /** The message replaces the charts exactly when no row is valid. */
  lemma NoValidDataWhenNoValidRow(data: seq<Record>)
    requires |data| > 0 && |NumericColumns(data[0])| > 0
    ensures var metric := NumericColumns(data[0])[0];
            Render(data) == NoValidData <==> ValidRows(data, metric) == []
  {
    var metric := NumericColumns(data[0])[0];
    var rows := ValidRows(data, metric);
    GroupSumsKeys(rows, metric);
    if rows != [] {
      assert NameOf(rows[0]) in Names(rows) by {
        NamesAt(rows, 0);
      }
    }
  }

  lemma {:induction false} NamesAt(rows: seq<Record>, i: nat)
    requires i < |rows|
    ensures Names(rows)[i] == NameOf(rows[i])
  {
    var n := |rows| - 1;
    if i < n {
      NamesAt(rows[..n], i);
    }
  }

  /** The charts show at most five groups: the first five of all groups, in first-seen order. */
  lemma ChartsArePrefix(data: seq<Record>)
    requires Render(data).Charts?
    ensures var metric := NumericColumns(data[0])[0];
            var all := Entries(GroupSums(ValidRows(data, metric), metric));
            |Render(data).entries| <= 5 && Render(data).entries == all[..|Render(data).entries|]
  {
  }

  /** The sum of `Number(row[metric])` over the valid rows of the data named `name`, each row
      counted as often as it occurs. */
  function ValidSumFor(data: seq<Record>, metric: string, name: string): real {
    if data == [] then 0.0
    else
      var r := data[|data| - 1];
      ValidSumFor(data[..|data| - 1], metric, name)
      + (if IsValidRow(r, metric) && NameOf(r) == name then OrZero(ToNumber(Field(r, metric))) else 0.0)
  }

  /** Summing over the valid rows is summing the valid rows of the data. */
  lemma {:induction false} ValidSum(data: seq<Record>, metric: string, name: string)
    ensures SumFor(ValidRows(data, metric), metric, name) == ValidSumFor(data, metric, name)
  {
    if data != [] {
      var n := |data| - 1;
      ValidSum(data[..n], metric, name);
      ValidRowsSnoc(data, metric);
      SumForSnoc(ValidRows(data[..n], metric), data[n], metric, name);
    }
  }

  /** The valid rows of a non-empty sequence: those of its front, then its last row if valid. */
  lemma ValidRowsSnoc(data: seq<Record>, metric: string)
    requires data != []
    ensures var n := |data| - 1;
            ValidRows(data, metric)
            == if IsValidRow(data[n], metric) then ValidRows(data[..n], metric) + [data[n]]
               else ValidRows(data[..n], metric)
  {
  }

  /** Summing one more row adds its metric to the group it names. */
  lemma SumForSnoc(rows: seq<Record>, r: Record, metric: string, name: string)
    ensures SumFor(rows + [r], metric, name)
            == SumFor(rows, metric, name) + (if NameOf(r) == name then OrZero(ToNumber(Field(r, metric))) else 0.0)
  {
    assert (rows + [r])[..|rows|] == rows;
  }

  /** Every valid row's metric reads as a number. */
  predicate ValidNumeric(data: seq<Record>, metric: string) {
    forall r :: r in data && IsValidRow(r, metric) ==> ToNumber(Field(r, metric)).Finite?
  }

  /** Each charted entry names a group of valid rows. When every valid row's metric reads as a
      number, its value is the sum of the metric over the valid rows with that name. */
  lemma ChartValues(data: seq<Record>, i: nat)
    requires Render(data).Charts? && i < |Render(data).entries|
    ensures var metric := NumericColumns(data[0])[0];
            var e := Render(data).entries[i];
            && e.name in Names(ValidRows(data, metric))
            && (ValidNumeric(data, metric) ==> e.value == Finite(ValidSumFor(data, metric, e.name)))
  {
    var metric := NumericColumns(data[0])[0];
    var rows := ValidRows(data, metric);
    var acc := GroupSums(rows, metric);
    ChartsArePrefix(data);
    GroupSumsKeys(rows, metric);
    var e := Render(data).entries[i];
    assert e == Entries(acc)[i];
    assert e.name == acc.keys[i] && e.name in acc.vals;
    if ValidNumeric(data, metric) {
      forall k | 0 <= k < |rows| ensures ToNumber(Field(rows[k], metric)).Finite? {
        assert rows[k] in rows;
      }
      GroupValue(rows, metric, e.name);
      ValidSum(data, metric, e.name);
    } else {
      assert e.name in FirstSeen(Names(rows));
    }
  }
}
