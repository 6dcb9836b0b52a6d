/** The columns of the table and of the export (src/components/DataTable.tsx:52-60,
    `allCheckDates`): every check date that some row actually carries, once each, in calendar
    order. */
module DateAxis {
  import opened Common
  import opened Objects
  import opened JsValues
  import opened Pivot

  // ------------------------------------------------------------------------------------------
  // `new Date(s).getTime()`, for dates written yyyy-mm-dd

  predicate LeapYear(y: nat) {
    y % 4 == 0 && (y % 100 != 0 || y % 400 == 0)
  }

  function DaysInMonth(y: nat, m: nat): nat
    requires 1 <= m <= 12
  {
    if m == 2 then (if LeapYear(y) then 29 else 28)
    else if m == 4 || m == 6 || m == 9 || m == 11 then 30
    else 31
  }

  /** A key that orders calendar days as their times do: `y * 10000 + m * 100 + d` for text of
      the form yyyy-mm-dd naming a day of the Gregorian calendar, nothing for any other text. */
  function DateKey(s: string): Option<int> {
    if |s| == 10 && s[4] == '-' && s[7] == '-'
       && AllDigits(s[..4]) && AllDigits(s[5..7]) && AllDigits(s[8..])
    then
      var y := DigitsValue(s[..4]);
      var m := DigitsValue(s[5..7]);
      var d := DigitsValue(s[8..]);
      if 1 <= m <= 12 && 1 <= d <= DaysInMonth(y, m) then Some(y * 10000 + m * 100 + d) else None
    else None
  }

  /** The comparator `new Date(a).getTime() - new Date(b).getTime() < 0`: `a` is an earlier
      day than `b`. A text that is not a date compares as equal to everything. */
  predicate Earlier(a: string, b: string): (e: bool)
    ensures e ==> DateKey(a).Some? && DateKey(b).Some? && a != b
    ensures e ==> !(DateKey(b).value < DateKey(a).value)
  {
    DateKey(a).Some? && DateKey(b).Some? && DateKey(a).value < DateKey(b).value
  }

  predicate AllDates(s: seq<string>) {
    forall i :: 0 <= i < |s| ==> DateKey(s[i]).Some?
  }

  /** Ascending by day. */
  predicate SortedByDate(s: seq<string>) {
    forall i, j :: 0 <= i < j < |s| ==> !Earlier(s[j], s[i])
  }

  // ------------------------------------------------------------------------------------------
  // The stable sort

  /** Put `x` after every element it is not earlier than. */
  function Insert(x: string, s: seq<string>): (r: seq<string>)
    ensures multiset(r) == multiset(s) + multiset{x}
  {
    if s == [] then [x]
    else if Earlier(x, s[0]) then [x] + s
    else
      assert s == [s[0]] + s[1..];
      [s[0]] + Insert(x, s[1..])
  }

  /** `Array.prototype.sort` with the date comparator, as a stable insertion sort. */
  function SortByDate(s: seq<string>): (r: seq<string>)
    ensures multiset(r) == multiset(s)
  {
    if s == [] then []
    else
      assert s == s[..|s| - 1] + [s[|s| - 1]];
      Insert(s[|s| - 1], SortByDate(s[..|s| - 1]))
  }

  lemma {:induction false} InsertSorted(x: string, s: seq<string>)
    requires DateKey(x).Some? && AllDates(s) && SortedByDate(s)
    ensures AllDates(Insert(x, s)) && SortedByDate(Insert(x, s))
  {
    if s != [] && !Earlier(x, s[0]) {
      var s' := s[1..];
      assert AllDates(s') && SortedByDate(s');
      InsertSorted(x, s');
      var t := Insert(x, s');
      forall k | 0 <= k < |t|
        ensures DateKey(t[k]).Some? && !Earlier(t[k], s[0])
      {
        InsertFrom(x, s', k);
      }
      SortedCons(s[0], t);
    }
  }

  /** Every element of `Insert(x, s)` is `x` or an element of `s`. */
  lemma InsertFrom(x: string, s: seq<string>, k: nat)
    requires k < |Insert(x, s)|
    ensures Insert(x, s)[k] == x || exists i :: 0 <= i < |s| && s[i] == Insert(x, s)[k]
  {
    var y := Insert(x, s)[k];
    assert y in multiset(Insert(x, s));
  }

  lemma SortedCons(y: string, t: seq<string>)
    requires DateKey(y).Some? && AllDates(t) && SortedByDate(t)
    requires forall k :: 0 <= k < |t| ==> !Earlier(t[k], y)
    ensures AllDates([y] + t) && SortedByDate([y] + t)
  {
    var r := [y] + t;
    forall i, j | 0 <= i < j < |r| ensures !Earlier(r[j], r[i]) {
      if i > 0 {
        assert r[i] == t[i - 1] && r[j] == t[j - 1];
      } else {
        assert r[j] == t[j - 1];
      }
    }
    forall i | 0 <= i < |r| ensures DateKey(r[i]).Some? {
      if i > 0 {
        assert r[i] == t[i - 1];
      }
    }
  }

  /** With every element a date, the sort yields them in calendar order. */
  lemma {:induction false} SortByDateSorted(s: seq<string>)
    requires AllDates(s)
    ensures SortedByDate(SortByDate(s)) && AllDates(SortByDate(s))
  {
    if s != [] {
      var n := |s| - 1;
      assert AllDates(s[..n]) by {
        forall i | 0 <= i < n ensures DateKey(s[..n][i]).Some? {
          assert s[..n][i] == s[i];
        }
      }
      SortByDateSorted(s[..n]);
      InsertSorted(s[n], SortByDate(s[..n]));
    }
  }

  /** Reordering keeps the elements and never repeats one. */
  lemma SortByDateDistinct(s: seq<string>)
    requires Distinct(s)
    ensures Distinct(SortByDate(s))
    ensures forall x :: x in SortByDate(s) <==> x in s
  {
    var r := SortByDate(s);
    forall x ensures x in r <==> x in s {
      assert x in r <==> x in multiset(r);
      assert x in s <==> x in multiset(s);
    }
    forall i, j | 0 <= i < j < |r| ensures r[i] != r[j] {
      if r[i] == r[j] {
        MultiplicityOfRepeat(r, i, j);
        DistinctMultiplicity(s, r[i]);
      }
    }
  }

  lemma MultiplicityOfRepeat(r: seq<string>, i: nat, j: nat)
    requires i < j < |r| && r[i] == r[j]
    ensures multiset(r)[r[i]] >= 2
  {
    assert r == r[..i] + [r[i]] + r[i + 1..j] + [r[j]] + r[j + 1..];
  }

  lemma {:induction false} DistinctMultiplicity(s: seq<string>, x: string)
    requires Distinct(s)
    ensures multiset(s)[x] <= 1
  {
    if s != [] {
      var n := |s| - 1;
      assert s == s[..n] + [s[n]];
      DistinctMultiplicity(s[..n], x);
      if x == s[n] {
        assert x !in s[..n];
      }
    }
  }

  // ------------------------------------------------------------------------------------------
  // Collecting the dates

  /** `row.CheckDate` is truthy: the row names a date. */
  predicate HasDate(r: Record) {
    Truthy(Field(r, "CheckDate"))
  }

  /** The row names the date `s`: `row.CheckDate` is truthy and `String(row.CheckDate)` is `s`. */
  predicate NamesDate(r: Record, s: string) {
    HasDate(r) && Text(Field(r, "CheckDate")) == s
  }

  /** `String(row.CheckDate)` of every row that names a date, in row order. */
  function PresentDates(data: seq<Record>): seq<string> {
    if data == [] then []
    else
      var r := data[|data| - 1];
      PresentDates(data[..|data| - 1]) + (if HasDate(r) then [Text(Field(r, "CheckDate"))] else [])
  }

  lemma PresentDatesPrefix(data: seq<Record>, i: nat)
    requires i < |data|
    ensures PresentDates(data[..i + 1])
            == PresentDates(data[..i]) + (if HasDate(data[i]) then [Text(Field(data[i], "CheckDate"))] else [])
  {
    PrefixSnoc(data, i);
    assert data[..i + 1][..i] == data[..i];
  }

  /** Adding row `i`'s date, if it names one, to the set of the dates seen so far. */
  lemma CollectStep(data: seq<Record>, i: nat)
    requires i < |data|
    ensures var u := FirstSeen(PresentDates(data[..i]));
            var date := Text(Field(data[i], "CheckDate"));
            FirstSeen(PresentDates(data[..i + 1]))
            == if HasDate(data[i]) && date !in u then u + [date] else u
  {
    PresentDatesPrefix(data, i);
    var date := Text(Field(data[i], "CheckDate"));
    if HasDate(data[i]) {
      FirstSeenSnoc(PresentDates(data[..i]), date);
    } else {
      assert PresentDates(data[..i + 1]) == PresentDates(data[..i]);
    }
  }

  /** `allCheckDates`: the rows' dates added to a set one by one, then sorted by day. */
  method CollectDates(data: seq<Record>) returns (dates: seq<string>)
    ensures dates == SortByDate(FirstSeen(PresentDates(data)))
    ensures Distinct(dates)
    ensures forall s :: s in dates <==> exists r :: r in data && NamesDate(r, s)
    ensures AllDates(dates) ==> SortedByDate(dates)
  {
    var uniqueDates: seq<string> := [];
    var i := 0;
    while i < |data|
      invariant 0 <= i <= |data|
      invariant uniqueDates == FirstSeen(PresentDates(data[..i]))
    {
      var row := data[i];
      CollectStep(data, i);
      if HasDate(row) {
        var date := Text(Field(row, "CheckDate"));
        if date !in uniqueDates {
          uniqueDates := uniqueDates + [date];
        }
      }
      i := i + 1;
    }
    assert data[..|data|] == data;
    dates := SortByDate(uniqueDates);
    SortByDateDistinct(uniqueDates);
    SortedDatesMember(data, uniqueDates);
    SortedWhenAllDates(uniqueDates);
  }

  /** The sorted set of present dates holds exactly the dates some row names. */
  lemma SortedDatesMember(data: seq<Record>, u: seq<string>)
    requires u == FirstSeen(PresentDates(data))
    ensures forall s :: s in SortByDate(u) <==> exists r :: r in data && NamesDate(r, s)
  {
    SortByDateDistinct(u);
    forall s ensures s in PresentDates(data) <==> exists r :: r in data && NamesDate(r, s) {
      PresentDatesMember(data, s);
    }
  }

  /** When the sorted texts are all dates, they are in calendar order. */
  lemma SortedWhenAllDates(u: seq<string>)
    ensures AllDates(SortByDate(u)) ==> SortedByDate(SortByDate(u))
  {
    var dates := SortByDate(u);
    if AllDates(dates) {
      AllDatesPermuted(dates, u);
      SortByDateSorted(u);
    }
  }

  lemma AllDatesPermuted(a: seq<string>, b: seq<string>)
    requires AllDates(a) && multiset(a) == multiset(b)
    ensures AllDates(b)
  {
    forall i | 0 <= i < |b| ensures DateKey(b[i]).Some? {
      assert b[i] in multiset(a);
      var k :| 0 <= k < |a| && a[k] == b[i];
    }
  }

  /** A text is among the present dates exactly when some row names it as its date. */
  lemma {:induction false} PresentDatesMember(data: seq<Record>, s: string)
    ensures s in PresentDates(data) <==> exists r :: r in data && NamesDate(r, s)
  {
    if data != [] {
      var n := |data| - 1;
      SplitLast(data);
      PresentDatesMember(data[..n], s);
      assert (exists r :: r in data && NamesDate(r, s))
             <==> (exists r :: r in data[..n] && NamesDate(r, s)) || NamesDate(data[n], s);
    }
  }

  /** "Unknown", where the pivot files rows without a date, is a column only when some row
      literally carries that text as its date: the hours of undated rows are in the pivot but
      in no column. */
  lemma UndatedHoursHidden(data: seq<Record>, dates: seq<string>)
    requires dates == SortByDate(FirstSeen(PresentDates(data)))
    requires forall r :: r in data ==> !NamesDate(r, "Unknown")
    ensures "Unknown" !in dates
  {
    PresentDatesMember(data, "Unknown");
    assert "Unknown" in multiset(dates) <==> "Unknown" in multiset(FirstSeen(PresentDates(data)));
  }

  // ------------------------------------------------------------------------------------------
  // A worked example

  lemma Year2024()
    ensures AllDigits("2024") && DigitsValue("2024") == 2024
  {
    assert "2024"[..3] == "202" && "202"[..2] == "20" && "20"[..1] == "2" && "2"[..0] == "";
  }

  lemma TwoDigits(s: string)
    requires |s| == 2 && IsDigit(s[0]) && IsDigit(s[1])
    ensures AllDigits(s) && DigitsValue(s) == 10 * (s[0] as int - '0' as int) + (s[1] as int - '0' as int)
  {
    assert s[..1][..0] == [] && s[..1][0] == s[0];
    assert DigitsValue(s[..1]) == s[0] as int - '0' as int;
  }

  /** The key of a 2024 date written yyyy-mm-dd. */
  lemma KeyIn2024(s: string, m: nat, d: nat)
    requires |s| == 10 && s[0] == '2' && s[1] == '0' && s[2] == '2' && s[3] == '4'
    requires s[4] == '-' && s[7] == '-'
    requires IsDigit(s[5]) && IsDigit(s[6]) && IsDigit(s[8]) && IsDigit(s[9])
    requires m == 10 * (s[5] as int - '0' as int) + (s[6] as int - '0' as int)
    requires d == 10 * (s[8] as int - '0' as int) + (s[9] as int - '0' as int)
    requires 1 <= m <= 12 && 1 <= d <= 28
    ensures DateKey(s) == Some(20240000 + m * 100 + d)
  {
    Year2024();
    assert s[..4] == "2024" by {
      assert |s[..4]| == 4 && s[..4][0] == '2' && s[..4][1] == '0' && s[..4][2] == '2' && s[..4][3] == '4';
    }
    TwoDigits(s[5..7]);
    TwoDigits(s[8..]);
  }

  /** Three dates out of order come out in calendar order. */
  lemma SortExample()
    ensures SortByDate(["2024-02-01", "2024-01-15", "2024-03-10"])
            == ["2024-01-15", "2024-02-01", "2024-03-10"]
  {
    KeyIn2024("2024-02-01", 2, 1);
    KeyIn2024("2024-01-15", 1, 15);
    KeyIn2024("2024-03-10", 3, 10);
    SortThree("2024-02-01", "2024-01-15", "2024-03-10");
  }

  /** The second of three dates is the earliest and the third the latest. */
  lemma SortThree(a: string, b: string, c: string)
    requires Earlier(b, a) && Earlier(a, c) && Earlier(b, c)
    ensures SortByDate([a, b, c]) == [b, a, c]
  {
    SortTwo(a, b);
    assert [a, b, c][..2] == [a, b];
    assert SortByDate([a, b, c]) == Insert(c, [b, a]);
    assert !Earlier(c, b) && !Earlier(c, a);
    InsertLast(c, [b, a]);
  }

  lemma SortTwo(a: string, b: string)
    requires Earlier(b, a)
    ensures SortByDate([a, b]) == [b, a]
  {
    assert [a, b][..1] == [a] && [a][..0] == [];
  }

  /** A date that no element is later than goes last. */
  lemma {:induction false} InsertLast(x: string, s: seq<string>)
    requires forall i :: 0 <= i < |s| ==> !Earlier(x, s[i])
    ensures Insert(x, s) == s + [x]
  {
    if s != [] {
      InsertLast(x, s[1..]);
      assert s == [s[0]] + s[1..];
    }
  }
}
