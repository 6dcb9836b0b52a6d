/** What the table shows for a pivot (src/components/DataTable.tsx:62-71 and 150-188): the job
    groups that match the search box, per employee and date the hours (highlighted when they
    reach the threshold), and per group and date the number of employees that reach it. */
module TableView {
  import opened Common
  import opened Objects
  import opened JsValues
  import opened Pivot

  // ------------------------------------------------------------------------------------------
  // Cells

  /** `dates[date] || 0`: the hours of an employee on a date, 0 when the date is missing. */
  function HoursOn(dates: Dates, date: string): real {
    if date in dates.vals then dates.vals[date] else 0.0
  }

  /** The hours a cell of the table shows are the pivot's leaf, 0 where there is none. */
  lemma HoursOnIsCell(p: PivotData, job: string, emp: string, date: string)
    requires job in p.vals && emp in p.vals[job].vals
    ensures HoursOn(p.vals[job].vals[emp], date) == CellHours(p, job, emp, date)
  {
  }

  /** `showHighlight && totalHours >= threshold`: the cell is drawn green. */
  predicate IsHighlighted(showHighlight: bool, hours: real, threshold: real): (b: bool)
    ensures !showHighlight ==> !b
    ensures showHighlight ==> (b <==> threshold <= hours)
  {
    showHighlight && hours >= threshold
  }

  // ------------------------------------------------------------------------------------------
  // The count row

  /** The number of the listed employees whose hours on `date` reach the threshold. */
  function CountReaching(ks: seq<string>, es: Employees, date: string, threshold: real): (n: nat)
    ensures n <= |ks|
  {
    if ks == [] then 0
    else
      var k := ks[|ks| - 1];
      CountReaching(ks[..|ks| - 1], es, date, threshold)
      + (if HoursOn(Child(es, k), date) >= threshold then 1 else 0)
  }

  /** `getThresholdCount(job, date)`: reduce over `Object.values(pivot[job])`, adding one per
      employee whose hours on `date` (0 when missing) are at least the threshold. The job must
      be a key of the pivot (`Object.values(undefined)` throws); the component only asks for
      keys of the pivot. */
  function ThresholdCount(p: PivotData, job: string, date: string, threshold: real): (n: nat)
    requires job in p.vals
    ensures n <= |EmployeesOf(p, job)|
  {
    CountReaching(p.vals[job].keys, p.vals[job], date, threshold)
  }

  /** The employees of `job` whose cell on `date` reaches the threshold. */
  function Reaching(p: PivotData, job: string, date: string, threshold: real): set<string> {
    set e | e in EmployeesOf(p, job) && CellHours(p, job, e, date) >= threshold
  }

  lemma {:induction false} CountReachingIsSize(ks: seq<string>, p: PivotData, job: string, date: string, threshold: real)
    requires job in p.vals && Distinct(ks)
    ensures CountReaching(ks, p.vals[job], date, threshold)
            == |set e | e in ks && CellHours(p, job, e, date) >= threshold|
  {
    if ks != [] {
      var n := |ks| - 1;
      var k := ks[n];
      CountReachingIsSize(ks[..n], p, job, date, threshold);
      assert k !in ks[..n];
      assert HoursOn(Child(p.vals[job], k), date) == CellHours(p, job, k, date);
      ReachingSnoc(ks, p, job, date, threshold);
    } else {
      assert (set e | e in ks && CellHours(p, job, e, date) >= threshold) == {};
    }
  }

  lemma ReachingSnoc(ks: seq<string>, p: PivotData, job: string, date: string, threshold: real)
    requires ks != [] && ks[|ks| - 1] !in ks[..|ks| - 1]
    ensures var k := ks[|ks| - 1];
            var S := set e | e in ks[..|ks| - 1] && CellHours(p, job, e, date) >= threshold;
            |set e | e in ks && CellHours(p, job, e, date) >= threshold|
            == |S| + (if CellHours(p, job, k, date) >= threshold then 1 else 0)
  {
    var n := |ks| - 1;
    var k := ks[n];
    assert ks == ks[..n] + [k];
    var S := set e | e in ks[..n] && CellHours(p, job, e, date) >= threshold;
    var T := set e | e in ks && CellHours(p, job, e, date) >= threshold;
    if CellHours(p, job, k, date) >= threshold {
      assert T == S + {k};
    } else {
      assert T == S;
    }
  }

  /** The count is exactly the number of the job's employees whose cell reaches the threshold:
      a missing date counts as 0 hours, and hours equal to the threshold count. */
  lemma ThresholdCountIsSize(p: PivotData, job: string, date: string, threshold: real)
    requires WellFormed(p) && job in p.vals
    ensures ThresholdCount(p, job, date, threshold) == |Reaching(p, job, date, threshold)|
  {
    CountReachingIsSize(p.vals[job].keys, p, job, date, threshold);
  }

  /** An employee whose cell holds exactly the threshold is counted. */
  lemma ThresholdInclusive(p: PivotData, job: string, emp: string, date: string, threshold: real)
    requires emp in EmployeesOf(p, job) && CellHours(p, job, emp, date) == threshold
    ensures emp in Reaching(p, job, date, threshold)
  {
  }

  /** Raising the threshold never raises the count. */
  lemma {:induction false} CountReachingAntitone(ks: seq<string>, es: Employees, date: string, lo: real, hi: real)
    requires lo <= hi
    ensures CountReaching(ks, es, date, hi) <= CountReaching(ks, es, date, lo)
  {
    if ks != [] {
      CountReachingAntitone(ks[..|ks| - 1], es, date, lo, hi);
    }
  }

  lemma ThresholdCountAntitone(p: PivotData, job: string, date: string, lo: real, hi: real)
    requires job in p.vals && lo <= hi
    ensures ThresholdCount(p, job, date, hi) <= ThresholdCount(p, job, date, lo)
  {
    CountReachingAntitone(p.vals[job].keys, p.vals[job], date, lo, hi);
  }

  /** When every listed employee's hours reach the threshold, all of them are counted. */
  lemma {:induction false} CountReachingAll(ks: seq<string>, es: Employees, date: string, threshold: real)
    requires forall k :: k in ks ==> HoursOn(Child(es, k), date) >= threshold
    ensures CountReaching(ks, es, date, threshold) == |ks|
  {
    if ks != [] {
      CountReachingAll(ks[..|ks| - 1], es, date, threshold);
    }
  }

  /** With highlighting on, the count row says how many cells of the column are green; with it
      off no cell is green. */
  lemma CountMatchesHighlight(p: PivotData, job: string, date: string, threshold: real, show: bool)
    requires WellFormed(p) && job in p.vals
    ensures show ==> ThresholdCount(p, job, date, threshold)
                     == |set e | e in EmployeesOf(p, job) && IsHighlighted(show, CellHours(p, job, e, date), threshold)|
    ensures !show ==> forall e :: !IsHighlighted(show, CellHours(p, job, e, date), threshold)
  {
    ThresholdCountIsSize(p, job, date, threshold);
    if show {
      assert (set e | e in EmployeesOf(p, job) && IsHighlighted(show, CellHours(p, job, e, date), threshold))
             == Reaching(p, job, date, threshold);
    }
  }

  // ------------------------------------------------------------------------------------------
  // The search box

  /** The job is kept: its lower-case form contains the lower-case search term. */
  predicate Matches(job: string, searchTerm: string) {
    Includes(Lower(job), Lower(searchTerm))
  }

  /** `filteredJobDescriptions`: the pivot's job keys that match the search term, in order. */
  function FilterJobs(keys: seq<string>, searchTerm: string): (r: seq<string>)
    ensures IsSubsequence(r, keys)
    ensures forall x :: x in r <==> x in keys && Matches(x, searchTerm)
  {
    Filter(keys, job => Matches(job, searchTerm))
  }

  /** An empty search box shows every job group. */
  lemma EmptySearchKeepsAll(keys: seq<string>)
    ensures FilterJobs(keys, "") == keys
  {
    forall i | 0 <= i < |keys| ensures Matches(keys[i], "") {
      assert Includes(Lower(keys[i]), Lower(""));
    }
    FilterAll(keys, job => Matches(job, ""));
  }
}
