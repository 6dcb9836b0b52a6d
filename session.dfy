/** The application's state (src/App.tsx:10-45 and 57-102): the uploaded rows, the view, the
    hours threshold and whether highlighting is on, and the handlers that change them. */
module Session {
  import opened JsValues
  import opened Pivot

  datatype View = TableView | DashboardView

  /** `Math.min(Math.max(0, v), 80)` for a numeric input `v`. */
  function Clamp(v: Decimal): (r: Decimal)
    ensures 0.0 <= Real(r) <= 80.0
    ensures 0.0 <= Real(v) <= 80.0 ==> r == v
    ensures Real(v) < 0.0 ==> Real(r) == 0.0
    ensures Real(v) > 80.0 ==> Real(r) == 80.0
  {
    if Real(v) < 0.0 then Decimal(0, 0)
    else if Real(v) > 80.0 then Decimal(80, 0)
    else v
  }

  /** Clamping a value already clamped changes nothing. */
  lemma ClampIdempotent(v: Decimal)
    ensures Clamp(Clamp(v)) == Clamp(v)
  {
  }

  /** Clamping never reverses the order of two inputs. */
  lemma ClampMonotone(a: Decimal, b: Decimal)
    requires Real(a) <= Real(b)
    ensures Real(Clamp(a)) <= Real(Clamp(b))
  {
  }

  /** What the page shows below the upload box. */
  datatype Screen =
    | NothingLoaded
    | Table(data: seq<Record>, threshold: Decimal, showHighlight: bool)
    | Charts(data: seq<Record>)

  class App {
    var data: seq<Record>
    var view: View
    var threshold: Decimal
    var showHighlight: bool

    /** The threshold stays within the input's range, and the table is the only view: the
        button that would switch to the dashboard is commented out. */
    ghost predicate Valid()
      reads this
    {
      0.0 <= Real(threshold) <= 80.0 && view == TableView
    }

    /** `useState([])`, `useState('table')`, `useState(40)`, `useState(false)` */
    constructor()
      ensures data == [] && view == TableView && threshold == Decimal(40, 0) && !showHighlight
      ensures Valid()
    {
      data := [];
      view := TableView;
      threshold := Decimal(40, 0);
      showHighlight := false;
    }

    /** The page below the upload box: nothing until some rows are loaded, then the table or the
        dashboard. */
    function Shown(): Screen
      reads this
    {
      if |data| == 0 then NothingLoaded
      else if view == TableView then Table(data, threshold, showHighlight)
      else Charts(data)
    }

    /** With rows loaded the page always shows the table, with the current threshold and
        highlighting. */
    lemma AlwaysTable()
      requires Valid() && |data| > 0
      ensures Shown() == Table(data, threshold, showHighlight)
    {
    }

    /** The `complete` callback of the CSV parse: the parsed rows replace the data and
        highlighting is switched off. */
    method Upload(parsedData: seq<Record>)
      requires Valid()
      modifies this
      ensures data == parsedData && !showHighlight
      ensures threshold == old(threshold) && view == old(view)
      ensures Valid()
    {
      data := parsedData;
      showHighlight := false;
    }

    /** `handleThresholdChange` for a numeric input `value`: the clamped value becomes the
        threshold and highlighting is switched off. The input exists only once rows are loaded. */
    method ChangeThreshold(value: Decimal)
      requires Valid() && |data| > 0
      modifies this
      ensures threshold == Clamp(value) && !showHighlight
      ensures data == old(data) && view == old(view)
      ensures Valid()
    {
      var clamped := Clamp(value);
      threshold := clamped;
      showHighlight := false;
    }

    /** The "Process" button: highlighting is switched on, nothing else changes. */
    method Process()
      requires Valid() && |data| > 0
      modifies this
      ensures showHighlight
      ensures data == old(data) && view == old(view) && threshold == old(threshold)
      ensures Valid()
    {
      showHighlight := true;
    }

    /** The "Table View" button. */
    method ShowTable()
      requires Valid() && |data| > 0
      modifies this
      ensures view == TableView
      ensures data == old(data) && threshold == old(threshold) && showHighlight == old(showHighlight)
      ensures Valid()
    {
      view := TableView;
    }
  }
}
