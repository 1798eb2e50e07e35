/**
  The decision rules of the Binance window (gui.py, `TradingViewGUI`):
  the range check in front of a load and the column-aware table search.
  Widgets, message boxes and the loader thread are not modelled; a load
  that passes the check runs the `Delivery` model directly.
 */
module Gui {
  import opened Wrappers
  import opened Klines
  import opened Text
  import opened Search
  import Fetch
  import Delivery
  import App

  /** The search-column choice meaning "all columns". */
  const AllColumnsLabel := "所有列"

  /** The table's column names, in display order. */
  const Columns: seq<string> := ["Timestamp", "Open", "High", "Low", "Close", "Volume"]

  /** `xs.index(x)`, with `None` where Python raises `ValueError`. */
  function IndexOf(xs: seq<string>, x: string): (r: Option<nat>)
    ensures r.Some? ==> r.value < |xs| && xs[r.value] == x && forall k :: 0 <= k < r.value ==> xs[k] != x
    ensures r.None? <==> x !in xs
  {
    if |xs| == 0 then None
    else if xs[0] == x then Some(0)
    else match IndexOf(xs[1..], x)
      case None => None
      case Some(k) => Some(k + 1)
  }

  /** The row test of one search: any cell in all-columns mode; otherwise
      only the cell under the chosen column, raising when the column name
      is unknown or the row is too short. */
  function ColumnTest(text: string, column: string): seq<string> -> Verdict
  {
    if column == AllColumnsLabel then AnyColumn(text) else CellTest(text, IndexOf(Columns, column))
  }

  /** The single-column row test for the looked-up column index. */
  function CellTest(text: string, index: Option<nat>): seq<string> -> Verdict
  {
    row =>
      match index
      case None => Fail
      case Some(k) => if k < |row| then (if CellMatches(row[k], text) then Hit else Miss) else Fail
  }

  /** Each table column is found at its own position, and none of them is
      the all-columns label. */
  lemma ColumnIndex(c: nat)
    requires c < |Columns|
    ensures IndexOf(Columns, Columns[c]) == Some(c)
    ensures Columns[c] != AllColumnsLabel
  {
  }

  /** The search button: strip the entry, do nothing when it is empty,
      otherwise select the first row that passes the column test. */
  function SearchTable(rows: seq<seq<string>>, entry: string, column: string): Selection
  {
    var text := Strip(entry);
    if text == "" then NoSelection else Scan(rows, ColumnTest(text, column), 0)
  }

  /** A search for blank text selects nothing, whatever the column. */
  lemma SearchBlankSelectsNothing(rows: seq<seq<string>>, entry: string, column: string)
    requires forall k :: 0 <= k < |entry| ==> IsSpace(entry[k])
    ensures SearchTable(rows, entry, column) == NoSelection
  {
    StripEmpty(entry);
  }

  /** In all-columns mode a non-blank search never raises and selects the
      first row in which some cell contains the stripped text, ignoring
      case; it selects nothing exactly when no row has such a cell. */
  lemma SearchAllColumns(rows: seq<seq<string>>, entry: string, i: nat)
    requires Strip(entry) != ""
    ensures !SearchTable(rows, entry, AllColumnsLabel).Raised?
    ensures SearchTable(rows, entry, AllColumnsLabel) == Selected(i) <==>
              && i < |rows| && AnyCellMatches(rows[i], Strip(entry))
              && forall k :: 0 <= k < i ==> !AnyCellMatches(rows[k], Strip(entry))
    ensures SearchTable(rows, entry, AllColumnsLabel) == NoSelection <==>
              forall k :: 0 <= k < |rows| ==> !AnyCellMatches(rows[k], Strip(entry))
  {
    var test := AnyColumn(Strip(entry));
    if i < |rows| && AnyCellMatches(rows[i], Strip(entry))
       && forall k :: 0 <= k < i ==> !AnyCellMatches(rows[k], Strip(entry)) {
      assert forall k :: 0 <= k < i ==> test(rows[k]) == Miss;
      ScanFindsFirst(rows, test, i);
    }
  }

  /** In single-column mode with a known column, on rows that have that
      column, a non-blank search selects the first row whose cell in that
      column contains the stripped text, ignoring case, and never raises. */
  lemma SearchOneColumn(rows: seq<seq<string>>, entry: string, c: nat, i: nat)
    requires c < |Columns| && Strip(entry) != ""
    requires forall k :: 0 <= k < |rows| ==> c < |rows[k]|
    ensures !SearchTable(rows, entry, Columns[c]).Raised?
    ensures SearchTable(rows, entry, Columns[c]) == Selected(i) <==>
              && i < |rows| && CellMatches(rows[i][c], Strip(entry))
              && forall k :: 0 <= k < i ==> !CellMatches(rows[k][c], Strip(entry))
  {
    var test := ColumnTest(Strip(entry), Columns[c]);
    ColumnIndex(c);
    assert forall k :: 0 <= k < |rows| ==> test(rows[k]) != Fail;
    if i < |rows| && CellMatches(rows[i][c], Strip(entry))
       && forall k :: 0 <= k < i ==> !CellMatches(rows[k][c], Strip(entry)) {
      assert forall k :: 0 <= k < i ==> test(rows[k]) == Miss;
      ScanFindsFirst(rows, test, i);
    }
  }

  /** Single-column mode looks at nothing but that column: two tables that
      agree on it are searched alike, whatever their other cells hold. */
  lemma SearchOnlyThatColumn(rows: seq<seq<string>>, rows': seq<seq<string>>, entry: string, c: nat)
    requires c < |Columns| && |rows| == |rows'|
    requires forall k :: 0 <= k < |rows| ==> c < |rows[k]| && c < |rows'[k]| && rows[k][c] == rows'[k][c]
    ensures SearchTable(rows, entry, Columns[c]) == SearchTable(rows', entry, Columns[c])
  {
    var text := Strip(entry);
    if text != "" {
      ColumnIndex(c);
      var test := ColumnTest(text, Columns[c]);
      forall k | 0 <= k < |rows|
        ensures test(rows[k]) == test(rows'[k])
      {
        assert rows[k][c] == rows'[k][c];
      }
      ScanSameVerdicts(rows, rows', test, test, 0);
    }
  }

  /** A column name that is neither a table column nor the all-columns
      label makes a non-blank search over a non-empty table raise. */
  lemma SearchUnknownColumnRaises(rows: seq<seq<string>>, entry: string, column: string)
    requires column != AllColumnsLabel && column !in Columns
    requires Strip(entry) != "" && |rows| > 0
    ensures SearchTable(rows, entry, column) == Raised
  {
  }

  /** Searching for the lower-cased text finds the same row. */
  lemma SearchIgnoresCase(rows: seq<seq<string>>, entry: string, column: string)
    ensures SearchTable(rows, Lower(entry), column) == SearchTable(rows, entry, column)
  {
    var text := Strip(entry);
    StripLower(entry);
    assert Strip(Lower(entry)) == Lower(text);
    if text != "" {
      var t1 := ColumnTest(Lower(text), column);
      var t2 := ColumnTest(text, column);
      forall row: seq<string> {:trigger t1(row)}
        ensures t1(row) == t2(row)
      {
        forall k | 0 <= k < |row|
          ensures CellMatches(row[k], Lower(text)) == CellMatches(row[k], text)
        {
          CellMatchesIgnoresCase(row[k], text);
        }
      }
      ScanSameVerdicts(rows, rows, t1, t2, 0);
    }
  }

  /** The main window's search is this window's all-columns search. */
  lemma SearchAgreesWithMainWindow(rows: seq<seq<string>>, entry: string, i: nat)
    ensures App.SearchTable(rows, entry) == Some(i) <==> SearchTable(rows, entry, AllColumnsLabel) == Selected(i)
    ensures App.SearchTable(rows, entry).None? <==> !SearchTable(rows, entry, AllColumnsLabel).Selected?
  {
    if Strip(entry) != "" {
      SearchAllColumns(rows, entry, i);
    }
  }

  // ----- The range check in front of a load -----

  /** The five spin boxes of one end of the range. */
  datatype TimeFields = TimeFields(year: string, month: string, day: string, hour: string, minute: string)

  /** The `"Y-M-D h:m"` string built from the spin boxes. */
  function Compose(t: TimeFields): string
  {
    t.year + "-" + t.month + "-" + t.day + " " + t.hour + ":" + t.minute
  }

  /** What pressing "Load from Binance" decides: start a loader with these
      strings, reject an empty or inverted range, or report an unparsable
      date. */
  datatype LoadDecision = Launch(start: string, end: string, interval: string) | RangeError | InputError

  /** `load_data` up to the thread start. `parse` is the date parser, in
      epoch milliseconds, with `None` where it raises. */
  function DecideLoad(startFields: TimeFields, endFields: TimeFields, interval: string,
                      parse: string -> Option<int>): LoadDecision
  {
    var start := Compose(startFields);
    var end := Compose(endFields);
    match parse(start)
    case None => InputError
    case Some(s) =>
      match parse(end)
      case None => InputError
      case Some(e) => if s >= e then RangeError else Launch(start, end, interval)
  }

  /** The button press: on `Launch`, a new loader clears the table and
      loads the range; otherwise no loader starts and the table is kept. */
  function PressLoad(tree: seq<Candle>, startFields: TimeFields, endFields: TimeFields, interval: string,
                     parse: string -> Option<int>, p: Fetch.Provider, horizon: int)
    : (Option<Delivery.Loader>, seq<Candle>)
    requires Fetch.WellBehaved(p, horizon)
  {
    match DecideLoad(startFields, endFields, interval, parse)
    case Launch(start, end, iv) =>
      var started := Delivery.LoadData(Delivery.NewLoader(), p, iv, parse(start), parse(end), horizon);
      (Some(started.0), started.1)
    case _ => (None, tree)
  }

  /** A loader starts exactly when both dates parse and the start is
      strictly before the end, and it receives the composed strings and
      interval unchanged; an inverted or empty range is rejected. */
  lemma DecideLoadCases(startFields: TimeFields, endFields: TimeFields, interval: string, parse: string -> Option<int>)
    ensures var d := DecideLoad(startFields, endFields, interval, parse);
            var s := parse(Compose(startFields));
            var e := parse(Compose(endFields));
            && (d.Launch? <==> s.Some? && e.Some? && s.value < e.value)
            && (d.Launch? ==> d == Launch(Compose(startFields), Compose(endFields), interval))
            && (d.RangeError? <==> s.Some? && e.Some? && s.value >= e.value)
            && (d.InputError? <==> s.None? || e.None?)
  {
  }

  /** A rejected press starts no loader and leaves the table as it was: it
      is not even cleared. */
  lemma PressLoadRejected(tree: seq<Candle>, startFields: TimeFields, endFields: TimeFields, interval: string,
                          parse: string -> Option<int>, p: Fetch.Provider, horizon: int)
    requires Fetch.WellBehaved(p, horizon)
    requires var s := parse(Compose(startFields));
             var e := parse(Compose(endFields));
             s.None? || e.None? || s.value >= e.value
    ensures PressLoad(tree, startFields, endFields, interval, parse, p, horizon) == (None, tree)
  {
  }

  /** An accepted press starts one loader on the parsed range. Its table
      starts with the first batch of the fetched data, and that data lies
      inside the range in strictly ascending time order; a failed fetch
      leaves the table cleared. */
  lemma PressLoadAccepted(tree: seq<Candle>, startFields: TimeFields, endFields: TimeFields, interval: string,
                          parse: string -> Option<int>, p: Fetch.Provider, horizon: int)
    requires Fetch.WellBehaved(p, horizon)
    requires var s := parse(Compose(startFields));
             var e := parse(Compose(endFields));
             s.Some? && e.Some? && s.value < e.value
    ensures var r := PressLoad(tree, startFields, endFields, interval, parse, p, horizon);
            var s := parse(Compose(startFields)).value;
            var e := parse(Compose(endFields)).value;
            && r.0.Some?
            && r.0.value.data == Fetch.LoadKlines(p, interval, Some(s), Some(e), horizon)
            && (r.0.value.data.None? ==> r.1 == [])
            && (r.0.value.data.Some? ==>
                  var d := r.0.value.data.value;
                  && r.1 == Delivery.Slice(d, 0)
                  && (forall k :: 0 <= k < |d| ==> s <= d[k].time <= e)
                  && (forall i, j :: 0 <= i < j < |d| ==> d[i].time < d[j].time))
  {
    var start := Compose(startFields);
    var end := Compose(endFields);
    var fetched := Fetch.LoadKlines(p, interval, parse(start), parse(end), horizon);
    if fetched.Some? {
      Fetch.LoadKlinesOrdered(p, interval, parse(start), parse(end), horizon);
      Delivery.BeginDelivers(Delivery.NewLoader(), fetched.value);
    }
  }
}
