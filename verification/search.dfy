/**
  The table search both windows offer (gui.py and main.py, the nested
  `search_data` functions): walk the rows top to bottom, test each, select
  the first hit and stop.
 */
module Search {
  import opened Text

  /** What one search does to the table: nothing, select one row, or raise
      out of the button callback before selecting anything. */
  datatype Selection = NoSelection | Selected(row: nat) | Raised

  /** The outcome of testing one row. */
  datatype Verdict = Hit | Miss | Fail

  /** `text.lower() in str(cell).lower()`. */
  predicate CellMatches(cell: string, text: string)
  {
    Contains(Lower(cell), Lower(text))
  }

  /** `any(... for value in values)`: some cell of the row matches. */
  predicate AnyCellMatches(row: seq<string>, text: string)
  {
    exists k :: 0 <= k < |row| && CellMatches(row[k], text)
  }

  /** The `for item in ...: if ...: select; break` loop, from row `from`. */
  function Scan(rows: seq<seq<string>>, test: seq<string> -> Verdict, from: nat): (r: Selection)
    ensures r.Selected? ==>
              && from <= r.row < |rows| && test(rows[r.row]) == Hit
              && forall k :: from <= k < r.row ==> test(rows[k]) == Miss
    ensures r.NoSelection? <==> forall k :: from <= k < |rows| ==> test(rows[k]) == Miss
    ensures r.Raised? ==>
              exists k :: from <= k < |rows| && test(rows[k]) == Fail
                          && forall j :: from <= j < k ==> test(rows[j]) == Miss
    decreases |rows| - from
  {
    if from >= |rows| then NoSelection
    else
      match test(rows[from])
      case Hit => Selected(from)
      case Fail => Raised
      case Miss => Scan(rows, test, from + 1)
  }

  /** The first row that hits is the one selected. */
  lemma ScanFindsFirst(rows: seq<seq<string>>, test: seq<string> -> Verdict, i: nat)
    requires i < |rows| && test(rows[i]) == Hit
    requires forall k :: 0 <= k < i ==> test(rows[k]) == Miss
    ensures Scan(rows, test, 0) == Selected(i)
  {
  }

  /** Two tables whose rows test alike are searched alike. */
  lemma {:induction false} ScanSameVerdicts(rows: seq<seq<string>>, rows': seq<seq<string>>,
                                            test: seq<string> -> Verdict, test': seq<string> -> Verdict, from: nat)
    requires |rows| == |rows'|
    requires forall k :: from <= k < |rows| ==> test(rows[k]) == test'(rows'[k])
    ensures Scan(rows, test, from) == Scan(rows', test', from)
    decreases |rows| - from
  {
    if from < |rows| && test(rows[from]) == Miss {
      ScanSameVerdicts(rows, rows', test, test', from + 1);
    }
  }

  /** The all-columns row test. */
  function AnyColumn(text: string): seq<string> -> Verdict
  {
    row => if AnyCellMatches(row, text) then Hit else Miss
  }

  /** Case does not matter to a cell test, on either side. */
  lemma CellMatchesIgnoresCase(cell: string, text: string)
    ensures CellMatches(cell, Lower(text)) == CellMatches(cell, text)
    ensures CellMatches(Lower(cell), text) == CellMatches(cell, text)
  {
    LowerIdempotent(text);
    LowerIdempotent(cell);
  }
}
