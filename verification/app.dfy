/**
  The CSV/CoinGecko window (main.py, `create_gui` and the CoinGecko
  loader): the remembered user choice, how each button and the start-up
  auto-load change it, what the table shows, and its search. The dialog,
  the CSV reader and the HTTP call are parameters; the config file
  itself is not modelled, only the in-memory config that is written to it.
 */
module App {
  import opened Wrappers
  import opened Text
  import opened Search
  import Klines

  /** The remembered choice: last chosen CSV path (`None` for JSON null)
      and the source to load at start-up. */
  datatype Config = Config(lastFilePath: Option<string>, defaultSource: string)

  /** The config used when no config file exists yet. */
  const DefaultConfig := Config(None, "file")

  /** Python truthiness of `last_file_path`: neither null nor empty. */
  predicate HasLastFile(c: Config)
  {
    c.lastFilePath.Some? && c.lastFilePath.value != ""
  }

  /** One `[ms, price]` pair of CoinGecko's `prices` list. */
  datatype PricePoint = PricePoint(time: int, price: real)

  /** One row of the loaded frame: index date in epoch milliseconds and
      the four price columns. */
  datatype Quote = Quote(time: int, open: real, high: real, low: real, close: real)

  /** Whether every date of a price list converts with `pd.to_datetime`. */
  predicate DatesConvert(ps: seq<PricePoint>)
  {
    forall i :: 0 <= i < |ps| ==> Klines.InTimestampRange(ps[i].time)
  }

  /** `load_klines_from_api` after the HTTP call: the closes become the
      open, high and low columns as well. `None` is the exception path,
      taken when the request fails or a date is outside pandas' range. */
  function FromCoinGecko(prices: Option<seq<PricePoint>>): (r: Option<seq<Quote>>)
    ensures r.Some? <==> prices.Some? && DatesConvert(prices.value)
    ensures r.Some? ==> |r.value| == |prices.value|
  {
    match prices
    case None => None
    case Some(ps) =>
      if !DatesConvert(ps) then None
      else Some(seq(|ps|, i requires 0 <= i < |ps| => Quote(ps[i].time, ps[i].price, ps[i].price, ps[i].price, ps[i].price)))
  }

  /** The closes and dates of a frame, as CoinGecko price points. */
  function Closes(qs: seq<Quote>): seq<PricePoint>
  {
    seq(|qs|, i requires 0 <= i < |qs| => PricePoint(qs[i].time, qs[i].close))
  }

  /** Every CoinGecko row is flat, open = high = low = close, and reading
      the closes back gives the price list unchanged, in order. */
  lemma CoinGeckoFlat(ps: seq<PricePoint>)
    ensures DatesConvert(ps) ==>
            var qs := FromCoinGecko(Some(ps)).value;
            && Closes(qs) == ps
            && forall i :: 0 <= i < |qs| ==> qs[i].open == qs[i].high == qs[i].low == qs[i].close
  {
  }

  /** Milliseconds per day, for `index.date()`. */
  const DayMs := 86_400_000

  /** One table row: the date (days since the epoch) and the columns in
      the table's order Open, Close, High, Low. */
  datatype DisplayRow = DisplayRow(day: int, open: real, close: real, high: real, low: real)

  /** `update_data_display`: `None` leaves the current table as it is;
      a frame replaces it with one row per record, in order. */
  function UpdateDisplay(table: Option<seq<DisplayRow>>, data: Option<seq<Quote>>): Option<seq<DisplayRow>>
  {
    match data
    case None => table
    case Some(qs) =>
      Some(seq(|qs|, i requires 0 <= i < |qs| =>
        DisplayRow(qs[i].time / DayMs, qs[i].open, qs[i].close, qs[i].high, qs[i].low)))
  }

  /** A loaded frame replaces the table with one row per record, in
      order: the record's day, then its Open, Close, High and Low columns
      in that order. A missing frame keeps the table. */
  lemma UpdateDisplayRows(table: Option<seq<DisplayRow>>, qs: seq<Quote>)
    ensures UpdateDisplay(table, None) == table
    ensures var t := UpdateDisplay(table, Some(qs));
            && t.Some? && |t.value| == |qs|
            && forall i :: 0 <= i < |qs| ==>
                 t.value[i] == DisplayRow(qs[i].time / DayMs, qs[i].open, qs[i].close, qs[i].high, qs[i].low)
  {
  }

  /** What the window holds between button presses. */
  datatype Window = Window(config: Config, table: Option<seq<DisplayRow>>)

  // ----- The dialog's starting directory -----

  /** The position just after the last `/` in `p`, or 0 when there is none. */
  function AfterLastSlash(p: string): (r: nat)
    ensures r <= |p|
    ensures r > 0 ==> p[r - 1] == '/'
    ensures forall k :: r <= k < |p| ==> p[k] != '/'
  {
    if |p| == 0 then 0
    else if p[|p| - 1] == '/' then |p|
    else AfterLastSlash(p[..|p| - 1])
  }

  predicate AllSlashes(s: string)
  {
    forall k :: 0 <= k < |s| ==> s[k] == '/'
  }

  /** `head.rstrip('/')`. */
  function DropTrailingSlashes(s: string): (r: string)
    ensures r <= s
  {
    if |s| > 0 && s[|s| - 1] == '/' then DropTrailingSlashes(s[..|s| - 1]) else s
  }

  /** POSIX `os.path.dirname`: everything before the last `/`, with
      trailing slashes removed unless the head is only slashes. */
  function DirName(p: string): (r: string)
    ensures r <= p
  {
    var head := p[..AfterLastSlash(p)];
    if head != "" && !AllSlashes(head) then DropTrailingSlashes(head) else head
  }

  lemma {:induction false} DropTrailingSlashesShape(s: string)
    ensures DropTrailingSlashes(s) <= s
    ensures AllSlashes(s[|DropTrailingSlashes(s)|..])
    ensures DropTrailingSlashes(s) == "" || DropTrailingSlashes(s)[|DropTrailingSlashes(s)| - 1] != '/'
  {
    if |s| > 0 && s[|s| - 1] == '/' {
      var t := s[..|s| - 1];
      DropTrailingSlashesShape(t);
      var d := DropTrailingSlashes(t);
      assert s[|d|..] == t[|d|..] + ['/'];
    }
  }

  /** `dirname` keeps a prefix of the path; what it drops is a run of
      slashes followed by the final component, which has no slash; and
      the kept part ends in a non-slash unless it is empty or all slashes. */
  lemma DirNameShape(p: string) returns (m: nat)
    ensures DirName(p) <= p
    ensures |DirName(p)| <= m <= |p|
    ensures AllSlashes(p[|DirName(p)|..m])
    ensures forall k :: m <= k < |p| ==> p[k] != '/'
    ensures m > 0 ==> p[m - 1] == '/'
    ensures DirName(p) == "" || AllSlashes(DirName(p)) || DirName(p)[|DirName(p)| - 1] != '/'
    ensures AllSlashes(DirName(p)) ==> |DirName(p)| == m
  {
    m := AfterLastSlash(p);
    var head := p[..m];
    if head != "" && !AllSlashes(head) {
      DropTrailingSlashesShape(head);
      var d := DirName(p);
      assert p[|d|..m] == head[|d|..];
      assert d[|d| - 1] != '/';
      assert !AllSlashes(d);
    }
  }

  /** The directory the file dialog opens in. */
  function InitialDir(c: Config, cwd: string): (r: string)
    ensures HasLastFile(c) ==> r <= c.lastFilePath.value
    ensures !HasLastFile(c) ==> r == cwd
  {
    if HasLastFile(c) then DirName(c.lastFilePath.value) else cwd
  }

  // ----- Buttons and start-up -----

  /** "Load from file": `path` is the dialog's answer, empty when it was
      cancelled; `readCsv` is the CSV loader with `None` on failure. */
  function LoadFromFile(w: Window, path: string, readCsv: string -> Option<seq<Quote>>): Window
  {
    if path == "" then w
    else Window(Config(Some(path), "file"), UpdateDisplay(w.table, readCsv(path)))
  }

  /** "Load from API": `prices` is CoinGecko's price list, `None` when the
      request or the decoding raised. */
  function LoadFromApi(w: Window, prices: Option<seq<PricePoint>>): Window
  {
    Window(w.config.(defaultSource := "api"), UpdateDisplay(w.table, FromCoinGecko(prices)))
  }

  /** `auto_load_data`, run once at start-up. */
  function AutoLoad(w: Window, readCsv: string -> Option<seq<Quote>>, prices: Option<seq<PricePoint>>): Window
  {
    if w.config.defaultSource == "file" && HasLastFile(w.config) then
      w.(table := UpdateDisplay(w.table, readCsv(w.config.lastFilePath.value)))
    else if w.config.defaultSource == "api" then
      LoadFromApi(w, prices)
    else
      w
  }

  /** Choosing a file remembers it as the last file and makes the file the
      default source, even when reading it fails; a cancelled dialog
      changes nothing. */
  lemma LoadFromFileRemembers(w: Window, path: string, readCsv: string -> Option<seq<Quote>>)
    ensures path == "" ==> LoadFromFile(w, path, readCsv) == w
    ensures path != "" ==> LoadFromFile(w, path, readCsv).config == Config(Some(path), "file")
    ensures path != "" && readCsv(path).None? ==> LoadFromFile(w, path, readCsv).table == w.table
  {
  }

  /** Loading from the API makes it the default source and keeps the last
      file path. */
  lemma LoadFromApiRemembers(w: Window, prices: Option<seq<PricePoint>>)
    ensures LoadFromApi(w, prices).config.defaultSource == "api"
    ensures LoadFromApi(w, prices).config.lastFilePath == w.config.lastFilePath
    ensures prices.None? ==> LoadFromApi(w, prices).table == w.table
    ensures prices.Some? && !DatesConvert(prices.value) ==> LoadFromApi(w, prices).table == w.table
  {
  }

  /** Auto-load reads the remembered file when the default source is the
      file and a path is remembered; otherwise it loads from the API when
      that is the default; otherwise it does nothing. It never changes
      the remembered choice. */
  lemma AutoLoadFollowsConfig(w: Window, readCsv: string -> Option<seq<Quote>>, prices: Option<seq<PricePoint>>)
    ensures AutoLoad(w, readCsv, prices).config == w.config
    ensures w.config.defaultSource == "file" && HasLastFile(w.config) ==>
              AutoLoad(w, readCsv, prices).table == UpdateDisplay(w.table, readCsv(w.config.lastFilePath.value))
    ensures w.config.defaultSource == "api" ==>
              AutoLoad(w, readCsv, prices).table == UpdateDisplay(w.table, FromCoinGecko(prices))
    ensures w.config.defaultSource != "api" && !(w.config.defaultSource == "file" && HasLastFile(w.config)) ==>
              AutoLoad(w, readCsv, prices) == w
  {
  }

  /** On the very first start there is no config file: the default
      config names the file as source but remembers no path, so
      auto-load leaves the window as it is. */
  lemma FirstStartLoadsNothing(table: Option<seq<DisplayRow>>, readCsv: string -> Option<seq<Quote>>,
                               prices: Option<seq<PricePoint>>)
    ensures !HasLastFile(DefaultConfig) && DefaultConfig.defaultSource == "file"
    ensures AutoLoad(Window(DefaultConfig, table), readCsv, prices) == Window(DefaultConfig, table)
  {
  }

  /** A later start-up replays the last choice: after a file was chosen,
      auto-load reads that file; after an API load, it loads from the API. */
  lemma AutoLoadReplaysChoice(w: Window, path: string, readCsv: string -> Option<seq<Quote>>,
                              prices: Option<seq<PricePoint>>, table: Option<seq<DisplayRow>>)
    ensures path != "" ==>
              AutoLoad(Window(LoadFromFile(w, path, readCsv).config, table), readCsv, prices).table
                == UpdateDisplay(table, readCsv(path))
    ensures AutoLoad(Window(LoadFromApi(w, prices).config, table), readCsv, prices).table
              == UpdateDisplay(table, FromCoinGecko(prices))
  {
  }

  /** A window showing CoinGecko data shows open = close = high = low in
      every row, one row per price point, days in the order received. */
  lemma ApiTableFlat(w: Window, ps: seq<PricePoint>)
    ensures !DatesConvert(ps) ==> LoadFromApi(w, Some(ps)).table == w.table
    ensures DatesConvert(ps) ==>
            var t := LoadFromApi(w, Some(ps)).table.value;
            && |t| == |ps|
            && forall i :: 0 <= i < |t| ==>
                 t[i].open == t[i].close == t[i].high == t[i].low == ps[i].price && t[i].day == ps[i].time / DayMs
  {
  }

  // ----- Search -----

  /** The search button: strip the entry; when it is non-empty select the
      first row in which some cell contains it, ignoring case. */
  function SearchTable(rows: seq<seq<string>>, entry: string): (r: Option<nat>)
  {
    var text := Strip(entry);
    if text == "" then None
    else match Scan(rows, AnyColumn(text), 0)
      case Selected(i) => Some(i)
      case _ => None
  }

  /** The search selects nothing for blank text, and otherwise the first
      row with a matching cell, or nothing if there is none. */
  lemma SearchFirstMatch(rows: seq<seq<string>>, entry: string, i: nat)
    ensures (forall k :: 0 <= k < |entry| ==> IsSpace(entry[k])) ==> SearchTable(rows, entry) == None
    ensures SearchTable(rows, entry) == Some(i) <==>
              && Strip(entry) != ""
              && i < |rows| && AnyCellMatches(rows[i], Strip(entry))
              && forall k :: 0 <= k < i ==> !AnyCellMatches(rows[k], Strip(entry))
  {
    StripEmpty(entry);
    var text := Strip(entry);
    if text != "" && i < |rows| && AnyCellMatches(rows[i], text)
       && forall k :: 0 <= k < i ==> !AnyCellMatches(rows[k], text) {
      ScanFindsFirst(rows, AnyColumn(text), i);
    }
  }
}
