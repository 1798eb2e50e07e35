# Binance kline ingestion, batched table delivery and window rules — a Dafny model

This project models the core of a small desktop tool that downloads
BTC/USDT candles ("klines") from Binance and shows them in a table.

- **Pagination** (`load_klines_from_binance`, data_loader.py). The tool asks
  the klines endpoint for up to 1000 records from a cursor. It appends each
  non-empty page in order and moves the cursor to the last record's open
  time plus one millisecond. It stops on an empty page, a short page, or once
  the last open time reaches the end time. Each record is then cut to six
  fields. Any exception makes the whole load return `None`.
- **Batched delivery** (`DataLoader.load_data` / `update_data`,
  data_loader.py). The table is cleared before the fetch. The dataset is then
  handed over in slices of 1000 rows. The first slice goes in at once, by a
  direct call to `update_data`; each further slice comes from a
  `root.after` callback. The completion message appears after the last
  slice.
- **Window rules** (gui.py, main.py). The Binance window checks the date
  range before it starts a loader. Both windows have a first-match,
  case-insensitive table search. The CSV/CoinGecko window remembers the
  user's last source. Its CoinGecko loader copies each close into open, high
  and low.

Modules:
`Klines` (raw records, projection), `Fetch` (the paging loop as a recursive
function, and a trace-based description of it), `Delivery` (the loader and
its tick step), `Sessions` (several loads sharing one table), `Text`
(`strip`, `lower`, `in`), `Search` (the first-hit scan), `Gui` (gui.py
rules), `App` (main.py rules). `Seqs` and `Wrappers` are small helpers.

Where the code's behaviour may surprise, the model follows the code:
- The batch count is `len // 1000 + 1`, not the ceiling of `len / 1000`. An
  empty dataset still gets one empty `update_data` call and a completion message.
  A multiple of 1000 gets a trailing empty batch (`Delivery.TotalBatchesShape`).
- Prices are never parsed by the loader. A record fails the projection only
  when it has the wrong number of fields, a non-numeric open time, or an
  open time that `pd.to_datetime` cannot convert: one beyond 9223372036854
  ms from the epoch, the range of pandas' nanosecond timestamps
  (`Klines.InTimestampRange`).
- Binance's `endTime` is inclusive, so a record opening exactly at the end
  time can be returned. The proved bound is `time <= end`, not `time < end`.
- The loader does not check the range itself. Only the Binance window
  does, before it starts the loader (`Gui.DecideLoadCases`).
- A new load does not cancel the previous loader's pending callback or its
  fetch still in flight (see Findings).

## Model

| member | source | states |
|---|---|---|
| Klines.Normalize | data_loader.py:50-60 | one record to one candle: its contract is given by `Klines.NormalizeToRaw` and `Klines.NormalizeInverse`; it fails on a record without twelve fields, a non-numeric open time, or an open time outside the range `to_datetime` converts |
| Klines.NormalizeToRaw | data_loader.py:50-60 | a twelve-field record built from a candle and six trailing fields projects back to exactly that candle when its open time is within pandas' timestamp range, and fails otherwise |
| Klines.NormalizeInverse | data_loader.py:50-60 | a record that projects to a candle is that candle's six fields followed by the dropped trailing fields, and its open time is the candle's time and within pandas' timestamp range |
| Klines.Project | data_loader.py:50-61 | projecting a dataset succeeds iff every record projects; then it has the same length and each candle is its record's projection (one bad record fails everything) |
| Fetch.Loop | data_loader.py:25-47 | the paging loop from one cursor; its contract is given by `Fetch.LoopStep`, `Fetch.LoopStops`, `Fetch.LoopAborts`, `Fetch.LoopHasTrace` and `Fetch.LoopOrdered` |
| Fetch.LoadKlines | data_loader.py:7-67 | the whole `load_klines_from_binance`; its contract is given by `Fetch.LoadKlinesOrdered` and `Fetch.LoadKlinesIsProjectedPages` |
| Fetch.ResponseKinds | data_loader.py:29-47 | every provider response is exactly one of: abort (failure or no numeric last open time), stop (empty, short, or end reached), advance |
| Fetch.LoopStep | data_loader.py:32-37 | a full page below the end time is kept in front of whatever the loop returns from the cursor last open time + 1 ms |
| Fetch.LoopStops | data_loader.py:29-47 | an empty page, a short page, or a page whose last open time reaches the end time ends the loop, with that page as the last data |
| Fetch.LoopAborts | data_loader.py:64-67 | a failed request, or a page whose last record has no numeric open time, makes the loop return no data |
| Fetch.LoopUnfolds | data_loader.py:26-47 | across any advancing trace the loop's result is the trace's pages concatenated in order in front of the result from the trace's last cursor |
| Fetch.RunSucceeds | data_loader.py:26-47 | advancing pages followed by a stopping page give exactly the in-order concatenation of all those pages |
| Fetch.RunFails | data_loader.py:64-67 | advancing pages followed by an aborting response give `None`: pages already received are discarded |
| Fetch.LoopHasTrace | data_loader.py:26-47 | every loop outcome comes from an advancing trace from the start cursor whose next response aborts (result `None`) or stops (result = all pages in order) |
| Fetch.CursorsIncrease | data_loader.py:35-37 | each next cursor is the previous page's last open time + 1 ms, and with a well-behaved provider the cursors strictly increase |
| Fetch.LoopOrdered | data_loader.py:26-47 | with a well-behaved provider the records returned strictly ascend by open time and lie between the first cursor and the end time and the provider's present |
| Fetch.LoadKlinesOrdered | data_loader.py:7-63 | a successful load returns candles strictly ascending in time, none before the start, none after the (inclusive) end |
| Fetch.LoadKlinesIsProjectedPages | data_loader.py:7-67 | the load result is `None` when the trace's final response aborts, else the projection of all pages received, in order |
| Delivery.Tick | data_loader.py:90-109 | one `update_data` call; its contract is given by `Delivery.TickDelivers` |
| Delivery.Begin | data_loader.py:83-88 | the rest of `load_data` once the fetch returned; its contract is given by `Delivery.BeginDelivers` and `Delivery.LoadDataFailure` |
| Delivery.LoadData | data_loader.py:77-88 | `load_data` on a cleared table; its contract is given by `Delivery.LoadDataFailure` and `Delivery.DeliverAll` |
| Delivery.TotalBatchesShape | data_loader.py:86 | the batch count is at least 1, one more than the ceiling exactly on multiples of 1000 (including 0), and then the last batch is empty |
| Delivery.SlicesPrefix | data_loader.py:94-96 | the first k slices together are the first min(1000k, n) records |
| Delivery.BatchesPartition | data_loader.py:86-103 | all batches in delivery order concatenate to the dataset; every batch but the last holds 1000 records |
| Delivery.LoadDataFailure | data_loader.py:77-84 | a failed fetch leaves the table cleared, stores no data, shows no completion and arms no callback |
| Delivery.BeginDelivers | data_loader.py:86-88 | a successful fetch restarts at batch 0, puts the first batch in at once, and establishes the delivery invariant |
| Delivery.TickDelivers | data_loader.py:90-109 | a pending callback appends batch `current_batch`, increments it, re-arms iff batches remain, and shows completion only after the last |
| Delivery.DeliveringDone | data_loader.py:105-109 | when no callback is pending, the table equals the dataset and completion has been shown exactly once |
| Delivery.DeliverAll | data_loader.py:77-109 | load then run every armed callback: the table ends equal to the fetched data after `n // 1000 + 1` batches with one completion, or empty with none if the fetch failed |
| Sessions.Press | gui.py:140-142 | a press clears the table, adds one fresh loader whose fetch is in flight, and leaves every earlier loader, its pending callback and its fetch as they were |
| Sessions.Arrive | data_loader.py:82-88 | a returning fetch appends its first batch to the table as it is then, without clearing it again; a loader with no fetch in flight is left alone |
| Sessions.Fire | data_loader.py:90-109 | a pending callback of any loader appends that loader's next batch to the shared table; nothing else about other loaders changes |
| Sessions.StartLoad | gui.py:140-142 | a load whose fetch returns before anything else happens adds one loader and leaves every earlier loader, and its pending callback, as it was |
| Sessions.StaleCallbackLeaks | data_loader.py:105-107 | after a 1001-record load and then an empty load, the first loader's pending callback writes record 1000 into the table the second load cleared |
| Sessions.StaleBatchDuringFetch | data_loader.py:79-88 | the first loader's second batch fires while the second load is fetching, so the second load's table starts with a record of the first load and is no prefix of its own data |
| Sessions.OverlappingFetchLeaks | gui.py:141-142 | two presses whose fetches overlap: the first fetch returns last and appends its batch to the second load's table |
| Sessions.PressCancelling | gui.py:140-142 | the corrected press cancels every earlier pending callback, abandons every earlier in-flight fetch, and clears the table |
| Sessions.PressCancellingCoherent | data_loader.py:78-82 | a corrected press leaves the session coherent from any state |
| Sessions.ArriveCoherent | data_loader.py:82-88 | with corrected presses, a returning fetch reaches the table only if it is the newest loader's, and then the table is its first batch |
| Sessions.StartLoadCancelling | gui.py:140-142 | a corrected load whose fetch returns at once leaves no earlier loader with a pending callback and no fetch in flight |
| Sessions.StartLoadCancellingCoherent | data_loader.py:78-88 | after such a load the table holds exactly the new load's first batch (or nothing on failure) |
| Sessions.FireCoherent | data_loader.py:90-109 | with corrected presses, any callback firing keeps the table equal to what the newest loader delivered |
| Sessions.CoherentShowsNewest | data_loader.py:78-80 | in a coherent session the table is a prefix of the newest loader's dataset |
| Sessions.RunCancellingCoherent | data_loader.py:77-109 | with corrected presses, every interleaving of presses, returning fetches and callbacks keeps the session coherent, so the table is always a prefix of the newest loader's dataset |
| Text.Lower | gui.py:108 | `str.lower()` on ASCII letters; its contract is given by `Text.LowerIdempotent` |
| Text.LowerIdempotent | gui.py:108 | lower-casing keeps the length, maps each of A–Z to its lower-case letter and leaves every other character, so lower-casing twice equals once and no upper-case letter is left |
| Text.Strip | gui.py:99 | `str.strip()`; its contract is given by `Text.StripShape` and `Text.StripEmpty` |
| Text.StripShape | gui.py:99 | `strip` keeps the middle of the text between leading and trailing whitespace, and the kept part starts and ends with a non-space |
| Text.StripEmpty | gui.py:99-103 | the entry strips to nothing iff it is all whitespace |
| Text.Contains | gui.py:108 | the `in` substring test; its contract is given by `Text.ContainsOccurs` |
| Text.ContainsOccurs | gui.py:108 | the substring test holds iff the needle occurs at some position of the text |
| Search.Scan | gui.py:105-118 | the scan selects the first hit with only misses before it, selects nothing iff every row misses, and raises only at a failing row after misses |
| Search.ScanFindsFirst | gui.py:105-111 | a hit preceded only by misses is the row selected |
| Search.CellMatchesIgnoresCase | gui.py:108 | the cell test gives the same answer for lower-cased text or cell |
| Gui.IndexOf | gui.py:114 | `columns.index` returns the first position holding the name, and fails iff the name is absent |
| Gui.ColumnIndex | gui.py:72 | each table column is found at its own position and is not the all-columns label |
| Gui.SearchTable | gui.py:98-118 | the Binance window's search; its contract is given by `Gui.SearchBlankSelectsNothing`, `Gui.SearchAllColumns`, `Gui.SearchOneColumn`, `Gui.SearchOnlyThatColumn`, `Gui.SearchUnknownColumnRaises` and `Gui.SearchIgnoresCase` |
| Gui.SearchBlankSelectsNothing | gui.py:99-103 | a blank entry selects nothing in any mode |
| Gui.SearchAllColumns | gui.py:105-111 | all-columns mode never raises and selects the first row with a cell containing the text ignoring case, or nothing iff no row has one |
| Gui.SearchOneColumn | gui.py:112-118 | single-column mode on rows that have the column selects the first row whose cell in that column matches, and never raises |
| Gui.SearchOnlyThatColumn | gui.py:112-118 | single-column mode gives the same result on tables that agree on that column, whatever the other cells hold |
| Gui.SearchUnknownColumnRaises | gui.py:114 | an unknown column name makes a non-blank search of a non-empty table raise |
| Gui.SearchIgnoresCase | gui.py:108-115 | searching for the lower-cased entry selects the same row |
| Gui.SearchAgreesWithMainWindow | main.py:116-125 | the main window's search selects row i iff the Binance window's all-columns search does |
| Gui.DecideLoad | gui.py:125-142 | the range check of the load button; its contract is given by `Gui.DecideLoadCases` |
| Gui.PressLoad | gui.py:125-142 | the load button with its loader run; its contract is given by `Gui.PressLoadRejected` and `Gui.PressLoadAccepted` |
| Gui.DecideLoadCases | gui.py:125-142 | a loader starts iff both dates parse and start < end, with the composed strings and interval unchanged; start >= end is a range error |
| Gui.PressLoadRejected | gui.py:133-137 | a rejected range starts no loader and leaves the table untouched, not even cleared |
| Gui.PressLoadAccepted | gui.py:128-142 | an accepted range starts one loader whose data is the fetch for the parsed start, the parsed end and the chosen interval; that data lies in [start, end] in ascending time, and the table starts with its first batch, or is cleared on failure |
| App.FromCoinGecko | main.py:21-37 | the CoinGecko load yields a frame iff the price list was obtained and every date is within the range `pd.to_datetime` converts; the frame has one row per price |
| App.CoinGeckoFlat | main.py:26-33 | when the dates convert, every CoinGecko row has open = high = low = close, and reading closes back gives the price list unchanged |
| App.ApiTableFlat | main.py:80-96 | after an API load whose dates convert, the table has one row per price, each with open = close = high = low = the price and its day; otherwise the table is kept |
| App.UpdateDisplayRows | main.py:80-96 | a frame replaces the table with one row per record in order, holding its day, Open, Close, High and Low in that order; a missing frame keeps the table |
| App.UpdateDisplay | main.py:80-96 | the table after `update_data_display`; its contract is given by `App.UpdateDisplayRows` and `App.ApiTableFlat` |
| App.AfterLastSlash | main.py:59 | the split point follows the last slash and no slash lies after it |
| App.DropTrailingSlashes | main.py:59 | stripping trailing slashes keeps a prefix |
| App.DirName | main.py:59 | `dirname` returns a prefix of the path |
| App.DirNameShape | main.py:58-61 | `dirname` cuts the path after its last slash, drops the trailing run of slashes from that head unless the head is all slashes, and so keeps a part ending in a non-slash or exactly the all-slash head |
| App.InitialDir | main.py:58-61 | the dialog opens in a prefix of the remembered file's path when there is one, else in the working directory |
| App.LoadFromFile | main.py:56-70 | the "load from file" button; its contract is given by `App.LoadFromFileRemembers` |
| App.LoadFromApi | main.py:72-78 | the "load from API" button; its contract is given by `App.LoadFromApiRemembers` and `App.ApiTableFlat` |
| App.AutoLoad | main.py:132-137 | start-up auto-load; its contract is given by `App.AutoLoadFollowsConfig`, `App.FirstStartLoadsNothing` and `App.AutoLoadReplaysChoice` |
| App.FirstStartLoadsNothing | main.py:48 | the default config remembers no file, so the first start loads nothing |
| App.LoadFromFileRemembers | main.py:56-70 | choosing a file records it and makes the file the default even if reading fails; a cancelled dialog changes nothing |
| App.LoadFromApiRemembers | main.py:72-78 | an API load makes the API the default and keeps the last file path; a failed load keeps the table |
| App.AutoLoadFollowsConfig | main.py:132-137 | auto-load reads the remembered file if the default is the file and a path is set, else loads the API if that is the default, else does nothing, and never changes the config |
| App.AutoLoadReplaysChoice | main.py:132-137 | after a file choice the next auto-load reads that file; after an API load it loads from the API |
| App.SearchTable | main.py:116-125 | the main window's search; its contract is given by `App.SearchFirstMatch` and `Gui.SearchAgreesWithMainWindow` |
| App.SearchFirstMatch | main.py:116-125 | blank text selects nothing; otherwise row i is selected iff it is the first row with a cell containing the text ignoring case |

## Findings

| source | as written | input that shows it | evidently intended | confidence | as-written member | corrected member |
|---|---|---|---|---|---|---|
| data_loader.py:105-107 | each load builds a new `DataLoader` over the shared table; the old loader's `root.after` callback is never cancelled, and nothing marks its fetch as superseded | load 1001 records, then press load again; the first loader's second callback fires while the second fetch is running, so the cleared table receives record 1000 of the first load before the second load's own rows | a new load clears the table and shows only its own data, so pending callbacks and in-flight fetches of earlier loads are cancelled | medium, not executed | Sessions.StaleBatchDuringFetch | Sessions.RunCancellingCoherent |

`Sessions.StaleCallbackLeaks` shows the same leak when the second fetch
returns first, and `Sessions.OverlappingFetchLeaks` shows it for two
fetches that overlap. The corrected press, `Sessions.PressCancelling`,
cancels every earlier callback and abandons every earlier fetch, whose
result is then discarded when it returns. `Sessions.RunCancellingCoherent`
proves that under any interleaving of presses, returning fetches and
callbacks, the table only ever holds a prefix of the newest loader's data.

## Left out

- HTTP (`requests`), JSON decoding and status codes are not modelled. The Binance endpoint is a provider function from request to page-or-failure. The CoinGecko call is an optional price list.
- Fetch.Loop: the model requires a well-behaved provider. Its pages ascend, open no earlier than the requested start, no later than the inclusive end time, and no later than a fixed present. A provider that broke this could make the source loop forever; that case is not modelled.
- Date parsing with `pd.Timestamp`, the `* 1000` float conversion and `strftime`/`date()` formatting are not modelled. Times are epoch milliseconds from a parse function given as a parameter.
- Klines.Normalize: a record with other than twelve fields, or with a non-numeric open time anywhere, fails the projection. The model does not follow pandas' padding of shorter rows, nor its coercion of numeric strings. The timestamp bound takes pandas to accept exactly the open times whose value in nanoseconds fits a signed 64-bit integer.
- Threads, `root.after` timing and `update_idletasks` are not modelled. A callback is an explicit `Tick`, and "pending" is a flag. In `Sessions` a load is two steps, the press and the fetch's return, and any callback may fire between them. The table is cleared at the press, although the source clears it at the start of the worker thread.
- Message boxes are not modelled. The completion message is a counter; error boxes are not modelled.
- Table cells are given to the searches as strings; how tkinter stores and returns row values is not modelled.
- Text.LowerChar: only A–Z are lower-cased; Python's full Unicode case mapping is not modelled. `strip` uses Python's full whitespace set.
- App.DirName: paths are POSIX paths; `os.path.dirname` on Windows (`ntpath`, with drive letters and backslashes) is not modelled.
- CSV loading (`load_klines_from_file`) is a parameter returning a frame or `None`. Reading and writing config.json, and a config file missing its keys, are not modelled.
- The `data` variable in main.py only carries the loaded frame to `update_data_display`; the model passes the frame straight to `App.UpdateDisplay`.
- The chart (kline_plotter.py and `TradingViewGUI.plot_kline`) is not modelled: it is floating-point rolling means and a plotting call.
