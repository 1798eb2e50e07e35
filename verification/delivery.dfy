/**
  `DataLoader` (data_loader.py): clears the table, runs the fetch, and
  hands the result to the table in batches of 1000 rows, the first by a
  direct call of `update_data`, each later one by a `root.after`
  callback. Each `update_data` run is an explicit `Tick` step here; the
  table is a plain sequence of the candles appended to it.
 */
module Delivery {
  import opened Wrappers
  import opened Klines
  import opened Seqs
  import Fetch

  /** Rows appended per `update_data` run. */
  const BatchSize := 1000

  /** The fields of one `DataLoader`, plus whether a callback is pending
      and how many times the completion message has been shown. */
  datatype Loader = Loader(data: Option<seq<Candle>>, totalBatches: nat, currentBatch: nat,
                           scheduled: bool, completions: nat)

  /** A freshly constructed loader. */
  function NewLoader(): Loader
  {
    Loader(None, 0, 0, false, 0)
  }

  /** `len(data) // 1000 + 1`. */
  function TotalBatches(n: nat): nat
  {
    n / BatchSize + 1
  }

  /** `data[i*1000:(i+1)*1000]`, with Python's clipping at the end. */
  function Slice<T>(d: seq<T>, i: nat): seq<T>
  {
    d[Min(i * BatchSize, |d|)..Min((i + 1) * BatchSize, |d|)]
  }

  /** The batch count is never zero, exceeds the ceiling of n/1000 by one
      exactly when n is a multiple of 1000 (including n = 0), and in that
      case the last batch is empty. */
  lemma TotalBatchesShape(d: seq<Candle>)
    ensures TotalBatches(|d|) >= 1
    ensures |d| % BatchSize == 0 ==> TotalBatches(|d|) * BatchSize == |d| + BatchSize
    ensures |d| % BatchSize != 0 ==> (TotalBatches(|d|) - 1) * BatchSize < |d| < TotalBatches(|d|) * BatchSize
    ensures Slice(d, TotalBatches(|d|) - 1) == [] <==> |d| % BatchSize == 0
  {
  }

  /** The batches the `update_data` runs append, in order. */
  function Batches(d: seq<Candle>): (bs: seq<seq<Candle>>)
    ensures |bs| == TotalBatches(|d|)
  {
    seq(TotalBatches(|d|), i requires 0 <= i => Slice(d, i))
  }

  /** The first k batches together are the first min(k*1000, n) records. */
  lemma {:induction false} SlicesPrefix(d: seq<Candle>, k: nat)
    ensures Concat(seq(k, i requires 0 <= i => Slice(d, i))) == d[..Min(k * BatchSize, |d|)]
  {
    if k > 0 {
      var first := seq(k - 1, i requires 0 <= i => Slice(d, i));
      var all := seq(k, i requires 0 <= i => Slice(d, i));
      assert all == first + [Slice(d, k - 1)];
      ConcatAppend(first, [Slice(d, k - 1)]);
      assert Concat([Slice(d, k - 1)]) == Slice(d, k - 1) + Concat([]);
      SlicesPrefix(d, k - 1);
      assert d[..Min((k - 1) * BatchSize, |d|)] + Slice(d, k - 1) == d[..Min(k * BatchSize, |d|)];
    }
  }

  /** Delivery is a lossless, order-preserving partition: the batches, in
      order, concatenate to the dataset, and none is larger than 1000. */
  lemma BatchesPartition(d: seq<Candle>)
    ensures Concat(Batches(d)) == d
    ensures forall i :: 0 <= i < |Batches(d)| ==> |Batches(d)[i]| <= BatchSize
    ensures forall i :: 0 <= i < |Batches(d)| - 1 ==> |Batches(d)[i]| == BatchSize
  {
    SlicesPrefix(d, TotalBatches(|d|));
    assert d[..|d|] == d;
  }

  /** One run of `update_data`: append this batch, count it, then either
      re-arm the callback or show the completion message. With no data it
      returns at once. */
  function Tick(l: Loader, tree: seq<Candle>): (Loader, seq<Candle>)
  {
    if l.data.None? then (l.(scheduled := false), tree)
    else
      var next := l.currentBatch + 1;
      var tree' := tree + Slice(l.data.value, l.currentBatch);
      if next < l.totalBatches then (l.(currentBatch := next, scheduled := true), tree')
      else (l.(currentBatch := next, scheduled := false, completions := l.completions + 1), tree')
  }

  /** The rest of `load_data` once the fetch has returned: the table has
      been cleared; on `None` nothing is delivered, otherwise the counters
      are reset and the first batch is delivered at once. */
  function Begin(l: Loader, fetched: Option<seq<Candle>>): (Loader, seq<Candle>)
  {
    match fetched
    case None => (l.(data := None), [])
    case Some(d) =>
      Tick(l.(data := Some(d), totalBatches := TotalBatches(|d|), currentBatch := 0), [])
  }

  /** `load_data`: clear the table, fetch, and start delivering. */
  function LoadData(l: Loader, p: Fetch.Provider, interval: string, start: Option<int>, end: Option<int>, horizon: int)
    : (Loader, seq<Candle>)
    requires Fetch.WellBehaved(p, horizon)
  {
    Begin(l, Fetch.LoadKlines(p, interval, start, end, horizon))
  }

  /** Between callbacks the table holds exactly the batches delivered so
      far, a callback is pending exactly while batches remain, and the
      completion message has been shown once if and only if all batches
      are in. `shown` counts the messages shown before this delivery. */
  ghost predicate Delivering(l: Loader, tree: seq<Candle>, shown: nat)
  {
    && l.data.Some?
    && l.totalBatches == TotalBatches(|l.data.value|)
    && 1 <= l.currentBatch <= l.totalBatches
    && tree == Concat(seq(l.currentBatch, i requires 0 <= i => Slice(l.data.value, i)))
    && (l.scheduled <==> l.currentBatch < l.totalBatches)
    && l.completions == shown + (if l.currentBatch == l.totalBatches then 1 else 0)
  }

  /** A failed fetch leaves the table cleared, delivers nothing, shows no
      completion message and arms no new callback. */
  lemma LoadDataFailure(l: Loader, p: Fetch.Provider, interval: string, start: Option<int>, end: Option<int>, horizon: int)
    requires Fetch.WellBehaved(p, horizon)
    requires Fetch.LoadKlines(p, interval, start, end, horizon).None?
    ensures LoadData(l, p, interval, start, end, horizon).1 == []
    ensures LoadData(l, p, interval, start, end, horizon).0.data.None?
    ensures LoadData(l, p, interval, start, end, horizon).0.completions == l.completions
    ensures LoadData(l, p, interval, start, end, horizon).0.scheduled == l.scheduled
  {
  }

  /** A successful fetch starts a delivery: `current_batch` restarts at 0,
      the first batch goes in at once, and the table holds nothing else. */
  lemma BeginDelivers(l: Loader, d: seq<Candle>)
    ensures Delivering(Begin(l, Some(d)).0, Begin(l, Some(d)).1, l.completions)
    ensures Begin(l, Some(d)).0.currentBatch == 1
    ensures Begin(l, Some(d)).1 == Slice(d, 0)
  {
    var s := seq(1, i requires 0 <= i => Slice(d, i));
    assert s == [Slice(d, 0)];
    assert Concat(s) == Slice(d, 0) + Concat([]);
    assert [] + Slice(d, 0) == Slice(d, 0);
  }

  /** Each pending callback appends batch `current_batch` and keeps the
      delivery invariant; the callback that appends the last batch is the
      one that shows the completion message. */
  lemma TickDelivers(l: Loader, tree: seq<Candle>, shown: nat)
    requires Delivering(l, tree, shown) && l.scheduled
    ensures Delivering(Tick(l, tree).0, Tick(l, tree).1, shown)
    ensures Tick(l, tree).1 == tree + Slice(l.data.value, l.currentBatch)
    ensures Tick(l, tree).0.currentBatch == l.currentBatch + 1
  {
    var d := l.data.value;
    var k := l.currentBatch;
    var first := seq(k, i requires 0 <= i => Slice(d, i));
    assert seq(k + 1, i requires 0 <= i => Slice(d, i)) == first + [Slice(d, k)];
    ConcatAppend(first, [Slice(d, k)]);
    assert Concat([Slice(d, k)]) == Slice(d, k) + Concat([]);
  }

  /** Once no callback is pending, the table holds the whole dataset, in
      order, and the completion message has been shown exactly once. */
  lemma DeliveringDone(l: Loader, tree: seq<Candle>, shown: nat)
    requires Delivering(l, tree, shown) && !l.scheduled
    ensures tree == l.data.value
    ensures l.completions == shown + 1
  {
    assert seq(l.currentBatch, i requires 0 <= i => Slice(l.data.value, i)) == Batches(l.data.value);
    BatchesPartition(l.data.value);
  }

  /** `load_data` followed by every callback it arms, until none is
      pending. Returns the final loader, the table, and the number of
      batches delivered. */
  method DeliverAll(l: Loader, p: Fetch.Provider, interval: string, start: Option<int>, end: Option<int>, horizon: int)
    returns (l': Loader, tree: seq<Candle>, ticks: nat)
    requires Fetch.WellBehaved(p, horizon)
    ensures !l'.scheduled
    ensures Fetch.LoadKlines(p, interval, start, end, horizon).None? ==> tree == [] && ticks == 0 && l'.completions == l.completions
    ensures Fetch.LoadKlines(p, interval, start, end, horizon).Some? ==>
              && tree == Fetch.LoadKlines(p, interval, start, end, horizon).value
              && ticks == TotalBatches(|tree|)
              && l'.completions == l.completions + 1
  {
    var fetched := Fetch.LoadKlines(p, interval, start, end, horizon);
    if fetched.None? {
      // A callback still pending from before finds no data and returns.
      l' := l.(data := None, scheduled := false);
      tree := [];
      ticks := 0;
      return;
    }
    var d := fetched.value;
    var started := Begin(l, fetched);
    l', tree := started.0, started.1;
    BeginDelivers(l, d);
    ticks := 1;
    while l'.scheduled
      invariant Delivering(l', tree, l.completions)
      invariant l'.data == Some(d)
      invariant ticks == l'.currentBatch
      decreases l'.totalBatches - l'.currentBatch
    {
      TickDelivers(l', tree, l.completions);
      var next := Tick(l', tree);
      l', tree := next.0, next.1;
      ticks := ticks + 1;
    }
    DeliveringDone(l', tree, l.completions);
  }
}
