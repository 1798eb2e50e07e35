/**
  Several loads into the same table. Every press of "Load from Binance"
  (gui.py, `TradingViewGUI.load_data`) builds a new `DataLoader` over the
  one shared treeview and runs its `load_data` on a worker thread. That
  call clears the table at once and then blocks in the fetch, while Tk
  keeps running the `root.after` callbacks of earlier loaders. A load is
  therefore two steps here: `Press` (clear, start the fetch) and `Arrive`
  (the fetch returns and the first batch goes in), with any number of
  `Fire` steps of any loader in between. `Session` holds the table, every
  loader so far (the newest last) and the loaders whose fetch is still in
  flight.
 */
module Sessions {
  import opened Wrappers
  import opened Klines
  import opened Delivery

  datatype Session = Session(tree: seq<Candle>, loaders: seq<Loader>, fetching: set<nat>)

  /** The application before any load. */
  function Empty(): Session
  {
    Session([], [], {})
  }

  /** A press as written: a fresh loader clears the table and starts its
      fetch; earlier loaders keep their armed callbacks and in-flight
      fetches. */
  function Press(s: Session): (s': Session)
    ensures s'.tree == []
    ensures |s'.loaders| == |s.loaders| + 1 && s'.loaders[..|s.loaders|] == s.loaders
    ensures !s'.loaders[|s.loaders|].scheduled && s'.loaders[|s.loaders|].data.None?
    ensures s'.fetching == s.fetching + {|s.loaders|}
  {
    Session([], s.loaders + [NewLoader()], s.fetching + {|s.loaders|})
  }

  /** The fetch of loader `i` returns `fetched`. The rest of `load_data`
      runs: on success the first batch is appended to the table as it is
      now, without clearing it again. A loader with no fetch in flight is
      left alone. */
  function Arrive(s: Session, i: nat, fetched: Option<seq<Candle>>): (s': Session)
    requires i < |s.loaders|
    ensures i !in s.fetching ==> s' == s
    ensures i in s.fetching ==> i !in s'.fetching && |s'.loaders| == |s.loaders|
    ensures i in s.fetching && fetched.None? ==> s'.tree == s.tree && s'.loaders[i].data.None?
    ensures i in s.fetching && fetched.Some? ==> s'.tree == s.tree + Slice(fetched.value, 0)
  {
    if i !in s.fetching then s
    else
      var started := Begin(s.loaders[i], fetched);
      Session(s.tree + started.1, s.loaders[i := started.0], s.fetching - {i})
  }

  /** The pending callback of loader `i` fires; a loader with nothing
      pending is left alone. */
  function Fire(s: Session, i: nat): (s': Session)
    requires i < |s.loaders|
    ensures s'.fetching == s.fetching && |s'.loaders| == |s.loaders|
    ensures !s.loaders[i].scheduled ==> s' == s
    ensures s.loaders[i].scheduled && s.loaders[i].data.Some? ==>
              s'.tree == s.tree + Slice(s.loaders[i].data.value, s.loaders[i].currentBatch)
    ensures forall j :: 0 <= j < |s.loaders| && j != i ==> s'.loaders[j] == s.loaders[j]
  {
    if !s.loaders[i].scheduled then s
    else
      var next := Tick(s.loaders[i], s.tree);
      s.(tree := next.1, loaders := s.loaders[i := next.0])
  }

  /** What can happen to the session: a press of the load button, the
      fetch of a loader returning, or a loader's callback firing. An event
      naming a loader that does not exist changes nothing. */
  datatype Event = Pressed | Fetched(loader: nat, result: Option<seq<Candle>>) | Fired(loader: nat)

  function Step(s: Session, e: Event): Session
  {
    match e
    case Pressed => Press(s)
    case Fetched(i, r) => if i < |s.loaders| then Arrive(s, i, r) else s
    case Fired(i) => if i < |s.loaders| then Fire(s, i) else s
  }

  /** The events in order, as written. */
  function Run(s: Session, es: seq<Event>): Session
    decreases |es|
  {
    if |es| == 0 then s else Run(Step(s, es[0]), es[1..])
  }

  /** A load that fetches and starts delivering before anything else
      happens. */
  function StartLoad(s: Session, fetched: Option<seq<Candle>>): (s': Session)
    ensures |s'.loaders| == |s.loaders| + 1
    ensures forall i :: 0 <= i < |s.loaders| ==> s'.loaders[i] == s.loaders[i]
  {
    Arrive(Press(s), |s.loaders|, fetched)
  }

  /** A load of 1001 records, then a load of none before the first
      loader's second callback has fired: when it fires, the old dataset's
      record 1000 lands in the table that the second load just cleared and
      declared complete. */
  lemma StaleCallbackLeaks(c: Candle)
    ensures var first := StartLoad(Empty(), Some(seq(1001, _ => c)));
            var second := StartLoad(first, Some([]));
            && second.tree == []
            && second.loaders[1].completions == 1
            && first.loaders[0].scheduled
            && Fire(second, 0).tree == [c]
  {
    var d := seq(1001, _ => c);
    assert Slice(d, 0) == d[0..1000];
    assert Slice(d, 1) == d[1000..1001] == [c];
  }

  /** The likelier timing: the first loader's second batch fires while the
      second load is still fetching, so the second load's table starts
      with a record of the first load, and is no prefix of its own data. */
  lemma StaleBatchDuringFetch(c: Candle, c': Candle)
    ensures var s := Run(Empty(), [Pressed, Fetched(0, Some(seq(1001, _ => c))), Pressed, Fired(0),
                                   Fetched(1, Some([c']))]);
            && |s.loaders| == 2
            && s.loaders[1].data == Some([c'])
            && s.tree == [c, c']
            && !(s.tree <= s.loaders[1].data.value)
  {
    var d := seq(1001, _ => c);
    assert Slice(d, 0) == d[0..1000];
    assert Slice(d, 1) == d[1000..1001] == [c];
    assert Slice([c'], 0) == [c'];
    var es := [Pressed, Fetched(0, Some(d)), Pressed, Fired(0), Fetched(1, Some([c']))];
    var s1 := Step(Empty(), Pressed);
    var s2 := Step(s1, Fetched(0, Some(d)));
    var s3 := Step(s2, Pressed);
    var s4 := Step(s3, Fired(0));
    var s5 := Step(s4, Fetched(1, Some([c'])));
    assert s2.tree == Slice(d, 0) && s2.loaders[0].scheduled && s2.loaders[0].currentBatch == 1;
    assert s4.tree == [c];
    assert s5.tree == [c, c'];
    assert Run(Empty(), es) == Run(s1, es[1..]) == Run(s2, es[2..]) == Run(s3, es[3..])
        == Run(s4, es[4..]) == Run(s5, []) == s5;
  }

  /** Two presses whose fetches overlap: the first fetch returns last and
      appends its batch to the second load's table. */
  lemma OverlappingFetchLeaks(c: Candle, c': Candle)
    ensures var s := Run(Empty(), [Pressed, Pressed, Fetched(1, Some([c'])), Fetched(0, Some([c]))]);
            && |s.loaders| == 2 && s.loaders[1].data == Some([c'])
            && s.tree == [c', c]
  {
    assert Slice([c'], 0) == [c'];
    assert Slice([c], 0) == [c];
    var es := [Pressed, Pressed, Fetched(1, Some([c'])), Fetched(0, Some([c]))];
    var s1 := Step(Empty(), Pressed);
    var s2 := Step(s1, Pressed);
    var s3 := Step(s2, Fetched(1, Some([c'])));
    var s4 := Step(s3, Fetched(0, Some([c])));
    assert s4.tree == [c', c];
    assert Run(Empty(), es) == Run(s1, es[1..]) == Run(s2, es[2..]) == Run(s3, es[3..])
        == Run(s4, []) == s4;
  }

  /** The table a session shows is exactly what its newest loader has
      delivered: nothing while its fetch is in flight or if it failed, its
      first batches otherwise. Every older loader has no callback pending
      and no fetch in flight. */
  ghost predicate Coherent(s: Session)
  {
    && (forall i :: 0 <= i < |s.loaders| - 1 ==> !s.loaders[i].scheduled)
    && (forall i :: i in s.fetching ==> i == |s.loaders| - 1)
    && (|s.loaders| == 0 ==> s.tree == [])
    && (|s.loaders| > 0 ==>
          var l := s.loaders[|s.loaders| - 1];
          if |s.loaders| - 1 in s.fetching then l == NewLoader() && s.tree == []
          else (l.data.None? && !l.scheduled && s.tree == []) || Delivering(l, s.tree, 0))
  }

  /** Cancels the pending callback of a loader (`root.after_cancel`). */
  function Cancel(l: Loader): (l': Loader)
    ensures !l'.scheduled && l'.data == l.data && l'.currentBatch == l.currentBatch
  {
    l.(scheduled := false)
  }

  /** The corrected press: it cancels every pending callback of earlier
      loaders and abandons their in-flight fetches (a superseded fetch's
      result is discarded when it returns), then clears the table and
      starts its own fetch. */
  function PressCancelling(s: Session): (s': Session)
    ensures s'.tree == []
    ensures |s'.loaders| == |s.loaders| + 1
    ensures forall i :: 0 <= i < |s.loaders| ==> !s'.loaders[i].scheduled
    ensures s'.fetching == {|s.loaders|}
  {
    Session([], seq(|s.loaders|, i requires 0 <= i < |s.loaders| => Cancel(s.loaders[i])) + [NewLoader()],
            {|s.loaders|})
  }

  /** The corrected step: only a press differs. */
  function StepCancelling(s: Session, e: Event): Session
  {
    match e
    case Pressed => PressCancelling(s)
    case Fetched(i, r) => if i < |s.loaders| then Arrive(s, i, r) else s
    case Fired(i) => if i < |s.loaders| then Fire(s, i) else s
  }

  /** The events in order, with the corrected press. */
  function RunCancelling(s: Session, es: seq<Event>): Session
    decreases |es|
  {
    if |es| == 0 then s else RunCancelling(StepCancelling(s, es[0]), es[1..])
  }

  /** A corrected load that fetches and starts delivering before anything
      else happens. */
  function StartLoadCancelling(s: Session, fetched: Option<seq<Candle>>): (s': Session)
    ensures |s'.loaders| == |s.loaders| + 1
    ensures forall i :: 0 <= i < |s.loaders| ==> !s'.loaders[i].scheduled
    ensures s'.fetching == {}
  {
    Arrive(PressCancelling(s), |s.loaders|, fetched)
  }

  lemma EmptyCoherent()
    ensures Coherent(Empty())
  {
  }

  /** A corrected press leaves the session coherent, whatever came before. */
  lemma PressCancellingCoherent(s: Session)
    ensures Coherent(PressCancelling(s))
  {
    var s' := PressCancelling(s);
    assert s'.loaders[|s'.loaders| - 1] == NewLoader();
  }

  /** When a fetch returns in a coherent session, only the newest loader's
      result reaches the table, and then the table is its first batch. */
  lemma ArriveCoherent(s: Session, i: nat, fetched: Option<seq<Candle>>)
    requires Coherent(s) && i < |s.loaders|
    ensures Coherent(Arrive(s, i, fetched))
    ensures i in s.fetching && fetched.Some? ==> Arrive(s, i, fetched).tree == Slice(fetched.value, 0)
    ensures i in s.fetching && fetched.None? ==> Arrive(s, i, fetched).tree == []
  {
    if i in s.fetching {
      var l := s.loaders[i];
      assert l == NewLoader();
      if fetched.Some? {
        BeginDelivers(l, fetched.value);
      }
    }
  }

  /** A corrected load leaves the session coherent, whatever came before. */
  lemma StartLoadCancellingCoherent(s: Session, fetched: Option<seq<Candle>>)
    ensures Coherent(StartLoadCancelling(s, fetched))
    ensures fetched.Some? ==> StartLoadCancelling(s, fetched).tree == Slice(fetched.value, 0)
    ensures fetched.None? ==> StartLoadCancelling(s, fetched).tree == []
  {
    PressCancellingCoherent(s);
    ArriveCoherent(PressCancelling(s), |s.loaders|, fetched);
  }

  /** Whichever callback fires, a coherent session stays coherent: a stale
      loader has nothing pending, and the newest one delivers its next batch. */
  lemma FireCoherent(s: Session, i: nat)
    requires Coherent(s) && i < |s.loaders|
    ensures Coherent(Fire(s, i))
  {
    if s.loaders[i].scheduled {
      assert i == |s.loaders| - 1;
      TickDelivers(s.loaders[i], s.tree, 0);
    }
  }

  lemma StepCancellingCoherent(s: Session, e: Event)
    requires Coherent(s)
    ensures Coherent(StepCancelling(s, e))
  {
    match e
    case Pressed => PressCancellingCoherent(s);
    case Fetched(i, r) => if i < |s.loaders| { ArriveCoherent(s, i, r); }
    case Fired(i) => if i < |s.loaders| { FireCoherent(s, i); }
  }

  /** In a coherent session the table is always a prefix of the newest
      loader's dataset: no record of an earlier load can appear in it. */
  lemma CoherentShowsNewest(s: Session)
    requires Coherent(s) && |s.loaders| > 0
    ensures var l := s.loaders[|s.loaders| - 1];
            l.data.Some? ==> s.tree <= l.data.value
  {
    var l := s.loaders[|s.loaders| - 1];
    if l.data.Some? && |s.loaders| - 1 !in s.fetching && !(l.data.None? && !l.scheduled && s.tree == []) {
      SlicesPrefix(l.data.value, l.currentBatch);
    }
  }

  /** With the corrected press, any interleaving of presses, returning
      fetches and callbacks keeps the session coherent, so the table only
      ever holds a prefix of the newest loader's data. */
  lemma {:induction false} RunCancellingCoherent(s: Session, es: seq<Event>)
    requires Coherent(s)
    ensures Coherent(RunCancelling(s, es))
    ensures var r := RunCancelling(s, es);
            |r.loaders| > 0 && r.loaders[|r.loaders| - 1].data.Some? ==>
              r.tree <= r.loaders[|r.loaders| - 1].data.value
    decreases |es|
  {
    if |es| > 0 {
      StepCancellingCoherent(s, es[0]);
      RunCancellingCoherent(StepCancelling(s, es[0]), es[1..]);
    } else if |s.loaders| > 0 {
      CoherentShowsNewest(s);
    }
  }
}
