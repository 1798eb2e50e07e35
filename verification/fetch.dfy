/**
  The cursor-advancing pagination loop of `load_klines_from_binance`
  (data_loader.py). The HTTP endpoint is an abstract provider: a total
  function from one request to one response. The loop is a recursive
  function over the cursor; a trace of requests and pages describes the
  same loop declaratively, and the two are proved to agree.
 */
module Fetch {
  import opened Wrappers
  import opened Klines
  import opened Seqs

  /** Records asked for per request, and the short-page threshold. */
  const PageLimit := 1000

  /** The one market the loader ever requests. */
  const Symbol := "BTCUSDT"

  /** The query parameters of one klines request; absent times are left out
      of the query string. */
  datatype Request = Request(symbol: string, interval: string, limit: int,
                             startTime: Option<int>, endTime: Option<int>)

  /** One provider answer: a page of raw records, or any exception raised
      while sending the request or decoding its JSON body. */
  datatype Response = Page(records: seq<RawRecord>) | Failed

  type Provider = Request -> Response

  /** The request issued with the cursor at `cursor`. */
  function RequestAt(interval: string, cursor: Option<int>, end: Option<int>): Request
  {
    Request(Symbol, interval, PageLimit, cursor, end)
  }

  /** The open time of a page's last record, `data[-1][0]`. */
  function LastTime(page: seq<RawRecord>): Option<int>
    requires |page| > 0
  {
    OpenTime(page[|page| - 1])
  }

  /** Every numeric timestamp of `raw` lies at or after `lo` (when given),
      at or before `hi` (when given), and at or before `horizon`. */
  ghost predicate TimesWithin(raw: seq<RawRecord>, lo: Option<int>, hi: Option<int>, horizon: int)
  {
    forall k :: 0 <= k < |raw| && OpenTime(raw[k]).Some? ==>
      && (lo.Some? ==> lo.value <= OpenTime(raw[k]).value)
      && (hi.Some? ==> OpenTime(raw[k]).value <= hi.value)
      && OpenTime(raw[k]).value <= horizon
  }

  /** Numeric timestamps of `raw` strictly increase with position. */
  ghost predicate TimesAscending(raw: seq<RawRecord>)
  {
    forall i, j :: 0 <= i < j < |raw| && OpenTime(raw[i]).Some? && OpenTime(raw[j]).Some? ==>
      OpenTime(raw[i]).value < OpenTime(raw[j]).value
  }

  /** What the Binance klines endpoint promises about its pages: records
      ascend by open time, none opens before `startTime` or after the
      (inclusive) `endTime`, and none lies past `horizon`, the provider's
      present. These are the assumptions under which the loop terminates. */
  ghost predicate WellBehaved(p: Provider, horizon: int)
  {
    forall q :: p(q).Page? ==>
      TimesWithin(p(q).records, q.startTime, q.endTime, horizon) && TimesAscending(p(q).records)
  }

  /** The loop's termination measure for a numeric cursor. */
  function Rank(cursor: Option<int>, horizon: int): nat
  {
    match cursor
    case None => 0
    case Some(s) => if s <= horizon + 1 then horizon + 1 - s else 0
  }

  /** The `while True` loop: request a page at the cursor; stop on an empty
      page; otherwise keep the page, move the cursor to the last open time
      plus one millisecond, and stop on a short page or once the last open
      time reaches `end`. `None` is the exception path: no partial data. */
  function Loop(p: Provider, interval: string, end: Option<int>, horizon: int, cursor: Option<int>)
    : Option<seq<RawRecord>>
    requires WellBehaved(p, horizon)
    decreases if cursor.None? then 1 else 0, Rank(cursor, horizon)
  {
    var response := p(RequestAt(interval, cursor, end));
    if response.Failed? then None
    else
      var page := response.records;
      if |page| == 0 then Some([])
      else
        match LastTime(page)
        case None => None
        case Some(last) =>
          if |page| < PageLimit then Some(page)
          else if end.Some? && last >= end.value then Some(page)
          else
            assert TimesWithin(page, cursor, end, horizon);
            assert OpenTime(page[|page| - 1]).Some?;
            match Loop(p, interval, end, horizon, Some(last + 1))
            case None => None
            case Some(rest) => Some(page + rest)
  }

  /** The whole of `load_klines_from_binance` below the time parsing:
      paginate from `start`, then project every record to six fields.
      Any failure on the way yields `None`. */
  function LoadKlines(p: Provider, interval: string, start: Option<int>, end: Option<int>, horizon: int)
    : Option<seq<Candle>>
    requires WellBehaved(p, horizon)
  {
    match Loop(p, interval, end, horizon, start)
    case None => None
    case Some(raw) => Project(raw)
  }

  // ----- The loop described by its trace of requests -----

  /** A page after which the loop stops successfully: it is empty, or its
      last open time is numeric and it is short or reaches `end`. */
  predicate Stops(page: seq<RawRecord>, end: Option<int>)
  {
    || |page| == 0
    || (LastTime(page).Some? && (|page| < PageLimit || (end.Some? && LastTime(page).value >= end.value)))
  }

  /** A page after which the loop issues another request. */
  predicate Advances(page: seq<RawRecord>, end: Option<int>)
  {
    && |page| > 0
    && LastTime(page).Some?
    && |page| >= PageLimit
    && !(end.Some? && LastTime(page).value >= end.value)
  }

  /** A response on which the loop aborts: a failed request, or a page
      whose last record has no numeric open time to advance the cursor by. */
  predicate Aborts(response: Response)
  {
    response.Failed? || (|response.records| > 0 && LastTime(response.records).None?)
  }

  /** Every response is exactly one of: abort, stop, advance. */
  lemma ResponseKinds(response: Response, end: Option<int>)
    ensures Aborts(response) || (response.Page? && Stops(response.records, end))
            || (response.Page? && Advances(response.records, end))
    ensures !(Aborts(response) && response.Page? && Stops(response.records, end))
    ensures !(Aborts(response) && response.Page? && Advances(response.records, end))
    ensures !(response.Page? && Stops(response.records, end) && Advances(response.records, end))
  {
  }

  /** `cursors[i]` was sent, `pages[i]` came back and made the loop go on,
      and the next cursor is that page's last open time plus one. */
  ghost predicate Advancing(p: Provider, interval: string, end: Option<int>,
                            cursors: seq<Option<int>>, pages: seq<seq<RawRecord>>)
  {
    && |cursors| == |pages| + 1
    && forall i :: 0 <= i < |pages| ==>
         && p(RequestAt(interval, cursors[i], end)) == Page(pages[i])
         && Advances(pages[i], end)
         && cursors[i + 1] == Some(LastTime(pages[i]).value + 1)
  }

  function Prepend(prefix: seq<RawRecord>, r: Option<seq<RawRecord>>): Option<seq<RawRecord>>
  {
    match r
    case None => None
    case Some(s) => Some(prefix + s)
  }

  /** One advancing page: the loop keeps it and continues at the next cursor. */
  lemma LoopStep(p: Provider, interval: string, end: Option<int>, horizon: int, cursor: Option<int>, page: seq<RawRecord>)
    requires WellBehaved(p, horizon)
    requires p(RequestAt(interval, cursor, end)) == Page(page)
    requires Advances(page, end)
    ensures Loop(p, interval, end, horizon, cursor)
         == Prepend(page, Loop(p, interval, end, horizon, Some(LastTime(page).value + 1)))
  {
  }

  /** Dropping the first step of an advancing trace leaves an advancing trace. */
  lemma AdvancingTail(p: Provider, interval: string, end: Option<int>,
                      cursors: seq<Option<int>>, pages: seq<seq<RawRecord>>)
    requires Advancing(p, interval, end, cursors, pages) && |pages| > 0
    ensures Advancing(p, interval, end, cursors[1..], pages[1..])
  {
    forall i | 0 <= i < |pages[1..]|
      ensures p(RequestAt(interval, cursors[1..][i], end)) == Page(pages[1..][i])
      ensures Advances(pages[1..][i], end)
      ensures cursors[1..][i + 1] == Some(LastTime(pages[1..][i]).value + 1)
    {
      assert cursors[1..][i] == cursors[i + 1] && pages[1..][i] == pages[i + 1];
    }
  }

  lemma PrependTwice(a: seq<RawRecord>, b: seq<RawRecord>, r: Option<seq<RawRecord>>)
    ensures Prepend(a, Prepend(b, r)) == Prepend(a + b, r)
  {
    if r.Some? {
      assert a + (b + r.value) == (a + b) + r.value;
    }
  }

  /** Running the loop across an advancing trace accumulates its pages in
      order in front of whatever the loop does from the last cursor on. */
  lemma {:induction false} LoopUnfolds(p: Provider, interval: string, end: Option<int>, horizon: int,
                                       cursors: seq<Option<int>>, pages: seq<seq<RawRecord>>)
    requires WellBehaved(p, horizon)
    requires Advancing(p, interval, end, cursors, pages)
    ensures Loop(p, interval, end, horizon, cursors[0])
         == Prepend(Concat(pages), Loop(p, interval, end, horizon, cursors[|pages|]))
  {
    if |pages| == 0 {
      var r := Loop(p, interval, end, horizon, cursors[0]);
      if r.Some? {
        assert [] + r.value == r.value;
      }
    } else {
      LoopStep(p, interval, end, horizon, cursors[0], pages[0]);
      AdvancingTail(p, interval, end, cursors, pages);
      LoopUnfolds(p, interval, end, horizon, cursors[1..], pages[1..]);
      assert cursors[1..][|pages[1..]|] == cursors[|pages|];
      PrependTwice(pages[0], Concat(pages[1..]), Loop(p, interval, end, horizon, cursors[|pages|]));
    }
  }

  /** A stopping page ends the loop with that page as the last data. */
  lemma LoopStops(p: Provider, interval: string, end: Option<int>, horizon: int, cursor: Option<int>, page: seq<RawRecord>)
    requires WellBehaved(p, horizon)
    requires p(RequestAt(interval, cursor, end)) == Page(page)
    requires Stops(page, end)
    ensures Loop(p, interval, end, horizon, cursor) == Some(page)
  {
  }

  /** An aborting response ends the loop with no data. */
  lemma LoopAborts(p: Provider, interval: string, end: Option<int>, horizon: int, cursor: Option<int>)
    requires WellBehaved(p, horizon)
    requires Aborts(p(RequestAt(interval, cursor, end)))
    ensures Loop(p, interval, end, horizon, cursor) == None
  {
  }

  /** A trace that advances and then meets a stopping page succeeds with
      exactly the concatenation of every page, in order. */
  lemma RunSucceeds(p: Provider, interval: string, end: Option<int>, horizon: int,
                    cursors: seq<Option<int>>, pages: seq<seq<RawRecord>>, final: seq<RawRecord>)
    requires WellBehaved(p, horizon)
    requires Advancing(p, interval, end, cursors, pages)
    requires p(RequestAt(interval, cursors[|pages|], end)) == Page(final)
    requires Stops(final, end)
    ensures Loop(p, interval, end, horizon, cursors[0]) == Some(Concat(pages) + final)
  {
    LoopUnfolds(p, interval, end, horizon, cursors, pages);
    LoopStops(p, interval, end, horizon, cursors[|pages|], final);
  }

  /** A trace that advances and then meets an aborting response fails as a
      whole: the pages already received are discarded. */
  lemma RunFails(p: Provider, interval: string, end: Option<int>, horizon: int,
                 cursors: seq<Option<int>>, pages: seq<seq<RawRecord>>)
    requires WellBehaved(p, horizon)
    requires Advancing(p, interval, end, cursors, pages)
    requires Aborts(p(RequestAt(interval, cursors[|pages|], end)))
    ensures Loop(p, interval, end, horizon, cursors[0]) == None
  {
    LoopUnfolds(p, interval, end, horizon, cursors, pages);
    LoopAborts(p, interval, end, horizon, cursors[|pages|]);
  }

  /** Prefixing an advancing step to an advancing trace that starts where
      the step leaves the cursor gives an advancing trace. */
  lemma AdvancingCons(p: Provider, interval: string, end: Option<int>, cursor: Option<int>, page: seq<RawRecord>,
                      cursors: seq<Option<int>>, pages: seq<seq<RawRecord>>)
    requires p(RequestAt(interval, cursor, end)) == Page(page) && Advances(page, end)
    requires Advancing(p, interval, end, cursors, pages)
    requires cursors[0] == Some(LastTime(page).value + 1)
    ensures Advancing(p, interval, end, [cursor] + cursors, [page] + pages)
  {
    var cs, ps := [cursor] + cursors, [page] + pages;
    forall i | 0 <= i < |ps|
      ensures p(RequestAt(interval, cs[i], end)) == Page(ps[i])
      ensures Advances(ps[i], end)
      ensures cs[i + 1] == Some(LastTime(ps[i]).value + 1)
    {
      if i > 0 {
        assert cs[i] == cursors[i - 1] && ps[i] == pages[i - 1] && cs[i + 1] == cursors[i];
      }
    }
  }

  /** The requests the loop makes from `cursor` on: an advancing trace
      followed by a response that does not advance. */
  lemma {:induction false} TraceFrom(p: Provider, interval: string, end: Option<int>, horizon: int, cursor: Option<int>)
    returns (cursors: seq<Option<int>>, pages: seq<seq<RawRecord>>)
    requires WellBehaved(p, horizon)
    ensures Advancing(p, interval, end, cursors, pages) && cursors[0] == cursor
    ensures var final := p(RequestAt(interval, cursors[|pages|], end));
            !(final.Page? && Advances(final.records, end))
    decreases if cursor.None? then 1 else 0, Rank(cursor, horizon)
  {
    var response := p(RequestAt(interval, cursor, end));
    if response.Page? && Advances(response.records, end) {
      var page := response.records;
      var last := LastTime(page).value;
      assert TimesWithin(page, cursor, end, horizon);
      assert OpenTime(page[|page| - 1]).Some?;
      var cs, ps := TraceFrom(p, interval, end, horizon, Some(last + 1));
      AdvancingCons(p, interval, end, cursor, page, cs, ps);
      cursors := [cursor] + cs;
      pages := [page] + ps;
      assert cursors[|pages|] == cs[|ps|];
    } else {
      cursors := [cursor];
      pages := [];
    }
  }

  /** Conversely, every outcome of the loop comes from such a trace: the
      requests it made, the pages that made it continue, and the final
      response that made it stop or abort. */
  lemma LoopHasTrace(p: Provider, interval: string, end: Option<int>, horizon: int, cursor: Option<int>)
    returns (cursors: seq<Option<int>>, pages: seq<seq<RawRecord>>)
    requires WellBehaved(p, horizon)
    ensures Advancing(p, interval, end, cursors, pages) && cursors[0] == cursor
    ensures var final := p(RequestAt(interval, cursors[|pages|], end));
            && (Loop(p, interval, end, horizon, cursor) == None <==> Aborts(final))
            && (Loop(p, interval, end, horizon, cursor).Some? ==>
                  && final.Page? && Stops(final.records, end)
                  && Loop(p, interval, end, horizon, cursor).value == Concat(pages) + final.records)
  {
    cursors, pages := TraceFrom(p, interval, end, horizon, cursor);
    var final := p(RequestAt(interval, cursors[|pages|], end));
    ResponseKinds(final, end);
    if Aborts(final) {
      RunFails(p, interval, end, horizon, cursors, pages);
    } else {
      RunSucceeds(p, interval, end, horizon, cursors, pages, final.records);
    }
  }

  // ----- Ordering and range of the fetched data -----

  /** The cursor strictly increases along a trace from a well-behaved
      provider, so no request repeats and no page's last record is asked
      for again. */
  lemma {:induction false} CursorsIncrease(p: Provider, interval: string, end: Option<int>, horizon: int,
                                           cursors: seq<Option<int>>, pages: seq<seq<RawRecord>>)
    requires WellBehaved(p, horizon)
    requires Advancing(p, interval, end, cursors, pages)
    ensures forall i :: 1 <= i < |cursors| ==> cursors[i].Some?
    ensures forall i, j :: 1 <= i < j < |cursors| ==> cursors[i].value < cursors[j].value
    ensures forall i :: 0 <= i < |pages| && cursors[i].Some? ==> cursors[i].value < cursors[i + 1].value
  {
    assert forall i :: 1 <= i < |cursors| ==> cursors[i] == Some(LastTime(pages[i - 1]).value + 1);
    forall i | 0 <= i < |pages| && cursors[i].Some?
      ensures cursors[i].value < cursors[i + 1].value
    {
      var q := RequestAt(interval, cursors[i], end);
      assert p(q).Page? && p(q).records == pages[i];
      assert TimesWithin(pages[i], cursors[i], end, horizon);
      assert OpenTime(pages[i][|pages[i]| - 1]).Some?;
    }
    forall i, j | 1 <= i < j < |cursors|
      ensures cursors[i].value < cursors[j].value
    {
      var k := i;
      while k < j
        invariant i <= k <= j
        invariant cursors[i].value <= cursors[k].value
        invariant k > i ==> cursors[i].value < cursors[k].value
      {
        k := k + 1;
      }
    }
  }

  /** Every record the loop returns opens at or after the first cursor, at
      or before `end` and `horizon`, and the records strictly ascend by open
      time: pages never overlap and nothing is fetched twice. */
  lemma {:induction false} LoopOrdered(p: Provider, interval: string, end: Option<int>, horizon: int, cursor: Option<int>)
    requires WellBehaved(p, horizon)
    requires Loop(p, interval, end, horizon, cursor).Some?
    ensures TimesWithin(Loop(p, interval, end, horizon, cursor).value, cursor, end, horizon)
    ensures TimesAscending(Loop(p, interval, end, horizon, cursor).value)
    decreases if cursor.None? then 1 else 0, Rank(cursor, horizon)
  {
    var response := p(RequestAt(interval, cursor, end));
    var page := response.records;
    assert TimesWithin(page, cursor, end, horizon) && TimesAscending(page);
    if |page| > 0 && LastTime(page).Some? && |page| >= PageLimit
       && !(end.Some? && LastTime(page).value >= end.value) {
      var last := LastTime(page).value;
      assert OpenTime(page[|page| - 1]).Some?;
      LoopOrdered(p, interval, end, horizon, Some(last + 1));
      var rest := Loop(p, interval, end, horizon, Some(last + 1)).value;
      var raw := page + rest;
      assert Loop(p, interval, end, horizon, cursor).value == raw;
      assert forall k :: 0 <= k < |page| && OpenTime(page[k]).Some? ==> OpenTime(page[k]).value <= last by {
        forall k | 0 <= k < |page| && OpenTime(page[k]).Some?
          ensures OpenTime(page[k]).value <= last
        {
          if k < |page| - 1 {
            assert OpenTime(page[k]).value < OpenTime(page[|page| - 1]).value;
          }
        }
      }
      forall i, j | 0 <= i < j < |raw| && OpenTime(raw[i]).Some? && OpenTime(raw[j]).Some?
        ensures OpenTime(raw[i]).value < OpenTime(raw[j]).value
      {
        if j < |page| {
          assert raw[i] == page[i] && raw[j] == page[j];
        } else if i < |page| {
          assert raw[i] == page[i] && raw[j] == rest[j - |page|];
        } else {
          assert raw[i] == rest[i - |page|] && raw[j] == rest[j - |page|];
        }
      }
      forall k | 0 <= k < |raw| && OpenTime(raw[k]).Some?
        ensures cursor.Some? ==> cursor.value <= OpenTime(raw[k]).value
        ensures end.Some? ==> OpenTime(raw[k]).value <= end.value
        ensures OpenTime(raw[k]).value <= horizon
      {
        if k < |page| {
          assert raw[k] == page[k];
        } else {
          assert raw[k] == rest[k - |page|];
          if cursor.Some? {
            assert OpenTime(page[|page| - 1]).value >= cursor.value;
          }
        }
      }
    }
  }

  /** A successful load returns candles in strictly ascending time order,
      none before `start`, none after `end` (Binance's end bound is
      inclusive) and none after the provider's present. */
  lemma LoadKlinesOrdered(p: Provider, interval: string, start: Option<int>, end: Option<int>, horizon: int)
    requires WellBehaved(p, horizon)
    requires LoadKlines(p, interval, start, end, horizon).Some?
    ensures var cs := LoadKlines(p, interval, start, end, horizon).value;
            && (forall i, j :: 0 <= i < j < |cs| ==> cs[i].time < cs[j].time)
            && (forall k :: 0 <= k < |cs| ==>
                  && (start.Some? ==> start.value <= cs[k].time)
                  && (end.Some? ==> cs[k].time <= end.value)
                  && cs[k].time <= horizon)
  {
    var raw := Loop(p, interval, end, horizon, start).value;
    LoopOrdered(p, interval, end, horizon, start);
    var cs := LoadKlines(p, interval, start, end, horizon).value;
    forall k | 0 <= k < |cs|
      ensures OpenTime(raw[k]) == Some(cs[k].time)
    {
      NormalizeInverse(raw[k], cs[k]);
    }
  }

  /** The dataset a load returns is the projection of every page the trace
      received, in order; a load that fails returns nothing at all. */
  lemma LoadKlinesIsProjectedPages(p: Provider, interval: string, start: Option<int>, end: Option<int>, horizon: int)
    returns (cursors: seq<Option<int>>, pages: seq<seq<RawRecord>>)
    requires WellBehaved(p, horizon)
    ensures Advancing(p, interval, end, cursors, pages) && cursors[0] == start
    ensures var final := p(RequestAt(interval, cursors[|pages|], end));
            LoadKlines(p, interval, start, end, horizon)
              == if Aborts(final) then None else Project(Concat(pages) + final.records)
  {
    cursors, pages := LoopHasTrace(p, interval, end, horizon, start);
  }
}
