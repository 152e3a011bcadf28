/** What the paging loop returns from a store that answers honestly. */
module PagingLaws {
  import opened Wrappers
  import opened Intervals
  import opened Segments
  import opened Rows
  import opened Paging

  /** The stored rows that open in [startMS, endMS), in stored order. */
  function Window(store: seq<KlineRow>, startMS: int, endMS: int): seq<KlineRow> {
    if store == [] then []
    else
      (if startMS <= store[0].openTime < endMS then [store[0]] else []) + Window(store[1..], startMS, endMS)
  }

  /** Ascending, with consecutive rows at least a step apart. */
  ghost predicate Spaced(store: seq<KlineRow>, stepMS: int) {
    forall i, j :: 0 <= i < j < |store| ==> store[i].openTime + stepMS <= store[j].openTime
  }

  ghost predicate AnswersPage(
    fetch: KlineQuerier, key: StreamKey, store: seq<KlineRow>, startMS: int, endMS: int)
  {
    var window := Window(store, startMS, endMS);
    fetch(PageQuery(key, startMS, endMS)) == Ok(window[..Min(FETCH_LIMIT, |window|)])
  }

  /** Every page query is answered with the first rows of its window, up to its limit. */
  ghost predicate Answers(fetch: KlineQuerier, key: StreamKey, store: seq<KlineRow>) {
    forall startMS, endMS :: AnswersPage(fetch, key, store, startMS, endMS)
  }

  lemma {:induction false} WindowMembers(store: seq<KlineRow>, startMS: int, endMS: int, row: KlineRow)
    ensures row in Window(store, startMS, endMS) <==> row in store && startMS <= row.openTime < endMS
  {
    if store != [] {
      assert store == [store[0]] + store[1..];
      WindowMembers(store[1..], startMS, endMS, row);
    }
  }

  lemma {:induction false} WindowSpaced(store: seq<KlineRow>, startMS: int, endMS: int, stepMS: int)
    requires Spaced(store, stepMS)
    ensures Spaced(Window(store, startMS, endMS), stepMS)
  {
    if store != [] {
      WindowSpaced(store[1..], startMS, endMS, stepMS);
      forall row | row in Window(store[1..], startMS, endMS) ensures store[0].openTime + stepMS <= row.openTime {
        WindowMembers(store[1..], startMS, endMS, row);
        var j :| 0 <= j < |store[1..]| && store[1..][j] == row;
        assert row == store[j + 1];
      }
    }
  }

  /** An ascending list is determined by its rows. */
  lemma {:induction false} SpacedUnique(a: seq<KlineRow>, b: seq<KlineRow>, stepMS: int)
    requires stepMS > 0 && Spaced(a, stepMS) && Spaced(b, stepMS)
    requires forall row :: row in a <==> row in b
    ensures a == b
  {
    assert a != [] ==> a[0] in b;
    assert b != [] ==> b[0] in a;
    if a != [] {
      var i :| 0 <= i < |a| && a[i] == b[0];
      var j :| 0 <= j < |b| && b[j] == a[0];
      assert a[0] == b[0];
      assert a == [a[0]] + a[1..] && b == [b[0]] + b[1..];
      assert a[0] !in a[1..] && b[0] !in b[1..];
      forall row ensures row in a[1..] <==> row in b[1..] {
        assert row in a <==> row == a[0] || row in a[1..];
        assert row in b <==> row == b[0] || row in b[1..];
      }
      SpacedUnique(a[1..], b[1..], stepMS);
    }
  }

  lemma LastIsMax(chunk: seq<KlineRow>, stepMS: int)
    requires chunk != [] && stepMS > 0 && Spaced(chunk, stepMS)
    ensures MaxOpen(chunk) == chunk[|chunk| - 1].openTime
  {
    var m := MaxOpen(chunk);
    var i :| 0 <= i < |chunk| && chunk[i] == KlineRow(m);
    assert chunk[|chunk| - 1] in chunk;
  }

  // ---- Exactly what the pages hold ----------------------------------------------------

  /** The rows of the list that open at or after `laterMS`. */
  function Later(w: seq<KlineRow>, laterMS: int): (r: seq<KlineRow>)
    ensures |r| <= |w|
  {
    if w == [] then []
    else (if w[0].openTime >= laterMS then [w[0]] else []) + Later(w[1..], laterMS)
  }

  /** What is left of a window once each full page skips the rows less than a step behind its end. */
  function Kept(w: seq<KlineRow>, stepMS: int): (r: seq<KlineRow>)
    ensures |r| <= |w|
    decreases |w|
  {
    if |w| <= FETCH_LIMIT then w
    else
      w[..FETCH_LIMIT] + Kept(Later(w[FETCH_LIMIT..], w[FETCH_LIMIT - 1].openTime + stepMS), stepMS)
  }

  lemma {:induction false} LaterMembers(w: seq<KlineRow>, laterMS: int, row: KlineRow)
    ensures row in Later(w, laterMS) <==> row in w && row.openTime >= laterMS
  {
    if w != [] {
      assert row in w <==> row == w[0] || row in w[1..];
      LaterMembers(w[1..], laterMS, row);
    }
  }

  lemma {:induction false} LaterSpaced(w: seq<KlineRow>, laterMS: int)
    requires Spaced(w, 1)
    ensures Spaced(Later(w, laterMS), 1)
  {
    if w != [] {
      LaterSpaced(w[1..], laterMS);
      forall row | row in Later(w[1..], laterMS) ensures w[0].openTime + 1 <= row.openTime {
        LaterMembers(w[1..], laterMS, row);
        HeadIsFirst(w, row);
      }
    }
  }

  lemma HeadIsFirst(w: seq<KlineRow>, row: KlineRow)
    requires Spaced(w, 1) && w != [] && row in w[1..]
    ensures w[0].openTime + 1 <= row.openTime
  {
    var j :| 0 <= j < |w[1..]| && w[1..][j] == row;
    assert row == w[j + 1];
  }

  /** A row beyond the first `n` opens after all of them. */
  lemma BeyondPage(w: seq<KlineRow>, n: nat, laterMS: int, row: KlineRow)
    requires Spaced(w, 1) && 0 < n <= |w| && w[n - 1].openTime < laterMS <= row.openTime
    ensures row in w <==> row in w[n..]
  {
    if row in w {
      var i :| 0 <= i < |w| && w[i] == row;
      assert i >= n;
      assert w[n..][i - n] == row;
    }
  }

  lemma {:induction false} KeptMembers(w: seq<KlineRow>, stepMS: int, row: KlineRow)
    ensures row in Kept(w, stepMS) ==> row in w
    decreases |w|
  {
    if |w| > FETCH_LIMIT {
      var laterMS := w[FETCH_LIMIT - 1].openTime + stepMS;
      LaterMembers(w[FETCH_LIMIT..], laterMS, row);
      KeptMembers(Later(w[FETCH_LIMIT..], laterMS), stepMS, row);
    }
  }

  /** Where the next page starts, the store's window is what is left of this one. */
  lemma NextWindow(store: seq<KlineRow>, nextMS: int, laterMS: int, endMS: int, n: nat)
    requires Spaced(store, 1) && nextMS <= laterMS
    requires var w := Window(store, nextMS, endMS); 0 < n <= |w| && w[n - 1].openTime < laterMS
    ensures Window(store, laterMS, endMS) == Later(Window(store, nextMS, endMS)[n..], laterMS)
  {
    var w := Window(store, nextMS, endMS);
    WindowSpaced(store, nextMS, endMS, 1);
    WindowSpaced(store, laterMS, endMS, 1);
    LaterSpaced(w[n..], laterMS);
    forall row ensures row in Window(store, laterMS, endMS) <==> row in Later(w[n..], laterMS) {
      WindowMembers(store, nextMS, endMS, row);
      WindowMembers(store, laterMS, endMS, row);
      LaterMembers(w[n..], laterMS, row);
      if laterMS <= row.openTime {
        BeyondPage(w, n, laterMS, row);
      }
    }
    SpacedUnique(Window(store, laterMS, endMS), Later(w[n..], laterMS), 1);
  }

  lemma PageAnswer(fetch: KlineQuerier, key: StreamKey, store: seq<KlineRow>, startMS: int, endMS: int, n: nat)
    requires Answers(fetch, key, store) && n == Min(FETCH_LIMIT, |Window(store, startMS, endMS)|)
    ensures fetch(PageQuery(key, startMS, endMS)) == Ok(Window(store, startMS, endMS)[..n])
  {
    assert AnswersPage(fetch, key, store, startMS, endMS);
  }

  /** The last row of a page is its latest, and it opens inside the range. */
  lemma PageEnd(store: seq<KlineRow>, nextMS: int, endMS: int, n: nat)
    requires Spaced(store, 1) && 0 < n <= |Window(store, nextMS, endMS)|
    ensures var w := Window(store, nextMS, endMS);
            MaxOpen(w[..n]) == w[n - 1].openTime && nextMS <= w[n - 1].openTime < endMS
  {
    var w := Window(store, nextMS, endMS);
    assert w[n - 1] in w;
    WindowMembers(store, nextMS, endMS, w[n - 1]);
    WindowSpaced(store, nextMS, endMS, 1);
    LastIsMax(w[..n], 1);
  }

  lemma KeptPage(w: seq<KlineRow>, n: nat, stepMS: int)
    requires n == Min(FETCH_LIMIT, |w|) && n > 0
    ensures Kept(w, stepMS) == w[..n] + Kept(Later(w[n..], w[n - 1].openTime + stepMS), stepMS)
  {
    if |w| <= FETCH_LIMIT {
      assert w[n..] == [] && w[..n] == w;
    }
  }

  /** One turn of the paging loop on a window `w`, whose first `n` rows are the page. */
  lemma OneTurn(
    fetch: KlineQuerier, key: StreamKey, nextMS: int, endMS: int, stepMS: int, w: seq<KlineRow>, n: nat)
    requires stepMS > 0 && n == Min(FETCH_LIMIT, |w|) && n > 0
    requires fetch(PageQuery(key, nextMS, endMS)) == Ok(w[..n])
    requires MaxOpen(w[..n]) == w[n - 1].openTime && nextMS <= w[n - 1].openTime < endMS
    requires var laterMS := w[n - 1].openTime + stepMS;
             Pages(fetch, key, laterMS, endMS, stepMS) == Ok(Kept(Later(w[n..], laterMS), stepMS))
    ensures Pages(fetch, key, nextMS, endMS, stepMS) == Ok(Kept(w, stepMS))
  {
    KeptPage(w, n, stepMS);
  }

  /** Without a row to return the loop stops at once. */
  lemma NoTurn(fetch: KlineQuerier, key: StreamKey, store: seq<KlineRow>, nextMS: int, endMS: int, stepMS: int)
    requires stepMS > 0 && Answers(fetch, key, store) && Window(store, nextMS, endMS) == []
    ensures Pages(fetch, key, nextMS, endMS, stepMS) == Ok(Kept(Window(store, nextMS, endMS), stepMS))
  {
    PageAnswer(fetch, key, store, nextMS, endMS, 0);
  }

  /** Against an honest ascending store, the loop never fails and returns exactly the kept rows. */
  lemma {:induction false} PagesKeep(
    fetch: KlineQuerier, key: StreamKey, store: seq<KlineRow>, nextMS: int, endMS: int, stepMS: int)
    requires stepMS > 0 && Spaced(store, 1) && Answers(fetch, key, store)
    ensures Pages(fetch, key, nextMS, endMS, stepMS) == Ok(Kept(Window(store, nextMS, endMS), stepMS))
    decreases endMS - nextMS
  {
    hide Pages, Kept, Window, Later, Spaced, Answers;
    var w := Window(store, nextMS, endMS);
    if w == [] {
      NoTurn(fetch, key, store, nextMS, endMS, stepMS);
    } else {
      var n := Min(FETCH_LIMIT, |w|);
      PageAnswer(fetch, key, store, nextMS, endMS, n);
      PageEnd(store, nextMS, endMS, n);
      var laterMS := w[n - 1].openTime + stepMS;
      NextWindow(store, nextMS, laterMS, endMS, n);
      PagesKeep(fetch, key, store, laterMS, endMS, stepMS);
      OneTurn(fetch, key, nextMS, endMS, stepMS, w, n);
    }
  }

  // ---- Which stream is read -------------------------------------------------------------

  /** The stored rows of each stream, by exchange, market, symbol and interval. */
  type Stores = (string, string, string, string) -> seq<KlineRow>

  ghost predicate ServesPage(
    fetch: KlineQuerier, stores: Stores, exchange: string, market: string, symbol: string, interval: string,
    startMS: int, endMS: int)
  {
    var w := Window(stores(exchange, market, symbol, interval), startMS, endMS);
    fetch(KlineQuery(exchange := exchange, market := market, symbol := symbol, interval := interval,
                     startMS := startMS, endMS := endMS, limit := 5000)) == Ok(w[..Min(5000, |w|)])
  }

  /** Every query of 5000 rows is answered with the first of them from the stream it names. */
  ghost predicate Serves(fetch: KlineQuerier, stores: Stores) {
    forall e, m, s, i, a, b :: ServesPage(fetch, stores, e, m, s, i, a, b)
  }

  /** What is read is the stream of the key: its own exchange, market, symbol and interval. */
  lemma PagesReadTheStream(
    fetch: KlineQuerier, stores: Stores, key: StreamKey, nextMS: int, endMS: int, stepMS: int)
    requires stepMS > 0 && Serves(fetch, stores)
    requires Spaced(stores(key.exchange, key.market, key.symbol, key.interval), 1)
    ensures var store := stores(key.exchange, key.market, key.symbol, key.interval);
            Pages(fetch, key, nextMS, endMS, stepMS) == Ok(Kept(Window(store, nextMS, endMS), stepMS))
  {
    var store := stores(key.exchange, key.market, key.symbol, key.interval);
    forall a, b ensures AnswersPage(fetch, key, store, a, b) {
      assert ServesPage(fetch, stores, key.exchange, key.market, key.symbol, key.interval, a, b);
    }
    PagesKeep(fetch, key, store, nextMS, endMS, stepMS);
  }

  /** A fetch reads it from the first to the last millisecond of the range, a step at a time. */
  lemma FetchReadsTheStream(
    fetch: KlineQuerier, stores: Stores, key: StreamKey, startAt: int, endAt: int, step: int)
    requires IntervalDuration(key.interval) == Ok(step) && Serves(fetch, stores)
    requires Spaced(stores(key.exchange, key.market, key.symbol, key.interval), 1)
    ensures step / 1_000_000 > 0
    ensures var window := Window(stores(key.exchange, key.market, key.symbol, key.interval),
                                 startAt / 1_000_000, endAt / 1_000_000);
            FetchedRows(fetch, key, startAt, endAt) == Ok(Kept(window, step / 1_000_000))
  {
    StepMillis(key.interval);
    PagesReadTheStream(fetch, stores, key, UnixMilli(startAt), UnixMilli(endAt), step / MILLI);
  }

  // ---- Whatever the store answers -------------------------------------------------------

  /** After the page that starts at `a`, the next one starts at `b`: a step after its latest row. */
  predicate Advances(fetch: KlineQuerier, key: StreamKey, endMS: int, stepMS: int, a: int, b: int) {
    && a < endMS && fetch(PageQuery(key, a, endMS)).Ok?
    && var chunk := fetch(PageQuery(key, a, endMS)).value;
       chunk != [] && b == MaxOpen(chunk) + stepMS && b > a
  }

  /** The starts of the pages read, in order. */
  ghost predicate IsTrail(fetch: KlineQuerier, key: StreamKey, endMS: int, stepMS: int, starts: seq<int>) {
    starts != [] && forall i :: 0 <= i < |starts| - 1 ==> Advances(fetch, key, endMS, stepMS, starts[i], starts[i + 1])
  }

  /** No further page starts after the one that starts at `last`. */
  ghost predicate IsLast(fetch: KlineQuerier, key: StreamKey, endMS: int, stepMS: int, last: int) {
    forall b :: !Advances(fetch, key, endMS, stepMS, last, b)
  }

  /** The rows of the pages that start there, page after page. */
  function Gathered(fetch: KlineQuerier, key: StreamKey, endMS: int, starts: seq<int>): seq<KlineRow> {
    if starts == [] then []
    else
      (match fetch(PageQuery(key, starts[0], endMS)) case Ok(chunk) => chunk case Err(_) => [])
      + Gathered(fetch, key, endMS, starts[1..])
  }

  /** How the loop ends when no further page starts after `last`: `rows` are those in hand. */
  function Ending(fetch: KlineQuerier, key: StreamKey, endMS: int, last: int, rows: seq<KlineRow>)
    : Result<seq<KlineRow>, CoverageError>
  {
    if last >= endMS then Ok(rows)
    else
      match fetch(PageQuery(key, last, endMS))
      case Err(e) => Err(e)
      case Ok(chunk) => if chunk == [] then Ok(rows) else Err(QueryDidNotAdvance)
  }

  /**
   * Against any store, honest or not: pages are read one a step after another, until the range is
   * done, a page is empty, the query fails, or a page brings the start no further. The last two are
   * errors; otherwise the rows of all the pages are returned.
   */
  lemma {:induction false} PagesRead(fetch: KlineQuerier, key: StreamKey, nextMS: int, endMS: int, stepMS: int)
    returns (starts: seq<int>)
    requires stepMS > 0
    ensures IsTrail(fetch, key, endMS, stepMS, starts) && starts[0] == nextMS
    ensures IsLast(fetch, key, endMS, stepMS, starts[|starts| - 1])
    ensures Pages(fetch, key, nextMS, endMS, stepMS)
         == Ending(fetch, key, endMS, starts[|starts| - 1], Gathered(fetch, key, endMS, starts[..|starts| - 1]))
    decreases endMS - nextMS
  {
    if b :| Advances(fetch, key, endMS, stepMS, nextMS, b) {
      var rest := PagesRead(fetch, key, b, endMS, stepMS);
      starts := [nextMS] + rest;
      assert starts[..|starts| - 1][1..] == rest[..|rest| - 1];
    } else {
      starts := [nextMS];
      StopsHere(fetch, key, nextMS, endMS, stepMS);
    }
  }

  lemma StopsHere(fetch: KlineQuerier, key: StreamKey, nextMS: int, endMS: int, stepMS: int)
    requires stepMS > 0 && IsLast(fetch, key, endMS, stepMS, nextMS)
    ensures Pages(fetch, key, nextMS, endMS, stepMS) == Ending(fetch, key, endMS, nextMS, [])
  {
    if nextMS < endMS && fetch(PageQuery(key, nextMS, endMS)).Ok? {
      var chunk := fetch(PageQuery(key, nextMS, endMS)).value;
      if chunk != [] {
        assert !Advances(fetch, key, endMS, stepMS, nextMS, MaxOpen(chunk) + stepMS);
      }
    }
  }

  // ---- When nothing is lost -----------------------------------------------------------

  /** Wherever a full page ends, the next row opens at least a step later. */
  predicate CutsSpaced(w: seq<KlineRow>, stepMS: int)
    decreases |w|
  {
    |w| > FETCH_LIMIT ==>
      && w[FETCH_LIMIT - 1].openTime + stepMS <= w[FETCH_LIMIT].openTime
      && CutsSpaced(w[FETCH_LIMIT..], stepMS)
  }

  lemma {:induction false} LaterAll(w: seq<KlineRow>, laterMS: int)
    requires forall row :: row in w ==> laterMS <= row.openTime
    ensures Later(w, laterMS) == w
  {
    if w != [] {
      assert w[0] in w && forall row :: row in w[1..] ==> row in w;
      LaterAll(w[1..], laterMS);
      assert w == [w[0]] + w[1..];
    }
  }

  lemma AllAfterHead(w: seq<KlineRow>, laterMS: int)
    requires Spaced(w, 1) && w != [] && laterMS <= w[0].openTime
    ensures forall row :: row in w ==> laterMS <= row.openTime
  {
    forall row | row in w ensures laterMS <= row.openTime {
      var i :| 0 <= i < |w| && w[i] == row;
      assert i > 0 ==> w[0].openTime + 1 <= w[i].openTime;
    }
  }

  lemma {:induction false} KeptWholeIff(w: seq<KlineRow>, stepMS: int)
    requires stepMS > 0 && Spaced(w, 1)
    ensures Kept(w, stepMS) == w <==> CutsSpaced(w, stepMS)
    decreases |w|
  {
    if |w| > FETCH_LIMIT {
      var page, rest := w[..FETCH_LIMIT], w[FETCH_LIMIT..];
      var laterMS := w[FETCH_LIMIT - 1].openTime + stepMS;
      assert w == page + rest && rest[0] == w[FETCH_LIMIT];
      var kept := Kept(Later(rest, laterMS), stepMS);
      assert Kept(w, stepMS) == page + kept;
      assert Kept(w, stepMS) == w <==> kept == rest by {
        assert (page + kept)[FETCH_LIMIT..] == kept;
      }
      if laterMS <= rest[0].openTime {
        AllAfterHead(rest, laterMS);
        LaterAll(rest, laterMS);
        KeptWholeIff(rest, stepMS);
      } else {
        assert Later(rest, laterMS) == Later(rest[1..], laterMS);
      }
    }
  }

  /**
   * The loop returns exactly the stored rows of the range, none missing and none twice, if and only
   * if no row opens less than a step behind the end of a full page.
   */
  lemma PagesCompleteIff(
    fetch: KlineQuerier, key: StreamKey, store: seq<KlineRow>, nextMS: int, endMS: int, stepMS: int)
    requires stepMS > 0 && Spaced(store, 1) && Answers(fetch, key, store)
    ensures Pages(fetch, key, nextMS, endMS, stepMS) == Ok(Window(store, nextMS, endMS))
            <==> CutsSpaced(Window(store, nextMS, endMS), stepMS)
  {
    PagesKeep(fetch, key, store, nextMS, endMS, stepMS);
    WindowSpaced(store, nextMS, endMS, 1);
    KeptWholeIff(Window(store, nextMS, endMS), stepMS);
  }

  lemma {:induction false} SpacedCuts(w: seq<KlineRow>, stepMS: int)
    requires Spaced(w, stepMS)
    ensures CutsSpaced(w, stepMS)
    decreases |w|
  {
    if |w| > FETCH_LIMIT {
      SpacedCuts(w[FETCH_LIMIT..], stepMS);
    }
  }

  /** In particular nothing is lost when all rows are at least a step apart. */
  lemma PagesAreWindow(
    fetch: KlineQuerier, key: StreamKey, store: seq<KlineRow>, nextMS: int, endMS: int, stepMS: int)
    requires stepMS > 0 && Spaced(store, stepMS) && Answers(fetch, key, store)
    ensures Pages(fetch, key, nextMS, endMS, stepMS) == Ok(Window(store, nextMS, endMS))
  {
    WindowSpaced(store, nextMS, endMS, stepMS);
    SpacedCuts(Window(store, nextMS, endMS), stepMS);
    PagesCompleteIff(fetch, key, store, nextMS, endMS, stepMS);
  }

  /** Distinct rows on one grid are at least a step apart, so an ascending on-grid store qualifies. */
  lemma GridStoreIsSpaced(store: seq<KlineRow>, originMS: int, stepMS: int)
    requires stepMS > 0
    requires forall row :: row in store ==> (row.openTime - originMS) % stepMS == 0
    requires forall i, j :: 0 <= i < j < |store| ==> store[i].openTime < store[j].openTime
    ensures Spaced(store, stepMS)
  {
    forall i, j | 0 <= i < j < |store| ensures store[i].openTime + stepMS <= store[j].openTime {
      assert store[i] in store && store[j] in store;
      NextOpen(store[i].openTime, store[j].openTime, originMS, stepMS);
    }
  }

  // ---- A store that loses a row -------------------------------------------------------

  /** A store that answers every query with the first rows of its window. */
  function Honest(store: seq<KlineRow>): KlineQuerier {
    (q: KlineQuery) =>
      var w := Window(store, q.startMS, q.endMS);
      Ok(w[..Min(Max(q.limit, 0), |w|)])
  }

  lemma HonestAnswers(store: seq<KlineRow>, key: StreamKey)
    ensures Answers(Honest(store), key, store)
  {
    forall startMS, endMS ensures AnswersPage(Honest(store), key, store, startMS, endMS) {
    }
  }

  lemma {:induction false} WholeWindow(store: seq<KlineRow>, startMS: int, endMS: int)
    requires forall row :: row in store ==> startMS <= row.openTime < endMS
    ensures Window(store, startMS, endMS) == store
  {
    if store != [] {
      assert store[0] in store && forall row :: row in store[1..] ==> row in store;
      WholeWindow(store[1..], startMS, endMS);
      assert store == [store[0]] + store[1..];
    }
  }

  /** 5001 rows, one a millisecond. */
  function DenseStore(): seq<KlineRow> {
    seq(FETCH_LIMIT + 1, i => KlineRow(i))
  }

  /** Read as one-second rows, they fill one page, which then skips the last of them. */
  lemma DenseKept()
    ensures Kept(DenseStore(), 1000) == DenseStore()[..FETCH_LIMIT]
  {
    var store := DenseStore();
    assert store[FETCH_LIMIT - 1] == KlineRow(FETCH_LIMIT - 1);
    var rest := store[FETCH_LIMIT..];
    assert |rest| == 1 && rest[0] == KlineRow(FETCH_LIMIT);
    assert Later(rest[1..], FETCH_LIMIT - 1 + 1000) == [];
    assert Later(rest, FETCH_LIMIT - 1 + 1000) == [];
  }

  lemma DenseWindow()
    ensures Window(DenseStore(), 0, FETCH_LIMIT + 1) == DenseStore() && Spaced(DenseStore(), 1)
  {
    forall row | row in DenseStore() ensures 0 <= row.openTime < FETCH_LIMIT + 1 {
      var i :| 0 <= i < FETCH_LIMIT + 1 && DenseStore()[i] == row;
    }
    WholeWindow(DenseStore(), 0, FETCH_LIMIT + 1);
  }

  /**
   * The condition is needed: read as one-second rows, a store of 5001 rows a millisecond apart is
   * returned without its last row.
   */
  lemma DenseStoreLosesRow(key: StreamKey)
    requires key.interval == "1s"
    ensures Spaced(DenseStore(), 1) && Answers(Honest(DenseStore()), key, DenseStore())
    ensures |DenseStore()| == 5001
    ensures FetchedRows(Honest(DenseStore()), key, 0, 5001 * MILLI) == Ok(DenseStore()[..5000])
  {
    DenseWindow();
    DenseKept();
    HonestAnswers(DenseStore(), key);
    PagesKeep(Honest(DenseStore()), key, DenseStore(), 0, FETCH_LIMIT + 1, 1000);
    SecondRows(Honest(DenseStore()), key, FETCH_LIMIT + 1);
  }

  lemma SecondRows(fetch: KlineQuerier, key: StreamKey, endMS: int)
    requires key.interval == "1s"
    ensures FetchedRows(fetch, key, 0, endMS * MILLI) == Pages(fetch, key, 0, endMS, 1000)
  {
    OneDigitInterval('1', 's');
    assert "1s" == ['1', 's'];
  }
}
