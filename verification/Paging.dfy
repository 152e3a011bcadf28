/** Reading raw K-line rows page by page. */
module Paging {
  import opened Wrappers
  import opened Intervals
  import opened Segments
  import opened Rows

  const FETCH_LIMIT := 5000

  datatype KlineQuery = KlineQuery(
    exchange: string, market: string, symbol: string, interval: string, startMS: int, endMS: int, limit: int)

  /**
   * A raw-row store as one reader sees it. No reader asks the same query twice, so an arbitrary
   * function of the query stands for arbitrary answers.
   */
  type KlineQuerier = KlineQuery -> Result<seq<KlineRow>, CoverageError>

  function PageQuery(key: StreamKey, startMS: int, endMS: int): KlineQuery {
    KlineQuery(key.exchange, key.market, key.symbol, key.interval, startMS, endMS, FETCH_LIMIT)
  }

  function MaxOpen(chunk: seq<KlineRow>): (m: int)
    requires chunk != []
    ensures KlineRow(m) in chunk && forall row :: row in chunk ==> row.openTime <= m
  {
    var last := chunk[|chunk| - 1].openTime;
    if |chunk| == 1 then last
    else
      var m := MaxOpen(chunk[..|chunk| - 1]);
      if last > m then last else m
  }

  /** The rows gathered from `nextMS` on: page after page until the range or the store runs out. */
  function Pages(fetch: KlineQuerier, key: StreamKey, nextMS: int, endMS: int, stepMS: int)
    : Result<seq<KlineRow>, CoverageError>
    requires stepMS > 0
    decreases endMS - nextMS
  {
    if nextMS >= endMS then Ok([])
    else
      match fetch(PageQuery(key, nextMS, endMS))
      case Err(e) => Err(e)
      case Ok(chunk) =>
        if chunk == [] then Ok([])
        else if MaxOpen(chunk) + stepMS <= nextMS then Err(QueryDidNotAdvance)
        else
          match Pages(fetch, key, MaxOpen(chunk) + stepMS, endMS, stepMS)
          case Err(e) => Err(e)
          case Ok(rest) => Ok(chunk + rest)
  }

  function FetchedRows(fetch: KlineQuerier, key: StreamKey, startAt: int, endAt: int)
    : Result<seq<KlineRow>, CoverageError>
  {
    match IntervalDuration(key.interval)
    case Err(e) => Err(e)
    case Ok(step) =>
      StepMillis(key.interval);
      Pages(fetch, key, UnixMilli(startAt), UnixMilli(endAt), step / MILLI)
  }

  /** The rows in hand followed by what is still to come. */
  function After(rows: seq<KlineRow>, rest: Result<seq<KlineRow>, CoverageError>)
    : Result<seq<KlineRow>, CoverageError>
  {
    match rest
    case Err(e) => Err(e)
    case Ok(more) => Ok(rows + more)
  }

  method LatestOpen(chunk: seq<KlineRow>) returns (maxOpenMS: int)
    requires chunk != []
    ensures maxOpenMS == MaxOpen(chunk)
  {
    maxOpenMS := chunk[0].openTime;
    for i := 1 to |chunk|
      invariant maxOpenMS == MaxOpen(chunk[..i])
    {
      assert chunk[..i + 1][..i] == chunk[..i];
      if chunk[i].openTime > maxOpenMS {
        maxOpenMS := chunk[i].openTime;
      }
    }
    assert chunk[..|chunk|] == chunk;
  }

  /** Terminates whatever the store answers: each page moves the start forward or ends the loop. */
  method FetchRawKlinesForCoverage(fetch: KlineQuerier, key: StreamKey, startAt: int, endAt: int)
    returns (r: Result<seq<KlineRow>, CoverageError>)
    ensures r == FetchedRows(fetch, key, startAt, endAt)
    ensures IntervalDuration(key.interval).Err? ==> r == Err(IntervalDuration(key.interval).error)
  {
    var duration := IntervalDuration(key.interval);
    if duration.Err? {
      return Err(duration.error);
    }
    StepMillis(key.interval);
    var stepMS := duration.value / MILLI;
    var startMS, endMS := UnixMilli(startAt), UnixMilli(endAt);
    var rows: seq<KlineRow> := [];
    var nextStartMS := startMS;
    AfterNothing(Pages(fetch, key, startMS, endMS, stepMS));
    while nextStartMS < endMS
      invariant Pages(fetch, key, startMS, endMS, stepMS)
             == After(rows, Pages(fetch, key, nextStartMS, endMS, stepMS))
      decreases endMS - nextStartMS
    {
      var answer := fetch(PageQuery(key, nextStartMS, endMS));
      if answer.Err? {
        return Err(answer.error);
      }
      var chunk := answer.value;
      if |chunk| == 0 {
        break;
      }
      ghost var before := rows;
      rows := rows + chunk;
      var maxOpenMS := LatestOpen(chunk);
      var nextStart := maxOpenMS + stepMS;
      if nextStart <= nextStartMS {
        return Err(QueryDidNotAdvance);
      }
      AfterChunk(before, chunk, Pages(fetch, key, nextStart, endMS, stepMS));
      nextStartMS := nextStart;
    }
    assert rows + [] == rows;
    return Ok(rows);
  }

  lemma AfterNothing(rest: Result<seq<KlineRow>, CoverageError>)
    ensures After([], rest) == rest
  {
    if rest.Ok? {
      assert [] + rest.value == rest.value;
    }
  }

  lemma AfterChunk(rows: seq<KlineRow>, chunk: seq<KlineRow>, rest: Result<seq<KlineRow>, CoverageError>)
    ensures After(rows, After(chunk, rest)) == After(rows + chunk, rest)
  {
    if rest.Ok? {
      assert rows + (chunk + rest.value) == rows + chunk + rest.value;
    }
  }
}
