/** Repairing an incomplete index from raw storage. */
module Fallback {
  import opened Wrappers
  import opened Intervals
  import opened Segments
  import opened Merging
  import opened Gaps
  import opened Rows
  import opened Paging

  const RAW_SOURCE := "raw_storage"

  type Coverage = Result<seq<Segment>, CoverageError>

  /** `raw` is what fetching and rebuilding one gap gives. `clock` is read once per gap. */
  ghost predicate IsGapFill(
    fetch: KlineQuerier, key: StreamKey, gap: TimeRange, clock: int -> int, raw: Coverage)
  {
    match FetchedRows(fetch, key, gap.startAt, gap.endAt)
    case Err(e) => raw == Err(e)
    case Ok(rows) => IsRebuild(key, gap.startAt, gap.endAt, rows, RAW_SOURCE, clock(gap.startAt), raw)
  }

  function Concat(lists: seq<seq<Segment>>): seq<Segment> {
    if lists == [] then [] else Concat(lists[..|lists| - 1]) + lists[|lists| - 1]
  }

  /** `fills` are the successful rebuilds of the gaps, one for one. */
  ghost predicate AreFills(
    fetch: KlineQuerier, key: StreamKey, gaps: seq<TimeRange>, clock: int -> int, fills: seq<seq<Segment>>)
  {
    |fills| == |gaps| && forall i :: 0 <= i < |gaps| ==> IsGapFill(fetch, key, gaps[i], clock, Ok(fills[i]))
  }

  ghost predicate Fillable(fetch: KlineQuerier, key: StreamKey, gap: TimeRange, clock: int -> int) {
    exists fill :: IsGapFill(fetch, key, gap, clock, Ok(fill))
  }

  /** Gap `i` is the first that cannot be filled, and `r` says why. */
  ghost predicate FailsAt(
    fetch: KlineQuerier, key: StreamKey, gaps: seq<TimeRange>, clock: int -> int, i: int, r: Coverage)
  {
    && 0 <= i < |gaps| && r.Err? && IsGapFill(fetch, key, gaps[i], clock, r)
    && forall j :: 0 <= j < i ==> Fillable(fetch, key, gaps[j], clock)
  }

  /** The result of filling every gap of the merged index, in order, and merging again. */
  ghost predicate IsRepair(
    fetch: KlineQuerier, key: StreamKey, startAt: int, endAt: int, merged: seq<Segment>, gaps: seq<TimeRange>,
    clock: int -> int, r: Coverage)
  {
    || (gaps == [] && r == Ok(merged))
    || (exists fills ::
          AreFills(fetch, key, gaps, clock, fills)
          && IsMergeResult(key, startAt, endAt, merged + Concat(fills), r))
    || (exists i :: FailsAt(fetch, key, gaps, clock, i, r))
  }

  ghost predicate IsFallback(
    klineQuery: Option<KlineQuerier>, key: StreamKey, startAt: int, endAt: int, indexed: seq<Segment>,
    clock: int -> int, r: Coverage)
  {
    match klineQuery
    case None => IsMergeResult(key, startAt, endAt, indexed, r)
    case Some(fetch) =>
      || (r.Err? && IsMergeResult(key, startAt, endAt, indexed, r))
      || exists merged, missing ::
           && IsMergeResult(key, startAt, endAt, indexed, Ok(merged))
           && IsGapResult(startAt, endAt, key.interval, merged, missing)
           && match missing
              case Err(e) => r == Err(e)
              case Ok(gaps) => IsRepair(fetch, key, startAt, endAt, merged, gaps, clock, r)
  }

  method CoverageWithRawFallback(
    klineQuery: Option<KlineQuerier>, key: StreamKey, startAt: int, endAt: int, indexed: seq<Segment>,
    clock: int -> int)
    returns (r: Coverage)
    ensures IsFallback(klineQuery, key, startAt, endAt, indexed, clock, r)
  {
    r := MergeCoverageForQuery(key, startAt, endAt, indexed);
    if r.Err? || klineQuery.None? {
      return;
    }
    var covered := r.value;
    var missing := ComputeMissingSegments(startAt, endAt, key.interval, covered);
    if missing.Err? {
      return Err(missing.error);
    }
    r := RepairGaps(klineQuery.value, key, startAt, endAt, covered, missing.value, clock);
  }

  method RepairGaps(
    fetch: KlineQuerier, key: StreamKey, startAt: int, endAt: int, covered: seq<Segment>, gaps: seq<TimeRange>,
    clock: int -> int)
    returns (r: Coverage)
    ensures IsRepair(fetch, key, startAt, endAt, covered, gaps, clock, r)
  {
    if |gaps| == 0 {
      return Ok(covered);
    }
    var filled, fills := FillGaps(fetch, key, covered, gaps, clock);
    if filled.Err? {
      return filled;
    }
    r := MergeCoverageForQuery(key, startAt, endAt, filled.value);
  }

  /** The repair loop: collect the index and every gap's rebuilt coverage. */
  method FillGaps(
    fetch: KlineQuerier, key: StreamKey, covered: seq<Segment>, gaps: seq<TimeRange>, clock: int -> int)
    returns (r: Coverage, ghost fills: seq<seq<Segment>>)
    ensures r.Ok? ==> AreFills(fetch, key, gaps, clock, fills) && r.value == covered + Concat(fills)
    ensures r.Err? ==> exists i :: FailsAt(fetch, key, gaps, clock, i, r)
  {
    hide IsGapFill;
    var all := covered;
    fills := [];
    for i := 0 to |gaps|
      invariant |fills| == i
      invariant forall j :: 0 <= j < i ==> IsGapFill(fetch, key, gaps[j], clock, Ok(fills[j]))
      invariant all == covered + Concat(fills)
    {
      var raw := FillGap(fetch, key, gaps[i], clock);
      if raw.Err? {
        assert FailsAt(fetch, key, gaps, clock, i, raw);
        return raw, fills;
      }
      all := all + raw.value;
      ConcatAppend(covered, fills, raw.value);
      fills := fills + [raw.value];
    }
    return Ok(all), fills;
  }

  lemma ConcatAppend(covered: seq<Segment>, fills: seq<seq<Segment>>, fill: seq<Segment>)
    ensures covered + Concat(fills + [fill]) == covered + Concat(fills) + fill
  {
    assert (fills + [fill])[..|fills|] == fills;
  }

  /** The body of the repair loop: fetch one gap's rows and rebuild its coverage. */
  method FillGap(fetch: KlineQuerier, key: StreamKey, gap: TimeRange, clock: int -> int) returns (raw: Coverage)
    ensures IsGapFill(fetch, key, gap, clock, raw)
  {
    var rows := FetchRawKlinesForCoverage(fetch, key, gap.startAt, gap.endAt);
    if rows.Err? {
      return Err(rows.error);
    }
    raw := CoverageSegmentsFromKlineRows(key, gap.startAt, gap.endAt, rows.value, RAW_SOURCE, clock(gap.startAt));
  }
}
