/** The coverage query: repair, complement and count. */
module CoverageQuery {
  import opened Wrappers
  import opened Calendar
  import opened Intervals
  import opened Segments
  import opened Merging
  import opened MergeLaws
  import opened Gaps
  import opened Slots
  import opened Paging
  import opened FallbackLaws
  import F = Fallback
  import G = GapLaws

  /** Go's zero `time.Time`: the first instant of year 1. */
  const ZERO_TIME := YearStart(1)

  datatype CoverageAnswer = CoverageAnswer(
    complete: bool,
    expectedCount: int,
    coveredCount: int,
    covered: seq<Segment>,
    missing: seq<TimeRange>)

  /** What a successful answer says about the request. */
  ghost predicate IsAnswer(key: StreamKey, startAt: int, endAt: int, a: CoverageAnswer) {
    && Canonical(a.covered) && Counted(key, a.covered)
    && (forall s :: s in a.covered ==> startAt <= s.startAt && s.endAt <= endAt)
    && IsComplement(startAt, endAt, a.covered, a.missing) && GapsCounted(key.interval, a.missing)
    && Ok(a.expectedCount) == ExpectedCount(startAt, endAt, key.interval)
    && a.coveredCount == Total(SegmentSpans(a.covered))
    && a.expectedCount == a.coveredCount + Total(RangeSpans(a.missing))
    && (a.complete <==> a.coveredCount == a.expectedCount)
    && (a.complete <==> forall t :: startAt <= t < endAt ==> Covers(a.covered, t))
  }

  method QueryMarketDataCoverage(
    klineQuery: Option<KlineQuerier>, key: StreamKey, startAt: int, endAt: int, indexed: seq<Segment>,
    clock: int -> int)
    returns (r: Result<CoverageAnswer, CoverageError>)
    ensures r.Ok? ==> IsAnswer(key, startAt, endAt, r.value)
    ensures r.Ok? ==> F.IsFallback(klineQuery, key, startAt, endAt, indexed, clock, Ok(r.value.covered))
    ensures startAt == ZERO_TIME || endAt == ZERO_TIME ==> r == Err(ZeroTime)
    ensures r.Ok? ==> ExpectedCount(startAt, endAt, key.interval).Ok?
    ensures r.Err? && startAt != ZERO_TIME && endAt != ZERO_TIME ==>
              if ExpectedCount(startAt, endAt, key.interval).Err? then
                r.error == CountError(startAt, endAt, key.interval)
              else
                F.IsFallback(klineQuery, key, startAt, endAt, indexed, clock, Err(r.error))
  {
    if startAt == ZERO_TIME || endAt == ZERO_TIME {
      return Err(ZeroTime);
    }
    if endAt <= startAt {
      return Err(EndNotAfterStart);
    }
    var total := ExpectedCount(startAt, endAt, key.interval);
    if total.Err? {
      return Err(total.error);
    }
    var repaired := F.CoverageWithRawFallback(klineQuery, key, startAt, endAt, indexed, clock);
    if repaired.Err? {
      return Err(repaired.error);
    }
    var covered := repaired.value;
    RepairedInRange(klineQuery, key, startAt, endAt, indexed, clock, covered);
    var answer := CountCoverage(key, startAt, endAt, covered, total.value);
    return Ok(answer);
  }

  /** The second half of the query: complement the repaired coverage and count. */
  method CountCoverage(key: StreamKey, startAt: int, endAt: int, covered: seq<Segment>, totalExpected: int)
    returns (answer: CoverageAnswer)
    requires ExpectedCount(startAt, endAt, key.interval) == Ok(totalExpected)
    requires Canonical(covered) && Counted(key, covered)
    requires forall s :: s in covered ==> startAt <= s.startAt && s.endAt <= endAt
    ensures IsAnswer(key, startAt, endAt, answer) && answer.covered == covered
  {
    var missing := ComputeMissingSegments(startAt, endAt, key.interval, covered);
    RepairedGapsCount(key, startAt, endAt, covered, missing);
    var missingCount := SumExpected(missing.value);
    CountsAreConserved(key, startAt, endAt, covered, missing.value);
    var coveredCount := totalExpected - missingCount;
    if coveredCount < 0 {
      coveredCount := 0;
    }
    answer := CoverageAnswer(|missing.value| == 0, totalExpected, coveredCount, covered, missing.value);
  }

  method SumExpected(ranges: seq<TimeRange>) returns (missingCount: int)
    ensures missingCount == Total(RangeSpans(ranges))
  {
    missingCount := 0;
    for i := 0 to |ranges|
      invariant missingCount == Total(RangeSpans(ranges[..i]))
    {
      assert RangeSpans(ranges[..i + 1]) == RangeSpans(ranges[..i]) + [RangeSpans(ranges)[i]];
      missingCount := missingCount + ranges[i].expectedCount;
    }
    assert ranges[..|ranges|] == ranges;
  }

  /** Whatever the fallback returns stays inside the request. */
  lemma RepairedInRange(
    klineQuery: Option<KlineQuerier>, key: StreamKey, startAt: int, endAt: int, indexed: seq<Segment>,
    clock: int -> int, covered: seq<Segment>)
    requires F.IsFallback(klineQuery, key, startAt, endAt, indexed, clock, Ok(covered))
    requires ExpectedCount(startAt, endAt, key.interval).Ok?
    ensures Canonical(covered) && Counted(key, covered)
    ensures forall s :: s in covered ==> startAt <= s.startAt && s.endAt <= endAt
  {
    var d := IntervalDuration(key.interval).value;
    match klineQuery
    case None =>
      forall s | s in covered ensures startAt <= s.startAt && s.endAt <= endAt {
        MergedInRange(key, startAt, endAt, indexed, covered, s);
      }
    case Some(fetch) =>
      var merged, gaps := FallbackStages(fetch, key, startAt, endAt, indexed, clock, covered);
      RepairCovers(fetch, key, startAt, endAt, merged, gaps, clock, covered, d, startAt);
      forall s | s in covered ensures startAt <= s.startAt && s.endAt <= endAt {
        RepairedPieceInRange(fetch, key, startAt, endAt, merged, gaps, clock, covered, s);
      }
  }

  lemma RepairedPieceInRange(
    fetch: KlineQuerier, key: StreamKey, startAt: int, endAt: int, merged: seq<Segment>, gaps: seq<TimeRange>,
    clock: int -> int, covered: seq<Segment>, s: Segment)
    requires F.IsRepair(fetch, key, startAt, endAt, merged, gaps, clock, Ok(covered)) && s in covered
    requires forall m :: m in merged ==> startAt <= m.startAt && m.endAt <= endAt
    ensures startAt <= s.startAt && s.endAt <= endAt
  {
    if !(gaps == [] && covered == merged) {
      var fills :| F.AreFills(fetch, key, gaps, clock, fills)
                   && IsMergeResult(key, startAt, endAt, merged + F.Concat(fills), Ok(covered));
      MergedInRange(key, startAt, endAt, merged + F.Concat(fills), covered, s);
    }
  }

  /** The gaps left after repair always have a count, so the last complement cannot fail. */
  lemma RepairedGapsCount(
    key: StreamKey, startAt: int, endAt: int, covered: seq<Segment>, missing: Result<seq<TimeRange>, CoverageError>)
    requires ExpectedCount(startAt, endAt, key.interval).Ok? && Counted(key, covered)
    requires IsGapResult(startAt, endAt, key.interval, covered, missing)
    ensures missing.Ok?
  {
    G.AlignedGapsSucceed(startAt, endAt, key.interval, IntervalDuration(key.interval).value, covered, missing);
  }

  /**
   * Counts are conserved: the request's slots are the covered rows plus the missing ones, and
   * nothing is missing exactly when every instant is covered.
   */
  lemma CountsAreConserved(key: StreamKey, startAt: int, endAt: int, covered: seq<Segment>, missing: seq<TimeRange>)
    requires ExpectedCount(startAt, endAt, key.interval).Ok?
    requires Canonical(covered) && Counted(key, covered)
    requires forall s :: s in covered ==> startAt <= s.startAt && s.endAt <= endAt
    requires IsComplement(startAt, endAt, covered, missing) && GapsCounted(key.interval, missing)
    ensures ExpectedCount(startAt, endAt, key.interval).value
         == Total(SegmentSpans(covered)) + Total(RangeSpans(missing))
    ensures Total(SegmentSpans(covered)) >= 0
    ensures missing == [] <==> Total(RangeSpans(missing)) == 0
    ensures missing == [] <==> forall t :: startAt <= t < endAt ==> Covers(covered, t)
  {
    var d := IntervalDuration(key.interval).value;
    var lo, hi := RequestSlots(startAt, endAt, key.interval, d);
    SpansAreConserved(key, startAt, endAt, covered, missing, d, lo, hi);
    NonEmptyGapsCount(key.interval, missing);
    NoGapsIffCovered(startAt, endAt, covered, missing);
  }

  /** The slots of a request, numbered on the interval grid. */
  lemma RequestSlots(startAt: int, endAt: int, interval: string, d: int) returns (lo: int, hi: int)
    requires ExpectedCount(startAt, endAt, interval).Ok? && IntervalDuration(interval) == Ok(d)
    ensures startAt == lo * d && endAt == hi * d && lo <= hi
    ensures ExpectedCount(startAt, endAt, interval) == Ok(hi - lo)
  {
    lo, hi := startAt / d, endAt / d;
    Quotient(startAt, d);
    Quotient(endAt, d);
    AlignedDifference(startAt, endAt, d);
  }

  lemma NoGapsIffCovered(startAt: int, endAt: int, covered: seq<Segment>, missing: seq<TimeRange>)
    requires IsComplement(startAt, endAt, covered, missing)
    ensures missing == [] <==> forall t :: startAt <= t < endAt ==> Covers(covered, t)
  {
    if missing != [] {
      assert InRanges(missing, missing[0].startAt);
    }
  }

  lemma SpansAreConserved(
    key: StreamKey, startAt: int, endAt: int, covered: seq<Segment>, missing: seq<TimeRange>, d: int, lo: int, hi: int)
    requires IntervalDuration(key.interval) == Ok(d) && startAt == lo * d && endAt == hi * d && lo <= hi
    requires Canonical(covered) && Counted(key, covered)
    requires forall s :: s in covered ==> startAt <= s.startAt && s.endAt <= endAt
    requires IsComplement(startAt, endAt, covered, missing) && GapsCounted(key.interval, missing)
    ensures Total(SegmentSpans(covered)) + Total(RangeSpans(missing)) == hi - lo
    ensures Total(SegmentSpans(covered)) >= 0
  {
    SegmentsAreTallied(key, covered, d, lo, hi);
    GapsAreTallied(startAt, endAt, key.interval, covered, missing, d, lo, hi);
    forall k | lo <= k < hi
      ensures HoldsSlot(RangeSpans(missing), d, k) <==> !HoldsSlot(SegmentSpans(covered), d, k)
    {
      SlotInside(k, lo, hi, d);
    }
    Conservation(SegmentSpans(covered), RangeSpans(missing), d, lo, hi);
    TotalIsSlotCount(SegmentSpans(covered), d, lo, hi);
  }

  lemma {:induction false} NonEmptyGapsCount(interval: string, missing: seq<TimeRange>)
    requires GapsCounted(interval, missing)
    ensures Total(RangeSpans(missing)) >= |missing|
  {
    if missing != [] {
      var n := |missing| - 1;
      assert missing[n] in missing;
      assert RangeSpans(missing)[..n] == RangeSpans(missing[..n]);
      NonEmptyGapsCount(interval, missing[..n]);
    }
  }
}
