/** Row counts and failures of the raw fallback. */
module FallbackCounts {
  import opened Wrappers
  import opened Calendar
  import opened Intervals
  import opened Segments
  import opened YearSplit
  import opened Merging
  import opened MergeLaws
  import opened Gaps
  import opened GapLaws
  import opened Slots
  import opened Rows
  import opened RowLaws
  import opened Paging
  import opened FallbackLaws
  import F = Fallback

  /** The number of distinct on-grid open times fetched over a list of gaps. */
  function TotalOpens(fetch: KlineQuerier, key: StreamKey, gaps: seq<TimeRange>): nat {
    if gaps == [] then 0
    else
      var gap := gaps[|gaps| - 1];
      TotalOpens(fetch, key, gaps[..|gaps| - 1]) + |GapOpens(fetch, key, gap.startAt, gap.endAt)|
  }

  ghost predicate CoversSlot(segments: seq<Segment>, d: int, k: int) {
    Covers(segments, k * d)
  }

  ghost function CoverSlots(segments: seq<Segment>, d: int, lo: int, hi: int): set<int> {
    set k | lo <= k < hi && CoversSlot(segments, d, k)
  }

  lemma CountedSlots(key: StreamKey, out: seq<Segment>, d: int, lo: int, hi: int)
    requires IntervalDuration(key.interval) == Ok(d) && Canonical(out) && Counted(key, out)
    requires forall s :: s in out ==> lo * d <= s.startAt && s.endAt <= hi * d
    ensures |CoverSlots(out, d, lo, hi)| == Total(SegmentSpans(out))
  {
    SegmentsAreTallied(key, out, d, lo, hi);
    TotalIsSlotCount(SegmentSpans(out), d, lo, hi);
    assert forall k :: k in CoverSlots(out, d, lo, hi) <==> k in SlotSet(SegmentSpans(out), d, lo, hi);
    assert CoverSlots(out, d, lo, hi) == SlotSet(SegmentSpans(out), d, lo, hi);
  }

  lemma DisjointSlots(a: seq<Segment>, b: seq<Segment>, d: int, lo: int, hi: int)
    requires forall t :: !(Covers(a, t) && Covers(b, t))
    ensures |CoverSlots(a + b, d, lo, hi)| == |CoverSlots(a, d, lo, hi)| + |CoverSlots(b, d, lo, hi)|
  {
    var x, y := CoverSlots(a, d, lo, hi), CoverSlots(b, d, lo, hi);
    forall k ensures CoversSlot(a + b, d, k) <==> CoversSlot(a, d, k) || CoversSlot(b, d, k) {
      CoversAppend(a, b, k * d);
    }
    assert CoverSlots(a + b, d, lo, hi) == x + y;
    forall k | k in x ensures k !in y {
      assert Covers(a, k * d);
    }
    assert x !! y;
  }

  /** The state of the repair: merged coverage, ascending gaps free of it, and a fill per gap. */
  ghost predicate Repairing(
    fetch: KlineQuerier, key: StreamKey, startAt: int, endAt: int, merged: seq<Segment>, gaps: seq<TimeRange>,
    clock: int -> int, fills: seq<seq<Segment>>, d: int)
  {
    && IntervalDuration(key.interval) == Ok(d)
    && Canonical(merged) && Counted(key, merged)
    && (forall s :: s in merged ==> startAt <= s.startAt && s.endAt <= endAt)
    && GapsAligned(gaps, d)
    && (forall i :: 0 <= i < |gaps| ==>
          startAt <= gaps[i].startAt && gaps[i].endAt <= endAt && Free(merged, gaps[i].startAt, gaps[i].endAt))
    && (forall i, j :: 0 <= i < j < |gaps| ==> gaps[i].endAt < gaps[j].startAt)
    && F.AreFills(fetch, key, gaps, clock, fills)
  }

  lemma {:induction false} RepairCounts(
    fetch: KlineQuerier, key: StreamKey, startAt: int, endAt: int, lo: int, hi: int,
    merged: seq<Segment>, gaps: seq<TimeRange>, clock: int -> int, fills: seq<seq<Segment>>, d: int)
    requires Repairing(fetch, key, startAt, endAt, merged, gaps, clock, fills, d)
    requires startAt == lo * d && endAt == hi * d
    ensures |CoverSlots(merged + F.Concat(fills), d, lo, hi)|
         == Total(SegmentSpans(merged)) + TotalOpens(fetch, key, gaps)
    decreases |gaps|
  {
    if gaps == [] {
      assert merged + F.Concat(fills) == merged;
      CountedSlots(key, merged, d, lo, hi);
    } else {
      var n := |gaps| - 1;
      EarlierFills(fetch, key, startAt, endAt, merged, gaps, clock, fills, d);
      RepairCounts(fetch, key, startAt, endAt, lo, hi, merged, gaps[..n], clock, fills[..n], d);
      LastFill(fetch, key, startAt, endAt, lo, hi, merged, gaps, clock, fills, d);
      AddFill(merged, fills, d, lo, hi);
    }
  }

  lemma AddFill(merged: seq<Segment>, fills: seq<seq<Segment>>, d: int, lo: int, hi: int)
    requires fills != []
    requires var n := |fills| - 1;
             forall t :: !(Covers(merged + F.Concat(fills[..n]), t) && Covers(fills[n], t))
    ensures var n := |fills| - 1;
            |CoverSlots(merged + F.Concat(fills), d, lo, hi)|
            == |CoverSlots(merged + F.Concat(fills[..n]), d, lo, hi)| + |CoverSlots(fills[n], d, lo, hi)|
  {
    var n := |fills| - 1;
    DisjointSlots(merged + F.Concat(fills[..n]), fills[n], d, lo, hi);
    assert merged + F.Concat(fills) == merged + F.Concat(fills[..n]) + fills[n];
  }

  lemma EarlierFills(
    fetch: KlineQuerier, key: StreamKey, startAt: int, endAt: int, merged: seq<Segment>, gaps: seq<TimeRange>,
    clock: int -> int, fills: seq<seq<Segment>>, d: int)
    requires Repairing(fetch, key, startAt, endAt, merged, gaps, clock, fills, d) && gaps != []
    ensures Repairing(fetch, key, startAt, endAt, merged, gaps[..|gaps| - 1], clock, fills[..|gaps| - 1], d)
  {
  }

  /** The last fill holds its gap's rows, inside the gap, so apart from everything before it. */
  lemma LastFill(
    fetch: KlineQuerier, key: StreamKey, startAt: int, endAt: int, lo: int, hi: int,
    merged: seq<Segment>, gaps: seq<TimeRange>, clock: int -> int, fills: seq<seq<Segment>>, d: int)
    requires Repairing(fetch, key, startAt, endAt, merged, gaps, clock, fills, d) && gaps != []
    requires startAt == lo * d && endAt == hi * d
    ensures var n := |gaps| - 1;
            && |CoverSlots(fills[n], d, lo, hi)| == |GapOpens(fetch, key, gaps[n].startAt, gaps[n].endAt)|
            && forall t :: !(Covers(merged + F.Concat(fills[..n]), t) && Covers(fills[n], t))
  {
    var n := |gaps| - 1;
    var front, gap, fill := fills[..n], gaps[n], fills[n];
    FillCovers(fetch, key, gap, clock, fill, d);
    forall t | Covers(fill, t) ensures gap.startAt <= t < gap.endAt {
      SlotsStayInGap(fetch, key, gap.startAt, gap.endAt, d, t);
    }
    forall s | s in fill ensures gap.startAt <= s.startAt && s.endAt <= gap.endAt {
      assert Spans(s, s.startAt) && Spans(s, s.endAt - 1);
      assert Covers(fill, s.startAt) && Covers(fill, s.endAt - 1);
    }
    CountedSlots(key, fill, d, lo, hi);
    forall t ensures !(Covers(merged + F.Concat(front), t) && Covers(fill, t)) {
      if gap.startAt <= t < gap.endAt {
        CoversAppend(merged, F.Concat(front), t);
        EarlierElsewhere(fetch, key, startAt, endAt, merged, gaps, clock, fills, d, t);
      }
    }
  }

  lemma EarlierElsewhere(
    fetch: KlineQuerier, key: StreamKey, startAt: int, endAt: int, merged: seq<Segment>, gaps: seq<TimeRange>,
    clock: int -> int, fills: seq<seq<Segment>>, d: int, t: int)
    requires Repairing(fetch, key, startAt, endAt, merged, gaps, clock, fills, d) && gaps != []
    requires gaps[|gaps| - 1].startAt <= t < gaps[|gaps| - 1].endAt
    ensures !Covers(F.Concat(fills[..|gaps| - 1]), t)
  {
    var n := |gaps| - 1;
    EarlierFills(fetch, key, startAt, endAt, merged, gaps, clock, fills, d);
    FillsCover(fetch, key, gaps[..n], clock, fills[..n], d, t);
    forall i | 0 <= i < n ensures !SlotCovers(GapOpens(fetch, key, gaps[i].startAt, gaps[i].endAt), d, t) {
      assert gaps[i].endAt < gaps[n].startAt;
      if SlotCovers(GapOpens(fetch, key, gaps[i].startAt, gaps[i].endAt), d, t) {
        SlotsStayInGap(fetch, key, gaps[i].startAt, gaps[i].endAt, d, t);
      }
    }
  }

  /**
   * Repair conserves rows: the total row count is the index's own total plus the number of
   * distinct on-grid open times fetched in its gaps.
   */
  lemma FallbackConservesRows(
    fetch: KlineQuerier, key: StreamKey, startAt: int, endAt: int, indexed: seq<Segment>, clock: int -> int,
    out: seq<Segment>, merged: seq<Segment>, gaps: seq<TimeRange>)
    requires ExpectedCount(startAt, endAt, key.interval).Ok?
    requires F.IsFallback(Some(fetch), key, startAt, endAt, indexed, clock, Ok(out))
    requires IsMergeResult(key, startAt, endAt, indexed, Ok(merged))
    requires IsGapResult(startAt, endAt, key.interval, merged, Ok(gaps))
    ensures Total(SegmentSpans(out)) == Total(SegmentSpans(merged)) + TotalOpens(fetch, key, gaps)
  {
    var d := IntervalDuration(key.interval).value;
    var m, g := FallbackStages(fetch, key, startAt, endAt, indexed, clock, out);
    SameStages(key, startAt, endAt, indexed, merged, gaps, m, g);
    StagesConserveRows(fetch, key, startAt, endAt, m, g, clock, out, d);
  }

  lemma SameStages(
    key: StreamKey, startAt: int, endAt: int, indexed: seq<Segment>, merged: seq<Segment>, gaps: seq<TimeRange>,
    m: seq<Segment>, g: seq<TimeRange>)
    requires IsMergeResult(key, startAt, endAt, indexed, Ok(merged))
    requires IsMergeResult(key, startAt, endAt, indexed, Ok(m))
    requires IsGapResult(startAt, endAt, key.interval, merged, Ok(gaps))
    requires IsGapResult(startAt, endAt, key.interval, m, Ok(g))
    ensures SegmentSpans(merged) == SegmentSpans(m) && gaps == g
  {
    MergedUnique(key, Parts(key, startAt, endAt, indexed), merged, m);
    GapsDependOnCoverOnly(startAt, endAt, key.interval, merged, m, Ok(gaps), Ok(g));
  }

  lemma StagesConserveRows(
    fetch: KlineQuerier, key: StreamKey, startAt: int, endAt: int, m: seq<Segment>, g: seq<TimeRange>,
    clock: int -> int, out: seq<Segment>, d: int)
    requires IntervalDuration(key.interval) == Ok(d) && IsAligned(startAt, d) && IsAligned(endAt, d)
    requires Canonical(m) && Counted(key, m)
    requires forall s :: s in m ==> startAt <= s.startAt && s.endAt <= endAt
    requires IsGapResult(startAt, endAt, key.interval, m, Ok(g))
    requires F.IsRepair(fetch, key, startAt, endAt, m, g, clock, Ok(out))
    ensures Total(SegmentSpans(out)) == Total(SegmentSpans(m)) + TotalOpens(fetch, key, g)
  {
    if !(g == [] && out == m) {
      CountedGapsAligned(key.interval, g, d);
      var fills := RepairFills(fetch, key, startAt, endAt, m, g, clock, out);
      StartRepairing(fetch, key, startAt, endAt, m, g, clock, fills, d);
      Quotient(startAt, d);
      Quotient(endAt, d);
      FilledConserveRows(fetch, key, startAt, endAt, startAt / d, endAt / d, m, g, clock, fills, out, d);
    }
  }

  lemma RepairFills(
    fetch: KlineQuerier, key: StreamKey, startAt: int, endAt: int, m: seq<Segment>, g: seq<TimeRange>,
    clock: int -> int, out: seq<Segment>)
    returns (fills: seq<seq<Segment>>)
    requires F.IsRepair(fetch, key, startAt, endAt, m, g, clock, Ok(out)) && !(g == [] && out == m)
    ensures F.AreFills(fetch, key, g, clock, fills)
    ensures IsMergeResult(key, startAt, endAt, m + F.Concat(fills), Ok(out))
  {
    fills :| F.AreFills(fetch, key, g, clock, fills)
             && IsMergeResult(key, startAt, endAt, m + F.Concat(fills), Ok(out));
  }

  lemma FilledConserveRows(
    fetch: KlineQuerier, key: StreamKey, startAt: int, endAt: int, lo: int, hi: int,
    m: seq<Segment>, g: seq<TimeRange>, clock: int -> int, fills: seq<seq<Segment>>, out: seq<Segment>, d: int)
    requires Repairing(fetch, key, startAt, endAt, m, g, clock, fills, d)
    requires startAt == lo * d && endAt == hi * d
    requires IsMergeResult(key, startAt, endAt, m + F.Concat(fills), Ok(out))
    ensures Total(SegmentSpans(out)) == Total(SegmentSpans(m)) + TotalOpens(fetch, key, g)
  {
    RepairCounts(fetch, key, startAt, endAt, lo, hi, m, g, clock, fills, d);
    RemergedSlots(fetch, key, startAt, endAt, lo, hi, m, g, clock, fills, out, d);
  }

  lemma StartRepairing(
    fetch: KlineQuerier, key: StreamKey, startAt: int, endAt: int, m: seq<Segment>, g: seq<TimeRange>,
    clock: int -> int, fills: seq<seq<Segment>>, d: int)
    requires IntervalDuration(key.interval) == Ok(d) && GapsAligned(g, d)
    requires Canonical(m) && Counted(key, m)
    requires forall s :: s in m ==> startAt <= s.startAt && s.endAt <= endAt
    requires IsComplement(startAt, endAt, m, g) && F.AreFills(fetch, key, g, clock, fills)
    ensures Repairing(fetch, key, startAt, endAt, m, g, clock, fills, d)
  {
  }

  lemma RemergedSlots(
    fetch: KlineQuerier, key: StreamKey, startAt: int, endAt: int, lo: int, hi: int,
    m: seq<Segment>, g: seq<TimeRange>, clock: int -> int, fills: seq<seq<Segment>>, out: seq<Segment>, d: int)
    requires IntervalDuration(key.interval) == Ok(d) && GapsAligned(g, d) && Counted(key, m)
    requires startAt == lo * d && endAt == hi * d
    requires F.AreFills(fetch, key, g, clock, fills)
    requires IsMergeResult(key, startAt, endAt, m + F.Concat(fills), Ok(out))
    ensures Total(SegmentSpans(out)) == |CoverSlots(m + F.Concat(fills), d, lo, hi)|
  {
    var all := m + F.Concat(fills);
    forall s | s in out ensures startAt <= s.startAt && s.endAt <= endAt {
      MergedInRange(key, startAt, endAt, all, out, s);
    }
    CountedSlots(key, out, d, lo, hi);
    FillsCover(fetch, key, g, clock, fills, d, 0);
    assert forall s :: s in all ==> s.key == key;
    forall k | lo <= k < hi ensures CoversSlot(out, d, k) <==> CoversSlot(all, d, k) {
      SlotInside(k, lo, hi, d);
      MergeCoversAll(key, startAt, endAt, all, out, k * d);
    }
    assert CoverSlots(out, d, lo, hi) == CoverSlots(all, d, lo, hi);
  }

  lemma MergeCoversAll(
    key: StreamKey, startAt: int, endAt: int, all: seq<Segment>, out: seq<Segment>, t: int)
    requires IsMergeResult(key, startAt, endAt, all, Ok(out)) && startAt <= t < endAt
    requires forall s :: s in all ==> s.key == key
    ensures Covers(out, t) <==> Covers(all, t)
  {
    MergeCoversExactly(key, startAt, endAt, all, out, t);
  }

  // ---- Failures -----------------------------------------------------------------------

  /** [a, b) is the first gap whose rows could not be fetched, and `e` says why. */
  ghost predicate IsFirstFailure(
    fetch: KlineQuerier, key: StreamKey, startAt: int, endAt: int, covered: seq<Segment>, a: int, b: int,
    e: CoverageError)
  {
    && IsGap(startAt, endAt, covered, a, b) && FetchedRows(fetch, key, a, b) == Err(e)
    && forall a', b' :: IsGap(startAt, endAt, covered, a', b') && b' <= a ==> FetchedRows(fetch, key, a', b').Ok?
  }

  /**
   * For an interval that tiles a day, an aligned query over an aligned index can fail only
   * because raw storage did, and then with the error of the first gap it failed on: every merge, gap
   * count and rebuild on the way succeeds.
   */
  lemma DayDivisorFallbackFailsOnlyOnFetch(
    fetch: KlineQuerier, key: StreamKey, startAt: int, endAt: int, indexed: seq<Segment>, clock: int -> int,
    r: F.Coverage, d: int)
    requires IntervalDuration(key.interval) == Ok(d) && DAY % d == 0
    requires startAt < endAt && IsAligned(startAt, d) && IsAligned(endAt, d) && IndexAligned(key, indexed, d)
    requires F.IsFallback(Some(fetch), key, startAt, endAt, indexed, clock, r)
    requires r.Err?
    ensures exists a, b ::
              IsFirstFailure(fetch, key, startAt, endAt, Parts(key, startAt, endAt, indexed), a, b, r.error)
  {
    if IsMergeResult(key, startAt, endAt, indexed, r) {
      DayDivisorMergeSucceeds(key, startAt, endAt, indexed, d, r);
    } else {
      var merged, missing :|
        && IsMergeResult(key, startAt, endAt, indexed, Ok(merged))
        && IsGapResult(startAt, endAt, key.interval, merged, missing)
        && match missing
           case Err(e) => r == Err(e)
           case Ok(gaps) => F.IsRepair(fetch, key, startAt, endAt, merged, gaps, clock, r);
      MergedAligned(key, merged, d);
      AlignedGapsSucceed(startAt, endAt, key.interval, d, merged, missing);
      var a, b := RepairFailsOnlyOnFetch(fetch, key, startAt, endAt, merged, missing.value, clock, r, d);
      assert SameInside(startAt, endAt, merged, Parts(key, startAt, endAt, indexed));
      SameFirstFailure(fetch, key, startAt, endAt, merged, Parts(key, startAt, endAt, indexed), a, b, r.error);
    }
  }

  lemma SameFirstFailure(
    fetch: KlineQuerier, key: StreamKey, startAt: int, endAt: int, c: seq<Segment>, c': seq<Segment>, a: int, b: int,
    e: CoverageError)
    requires SameInside(startAt, endAt, c, c') && IsFirstFailure(fetch, key, startAt, endAt, c, a, b, e)
    ensures IsFirstFailure(fetch, key, startAt, endAt, c', a, b, e)
  {
    forall x, y ensures IsGap(startAt, endAt, c, x, y) <==> IsGap(startAt, endAt, c', x, y) {
      SameInsideSameGap(startAt, endAt, c, c', x, y);
    }
  }

  lemma MergedAligned(key: StreamKey, merged: seq<Segment>, d: int)
    requires IntervalDuration(key.interval) == Ok(d) && Counted(key, merged)
    ensures forall s :: s in merged ==> EndsAligned(s, d)
  {
  }

  lemma RepairFailsOnlyOnFetch(
    fetch: KlineQuerier, key: StreamKey, startAt: int, endAt: int, merged: seq<Segment>, gaps: seq<TimeRange>,
    clock: int -> int, r: F.Coverage, d: int)
    returns (a: int, b: int)
    requires IntervalDuration(key.interval) == Ok(d) && DAY % d == 0
    requires startAt < endAt && IsAligned(startAt, d) && IsAligned(endAt, d)
    requires Counted(key, merged)
    requires IsComplement(startAt, endAt, merged, gaps) && GapsCounted(key.interval, gaps)
    requires F.IsRepair(fetch, key, startAt, endAt, merged, gaps, clock, r) && r.Err?
    ensures IsFirstFailure(fetch, key, startAt, endAt, merged, a, b, r.error)
  {
    CountedGapsAligned(key.interval, gaps, d);
    if i :| F.FailsAt(fetch, key, gaps, clock, i, r) {
      a, b := gaps[i].startAt, gaps[i].endAt;
      FillFailsOnlyOnFetch(fetch, key, gaps[i], clock, r, d);
      forall a', b' | IsGap(startAt, endAt, merged, a', b') && b' <= a ensures FetchedRows(fetch, key, a', b').Ok? {
        var j := Listed(startAt, endAt, merged, gaps, a', b');
        assert j < i;
        FilledIsFetched(fetch, key, gaps[j], clock);
      }
    } else {
      var fills :| F.AreFills(fetch, key, gaps, clock, fills)
                   && IsMergeResult(key, startAt, endAt, merged + F.Concat(fills), r);
      AllAligned(fetch, key, merged, gaps, clock, fills, d);
      DayDivisorMergeSucceeds(key, startAt, endAt, merged + F.Concat(fills), d, r);
    }
  }

  lemma FilledIsFetched(fetch: KlineQuerier, key: StreamKey, gap: TimeRange, clock: int -> int)
    requires F.Fillable(fetch, key, gap, clock)
    ensures FetchedRows(fetch, key, gap.startAt, gap.endAt).Ok?
  {
  }

  lemma FillFailsOnlyOnFetch(
    fetch: KlineQuerier, key: StreamKey, gap: TimeRange, clock: int -> int, r: F.Coverage, d: int)
    requires IntervalDuration(key.interval) == Ok(d) && DAY % d == 0 && gap.startAt < gap.endAt
    requires IsAligned(gap.startAt, d) && IsAligned(gap.endAt, d)
    requires F.IsGapFill(fetch, key, gap, clock, r) && r.Err?
    ensures FetchedRows(fetch, key, gap.startAt, gap.endAt) == Err(r.error)
  {
    MillisExact(gap.startAt, key.interval, d);
    MillisExact(gap.endAt, key.interval, d);
    var rows := FetchedRows(fetch, key, gap.startAt, gap.endAt);
    if rows.Ok? {
      DayDivisorRebuildSucceedsIff(key, gap.startAt, gap.endAt, rows.value, F.RAW_SOURCE, clock(gap.startAt), d, r);
    }
  }

  lemma AllAligned(
    fetch: KlineQuerier, key: StreamKey, merged: seq<Segment>, gaps: seq<TimeRange>,
    clock: int -> int, fills: seq<seq<Segment>>, d: int)
    requires IntervalDuration(key.interval) == Ok(d) && Counted(key, merged) && GapsAligned(gaps, d)
    requires F.AreFills(fetch, key, gaps, clock, fills)
    ensures IndexAligned(key, merged + F.Concat(fills), d)
  {
    forall s | s in merged + F.Concat(fills) ensures EndsAligned(s, d) {
      if s in merged {
        MergedAligned(key, merged, d);
      } else {
        ConcatMembers(fills, s);
        var i :| 0 <= i < |fills| && s in fills[i];
        FillCovers(fetch, key, gaps[i], clock, fills[i], d);
        MergedAligned(key, fills[i], d);
      }
    }
  }
}
