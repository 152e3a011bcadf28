/** The complement of coverage inside a request. */
module Gaps {
  import opened Wrappers
  import opened Intervals
  import opened Segments
  import opened Sorting
  import opened Merging

  datatype TimeRange = TimeRange(startAt: int, endAt: int, expectedCount: int)

  ghost predicate Free(covered: seq<Segment>, a: int, b: int) {
    forall t :: a <= t < b ==> !Covers(covered, t)
  }

  /** [a, b) is an uncovered stretch of the request that cannot be extended either way. */
  ghost predicate IsGap(startAt: int, endAt: int, covered: seq<Segment>, a: int, b: int) {
    && startAt <= a < b <= endAt
    && Free(covered, a, b)
    && (a == startAt || Covers(covered, a - 1))
    && (b == endAt || Covers(covered, b))
  }

  ghost predicate InRanges(missing: seq<TimeRange>, t: int) {
    exists i :: 0 <= i < |missing| && missing[i].startAt <= t < missing[i].endAt
  }

  /** Ascending, disjoint, maximal and non-empty, and together the whole of the complement. */
  ghost predicate IsComplement(startAt: int, endAt: int, covered: seq<Segment>, missing: seq<TimeRange>) {
    && (forall i :: 0 <= i < |missing| ==> IsGap(startAt, endAt, covered, missing[i].startAt, missing[i].endAt))
    && (forall i, j :: 0 <= i < j < |missing| ==> missing[i].endAt < missing[j].startAt)
    && (forall t :: startAt <= t < endAt ==> (InRanges(missing, t) <==> !Covers(covered, t)))
  }

  ghost predicate GapsCounted(interval: string, missing: seq<TimeRange>) {
    forall m :: m in missing ==> ExpectedCount(m.startAt, m.endAt, interval) == Ok(m.expectedCount)
  }

  ghost predicate GapsCount(startAt: int, endAt: int, interval: string, covered: seq<Segment>) {
    forall a, b :: IsGap(startAt, endAt, covered, a, b) ==> ExpectedCount(a, b, interval).Ok?
  }

  /** The contract of the complement: exact, counted, and failing only on an off-grid gap. */
  ghost predicate IsGapResult(
    startAt: int, endAt: int, interval: string, covered: seq<Segment>, r: Result<seq<TimeRange>, CoverageError>)
  {
    && (r.Ok? <==> startAt < endAt && GapsCount(startAt, endAt, interval, covered))
    && (r.Ok? ==> IsComplement(startAt, endAt, covered, r.value) && GapsCounted(interval, r.value))
    && (r.Err? ==> r.error == CountError(startAt, endAt, interval))
  }

  /** Inside the request, clipping away the rest of the index changes nothing. */
  ghost predicate SameInside(startAt: int, endAt: int, a: seq<Segment>, b: seq<Segment>) {
    forall t :: startAt <= t < endAt ==> (Covers(a, t) <==> Covers(b, t))
  }

  method ComputeMissingSegments(startAt: int, endAt: int, interval: string, covered: seq<Segment>)
    returns (r: Result<seq<TimeRange>, CoverageError>)
    ensures IsGapResult(startAt, endAt, interval, covered, r)
  {
    if endAt <= startAt {
      return Err(EndNotAfterStart);
    }
    var segments: seq<Segment> := [];
    for i := 0 to |covered|
      invariant forall s :: s in segments ==> startAt <= s.startAt < s.endAt <= endAt
      invariant SameInside(startAt, endAt, segments, covered[..i])
    {
      var seg := covered[i];
      ghost var before := segments;
      if Overlaps(seg, startAt, endAt) {
        var clipped := seg.(startAt := Max(seg.startAt, startAt), endAt := Min(seg.endAt, endAt));
        if clipped.endAt > clipped.startAt {
          segments := segments + [clipped];
        }
      }
      ClipKeepsInside(startAt, endAt, before, segments, covered, i);
    }
    assert covered[..|covered|] == covered;
    ghost var clipped := segments;
    segments := StableSort(segments);
    assert forall t :: Covers(segments, t) <==> Covers(clipped, t);
    r := SweepGaps(startAt, endAt, interval, segments);
    SameInsideSameGaps(startAt, endAt, interval, segments, covered, r);
  }

  lemma ClipKeepsInside(
    startAt: int, endAt: int, before: seq<Segment>, after: seq<Segment>, covered: seq<Segment>, i: nat)
    requires i < |covered| && SameInside(startAt, endAt, before, covered[..i])
    requires var c := Clip(covered[i], startAt, endAt);
             after == (if Overlaps(covered[i], startAt, endAt) && c.endAt > c.startAt then before + [c] else before)
    ensures SameInside(startAt, endAt, after, covered[..i + 1])
  {
    assert covered[..i + 1] == covered[..i] + [covered[i]];
    forall t | startAt <= t < endAt ensures Covers(after, t) <==> Covers(covered[..i + 1], t) {
      CoversConcat(covered[..i], covered[i], t);
      CoversConcat(before, Clip(covered[i], startAt, endAt), t);
    }
  }

  lemma SameInsideSameGaps(
    startAt: int, endAt: int, interval: string, a: seq<Segment>, b: seq<Segment>,
    r: Result<seq<TimeRange>, CoverageError>)
    requires SameInside(startAt, endAt, a, b) && IsGapResult(startAt, endAt, interval, a, r)
    ensures IsGapResult(startAt, endAt, interval, b, r)
  {
    forall x, y ensures IsGap(startAt, endAt, a, x, y) <==> IsGap(startAt, endAt, b, x, y) {
    }
  }

  /** The second half of `computeMissingSegments`: the cursor sweep over sorted segments. */
  method SweepGaps(startAt: int, endAt: int, interval: string, segments: seq<Segment>)
    returns (r: Result<seq<TimeRange>, CoverageError>)
    requires startAt < endAt && Sorted(segments)
    requires forall s :: s in segments ==> startAt <= s.startAt < s.endAt <= endAt
    ensures IsGapResult(startAt, endAt, interval, segments, r)
  {
    var missing: seq<TimeRange> := [];
    var cursor := startAt;
    for i := 0 to |segments|
      invariant startAt <= cursor <= endAt
      invariant cursor == startAt || Covers(segments, cursor - 1)
      invariant forall k :: 0 <= k < i ==> segments[k].endAt <= cursor
      invariant SweptTo(startAt, endAt, segments, missing, cursor) && GapsCounted(interval, missing)
    {
      var seg := segments[i];
      assert Spans(seg, seg.startAt) && Spans(seg, seg.endAt - 1);
      assert Covers(segments, seg.startAt) && Covers(segments, seg.endAt - 1);
      ghost var old_missing := missing;
      if seg.startAt > cursor {
        FreeAhead(segments, i, cursor);
        assert IsGap(startAt, endAt, segments, cursor, seg.startAt);
        var n := ExpectedCount(cursor, seg.startAt, interval);
        if n.Err? {
          return Err(n.error);
        }
        missing := missing + [TimeRange(cursor, seg.startAt, n.value)];
      }
      SweepCovers(startAt, endAt, segments, old_missing, missing, cursor, seg);
      if seg.endAt > cursor {
        cursor := seg.endAt;
      }
    }
    if cursor < endAt {
      FreeBeyond(segments, cursor);
      assert IsGap(startAt, endAt, segments, cursor, endAt);
      var n := ExpectedCount(cursor, endAt, interval);
      if n.Err? {
        return Err(n.error);
      }
      LastGap(startAt, endAt, segments, missing, cursor, n.value);
      missing := missing + [TimeRange(cursor, endAt, n.value)];
    }
    EveryGapListed(startAt, endAt, interval, segments, missing);
    return Ok(missing);
  }

  /** Everything in front of the cursor is either covered or already listed as missing. */
  ghost predicate SweptTo(startAt: int, endAt: int, segments: seq<Segment>, missing: seq<TimeRange>, cursor: int) {
    && (forall i :: 0 <= i < |missing| ==> IsGap(startAt, endAt, segments, missing[i].startAt, missing[i].endAt))
    && (forall i, j :: 0 <= i < j < |missing| ==> missing[i].endAt < missing[j].startAt)
    && (forall i :: 0 <= i < |missing| ==> missing[i].endAt < cursor || missing[i].endAt == endAt == cursor)
    && (forall t :: startAt <= t < cursor && !Covers(segments, t) ==> InRanges(missing, t))
  }

  lemma FreeAhead(segments: seq<Segment>, i: nat, cursor: int)
    requires Sorted(segments) && i < |segments|
    requires forall k :: 0 <= k < i ==> segments[k].endAt <= cursor
    ensures Free(segments, cursor, segments[i].startAt)
  {
    forall t | cursor <= t < segments[i].startAt ensures !Covers(segments, t) {
      forall s | s in segments ensures !Spans(s, t) {
        var k :| 0 <= k < |segments| && segments[k] == s;
        if k > i {
          assert !Before(segments[k], segments[i]);
        }
      }
    }
  }

  lemma FreeBeyond(segments: seq<Segment>, cursor: int)
    requires forall k :: 0 <= k < |segments| ==> segments[k].endAt <= cursor
    ensures forall t :: cursor <= t ==> !Covers(segments, t)
  {
  }

  lemma RangesConcat(missing: seq<TimeRange>, m: TimeRange, t: int)
    ensures InRanges(missing + [m], t) <==> InRanges(missing, t) || m.startAt <= t < m.endAt
  {
    if InRanges(missing, t) {
      var i :| 0 <= i < |missing| && missing[i].startAt <= t < missing[i].endAt;
      assert (missing + [m])[i] == missing[i];
    }
    if m.startAt <= t < m.endAt {
      assert (missing + [m])[|missing|] == m;
    }
  }

  lemma SweepCovers(
    startAt: int, endAt: int, segments: seq<Segment>, old_missing: seq<TimeRange>, missing: seq<TimeRange>,
    cursor: int, seg: Segment)
    requires SweptTo(startAt, endAt, segments, old_missing, cursor)
    requires seg in segments && startAt <= seg.startAt < seg.endAt <= endAt && cursor <= endAt
    requires if seg.startAt > cursor then
               && IsGap(startAt, endAt, segments, cursor, seg.startAt)
               && |missing| == |old_missing| + 1 && missing[..|old_missing|] == old_missing
               && missing[|old_missing|].startAt == cursor && missing[|old_missing|].endAt == seg.startAt
             else missing == old_missing
    ensures SweptTo(startAt, endAt, segments, missing, Max(cursor, seg.endAt))
  {
    var next := Max(cursor, seg.endAt);
    if seg.startAt > cursor {
      assert missing == old_missing + [missing[|old_missing|]];
    }
    forall t | startAt <= t < next && !Covers(segments, t) ensures InRanges(missing, t) {
      assert !Spans(seg, t);
      if seg.startAt > cursor {
        RangesConcat(old_missing, missing[|old_missing|], t);
      }
    }
  }

  lemma LastGap(
    startAt: int, endAt: int, segments: seq<Segment>, missing: seq<TimeRange>, cursor: int, n: int)
    requires SweptTo(startAt, endAt, segments, missing, cursor) && cursor < endAt
    requires IsGap(startAt, endAt, segments, cursor, endAt)
    ensures SweptTo(startAt, endAt, segments, missing + [TimeRange(cursor, endAt, n)], endAt)
  {
    forall t | startAt <= t < endAt && !Covers(segments, t)
      ensures InRanges(missing + [TimeRange(cursor, endAt, n)], t)
    {
      RangesConcat(missing, TimeRange(cursor, endAt, n), t);
    }
  }

  /** Maximal gaps that share an instant are the same gap. */
  lemma GapsMeet(startAt: int, endAt: int, covered: seq<Segment>, a: int, b: int, c: int, d: int, t: int)
    requires IsGap(startAt, endAt, covered, a, b) && IsGap(startAt, endAt, covered, c, d)
    requires a <= t < b && c <= t < d
    ensures a == c && b == d
  {
  }

  lemma EveryGapListed(startAt: int, endAt: int, interval: string, segments: seq<Segment>, missing: seq<TimeRange>)
    requires SweptTo(startAt, endAt, segments, missing, endAt) && GapsCounted(interval, missing)
    ensures IsComplement(startAt, endAt, segments, missing)
    ensures GapsCount(startAt, endAt, interval, segments)
  {
    forall a, b | IsGap(startAt, endAt, segments, a, b) ensures ExpectedCount(a, b, interval).Ok? {
      assert !Covers(segments, a);
      var i :| 0 <= i < |missing| && missing[i].startAt <= a < missing[i].endAt;
      GapsMeet(startAt, endAt, segments, a, b, missing[i].startAt, missing[i].endAt, a);
      assert missing[i] in missing;
    }
  }
}
