/** What the complement of coverage promises. */
module GapLaws {
  import opened Wrappers
  import opened Intervals
  import opened Segments
  import opened YearSplit
  import opened Merging
  import opened Gaps

  /** The answer depends only on which instants of the request are covered. */
  lemma GapsDependOnCoverOnly(
    startAt: int, endAt: int, interval: string, c: seq<Segment>, c': seq<Segment>,
    r: Result<seq<TimeRange>, CoverageError>, r': Result<seq<TimeRange>, CoverageError>)
    requires SameInside(startAt, endAt, c, c')
    requires IsGapResult(startAt, endAt, interval, c, r) && IsGapResult(startAt, endAt, interval, c', r')
    ensures r == r'
  {
    SameInsideSameGaps(startAt, endAt, interval, c', c, r');
    if r.Ok? {
      SamePrefix(startAt, endAt, interval, c, r.value, r'.value, Min(|r.value|, |r'.value|));
      NoMoreGaps(startAt, endAt, c, r.value, r'.value);
      NoMoreGaps(startAt, endAt, c, r'.value, r.value);
      assert r.value == r'.value;
    }
  }

  lemma Listed(startAt: int, endAt: int, covered: seq<Segment>, missing: seq<TimeRange>, a: int, b: int)
    returns (i: nat)
    requires IsComplement(startAt, endAt, covered, missing) && IsGap(startAt, endAt, covered, a, b)
    ensures i < |missing| && missing[i].startAt == a && missing[i].endAt == b
  {
    assert InRanges(missing, a);
    i :| 0 <= i < |missing| && missing[i].startAt <= a < missing[i].endAt;
    GapsMeet(startAt, endAt, covered, a, b, missing[i].startAt, missing[i].endAt, a);
  }

  lemma {:induction false} SamePrefix(
    startAt: int, endAt: int, interval: string, covered: seq<Segment>,
    m: seq<TimeRange>, m': seq<TimeRange>, n: nat)
    requires IsComplement(startAt, endAt, covered, m) && IsComplement(startAt, endAt, covered, m')
    requires GapsCounted(interval, m) && GapsCounted(interval, m')
    requires n <= |m| && n <= |m'|
    ensures forall i :: 0 <= i < n ==> m[i] == m'[i]
  {
    hide IsComplement, GapsCounted;
    if n > 0 {
      var k := n - 1;
      SamePrefix(startAt, endAt, interval, covered, m, m', k);
      SameNext(startAt, endAt, interval, covered, m, m', k);
    }
  }

  lemma SameNext(
    startAt: int, endAt: int, interval: string, covered: seq<Segment>, m: seq<TimeRange>, m': seq<TimeRange>, k: nat)
    requires IsComplement(startAt, endAt, covered, m) && IsComplement(startAt, endAt, covered, m')
    requires GapsCounted(interval, m) && GapsCounted(interval, m')
    requires k < |m| && k < |m'| && forall i :: 0 <= i < k ==> m[i] == m'[i]
    ensures m[k] == m'[k]
  {
    NotBefore(startAt, endAt, covered, m, m', k);
    NotBefore(startAt, endAt, covered, m', m, k);
    SameAt(startAt, endAt, interval, covered, m, m', k);
  }

  lemma SameAt(
    startAt: int, endAt: int, interval: string, covered: seq<Segment>, m: seq<TimeRange>, m': seq<TimeRange>, k: nat)
    requires IsComplement(startAt, endAt, covered, m) && IsComplement(startAt, endAt, covered, m')
    requires GapsCounted(interval, m) && GapsCounted(interval, m')
    requires k < |m| && k < |m'| && m[k].startAt == m'[k].startAt
    ensures m[k] == m'[k]
  {
    GapsMeet(startAt, endAt, covered, m[k].startAt, m[k].endAt, m'[k].startAt, m'[k].endAt, m[k].startAt);
    assert m[k] in m && m'[k] in m';
  }

  lemma NotBefore(
    startAt: int, endAt: int, covered: seq<Segment>, m: seq<TimeRange>, m': seq<TimeRange>, k: nat)
    requires IsComplement(startAt, endAt, covered, m) && IsComplement(startAt, endAt, covered, m')
    requires k < |m| && k < |m'| && forall i :: 0 <= i < k ==> m[i] == m'[i]
    ensures m[k].startAt >= m'[k].startAt
  {
    assert forall i :: 0 <= i < k ==> m[i].startAt < m[k].startAt;
    assert forall i :: k < i < |m'| ==> m'[k].startAt < m'[i].startAt;
    var i := Listed(startAt, endAt, covered, m', m[k].startAt, m[k].endAt);
  }

  lemma NoMoreGaps(
    startAt: int, endAt: int, covered: seq<Segment>, m: seq<TimeRange>, m': seq<TimeRange>)
    requires IsComplement(startAt, endAt, covered, m) && IsComplement(startAt, endAt, covered, m')
    requires forall i :: 0 <= i < |m| && i < |m'| ==> m[i] == m'[i]
    ensures |m'| <= |m|
  {
    if |m| < |m'| {
      var i := Listed(startAt, endAt, covered, m, m'[|m|].startAt, m'[|m|].endAt);
    }
  }

  /** Every segment that reaches into the request has its ends on the grid. */
  ghost predicate CoverAligned(startAt: int, endAt: int, covered: seq<Segment>, d: int) {
    forall s :: s in covered && Overlaps(s, startAt, endAt) ==> EndsAligned(s, d)
  }

  /** An aligned request over aligned segments always has its gaps counted. */
  lemma AlignedGapsSucceed(
    startAt: int, endAt: int, interval: string, d: int, covered: seq<Segment>,
    r: Result<seq<TimeRange>, CoverageError>)
    requires IntervalDuration(interval) == Ok(d) && startAt < endAt
    requires IsAligned(startAt, d) && IsAligned(endAt, d) && CoverAligned(startAt, endAt, covered, d)
    requires IsGapResult(startAt, endAt, interval, covered, r)
    ensures r.Ok?
  {
    forall a, b | IsGap(startAt, endAt, covered, a, b) ensures ExpectedCount(a, b, interval).Ok? {
      assert !Covers(covered, a) && !Covers(covered, b - 1);
      if a != startAt {
        var s :| s in covered && Spans(s, a - 1);
        assert !Spans(s, a);
        assert EndsAligned(s, d) && s.endAt == a;
      }
      if b != endAt {
        var s :| s in covered && Spans(s, b);
        assert !Spans(s, b - 1);
        assert EndsAligned(s, d) && s.startAt == b;
      }
    }
  }
}
