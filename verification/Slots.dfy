/** Counting interval slots: the set of slots a list of ranges holds, and its size. */
module Slots {
  import opened Wrappers
  import opened Calendar
  import opened Intervals
  import opened Segments
  import opened Merging
  import opened Gaps

  /** A counted range, whichever list it comes from. */
  datatype Span = Span(startAt: int, endAt: int, count: int)

  function SegmentSpans(segments: seq<Segment>): seq<Span> {
    seq(|segments|, i requires 0 <= i < |segments| =>
      Span(segments[i].startAt, segments[i].endAt, segments[i].rowCount))
  }

  function RangeSpans(missing: seq<TimeRange>): seq<Span> {
    seq(|missing|, i requires 0 <= i < |missing| =>
      Span(missing[i].startAt, missing[i].endAt, missing[i].expectedCount))
  }

  function Total(spans: seq<Span>): int {
    if spans == [] then 0 else Total(spans[..|spans| - 1]) + spans[|spans| - 1].count
  }

  /** Slot `k` of width `d` starts inside one of the spans. */
  ghost predicate HoldsSlot(spans: seq<Span>, d: int, k: int) {
    exists i :: 0 <= i < |spans| && spans[i].startAt <= k * d < spans[i].endAt
  }

  /** The slots lo..hi that the spans hold. */
  ghost function SlotSet(spans: seq<Span>, d: int, lo: int, hi: int): set<int> {
    set k | lo <= k < hi && HoldsSlot(spans, d, k)
  }

  /** Ascending, disjoint, on the grid, inside slots lo..hi, and each with its true slot count. */
  ghost predicate Tallied(spans: seq<Span>, d: int, lo: int, hi: int) {
    && d > 0
    && (forall i :: 0 <= i < |spans| ==>
          && IsAligned(spans[i].startAt, d) && IsAligned(spans[i].endAt, d)
          && spans[i].startAt < spans[i].endAt
          && lo * d <= spans[i].startAt && spans[i].endAt <= hi * d
          && spans[i].count * d == spans[i].endAt - spans[i].startAt)
    && (forall i, j :: 0 <= i < j < |spans| ==> spans[i].endAt <= spans[j].startAt)
  }

  /** The slot numbers a, a + 1, ..., b - 1. */
  ghost function Between(a: int, b: int): (r: set<int>)
    ensures forall k :: k in r <==> a <= k < b
    ensures |r| == Max(0, b - a)
    decreases b - a
  {
    if b <= a then {} else Between(a, b - 1) + {b - 1}
  }

  lemma SlotInside(k: int, a: int, b: int, d: int)
    requires d > 0
    ensures a * d <= k * d < b * d <==> a <= k < b
  {
    MulOrder(a, k, d);
    MulOrder(b, k, d);
  }

  lemma MulOrder(a: int, k: int, d: int)
    requires d > 0
    ensures a <= k <==> a * d <= k * d
  {
    assert (k - a) * d == k * d - a * d;
    if k != a {
      MulOutgrows(k - a, d);
      if k > a { assert (k - a) * d > 0; } else { assert (a - k) * d > 0; }
    }
  }

  /** The counts of a tallied list add up to the number of slots it holds. */
  lemma {:induction false} TotalIsSlotCount(spans: seq<Span>, d: int, lo: int, hi: int)
    requires Tallied(spans, d, lo, hi)
    ensures |SlotSet(spans, d, lo, hi)| == Total(spans)
  {
    if spans == [] {
      assert SlotSet(spans, d, lo, hi) == {};
    } else {
      var front, last := spans[..|spans| - 1], spans[|spans| - 1];
      assert spans == front + [last];
      TotalIsSlotCount(front, d, lo, hi);
      var a, b := SpanSlots(spans, d, lo, hi);
      SplitSlots(spans, d, lo, hi, a, b);
    }
  }

  lemma SpanSlots(spans: seq<Span>, d: int, lo: int, hi: int) returns (a: int, b: int)
    requires Tallied(spans, d, lo, hi) && spans != []
    ensures spans[|spans| - 1].startAt == a * d && spans[|spans| - 1].endAt == b * d
    ensures lo <= a <= b <= hi && b - a == spans[|spans| - 1].count
  {
    var last := spans[|spans| - 1];
    a, b := last.startAt / d, last.endAt / d;
    MulOrder(lo, a, d);
    MulOrder(b, hi, d);
    MulOrder(a, b, d);
    assert last.count * d == (b - a) * d;
    MulOrder(last.count, b - a, d);
    MulOrder(b - a, last.count, d);
  }

  lemma SplitSlots(spans: seq<Span>, d: int, lo: int, hi: int, a: int, b: int)
    requires Tallied(spans, d, lo, hi) && spans != []
    requires spans[|spans| - 1].startAt == a * d && spans[|spans| - 1].endAt == b * d && lo <= a && b <= hi
    ensures var front := SlotSet(spans[..|spans| - 1], d, lo, hi);
            var own := Between(a, b);
            SlotSet(spans, d, lo, hi) == front + own && front !! own
  {
    var n := |spans| - 1;
    var front := spans[..n];
    forall k ensures HoldsSlot(spans, d, k) <==> HoldsSlot(front, d, k) || a <= k < b {
      SlotInside(k, a, b, d);
      if HoldsSlot(spans, d, k) {
        var i :| 0 <= i < |spans| && spans[i].startAt <= k * d < spans[i].endAt;
        if i < n { assert front[i] == spans[i]; }
      }
      if HoldsSlot(front, d, k) {
        var i :| 0 <= i < n && front[i].startAt <= k * d < front[i].endAt;
        assert spans[i] == front[i];
      }
      if a <= k < b { assert spans[n].startAt <= k * d < spans[n].endAt; }
    }
    forall k | a <= k < b ensures !HoldsSlot(front, d, k) {
      SlotInside(k, a, b, d);
      assert forall i :: 0 <= i < n ==> spans[i].endAt <= spans[n].startAt;
    }
  }

  /** Two tallied lists that split the request between them add up to the request. */
  lemma Conservation(covered: seq<Span>, missing: seq<Span>, d: int, lo: int, hi: int)
    requires lo <= hi && Tallied(covered, d, lo, hi) && Tallied(missing, d, lo, hi)
    requires forall k :: lo <= k < hi ==> (HoldsSlot(missing, d, k) <==> !HoldsSlot(covered, d, k))
    ensures Total(covered) + Total(missing) == hi - lo
  {
    TotalIsSlotCount(covered, d, lo, hi);
    TotalIsSlotCount(missing, d, lo, hi);
    var c, m := SlotSet(covered, d, lo, hi), SlotSet(missing, d, lo, hi);
    assert c + m == Between(lo, hi);
    assert c !! m;
  }

  lemma SegmentsAreTallied(key: StreamKey, out: seq<Segment>, d: int, lo: int, hi: int)
    requires IntervalDuration(key.interval) == Ok(d) && Canonical(out) && Counted(key, out)
    requires forall s :: s in out ==> lo * d <= s.startAt && s.endAt <= hi * d
    ensures Tallied(SegmentSpans(out), d, lo, hi)
    ensures forall k :: HoldsSlot(SegmentSpans(out), d, k) <==> Covers(out, k * d)
  {
    forall i | 0 <= i < |out| ensures out[i] in out {
    }
    forall i, j | 0 <= i < j < |out| ensures out[i].endAt <= out[j].startAt {
      assert Precedes(out[i], out[j]);
    }
    forall k ensures HoldsSlot(SegmentSpans(out), d, k) <==> Covers(out, k * d) {
      if Covers(out, k * d) {
        var j := PieceAt(out, k * d);
        assert SegmentSpans(out)[j].startAt <= k * d < SegmentSpans(out)[j].endAt;
      }
      if HoldsSlot(SegmentSpans(out), d, k) {
        var i :| 0 <= i < |out| && SegmentSpans(out)[i].startAt <= k * d < SegmentSpans(out)[i].endAt;
        assert Spans(out[i], k * d);
      }
    }
  }

  lemma GapsAreTallied(
    startAt: int, endAt: int, interval: string, covered: seq<Segment>, missing: seq<TimeRange>,
    d: int, lo: int, hi: int)
    requires IntervalDuration(interval) == Ok(d) && startAt == lo * d && endAt == hi * d
    requires IsComplement(startAt, endAt, covered, missing) && GapsCounted(interval, missing)
    ensures Tallied(RangeSpans(missing), d, lo, hi)
    ensures forall k :: HoldsSlot(RangeSpans(missing), d, k) <==> InRanges(missing, k * d)
  {
    forall i | 0 <= i < |missing| ensures missing[i] in missing {
    }
    forall k ensures HoldsSlot(RangeSpans(missing), d, k) <==> InRanges(missing, k * d) {
      if InRanges(missing, k * d) {
        var i :| 0 <= i < |missing| && missing[i].startAt <= k * d < missing[i].endAt;
        assert RangeSpans(missing)[i].startAt <= k * d < RangeSpans(missing)[i].endAt;
      }
    }
  }
}
