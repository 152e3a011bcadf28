/** What rebuilding coverage from raw rows promises. */
module RowLaws {
  import opened Wrappers
  import opened Calendar
  import opened Intervals
  import opened Segments
  import opened YearSplit
  import opened Merging
  import opened Sets
  import opened Slots
  import opened Rows

  /** Row order and repeated rows make no difference at all. */
  lemma RebuildIgnoresOrder(
    key: StreamKey, startAt: int, endAt: int, rows: seq<KlineRow>, rows': seq<KlineRow>, source: string, now: int,
    r: Result<seq<Segment>, CoverageError>, r': Result<seq<Segment>, CoverageError>)
    requires forall row :: row in rows <==> row in rows'
    requires IsRebuild(key, startAt, endAt, rows, source, now, r)
    requires IsRebuild(key, startAt, endAt, rows', source, now, r')
    ensures r == r'
  {
    match IntervalDuration(key.interval)
    case Err(_) =>
    case Ok(step) =>
      StepMillis(key.interval);
      if UnixMilli(startAt) < UnixMilli(endAt) {
        var opens := Opens(rows, UnixMilli(startAt), UnixMilli(endAt), step / MILLI);
        var opens' := Opens(rows', UnixMilli(startAt), UnixMilli(endAt), step / MILLI);
        assert forall o :: o in opens <==> o in opens';
        forall t ensures SlotCovers(opens, step, t) <==> SlotCovers(opens', step, t) {
        }
        if r.Ok? {
          SameRebuild(key, source, now, r.value, r'.value);
        }
      }
  }

  lemma SameRebuild(key: StreamKey, source: string, now: int, a: seq<Segment>, b: seq<Segment>)
    requires Canonical(a) && Canonical(b) && Counted(key, a) && Counted(key, b)
    requires forall t :: Covers(a, t) <==> Covers(b, t)
    requires forall s :: s in a ==> Stamped(s, source, now)
    requires forall s :: s in b ==> Stamped(s, source, now)
    ensures a == b
  {
    CanonicalUnique(a, b);
    forall i | 0 <= i < |a| ensures a[i] == b[i] {
      assert a[i] in a && b[i] in b;
    }
  }

  /** An injection onto a set preserves size. */
  lemma {:induction false} ImageSize(ks: set<int>, image: set<int>, f: int -> int)
    requires forall k :: k in ks ==> f(k) in image
    requires forall j, k :: j in ks && k in ks && f(j) == f(k) ==> j == k
    requires forall o :: o in image ==> exists k :: k in ks && f(k) == o
    ensures |ks| == |image|
    decreases |ks|
  {
    if ks == {} {
      if image != {} {
        var o := Member(image);
      }
    } else {
      var k := Member(ks);
      ImageSize(ks - {k}, image - {f(k)}, f);
    }
  }

  /** Scaling by a positive step neither joins nor loses elements. */
  lemma ScaledSize(ks: set<int>, opens: set<int>, stepMS: int)
    requires stepMS > 0
    requires forall k :: k in ks ==> k * stepMS in opens
    requires forall o :: o in opens ==> o % stepMS == 0 && o / stepMS in ks
    ensures |ks| == |opens|
  {
    var f := (k: int) => k * stepMS;
    forall j, k | j in ks && k in ks && f(j) == f(k) ensures j == k {
      ModMultiple(j, stepMS);
      ModMultiple(k, stepMS);
    }
    forall o | o in opens ensures exists k :: k in ks && f(k) == o {
      Quotient(o, stepMS);
      assert f(o / stepMS) == o;
    }
    ImageSize(ks, opens, f);
  }

  /** The rebuilt row counts add up to the number of distinct open times. */
  lemma RebuildCountsOpens(
    key: StreamKey, startAt: int, endAt: int, rows: seq<KlineRow>, source: string, now: int, out: seq<Segment>)
    requires IsRebuild(key, startAt, endAt, rows, source, now, Ok(out))
    ensures IntervalDuration(key.interval).Ok?
    ensures var stepMS := IntervalDuration(key.interval).value / MILLI;
            stepMS > 0 && Total(SegmentSpans(out)) == |Opens(rows, UnixMilli(startAt), UnixMilli(endAt), stepMS)|
  {
    var step := IntervalDuration(key.interval).value;
    StepMillis(key.interval);
    var stepMS := step / MILLI;
    var opens := Opens(rows, UnixMilli(startAt), UnixMilli(endAt), stepMS);
    forall o | o in opens ensures o % stepMS == 0 {
      assert IsAligned(SlotSegment(key, o, step, source, now).startAt, step);
      AlignedOpen(o, stepMS);
    }
    CanonicalCountsOpens(key, stepMS, opens, out);
  }

  ghost predicate OpensAligned(opens: set<int>, stepMS: int)
    requires stepMS > 0
  {
    forall o :: o in opens ==> o % stepMS == 0
  }

  lemma AlignedOpen(o: int, stepMS: int)
    requires stepMS > 0 && IsAligned(o * MILLI, stepMS * MILLI)
    ensures o % stepMS == 0
  {
    var q := o * MILLI / (stepMS * MILLI);
    assert o * MILLI == q * (stepMS * MILLI);
    assert q * (stepMS * MILLI) == (q * stepMS) * MILLI;
    ModMultiple(q, stepMS);
  }

  /** A counted canonical list over on-grid slots counts those slots. */
  lemma CanonicalCountsOpens(key: StreamKey, stepMS: int, opens: set<int>, out: seq<Segment>)
    requires stepMS > 0 && OpensAligned(opens, stepMS) && IntervalDuration(key.interval) == Ok(stepMS * MILLI)
    requires Canonical(out) && Counted(key, out)
    requires forall t :: Covers(out, t) <==> SlotCovers(opens, stepMS * MILLI, t)
    ensures Total(SegmentSpans(out)) == |opens|
  {
    var step := stepMS * MILLI;
    var lo, hi := SlotBounds(opens, stepMS);
    forall s | s in out ensures lo * step <= s.startAt && s.endAt <= hi * step {
      assert Spans(s, s.startAt) && Spans(s, s.endAt - 1);
      assert Covers(out, s.startAt) && Covers(out, s.endAt - 1);
    }
    SegmentsAreTallied(key, out, step, lo, hi);
    var spans := SegmentSpans(out);
    TotalIsSlotCount(spans, step, lo, hi);
    var slots := SlotSet(spans, step, lo, hi);
    forall k | k in slots ensures k * stepMS in opens {
      SlotOpens(opens, stepMS, k);
    }
    forall o | o in opens ensures o / stepMS in slots {
      OpenSlot(opens, stepMS, o);
      SlotInside(o / stepMS, lo, hi, step);
    }
    ScaledSize(slots, opens, stepMS);
  }

  lemma OpenSlot(opens: set<int>, stepMS: int, o: int)
    requires stepMS > 0 && OpensAligned(opens, stepMS) && o in opens
    ensures o / stepMS * (stepMS * MILLI) == o * MILLI
    ensures SlotCovers(opens, stepMS * MILLI, o / stepMS * (stepMS * MILLI))
  {
    var q := o / stepMS;
    assert o == q * stepMS;
    assert q * (stepMS * MILLI) == (q * stepMS) * MILLI;
    assert o * MILLI <= q * (stepMS * MILLI) < o * MILLI + stepMS * MILLI;
  }

  lemma SlotOpens(opens: set<int>, stepMS: int, k: int)
    requires stepMS > 0 && OpensAligned(opens, stepMS) && SlotCovers(opens, stepMS * MILLI, k * (stepMS * MILLI))
    ensures k * stepMS in opens
  {
    var o :| o in opens && o * MILLI <= k * (stepMS * MILLI) < o * MILLI + stepMS * MILLI;
    SlotNumber(o, o / stepMS, k, stepMS);
  }

  lemma SlotNumber(o: int, q: int, k: int, stepMS: int)
    requires stepMS > 0 && o == q * stepMS
    requires o * MILLI <= k * (stepMS * MILLI) < o * MILLI + stepMS * MILLI
    ensures k * stepMS == o
  {
    assert k * (stepMS * MILLI) == (k * stepMS) * MILLI;
    assert (q + 1) * stepMS == q * stepMS + stepMS;
    SlotInside(k, q, q + 1, stepMS);
  }

  lemma {:induction false} SlotBounds(opens: set<int>, stepMS: int) returns (lo: int, hi: int)
    requires stepMS > 0 && OpensAligned(opens, stepMS)
    ensures forall t :: SlotCovers(opens, stepMS * MILLI, t) ==> lo * (stepMS * MILLI) <= t < hi * (stepMS * MILLI)
    decreases |opens|
  {
    if opens == {} {
      lo, hi := 0, 0;
    } else {
      var o := Member(opens);
      var rest := opens - {o};
      var l, h := SlotBounds(rest, stepMS);
      lo, hi := Min(l, o / stepMS), Max(h, o / stepMS + 1);
      BoundsGrow(o, stepMS, l, h);
      forall t | SlotCovers(opens, stepMS * MILLI, t) ensures lo * (stepMS * MILLI) <= t < hi * (stepMS * MILLI) {
        var x :| x in opens && x * MILLI <= t < x * MILLI + stepMS * MILLI;
        if x != o {
          assert x in rest;
          assert SlotCovers(rest, stepMS * MILLI, t);
        }
      }
    }
  }

  lemma BoundsGrow(o: int, stepMS: int, l: int, h: int)
    requires stepMS > 0 && o % stepMS == 0
    ensures var q, step := o / stepMS, stepMS * MILLI;
            && Min(l, q) * step <= l * step && Min(l, q) * step <= o * MILLI
            && h * step <= Max(h, q + 1) * step && o * MILLI + step <= Max(h, q + 1) * step
  {
    var q := o / stepMS;
    OpenInSteps(o, q, stepMS);
    BoundsInSteps(q, stepMS * MILLI, l, h);
  }

  lemma OpenInSteps(o: int, q: int, stepMS: int)
    requires o == q * stepMS
    ensures o * MILLI == q * (stepMS * MILLI)
  {
    assert q * (stepMS * MILLI) == (q * stepMS) * MILLI;
  }

  lemma BoundsInSteps(q: int, step: int, l: int, h: int)
    requires step > 0
    ensures Min(l, q) * step <= l * step && Min(l, q) * step <= q * step
    ensures h * step <= Max(h, q + 1) * step && q * step + step <= Max(h, q + 1) * step
  {
    MulOrder(Min(l, q), l, step);
    MulOrder(Min(l, q), q, step);
    MulOrder(h, Max(h, q + 1), step);
    MulOrder(q + 1, Max(h, q + 1), step);
    assert (q + 1) * step == q * step + step;
  }

  /**
   * For an interval that tiles a day the rebuild succeeds exactly when it finds nothing to
   * rebuild or the range starts on the grid.
   */
  lemma DayDivisorRebuildSucceedsIff(
    key: StreamKey, startAt: int, endAt: int, rows: seq<KlineRow>, source: string, now: int, step: int,
    r: Result<seq<Segment>, CoverageError>)
    requires IntervalDuration(key.interval) == Ok(step) && DAY % step == 0
    requires UnixMilli(startAt) < UnixMilli(endAt)
    requires IsRebuild(key, startAt, endAt, rows, source, now, r)
    ensures step / MILLI > 0
    ensures r.Ok? <==> || Opens(rows, UnixMilli(startAt), UnixMilli(endAt), step / MILLI) == {}
                       || IsAligned(UnixMilli(startAt) * MILLI, step)
  {
    StepMillis(key.interval);
    var startMS, stepMS := UnixMilli(startAt), step / MILLI;
    var opens := Opens(rows, startMS, UnixMilli(endAt), stepMS);
    forall o | o in opens
      ensures CutsAligned(SlotSegment(key, o, step, source, now), step) <==> IsAligned(startMS * MILLI, step)
    {
      DayDivisorAlignsCuts(SlotSegment(key, o, step, source, now), step);
      GridAligned(startMS, o, stepMS);
    }
    if opens != {} {
      var member := Member(opens);
    }
  }

  /** Either every slot of a grid is aligned or none is. */
  lemma GridAligned(startMS: int, o: int, stepMS: int)
    requires stepMS > 0 && (o - startMS) % stepMS == 0
    ensures var step := stepMS * MILLI;
            IsAligned(o * MILLI, step) && IsAligned(o * MILLI + step, step) <==> IsAligned(startMS * MILLI, step)
  {
    var q, step := (o - startMS) / stepMS, stepMS * MILLI;
    assert o - startMS == q * stepMS;
    assert q * step == (q * stepMS) * MILLI;
    ShiftAligned(startMS * MILLI, q, step);
    ShiftAligned(o * MILLI, 1, step);
  }

  lemma ShiftAligned(t: int, q: int, d: int)
    requires d > 0
    ensures IsAligned(t + q * d, d) <==> IsAligned(t, d)
  {
    var u := t + q * d;
    if IsAligned(t, d) {
      assert u == (t / d + q) * d;
      ModMultiple(t / d + q, d);
    }
    if IsAligned(u, d) {
      assert t == (u / d - q) * d;
      ModMultiple(u / d - q, d);
    }
  }
}
