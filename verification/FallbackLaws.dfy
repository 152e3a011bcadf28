/** What repairing from raw storage promises: the index, plus the rows found in its gaps. */
module FallbackLaws {
  import opened Wrappers
  import opened Calendar
  import opened Intervals
  import opened Segments
  import opened Merging
  import opened MergeLaws
  import opened Gaps
  import opened GapLaws
  import opened Slots
  import opened Rows
  import opened RowLaws
  import opened Paging
  import opened PagingLaws
  import F = Fallback

  /** The distinct on-grid open times fetched for the gap [a, b). */
  function GapOpens(fetch: KlineQuerier, key: StreamKey, a: int, b: int): set<int> {
    match IntervalDuration(key.interval)
    case Err(_) => {}
    case Ok(step) =>
      StepMillis(key.interval);
      match FetchedRows(fetch, key, a, b)
      case Err(_) => {}
      case Ok(rows) => Opens(rows, UnixMilli(a), UnixMilli(b), step / MILLI)
  }

  /** `t` falls in the slot of a row fetched inside some gap of `covered`. */
  ghost predicate RawCovers(
    fetch: KlineQuerier, key: StreamKey, startAt: int, endAt: int, covered: seq<Segment>, step: int, t: int)
  {
    exists a, b :: IsGap(startAt, endAt, covered, a, b) && SlotCovers(GapOpens(fetch, key, a, b), step, t)
  }

  // ---- Slots and gaps on one grid -----------------------------------------------------

  lemma MillisExact(t: int, interval: string, step: int)
    requires IntervalDuration(interval) == Ok(step) && IsAligned(t, step)
    ensures step / MILLI > 0 && step == step / MILLI * MILLI
    ensures UnixMilli(t) * MILLI == t && UnixMilli(t) % (step / MILLI) == 0
  {
    StepMillis(interval);
    MultipleOfMillis(t, t / step, step / MILLI);
  }

  lemma MultipleOfMillis(t: int, q: int, stepMS: int)
    requires stepMS > 0 && t == q * (stepMS * MILLI)
    ensures t / MILLI == q * stepMS && t / MILLI * MILLI == t && t / MILLI % stepMS == 0
  {
    DivUnique(t, q * stepMS, 0, MILLI);
    ModMultiple(q, stepMS);
  }

  /** The slots fetched for a gap lie inside it. */
  lemma SlotsStayInGap(fetch: KlineQuerier, key: StreamKey, a: int, b: int, step: int, t: int)
    requires IntervalDuration(key.interval) == Ok(step) && IsAligned(a, step) && IsAligned(b, step)
    requires SlotCovers(GapOpens(fetch, key, a, b), step, t)
    ensures a <= t < b
  {
    MillisExact(a, key.interval, step);
    MillisExact(b, key.interval, step);
    var stepMS := step / MILLI;
    var o :| o in GapOpens(fetch, key, a, b) && o * MILLI <= t < o * MILLI + step;
    AlignedDifference(UnixMilli(a), UnixMilli(b), stepMS);
    NextOpen(o, UnixMilli(b), UnixMilli(a), stepMS);
  }

  /** An on-grid slot that meets an on-grid gap is one of the gap's slots. */
  lemma MeetingSlotIsInGap(interval: string, a: int, b: int, step: int, o: int, t: int)
    requires IntervalDuration(interval) == Ok(step) && IsAligned(a, step) && IsAligned(b, step)
    requires a <= t < b && o * MILLI <= t < o * MILLI + step && IsAligned(o * MILLI, step)
    ensures step / MILLI > 0 && OnGrid(o, UnixMilli(a), UnixMilli(b), step / MILLI)
  {
    MillisExact(a, interval, step);
    MillisExact(b, interval, step);
    var stepMS := step / MILLI;
    AlignedOpen(o, stepMS);
    MillisInGap(UnixMilli(a), UnixMilli(b), stepMS, o, t);
  }

  lemma MillisInGap(aMS: int, bMS: int, stepMS: int, o: int, t: int)
    requires stepMS > 0 && aMS % stepMS == 0 && o % stepMS == 0
    requires aMS * MILLI <= t < bMS * MILLI && o * MILLI <= t < o * MILLI + stepMS * MILLI
    ensures OnGrid(o, aMS, bMS, stepMS)
  {
    if o < aMS {
      NextOpen(o, aMS, 0, stepMS);
    } else if aMS < o {
      AlignedDifference(aMS, o, stepMS);
    }
  }

  lemma {:induction false} ConcatCovers(fills: seq<seq<Segment>>, t: int)
    ensures Covers(F.Concat(fills), t) <==> exists i :: 0 <= i < |fills| && Covers(fills[i], t)
  {
    if fills != [] {
      var n := |fills| - 1;
      var front := fills[..n];
      ConcatCovers(front, t);
      CoversAppend(F.Concat(front), fills[n], t);
      if Covers(F.Concat(front), t) {
        var i :| 0 <= i < |front| && Covers(front[i], t);
        assert fills[i] == front[i];
      }
      if i :| 0 <= i < |fills| && Covers(fills[i], t) {
        if i < n { assert front[i] == fills[i]; }
      }
    }
  }

  lemma CoversAppend(x: seq<Segment>, y: seq<Segment>, t: int)
    ensures Covers(x + y, t) <==> Covers(x, t) || Covers(y, t)
  {
    if Covers(x, t) { var s :| s in x && Spans(s, t); assert s in x + y; }
    if Covers(y, t) { var s :| s in y && Spans(s, t); assert s in x + y; }
  }

  lemma {:induction false} ConcatMembers(fills: seq<seq<Segment>>, s: Segment)
    ensures s in F.Concat(fills) <==> exists i :: 0 <= i < |fills| && s in fills[i]
  {
    if fills != [] {
      var n := |fills| - 1;
      var front := fills[..n];
      ConcatMembers(front, s);
      if s in F.Concat(front) {
        var i :| 0 <= i < |front| && s in front[i];
        assert fills[i] == front[i];
      }
      if i :| 0 <= i < |fills| && s in fills[i] {
        if i < n { assert front[i] == fills[i]; }
      }
    }
  }

  // ---- One gap's fill -----------------------------------------------------------------

  /** A successful fill covers exactly the slots of the rows fetched for its gap. */
  lemma FillCovers(
    fetch: KlineQuerier, key: StreamKey, gap: TimeRange, clock: int -> int, fill: seq<Segment>, step: int)
    requires IntervalDuration(key.interval) == Ok(step) && gap.startAt < gap.endAt
    requires IsAligned(gap.startAt, step) && IsAligned(gap.endAt, step)
    requires F.IsGapFill(fetch, key, gap, clock, Ok(fill))
    ensures Canonical(fill) && Counted(key, fill)
    ensures forall t :: Covers(fill, t) <==> SlotCovers(GapOpens(fetch, key, gap.startAt, gap.endAt), step, t)
    ensures Total(SegmentSpans(fill)) == |GapOpens(fetch, key, gap.startAt, gap.endAt)|
  {
    MillisExact(gap.startAt, key.interval, step);
    MillisExact(gap.endAt, key.interval, step);
    var rows := FetchedRows(fetch, key, gap.startAt, gap.endAt).value;
    RebuildCountsOpens(key, gap.startAt, gap.endAt, rows, F.RAW_SOURCE, clock(gap.startAt), fill);
  }

  // ---- The whole repair ---------------------------------------------------------------

  ghost predicate GapsAligned(gaps: seq<TimeRange>, step: int) {
    forall i :: 0 <= i < |gaps| ==>
      gaps[i].startAt < gaps[i].endAt && IsAligned(gaps[i].startAt, step) && IsAligned(gaps[i].endAt, step)
  }

  lemma CountedGapsAligned(interval: string, gaps: seq<TimeRange>, step: int)
    requires IntervalDuration(interval) == Ok(step) && GapsCounted(interval, gaps)
    ensures GapsAligned(gaps, step)
  {
    assert forall i :: 0 <= i < |gaps| ==> gaps[i] in gaps;
  }

  ghost predicate SomeFillHolds(fetch: KlineQuerier, key: StreamKey, gaps: seq<TimeRange>, step: int, t: int) {
    exists i :: 0 <= i < |gaps| && SlotCovers(GapOpens(fetch, key, gaps[i].startAt, gaps[i].endAt), step, t)
  }

  lemma FillsCover(
    fetch: KlineQuerier, key: StreamKey, gaps: seq<TimeRange>, clock: int -> int, fills: seq<seq<Segment>>,
    step: int, t: int)
    requires IntervalDuration(key.interval) == Ok(step) && GapsAligned(gaps, step)
    requires F.AreFills(fetch, key, gaps, clock, fills)
    ensures Covers(F.Concat(fills), t) <==> SomeFillHolds(fetch, key, gaps, step, t)
    ensures forall s :: s in F.Concat(fills) ==> s.key == key
  {
    ConcatCovers(fills, t);
    forall i | 0 <= i < |gaps|
      ensures Covers(fills[i], t) <==> SlotCovers(GapOpens(fetch, key, gaps[i].startAt, gaps[i].endAt), step, t)
      ensures forall s :: s in fills[i] ==> s.key == key
    {
      FillCovers(fetch, key, gaps[i], clock, fills[i], step);
    }
    forall s | s in F.Concat(fills) ensures s.key == key {
      ConcatMembers(fills, s);
    }
  }

  lemma ListedIffGap(
    fetch: KlineQuerier, key: StreamKey, startAt: int, endAt: int, covered: seq<Segment>, gaps: seq<TimeRange>,
    step: int, t: int)
    requires IsComplement(startAt, endAt, covered, gaps)
    ensures SomeFillHolds(fetch, key, gaps, step, t) <==> RawCovers(fetch, key, startAt, endAt, covered, step, t)
  {
    if RawCovers(fetch, key, startAt, endAt, covered, step, t) {
      var a, b :| IsGap(startAt, endAt, covered, a, b) && SlotCovers(GapOpens(fetch, key, a, b), step, t);
      var i := Listed(startAt, endAt, covered, gaps, a, b);
    }
  }

  /** After a successful repair of `merged`, an instant is covered by the index or by a gap's row. */
  lemma RepairCovers(
    fetch: KlineQuerier, key: StreamKey, startAt: int, endAt: int, merged: seq<Segment>, gaps: seq<TimeRange>,
    clock: int -> int, out: seq<Segment>, step: int, t: int)
    requires IntervalDuration(key.interval) == Ok(step) && startAt < endAt
    requires Canonical(merged) && Counted(key, merged)
    requires forall s :: s in merged ==> startAt <= s.startAt && s.endAt <= endAt
    requires IsComplement(startAt, endAt, merged, gaps) && GapsCounted(key.interval, gaps)
    requires F.IsRepair(fetch, key, startAt, endAt, merged, gaps, clock, Ok(out))
    ensures Canonical(out) && Counted(key, out)
    ensures Covers(out, t) <==> Covers(merged, t) || RawCovers(fetch, key, startAt, endAt, merged, step, t)
  {
    CountedGapsAligned(key.interval, gaps, step);
    ListedIffGap(fetch, key, startAt, endAt, merged, gaps, step, t);
    if !(gaps == [] && out == merged) {
      var fills :| F.AreFills(fetch, key, gaps, clock, fills)
                   && IsMergeResult(key, startAt, endAt, merged + F.Concat(fills), Ok(out));
      FillsCover(fetch, key, gaps, clock, fills, step, t);
      MergeCoversExactly(key, startAt, endAt, merged + F.Concat(fills), out, t);
      CoversAppend(merged, F.Concat(fills), t);
      if SomeFillHolds(fetch, key, gaps, step, t) {
        var i :| 0 <= i < |gaps| && SlotCovers(GapOpens(fetch, key, gaps[i].startAt, gaps[i].endAt), step, t);
        SlotsStayInGap(fetch, key, gaps[i].startAt, gaps[i].endAt, step, t);
      }
      assert IndexCovers(key, startAt, endAt, merged + F.Concat(fills), t)
        <==> startAt <= t < endAt && Covers(merged + F.Concat(fills), t);
    }
  }

  lemma SameCoverSameRaw(
    fetch: KlineQuerier, key: StreamKey, startAt: int, endAt: int, c: seq<Segment>, c': seq<Segment>, step: int, t: int)
    requires SameInside(startAt, endAt, c, c')
    ensures RawCovers(fetch, key, startAt, endAt, c, step, t) <==> RawCovers(fetch, key, startAt, endAt, c', step, t)
  {
    forall a, b ensures IsGap(startAt, endAt, c, a, b) <==> IsGap(startAt, endAt, c', a, b) {
    }
  }

  /** The two intermediate lists of a successful fallback. */
  lemma FallbackStages(
    fetch: KlineQuerier, key: StreamKey, startAt: int, endAt: int, indexed: seq<Segment>, clock: int -> int,
    out: seq<Segment>)
    returns (merged: seq<Segment>, gaps: seq<TimeRange>)
    requires F.IsFallback(Some(fetch), key, startAt, endAt, indexed, clock, Ok(out))
    ensures IsMergeResult(key, startAt, endAt, indexed, Ok(merged))
    ensures IsGapResult(startAt, endAt, key.interval, merged, Ok(gaps))
    ensures F.IsRepair(fetch, key, startAt, endAt, merged, gaps, clock, Ok(out))
    ensures forall s :: s in merged ==> startAt <= s.startAt && s.endAt <= endAt
    ensures SameInside(startAt, endAt, merged, Parts(key, startAt, endAt, indexed))
  {
    var m, missing :|
      && IsMergeResult(key, startAt, endAt, indexed, Ok(m))
      && IsGapResult(startAt, endAt, key.interval, m, missing)
      && match missing
         case Err(e) => Ok(out) == Err(e)
         case Ok(gaps) => F.IsRepair(fetch, key, startAt, endAt, m, gaps, clock, Ok(out));
    merged, gaps := m, missing.value;
    forall s | s in merged ensures startAt <= s.startAt && s.endAt <= endAt {
      MergedInRange(key, startAt, endAt, indexed, merged, s);
    }
  }

  /**
   * The repaired coverage is the clipped same-key index together with the slots of the on-grid
   * rows fetched inside the index's gaps: nothing indexed is lost, and nothing else is gained.
   */
  lemma FallbackCoversExactly(
    fetch: KlineQuerier, key: StreamKey, startAt: int, endAt: int, indexed: seq<Segment>, clock: int -> int,
    out: seq<Segment>, step: int, t: int)
    requires IntervalDuration(key.interval) == Ok(step)
    requires F.IsFallback(Some(fetch), key, startAt, endAt, indexed, clock, Ok(out))
    ensures Canonical(out) && Counted(key, out)
    ensures Covers(out, t) <==>
            || IndexCovers(key, startAt, endAt, indexed, t)
            || RawCovers(fetch, key, startAt, endAt, Parts(key, startAt, endAt, indexed), step, t)
  {
    var merged, gaps := FallbackStages(fetch, key, startAt, endAt, indexed, clock, out);
    RepairCovers(fetch, key, startAt, endAt, merged, gaps, clock, out, step, t);
    MergeCoversExactly(key, startAt, endAt, indexed, merged, t);
    SameCoverSameRaw(fetch, key, startAt, endAt, merged, Parts(key, startAt, endAt, indexed), step, t);
  }

  /** `t` falls in the slot of some stored row that opens on the interval grid. */
  ghost predicate StoreCovers(store: seq<KlineRow>, step: int, t: int) {
    exists row :: row in store && IsAligned(row.openTime * MILLI, step)
                  && row.openTime * MILLI <= t < row.openTime * MILLI + step
  }

  /** `t` falls in the slot of a stored on-grid row that paging keeps when it reads the gap [a, b). */
  ghost predicate KeptSlot(store: seq<KlineRow>, a: int, b: int, step: int, t: int) {
    exists row :: row in Kept(Window(store, UnixMilli(a), UnixMilli(b)), step / MILLI)
                  && IsAligned(row.openTime * MILLI, step)
                  && row.openTime * MILLI <= t < row.openTime * MILLI + step
  }

  ghost predicate KeptCovers(
    store: seq<KlineRow>, startAt: int, endAt: int, covered: seq<Segment>, step: int, t: int)
  {
    exists a, b :: IsGap(startAt, endAt, covered, a, b) && KeptSlot(store, a, b, step, t)
  }

  /**
   * Against any honest ascending store, the repaired coverage is the index together with the slots
   * of the stored on-grid rows that paging keeps in the index's gaps.
   */
  lemma FallbackIsIndexUnionKept(
    fetch: KlineQuerier, key: StreamKey, startAt: int, endAt: int, indexed: seq<Segment>, clock: int -> int,
    out: seq<Segment>, step: int, store: seq<KlineRow>, t: int)
    requires IntervalDuration(key.interval) == Ok(step)
    requires Answers(fetch, key, store) && Spaced(store, 1)
    requires F.IsFallback(Some(fetch), key, startAt, endAt, indexed, clock, Ok(out))
    ensures Covers(out, t) <==>
            || IndexCovers(key, startAt, endAt, indexed, t)
            || KeptCovers(store, startAt, endAt, Parts(key, startAt, endAt, indexed), step, t)
  {
    var parts := Parts(key, startAt, endAt, indexed);
    FallbackCoversExactly(fetch, key, startAt, endAt, indexed, clock, out, step, t);
    forall a, b | IsGap(startAt, endAt, parts, a, b)
      ensures SlotCovers(GapOpens(fetch, key, a, b), step, t) <==> KeptSlot(store, a, b, step, t)
    {
      FallbackGapAligned(fetch, key, startAt, endAt, indexed, clock, out, step, a, b);
      GapHoldsKept(fetch, key, a, b, step, store, t);
    }
  }

  /** The gaps of a repaired index are on the grid. */
  lemma FallbackGapAligned(
    fetch: KlineQuerier, key: StreamKey, startAt: int, endAt: int, indexed: seq<Segment>, clock: int -> int,
    out: seq<Segment>, step: int, a: int, b: int)
    requires IntervalDuration(key.interval) == Ok(step)
    requires F.IsFallback(Some(fetch), key, startAt, endAt, indexed, clock, Ok(out))
    requires IsGap(startAt, endAt, Parts(key, startAt, endAt, indexed), a, b)
    ensures IsAligned(a, step) && IsAligned(b, step)
  {
    var merged, gaps := FallbackStages(fetch, key, startAt, endAt, indexed, clock, out);
    SameInsideSameGap(startAt, endAt, merged, Parts(key, startAt, endAt, indexed), a, b);
    GapCounts(startAt, endAt, key.interval, merged, gaps, a, b);
  }

  lemma SameInsideSameGap(startAt: int, endAt: int, c: seq<Segment>, c': seq<Segment>, a: int, b: int)
    requires SameInside(startAt, endAt, c, c')
    ensures IsGap(startAt, endAt, c, a, b) <==> IsGap(startAt, endAt, c', a, b)
  {
  }

  lemma GapCounts(
    startAt: int, endAt: int, interval: string, covered: seq<Segment>, gaps: seq<TimeRange>, a: int, b: int)
    requires IsGapResult(startAt, endAt, interval, covered, Ok(gaps)) && IsGap(startAt, endAt, covered, a, b)
    ensures ExpectedCount(a, b, interval).Ok?
  {
  }

  lemma GapHoldsKept(
    fetch: KlineQuerier, key: StreamKey, a: int, b: int, step: int, store: seq<KlineRow>, t: int)
    requires IntervalDuration(key.interval) == Ok(step) && IsAligned(a, step) && IsAligned(b, step)
    requires Answers(fetch, key, store) && Spaced(store, 1)
    ensures SlotCovers(GapOpens(fetch, key, a, b), step, t) <==> KeptSlot(store, a, b, step, t)
  {
    if SlotCovers(GapOpens(fetch, key, a, b), step, t) {
      FetchedIsKept(fetch, key, a, b, step, store, t);
    }
    if KeptSlot(store, a, b, step, t) {
      KeptIsFetched(fetch, key, a, b, step, store, t);
    }
  }

  lemma FetchedIsKept(
    fetch: KlineQuerier, key: StreamKey, a: int, b: int, step: int, store: seq<KlineRow>, t: int)
    requires IntervalDuration(key.interval) == Ok(step) && IsAligned(a, step)
    requires Answers(fetch, key, store) && Spaced(store, 1)
    requires SlotCovers(GapOpens(fetch, key, a, b), step, t)
    ensures KeptSlot(store, a, b, step, t)
  {
    hide Answers, Spaced, GapOpens, Kept, Window;
    var kept := KeptOpens(fetch, key, a, b, step, store);
    MillisExact(a, key.interval, step);
    var o :| o in GapOpens(fetch, key, a, b) && o * MILLI <= t < o * MILLI + step;
    GridAligned(UnixMilli(a), o, step / MILLI);
    assert KlineRow(o) in kept && KlineRow(o).openTime == o;
  }

  lemma KeptIsFetched(
    fetch: KlineQuerier, key: StreamKey, a: int, b: int, step: int, store: seq<KlineRow>, t: int)
    requires IntervalDuration(key.interval) == Ok(step) && IsAligned(a, step) && IsAligned(b, step)
    requires Answers(fetch, key, store) && Spaced(store, 1) && KeptSlot(store, a, b, step, t)
    ensures SlotCovers(GapOpens(fetch, key, a, b), step, t)
  {
    hide Answers, Spaced, GapOpens, Kept, Window;
    var kept := KeptOpens(fetch, key, a, b, step, store);
    var row :| row in kept && IsAligned(row.openTime * MILLI, step)
               && row.openTime * MILLI <= t < row.openTime * MILLI + step;
    KeptOpensInGap(key.interval, a, b, step, store, row);
    assert KlineRow(row.openTime) == row;
    assert row.openTime in GapOpens(fetch, key, a, b);
  }

  /** What reading a gap gives: the kept rows, and their on-grid open times. */
  lemma KeptOpens(
    fetch: KlineQuerier, key: StreamKey, a: int, b: int, step: int, store: seq<KlineRow>)
    returns (kept: seq<KlineRow>)
    requires IntervalDuration(key.interval) == Ok(step)
    requires Answers(fetch, key, store) && Spaced(store, 1)
    ensures step / MILLI > 0 && kept == Kept(Window(store, UnixMilli(a), UnixMilli(b)), step / MILLI)
    ensures forall o :: o in GapOpens(fetch, key, a, b) <==>
              KlineRow(o) in kept && OnGrid(o, UnixMilli(a), UnixMilli(b), step / MILLI)
  {
    StepMillis(key.interval);
    kept := Kept(Window(store, UnixMilli(a), UnixMilli(b)), step / MILLI);
    PagesKeep(fetch, key, store, UnixMilli(a), UnixMilli(b), step / MILLI);
  }

  /** A kept row on the interval grid opens on the gap's own grid. */
  lemma KeptOpensInGap(interval: string, a: int, b: int, step: int, store: seq<KlineRow>, row: KlineRow)
    requires IntervalDuration(interval) == Ok(step) && IsAligned(a, step) && IsAligned(b, step)
    requires row in Kept(Window(store, UnixMilli(a), UnixMilli(b)), step / MILLI)
    requires IsAligned(row.openTime * MILLI, step)
    ensures step / MILLI > 0 && OnGrid(row.openTime, UnixMilli(a), UnixMilli(b), step / MILLI)
    ensures a <= row.openTime * MILLI < b && row in store
  {
    MillisExact(a, interval, step);
    MillisExact(b, interval, step);
    KeptMembers(Window(store, UnixMilli(a), UnixMilli(b)), step / MILLI, row);
    WindowMembers(store, UnixMilli(a), UnixMilli(b), row);
    MeetingSlotIsInGap(interval, a, b, step, row.openTime, row.openTime * MILLI);
  }

  // ---- When the repair finds every stored row --------------------------------------------

  /** Reading the gaps skips no row that opens on the interval grid. */
  ghost predicate NoGridRowSkipped(
    store: seq<KlineRow>, startAt: int, endAt: int, covered: seq<Segment>, step: int)
  {
    forall a, b, row | IsGap(startAt, endAt, covered, a, b) && row in Window(store, UnixMilli(a), UnixMilli(b)) ::
      IsAligned(row.openTime * MILLI, step) ==>
        row in Kept(Window(store, UnixMilli(a), UnixMilli(b)), step / MILLI)
  }

  /** The coverage is simply "index or stored rows". */
  ghost predicate IsIndexUnionStore(
    key: StreamKey, startAt: int, endAt: int, indexed: seq<Segment>, step: int, store: seq<KlineRow>,
    out: seq<Segment>)
  {
    forall t :: Covers(out, t) <==> IndexOrStore(key, startAt, endAt, indexed, step, store, t)
  }

  ghost predicate IndexOrStore(
    key: StreamKey, startAt: int, endAt: int, indexed: seq<Segment>, step: int, store: seq<KlineRow>, t: int)
  {
    startAt <= t < endAt && (IndexCovers(key, startAt, endAt, indexed, t) || StoreCovers(store, step, t))
  }

  /**
   * Against an honest ascending store, the repaired coverage is simply "index or stored rows" if and
   * only if reading the gaps skips no row on the interval grid.
   */
  lemma FallbackIsIndexUnionStoreIff(
    fetch: KlineQuerier, key: StreamKey, startAt: int, endAt: int, indexed: seq<Segment>, clock: int -> int,
    out: seq<Segment>, step: int, store: seq<KlineRow>)
    requires IntervalDuration(key.interval) == Ok(step)
    requires Answers(fetch, key, store) && Spaced(store, 1)
    requires F.IsFallback(Some(fetch), key, startAt, endAt, indexed, clock, Ok(out))
    ensures IsIndexUnionStore(key, startAt, endAt, indexed, step, store, out)
            <==> NoGridRowSkipped(store, startAt, endAt, Parts(key, startAt, endAt, indexed), step)
  {
    var parts := Parts(key, startAt, endAt, indexed);
    forall a, b | IsGap(startAt, endAt, parts, a, b) ensures IsAligned(a, step) && IsAligned(b, step) {
      FallbackGapAligned(fetch, key, startAt, endAt, indexed, clock, out, step, a, b);
    }
    if NoGridRowSkipped(store, startAt, endAt, parts, step) {
      forall t ensures Covers(out, t) <==> IndexOrStore(key, startAt, endAt, indexed, step, store, t) {
        FallbackIsIndexUnionKept(fetch, key, startAt, endAt, indexed, clock, out, step, store, t);
        UnskippedIsUnion(key, startAt, endAt, indexed, step, store, t);
      }
    }
    if IsIndexUnionStore(key, startAt, endAt, indexed, step, store, out) {
      forall a, b, row | IsGap(startAt, endAt, parts, a, b)
                         && row in Window(store, UnixMilli(a), UnixMilli(b))
                         && IsAligned(row.openTime * MILLI, step)
        ensures row in Kept(Window(store, UnixMilli(a), UnixMilli(b)), step / MILLI)
      {
        var t := row.openTime * MILLI;
        FallbackIsIndexUnionKept(fetch, key, startAt, endAt, indexed, clock, out, step, store, t);
        assert Covers(out, t) <==> IndexOrStore(key, startAt, endAt, indexed, step, store, t);
        UnionKeepsRow(key, startAt, endAt, indexed, step, store, a, b, row);
      }
    }
  }

  ghost predicate GapsOnGrid(startAt: int, endAt: int, covered: seq<Segment>, step: int) {
    forall a, b :: IsGap(startAt, endAt, covered, a, b) ==> IsAligned(a, step) && IsAligned(b, step)
  }

  /** When no on-grid row is skipped, the kept rows cover what the stored rows do, outside the index. */
  lemma UnskippedIsUnion(
    key: StreamKey, startAt: int, endAt: int, indexed: seq<Segment>, step: int, store: seq<KlineRow>, t: int)
    requires IntervalDuration(key.interval) == Ok(step)
    requires GapsOnGrid(startAt, endAt, Parts(key, startAt, endAt, indexed), step)
    requires NoGridRowSkipped(store, startAt, endAt, Parts(key, startAt, endAt, indexed), step)
    ensures IndexCovers(key, startAt, endAt, indexed, t)
            || KeptCovers(store, startAt, endAt, Parts(key, startAt, endAt, indexed), step, t)
            <==> IndexOrStore(key, startAt, endAt, indexed, step, store, t)
  {
    var parts := Parts(key, startAt, endAt, indexed);
    PartsCover(key, startAt, endAt, indexed, t);
    if KeptCovers(store, startAt, endAt, parts, step, t) {
      var a, b :| IsGap(startAt, endAt, parts, a, b) && KeptSlot(store, a, b, step, t);
      KeptSlotInGap(key.interval, a, b, step, store, t);
    }
    if IndexOrStore(key, startAt, endAt, indexed, step, store, t) && !Covers(parts, t) {
      var a, b := GapAround(startAt, endAt, parts, t);
      var row :| row in store && IsAligned(row.openTime * MILLI, step)
                 && row.openTime * MILLI <= t < row.openTime * MILLI + step;
      MeetingSlotIsInGap(key.interval, a, b, step, row.openTime, t);
      WindowMembers(store, UnixMilli(a), UnixMilli(b), row);
      assert KeptSlot(store, a, b, step, t);
    }
  }

  lemma KeptSlotInGap(interval: string, a: int, b: int, step: int, store: seq<KlineRow>, t: int)
    requires IntervalDuration(interval) == Ok(step) && IsAligned(a, step) && IsAligned(b, step)
    requires KeptSlot(store, a, b, step, t)
    ensures a <= t < b && StoreCovers(store, step, t)
  {
    var row :| row in Kept(Window(store, UnixMilli(a), UnixMilli(b)), step / MILLI)
               && IsAligned(row.openTime * MILLI, step)
               && row.openTime * MILLI <= t < row.openTime * MILLI + step;
    KeptOpensInGap(interval, a, b, step, store, row);
    SlotEndsBy(row.openTime * MILLI, b, step);
  }

  lemma SlotEndsBy(o: int, b: int, step: int)
    requires IsAligned(o, step) && IsAligned(b, step) && o < b
    ensures o + step <= b
  {
    AlignedDifference(o, b, step);
    MulOutgrows((b - o) / step, step);
  }

  /** Around an uncovered instant of the request there is a gap. */
  lemma GapAround(startAt: int, endAt: int, covered: seq<Segment>, t: int) returns (a: int, b: int)
    requires startAt <= t < endAt && !Covers(covered, t)
    ensures IsGap(startAt, endAt, covered, a, b) && a <= t < b
  {
    a, b := t, t + 1;
    while a > startAt && !Covers(covered, a - 1)
      invariant startAt <= a <= t && Free(covered, a, t + 1)
      decreases a - startAt
    {
      a := a - 1;
    }
    while b < endAt && !Covers(covered, b)
      invariant t < b <= endAt && Free(covered, a, b)
      decreases endAt - b
    {
      b := b + 1;
    }
  }

  /** A stored on-grid row of a gap that is covered after the repair was kept. */
  lemma UnionKeepsRow(
    key: StreamKey, startAt: int, endAt: int, indexed: seq<Segment>, step: int, store: seq<KlineRow>,
    a: int, b: int, row: KlineRow)
    requires IntervalDuration(key.interval) == Ok(step)
    requires GapsOnGrid(startAt, endAt, Parts(key, startAt, endAt, indexed), step)
    requires IsGap(startAt, endAt, Parts(key, startAt, endAt, indexed), a, b)
    requires row in Window(store, UnixMilli(a), UnixMilli(b)) && IsAligned(row.openTime * MILLI, step)
    requires var t := row.openTime * MILLI;
             IndexOrStore(key, startAt, endAt, indexed, step, store, t) ==>
               || IndexCovers(key, startAt, endAt, indexed, t)
               || KeptCovers(store, startAt, endAt, Parts(key, startAt, endAt, indexed), step, t)
    ensures row in Kept(Window(store, UnixMilli(a), UnixMilli(b)), step / MILLI)
  {
    var parts, t := Parts(key, startAt, endAt, indexed), row.openTime * MILLI;
    WindowRowInGap(key.interval, a, b, step, store, row);
    PartsCover(key, startAt, endAt, indexed, t);
    assert !Covers(parts, t) && StoreCovers(store, step, t);
    var c, d :| IsGap(startAt, endAt, parts, c, d) && KeptSlot(store, c, d, step, t);
    KeptSlotInGap(key.interval, c, d, step, store, t);
    GapsMeet(startAt, endAt, parts, a, b, c, d, t);
    var row' :| row' in Kept(Window(store, UnixMilli(a), UnixMilli(b)), step / MILLI)
                && IsAligned(row'.openTime * MILLI, step)
                && row'.openTime * MILLI <= t < row'.openTime * MILLI + step;
    if row'.openTime < row.openTime {
      SlotEndsBy(row'.openTime * MILLI, t, step);
    }
    assert row' == row;
  }

  lemma WindowRowInGap(interval: string, a: int, b: int, step: int, store: seq<KlineRow>, row: KlineRow)
    requires IntervalDuration(interval) == Ok(step) && IsAligned(a, step) && IsAligned(b, step)
    requires row in Window(store, UnixMilli(a), UnixMilli(b))
    ensures row in store && a <= row.openTime * MILLI < b
  {
    MillisExact(a, interval, step);
    MillisExact(b, interval, step);
    WindowMembers(store, UnixMilli(a), UnixMilli(b), row);
  }

  /** In particular it is so when no row of any gap opens less than a step behind the end of a full page. */
  lemma WholeGapsSkipNothing(
    store: seq<KlineRow>, startAt: int, endAt: int, covered: seq<Segment>, step: int)
    requires Spaced(store, 1) && step / MILLI > 0
    requires forall a, b :: IsGap(startAt, endAt, covered, a, b) ==>
                              CutsSpaced(Window(store, UnixMilli(a), UnixMilli(b)), step / MILLI)
    ensures NoGridRowSkipped(store, startAt, endAt, covered, step)
  {
    forall a, b | IsGap(startAt, endAt, covered, a, b)
      ensures Kept(Window(store, UnixMilli(a), UnixMilli(b)), step / MILLI) == Window(store, UnixMilli(a), UnixMilli(b))
    {
      WindowSpaced(store, UnixMilli(a), UnixMilli(b), 1);
      KeptWholeIff(Window(store, UnixMilli(a), UnixMilli(b)), step / MILLI);
    }
  }
}
