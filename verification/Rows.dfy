/** Rebuilding coverage from raw K-line rows. */
module Rows {
  import opened Wrappers
  import opened Calendar
  import opened Intervals
  import opened Segments
  import opened YearSplit
  import opened Merging
  import opened Keys

  const MILLI := 1_000_000

  /** A stored K-line; only its open time, in milliseconds, bears on coverage. */
  datatype KlineRow = KlineRow(openTime: int)

  /** Go's `t.UTC().UnixMilli()`: rounds towards the past. */
  function UnixMilli(t: int): int {
    t / MILLI
  }

  /** The open time is in [startMS, endMS) and a whole number of steps from `startMS`. */
  predicate OnGrid(openMS: int, startMS: int, endMS: int, stepMS: int)
    requires stepMS > 0
  {
    startMS <= openMS < endMS && (openMS - startMS) % stepMS == 0
  }

  /** The distinct in-range, on-grid open times among the rows. */
  function Opens(rows: seq<KlineRow>, startMS: int, endMS: int, stepMS: int): (r: set<int>)
    requires stepMS > 0
    ensures forall o :: o in r <==> OnGrid(o, startMS, endMS, stepMS) && KlineRow(o) in rows
  {
    set row | row in rows && OnGrid(row.openTime, startMS, endMS, stepMS) :: row.openTime
  }

  /** Some open time's slot of length `step` holds the instant `t`. */
  ghost predicate SlotCovers(opens: set<int>, step: int, t: int) {
    exists o :: o in opens && o * MILLI <= t < o * MILLI + step
  }

  /** The contract of the rebuild. */
  ghost predicate IsRebuild(
    key: StreamKey, startAt: int, endAt: int, rows: seq<KlineRow>, source: string, now: int,
    r: Result<seq<Segment>, CoverageError>)
  {
    match IntervalDuration(key.interval)
    case Err(e) => r == Err(e)
    case Ok(step) =>
      var stepMS := step / MILLI;
      StepMillis(key.interval);
      if UnixMilli(endAt) <= UnixMilli(startAt) then r == Err(InvalidRange)
      else
        var opens := Opens(rows, UnixMilli(startAt), UnixMilli(endAt), stepMS);
        && (r.Ok? ==>
              && Canonical(r.value) && Counted(key, r.value)
              && (forall t :: Covers(r.value, t) <==> SlotCovers(opens, step, t))
              && (forall s :: s in r.value ==> Stamped(s, source, now)))
        && (r.Err? ==> r.error == Misaligned)
        && (r.Ok? <==> forall o :: o in opens ==> CutsAligned(SlotSegment(key, o, step, source, now), step))
  }

  lemma StepMillis(interval: string)
    requires IntervalDuration(interval).Ok?
    ensures var step := IntervalDuration(interval).value;
            step / MILLI > 0 && step / MILLI * MILLI == step
  {
    var step := IntervalDuration(interval).value;
    assert step == step / SECOND * SECOND;
    DivUnique(step, step / SECOND * 1000, 0, MILLI);
  }

  /** The one-row segment for the slot that opens at `openMS`. */
  function SlotSegment(key: StreamKey, openMS: int, step: int, source: string, now: int): Segment {
    Segment(0, key, YearOf(openMS * MILLI), openMS * MILLI, openMS * MILLI + step, 1, source, now)
  }

  // ---- Runs of consecutive slots ------------------------------------------------------

  function SeqSet(keys: seq<int>): (r: set<int>)
    ensures forall o :: o in r <==> o in keys
  {
    set o | o in keys
  }

  /** Rebuilt segments are unsaved, and all carry the caller's label and time. */
  predicate Stamped(s: Segment, source: string, now: int) {
    s.segmentId == 0 && s.source == source && s.updatedAt == now
  }

  /** Non-empty, stamped, strictly separated, and ending where the last open time's slot ends. */
  ghost predicate RunShape(
    runs: seq<Segment>, keys: seq<int>, key: StreamKey, step: int, source: string, now: int)
  {
    && (forall s :: s in runs ==> s.startAt < s.endAt && s.key == key && Stamped(s, source, now))
    && (forall i, j :: 0 <= i < j < |runs| ==> runs[i].endAt < runs[j].startAt)
    && (keys == [] <==> runs == [])
    && (keys != [] ==> runs[|runs| - 1].endAt == keys[|keys| - 1] * MILLI + step)
  }

  ghost predicate RunCover(runs: seq<Segment>, keys: seq<int>, step: int) {
    forall t :: Covers(runs, t) <==> SlotCovers(SeqSet(keys), step, t)
  }

  ghost predicate AllCut(runs: seq<Segment>, step: int) {
    forall s :: s in runs ==> CutsAligned(s, step)
  }

  ghost predicate SlotsCut(keys: seq<int>, key: StreamKey, step: int, source: string, now: int) {
    forall o :: o in keys ==> CutsAligned(SlotSegment(key, o, step, source, now), step)
  }

  /** `runs` are the maximal stretches of back-to-back slots opened by `keys`. */
  ghost predicate AreRuns(
    runs: seq<Segment>, keys: seq<int>, key: StreamKey, step: int, source: string, now: int)
  {
    && RunShape(runs, keys, key, step, source, now)
    && RunCover(runs, keys, step)
    && (AllCut(runs, step) <==> SlotsCut(keys, key, step, source, now))
  }

  lemma SlotConcat(keys: seq<int>, o: int, step: int, t: int)
    ensures SlotCovers(SeqSet(keys + [o]), step, t)
            <==> SlotCovers(SeqSet(keys), step, t) || o * MILLI <= t < o * MILLI + step
  {
    var a, b := SeqSet(keys), SeqSet(keys + [o]);
    if SlotCovers(a, step, t) {
      var x :| x in a && x * MILLI <= t < x * MILLI + step;
      assert x in b;
    }
    assert o in b;
  }

  lemma SlotsCutConcat(keys: seq<int>, o: int, key: StreamKey, step: int, source: string, now: int)
    ensures SlotsCut(keys + [o], key, step, source, now)
            <==> SlotsCut(keys, key, step, source, now) && CutsAligned(SlotSegment(key, o, step, source, now), step)
  {
    assert o in keys + [o];
    assert forall x :: x in keys ==> x in keys + [o];
  }

  lemma AllCutConcat(runs: seq<Segment>, s: Segment, step: int)
    ensures AllCut(runs + [s], step) <==> AllCut(runs, step) && CutsAligned(s, step)
  {
    assert s in runs + [s];
    assert forall x :: x in runs ==> x in runs + [s];
  }

  lemma NewRun(
    runs: seq<Segment>, keys: seq<int>, key: StreamKey, step: int, source: string, now: int, o: int)
    requires AreRuns(runs, keys, key, step, source, now) && step > 0
    requires keys != [] ==> keys[|keys| - 1] * MILLI + step < o * MILLI
    ensures AreRuns(runs + [SlotSegment(key, o, step, source, now)], keys + [o], key, step, source, now)
  {
    var slot := SlotSegment(key, o, step, source, now);
    NewRunCover(runs, keys, slot, o, step);
    NewRunShape(runs, keys, key, step, source, now, o);
    AllCutConcat(runs, slot, step);
    SlotsCutConcat(keys, o, key, step, source, now);
  }

  lemma NewRunShape(
    runs: seq<Segment>, keys: seq<int>, key: StreamKey, step: int, source: string, now: int, o: int)
    requires RunShape(runs, keys, key, step, source, now) && step > 0
    requires keys != [] ==> keys[|keys| - 1] * MILLI + step < o * MILLI
    ensures RunShape(runs + [SlotSegment(key, o, step, source, now)], keys + [o], key, step, source, now)
  {
    assert forall i :: 0 <= i < |runs| ==> runs[i].endAt <= runs[|runs| - 1].endAt by {
      assert forall i :: 0 <= i < |runs| ==> runs[i] in runs;
    }
  }

  lemma NewRunCover(runs: seq<Segment>, keys: seq<int>, slot: Segment, o: int, step: int)
    requires RunCover(runs, keys, step)
    requires slot.startAt == o * MILLI && slot.endAt == o * MILLI + step
    ensures RunCover(runs + [slot], keys + [o], step)
  {
    forall t ensures Covers(runs + [slot], t) <==> SlotCovers(SeqSet(keys + [o]), step, t) {
      CoversConcat(runs, slot, t);
      SlotConcat(keys, o, step, t);
    }
  }

  lemma GrowRun(
    front: seq<Segment>, last: Segment, grown: Segment,
    keys: seq<int>, key: StreamKey, step: int, source: string, now: int, o: int)
    requires AreRuns(front + [last], keys, key, step, source, now) && step > 0
    requires last.startAt < last.endAt == o * MILLI
    requires grown == last.(endAt := o * MILLI + step, rowCount := grown.rowCount)
    ensures AreRuns(front + [grown], keys + [o], key, step, source, now)
  {
    var slot := SlotSegment(key, o, step, source, now);
    GrowRunShape(front, last, grown, keys, key, step, source, now, o);
    GrowRunCover(front, last, grown, keys, o, step);
    GrowAligned(last, slot, grown, step);
    AllCutConcat(front, last, step);
    AllCutConcat(front, grown, step);
    SlotsCutConcat(keys, o, key, step, source, now);
  }

  lemma GrowRunShape(
    front: seq<Segment>, last: Segment, grown: Segment,
    keys: seq<int>, key: StreamKey, step: int, source: string, now: int, o: int)
    requires RunShape(front + [last], keys, key, step, source, now) && step > 0
    requires last.endAt == o * MILLI
    requires grown == last.(endAt := o * MILLI + step, rowCount := grown.rowCount)
    ensures RunShape(front + [grown], keys + [o], key, step, source, now)
  {
    var runs, next := front + [last], front + [grown];
    assert last in runs;
    forall i, j | 0 <= i < j < |next| ensures next[i].endAt < next[j].startAt {
      assert runs[i].endAt < runs[j].startAt;
    }
    forall s | s in next ensures s.startAt < s.endAt && s.key == key && Stamped(s, source, now) {
      assert s == grown || s in runs;
    }
  }

  lemma GrowRunCover(front: seq<Segment>, last: Segment, grown: Segment, keys: seq<int>, o: int, step: int)
    requires RunCover(front + [last], keys, step) && step > 0
    requires last.startAt < last.endAt == o * MILLI
    requires grown.startAt == last.startAt && grown.endAt == o * MILLI + step
    ensures RunCover(front + [grown], keys + [o], step)
  {
    forall t ensures Covers(front + [grown], t) <==> SlotCovers(SeqSet(keys + [o]), step, t) {
      CoversConcat(front, grown, t);
      CoversConcat(front, last, t);
      SlotConcat(keys, o, step, t);
    }
  }

  /** How one more open time changes the runs. */
  function NextRuns(
    runs: seq<Segment>, previousMS: int, o: int, key: StreamKey, stepMS: int, source: string, now: int): seq<Segment>
  {
    if |runs| == 0 || o != previousMS + stepMS then runs + [SlotSegment(key, o, stepMS * MILLI, source, now)]
    else
      var current := runs[|runs| - 1];
      runs[..|runs| - 1] + [current.(endAt := o * MILLI + stepMS * MILLI, rowCount := current.rowCount + 1)]
  }

  lemma RunStep(
    runs: seq<Segment>, keys: seq<int>, previousMS: int, o: int,
    key: StreamKey, stepMS: int, source: string, now: int)
    requires stepMS > 0 && AreRuns(runs, keys, key, stepMS * MILLI, source, now)
    requires keys != [] ==> previousMS == keys[|keys| - 1] && previousMS + stepMS <= o
    ensures AreRuns(NextRuns(runs, previousMS, o, key, stepMS, source, now), keys + [o],
                    key, stepMS * MILLI, source, now)
  {
    var next := NextRuns(runs, previousMS, o, key, stepMS, source, now);
    if |runs| == 0 || o != previousMS + stepMS {
      NewRun(runs, keys, key, stepMS * MILLI, source, now, o);
      assert next == runs + [SlotSegment(key, o, stepMS * MILLI, source, now)];
    } else {
      var front, last := runs[..|runs| - 1], runs[|runs| - 1];
      var grown := last.(endAt := o * MILLI + stepMS * MILLI, rowCount := last.rowCount + 1);
      assert runs == front + [last];
      assert last in runs;
      GrowRun(front, last, grown, keys, key, stepMS * MILLI, source, now, o);
      assert next == front + [grown];
    }
  }

  /** Gluing a whole slot onto a run keeps exactly the grid cuts of the two. */
  lemma GrowAligned(last: Segment, slot: Segment, grown: Segment, step: int)
    requires step > 0 && last.startAt < last.endAt == slot.startAt && slot.endAt == slot.startAt + step
    requires grown.startAt == last.startAt && grown.endAt == slot.endAt
    ensures CutsAligned(grown, step) <==> CutsAligned(last, step) && CutsAligned(slot, step)
  {
    if IsAligned(grown.endAt, step) {
      assert slot.startAt == (grown.endAt / step - 1) * step;
      ModMultiple(grown.endAt / step - 1, step);
    }
  }

  // ---- Cutting the runs at year boundaries --------------------------------------------

  function SplitAll(runs: seq<Segment>): seq<Segment> {
    if runs == [] then [] else SplitAll(runs[..|runs| - 1]) + SplitByYear(runs[|runs| - 1])
  }

  lemma {:induction false} SplitAllMembers(runs: seq<Segment>, p: Segment)
    ensures p in SplitAll(runs) <==> exists s :: s in runs && p in SplitByYear(s)
  {
    if runs != [] {
      assert runs == runs[..|runs| - 1] + [runs[|runs| - 1]];
      SplitAllMembers(runs[..|runs| - 1], p);
    }
  }

  lemma {:induction false} SplitAllCanonical(runs: seq<Segment>)
    requires forall i, j :: 0 <= i < j < |runs| ==> runs[i].endAt < runs[j].startAt
    ensures Canonical(SplitAll(runs))
  {
    if runs != [] {
      var n := |runs| - 1;
      var front, tail := SplitAll(runs[..n]), SplitByYear(runs[n]);
      SplitAllCanonical(runs[..n]);
      SplitIsCanonical(runs[n]);
      forall p, q | p in front && q in tail ensures p.endAt < q.startAt {
        SplitAllMembers(runs[..n], p);
        var s :| s in runs[..n] && p in SplitByYear(s);
        PieceInside(s, p);
        PieceInside(runs[n], q);
      }
      var out := front + tail;
      forall i, j | 0 <= i < j < |out| ensures Precedes(out[i], out[j]) {
        if i < |front| && j >= |front| {
          assert out[i] in front && out[j] in tail;
        } else if j < |front| {
          assert Precedes(front[i], front[j]);
        } else {
          assert Precedes(tail[i - |front|], tail[j - |front|]);
        }
      }
    }
  }

  lemma PieceInside(s: Segment, p: Segment)
    requires p in SplitByYear(s)
    ensures s.startAt <= p.startAt && p.endAt <= s.endAt
  {
    var i :| 0 <= i < YearCount(s) && SplitByYear(s)[i] == p;
    SplitPiece(s, i);
  }

  lemma SplitAllCovers(runs: seq<Segment>, t: int)
    ensures Covers(SplitAll(runs), t) <==> Covers(runs, t)
  {
    if Covers(SplitAll(runs), t) {
      var p :| p in SplitAll(runs) && Spans(p, t);
      SplitAllMembers(runs, p);
      var s :| s in runs && p in SplitByYear(s);
      SplitCovers(s, t);
    }
    if Covers(runs, t) {
      var s :| s in runs && Spans(s, t);
      SplitCovers(s, t);
      var p :| p in SplitByYear(s) && Spans(p, t);
      SplitAllMembers(runs, p);
    }
  }

  lemma SplitAllAligned(runs: seq<Segment>, d: int)
    requires forall s :: s in runs ==> s.startAt < s.endAt
    ensures (forall p :: p in SplitAll(runs) ==> EndsAligned(p, d)) <==> (forall s :: s in runs ==> CutsAligned(s, d))
  {
    if forall p :: p in SplitAll(runs) ==> EndsAligned(p, d) {
      forall s | s in runs ensures CutsAligned(s, d) {
        forall p | p in SplitByYear(s) ensures EndsAligned(p, d) {
          SplitAllMembers(runs, p);
        }
        SplitAligned(s, d);
      }
    }
    if forall s :: s in runs ==> CutsAligned(s, d) {
      forall p | p in SplitAll(runs) ensures EndsAligned(p, d) {
        SplitAllMembers(runs, p);
        var s :| s in runs && p in SplitByYear(s);
        SplitAligned(s, d);
      }
    }
  }

  /** The year pieces of the runs, before they are counted. */
  lemma SplitRuns(
    runs: seq<Segment>, keys: seq<int>, opens: set<int>, key: StreamKey, step: int, source: string, now: int)
    requires AreRuns(runs, keys, key, step, source, now)
    requires forall o :: o in keys <==> o in opens
    ensures Canonical(SplitAll(runs))
    ensures forall t :: Covers(SplitAll(runs), t) <==> SlotCovers(opens, step, t)
    ensures forall p :: p in SplitAll(runs) ==> p.key == key && Stamped(p, source, now)
    ensures (forall p :: p in SplitAll(runs) ==> EndsAligned(p, step))
            <==> forall o :: o in opens ==> CutsAligned(SlotSegment(key, o, step, source, now), step)
  {
    SplitAllCanonical(runs);
    forall t ensures Covers(SplitAll(runs), t) <==> SlotCovers(opens, step, t) {
      SplitAllCovers(runs, t);
      assert SlotCovers(SeqSet(keys), step, t) <==> SlotCovers(opens, step, t);
    }
    SplitAllAligned(runs, step);
    forall p | p in SplitAll(runs) ensures p.key == key && Stamped(p, source, now) {
      SplitAllMembers(runs, p);
      var s :| s in runs && p in SplitByYear(s);
      var i :| 0 <= i < YearCount(s) && SplitByYear(s)[i] == p;
      SplitPiece(s, i);
    }
  }

  // ---- The rebuild --------------------------------------------------------------------

  method CoverageSegmentsFromKlineRows(
    key: StreamKey, startAt: int, endAt: int, rows: seq<KlineRow>, source: string, now: int)
    returns (r: Result<seq<Segment>, CoverageError>)
    ensures IsRebuild(key, startAt, endAt, rows, source, now, r)
  {
    var duration := IntervalDuration(key.interval);
    if duration.Err? {
      return Err(duration.error);
    }
    var step := duration.value;
    StepMillis(key.interval);
    var stepMS, startMS, endMS := step / MILLI, UnixMilli(startAt), UnixMilli(endAt);
    if endMS <= startMS {
      return Err(InvalidRange);
    }

    var seen := GatherOpens(rows, startMS, endMS, stepMS);
    var openTimes := SortedKeys(seen);
    var segments := BuildRuns(key, openTimes, startMS, stepMS, source, now);
    var out := CutRuns(segments);
    SplitRuns(segments, openTimes, seen, key, step, source, now);
    r := CountPieces(key, out);
  }

  /** The first loop: the distinct open times worth looking at. */
  method GatherOpens(rows: seq<KlineRow>, startMS: int, endMS: int, stepMS: int) returns (seen: set<int>)
    requires stepMS > 0
    ensures seen == Opens(rows, startMS, endMS, stepMS)
  {
    seen := {};
    for i := 0 to |rows|
      invariant seen == Opens(rows[..i], startMS, endMS, stepMS)
    {
      var openMS := rows[i].openTime;
      assert rows[..i + 1] == rows[..i] + [rows[i]] && rows[i] == KlineRow(openMS);
      if openMS < startMS || openMS >= endMS {
        continue;
      }
      if (openMS - startMS) % stepMS != 0 {
        continue;
      }
      seen := seen + {openMS};
    }
    assert rows[..|rows|] == rows;
  }

  /** The loop that cuts every run at year boundaries. */
  method CutRuns(segments: seq<Segment>) returns (out: seq<Segment>)
    ensures out == SplitAll(segments)
  {
    out := [];
    for i := 0 to |segments|
      invariant out == SplitAll(segments[..i])
    {
      var pieces := SplitCoverageSegmentByYear(segments[i]);
      assert segments[..i + 1][..i] == segments[..i];
      out := out + pieces;
    }
    assert segments[..|segments|] == segments;
  }

  /** The body of the joining loop: open a new run, or push the current one forward. */
  method ExtendRuns(
    runs: seq<Segment>, previousMS: int, openMS: int, key: StreamKey, stepMS: int, source: string, now: int)
    returns (segments: seq<Segment>)
    ensures segments == NextRuns(runs, previousMS, openMS, key, stepMS, source, now)
  {
    var openAt := openMS * MILLI;
    var end := openAt + stepMS * MILLI;
    segments := runs;
    if |segments| == 0 || openMS != previousMS + stepMS {
      segments := segments + [Segment(0, key, YearOf(openAt), openAt, end, 1, source, now)];
    } else {
      var current := |segments| - 1;
      segments := segments[current := segments[current].(endAt := end, rowCount := segments[current].rowCount + 1)];
    }
  }

  /** The loop that joins back-to-back slots into runs. */
  method BuildRuns(
    key: StreamKey, openTimes: seq<int>, startMS: int, stepMS: int, source: string, now: int)
    returns (segments: seq<Segment>)
    requires stepMS > 0 && Ascending(openTimes)
    requires forall o :: o in openTimes ==> (o - startMS) % stepMS == 0
    ensures AreRuns(segments, openTimes, key, stepMS * MILLI, source, now)
  {
    segments := [];
    var previousMS := 0;
    for i := 0 to |openTimes|
      invariant AreRuns(segments, openTimes[..i], key, stepMS * MILLI, source, now)
      invariant i > 0 ==> previousMS == openTimes[i - 1]
    {
      var openMS := openTimes[i];
      KeyAfter(openTimes, i, startMS, stepMS);
      RunStep(segments, openTimes[..i], previousMS, openMS, key, stepMS, source, now);
      segments := ExtendRuns(segments, previousMS, openMS, key, stepMS, source, now);
      previousMS := openMS;
    }
    assert openTimes[..|openTimes|] == openTimes;
  }

  /** The next open time, and its distance from the last one joined. */
  lemma KeyAfter(openTimes: seq<int>, i: nat, startMS: int, stepMS: int)
    requires i < |openTimes| && stepMS > 0 && Ascending(openTimes)
    requires forall o :: o in openTimes ==> (o - startMS) % stepMS == 0
    ensures openTimes[..i + 1] == openTimes[..i] + [openTimes[i]]
    ensures i > 0 ==> openTimes[..i][i - 1] == openTimes[i - 1] && openTimes[i - 1] + stepMS <= openTimes[i]
  {
    if i > 0 {
      assert openTimes[i - 1] in openTimes && openTimes[i] in openTimes;
      NextOpen(openTimes[i - 1], openTimes[i], startMS, stepMS);
    }
  }

  /** Distinct open times on one grid are at least a step apart. */
  lemma NextOpen(a: int, b: int, startMS: int, stepMS: int)
    requires stepMS > 0 && a < b && (a - startMS) % stepMS == 0 && (b - startMS) % stepMS == 0
    ensures a + stepMS <= b
  {
    AlignedDifference(a - startMS, b - startMS, stepMS);
    var q := (b - a) / stepMS;
    assert b - a == q * stepMS && q >= 1;
    MulOutgrows(q, stepMS);
  }

  /** The last loop: each piece is given its slot count. */
  method CountPieces(key: StreamKey, pieces: seq<Segment>) returns (r: Result<seq<Segment>, CoverageError>)
    requires IntervalDuration(key.interval).Ok? && Canonical(pieces)
    requires forall p :: p in pieces ==> p.key == key
    ensures r.Ok? <==> forall p :: p in pieces ==> EndsAligned(p, IntervalDuration(key.interval).value)
    ensures r.Err? ==> r.error == Misaligned
    ensures r.Ok? ==> Counted(key, r.value) && |r.value| == |pieces|
                      && forall i :: 0 <= i < |pieces| ==> r.value[i] == pieces[i].(rowCount := r.value[i].rowCount)
    ensures r.Ok? ==> Canonical(r.value) && forall t :: Covers(r.value, t) <==> Covers(pieces, t)
  {
    var out := pieces;
    for i := 0 to |pieces|
      invariant |out| == |pieces|
      invariant forall j :: 0 <= j < |pieces| ==> out[j] == pieces[j].(rowCount := out[j].rowCount)
      invariant forall j :: 0 <= j < i ==>
                  ExpectedCount(pieces[j].startAt, pieces[j].endAt, key.interval) == Ok(out[j].rowCount)
    {
      assert pieces[i] in pieces;
      var rowCount := ExpectedCount(out[i].startAt, out[i].endAt, key.interval);
      if rowCount.Err? {
        return Err(rowCount.error);
      }
      out := out[i := out[i].(rowCount := rowCount.value)];
    }
    forall i, j | 0 <= i < j < |out| ensures Precedes(out[i], out[j]) {
      assert Precedes(pieces[i], pieces[j]);
    }
    SameRangesSameCover(out, pieces);
    return Ok(out);
  }

  lemma SameRangesSameCover(a: seq<Segment>, b: seq<Segment>)
    requires |a| == |b| && forall i :: 0 <= i < |a| ==> a[i] == b[i].(rowCount := a[i].rowCount)
    ensures forall t :: Covers(a, t) <==> Covers(b, t)
  {
    forall t ensures Covers(a, t) <==> Covers(b, t) {
      if Covers(a, t) { var j := PieceAt(a, t); assert Spans(b[j], t); }
      if Covers(b, t) { var j := PieceAt(b, t); assert Spans(a[j], t); }
    }
  }
}
