/** What the merge of indexed coverage promises, whatever the index holds. */
module MergeLaws {
  import opened Wrappers
  import opened Calendar
  import opened Intervals
  import opened Segments
  import opened Sources
  import opened YearSplit
  import opened Merging

  type Coverage = Result<seq<Segment>, CoverageError>

  /** The merged list covers exactly the same-key index, clipped to the query. */
  lemma MergeCoversExactly(
    key: StreamKey, startAt: int, endAt: int, covered: seq<Segment>, out: seq<Segment>, t: int)
    requires IsMergeResult(key, startAt, endAt, covered, Ok(out))
    ensures Canonical(out)
    ensures Covers(out, t) <==> IndexCovers(key, startAt, endAt, covered, t)
  {
    PartsCover(key, startAt, endAt, covered, t);
  }

  /** Equal up to the segment identity. */
  predicate SameButIdentity(a: Segment, b: Segment) {
    a == b.(segmentId := a.segmentId)
  }

  ghost predicate SameCoverage(a: Coverage, b: Coverage) {
    match (a, b)
    case (Ok(x), Ok(y)) => |x| == |y| && forall i :: 0 <= i < |x| ==> SameButIdentity(x[i], y[i])
    case (Err(e), Err(f)) => e == f
    case _ => false
  }

  lemma SameSummary(o: Segment, o': Segment, parts: seq<Segment>)
    requires SameRange(o, o') && Describes(o, parts) && Describes(o', parts)
    ensures o.source == o'.source && o.updatedAt == o'.updatedAt
  {
    assert forall p :: Within(p, o) <==> Within(p, o');
    assert BoundsSources(o'.source, parts, o) && BoundsSources(o.source, parts, o');
    SourceOrder(o.source, o'.source, o.source);
  }

  lemma MergedUnique(key: StreamKey, parts: seq<Segment>, a: seq<Segment>, b: seq<Segment>)
    requires IsMerged(parts, a) && IsMerged(parts, b) && Counted(key, a) && Counted(key, b)
    ensures SameCoverage(Ok(a), Ok(b))
  {
    CanonicalUnique(a, b);
    forall i | 0 <= i < |a| ensures SameButIdentity(a[i], b[i]) {
      assert a[i] in a && b[i] in b;
      SameSummary(a[i], b[i], parts);
    }
  }

  /**
   * The answer depends only on which segments the index holds: not on their order, and not on
   * repetitions. (The identity of a merged piece is the one thing order may choose.)
   */
  lemma MergeIgnoresOrder(
    key: StreamKey, startAt: int, endAt: int, c: seq<Segment>, c': seq<Segment>, r: Coverage, r': Coverage)
    requires forall s :: s in c <==> s in c'
    requires IsMergeResult(key, startAt, endAt, c, r) && IsMergeResult(key, startAt, endAt, c', r')
    ensures SameCoverage(r, r')
  {
    var parts, parts' := Parts(key, startAt, endAt, c), Parts(key, startAt, endAt, c');
    forall p ensures p in parts <==> p in parts' {
      PartsMembers(key, startAt, endAt, c, p);
      PartsMembers(key, startAt, endAt, c', p);
    }
    if r.Ok? {
      SameMembers(parts', parts, r'.value);
      MergedUnique(key, parts, r.value, r'.value);
    }
  }

  /** In particular, rearranging the index changes nothing. */
  lemma MergeIgnoresPermutation(
    key: StreamKey, startAt: int, endAt: int, c: seq<Segment>, c': seq<Segment>, r: Coverage, r': Coverage)
    requires multiset(c) == multiset(c')
    requires IsMergeResult(key, startAt, endAt, c, r) && IsMergeResult(key, startAt, endAt, c', r')
    ensures SameCoverage(r, r')
  {
    forall s ensures s in c <==> s in c' {
      assert s in c <==> s in multiset(c);
      assert s in c' <==> s in multiset(c');
    }
    MergeIgnoresOrder(key, startAt, endAt, c, c', r, r');
  }

  /** Merging a merged list again returns it unchanged, identities included. */
  lemma MergeIsIdempotent(key: StreamKey, startAt: int, endAt: int, c: seq<Segment>, out: seq<Segment>, r: Coverage)
    requires IsMergeResult(key, startAt, endAt, c, Ok(out)) && IsMergeResult(key, startAt, endAt, out, r)
    ensures r == Ok(out)
  {
    MergedPartsAreSelf(key, startAt, endAt, c, out);
    FixedPoint(key, out, r.value);
  }

  lemma FixedPoint(key: StreamKey, out: seq<Segment>, again: seq<Segment>)
    requires Canonical(out) && Counted(key, out) && IsMerged(out, again) && Counted(key, again)
    ensures again == out
  {
    CanonicalUnique(out, again);
    forall i | 0 <= i < |out| ensures again[i] == out[i] {
      SelfDescribed(key, out, again, i);
    }
  }

  lemma MergedPartsAreSelf(key: StreamKey, startAt: int, endAt: int, c: seq<Segment>, out: seq<Segment>)
    requires IsMergeResult(key, startAt, endAt, c, Ok(out))
    ensures Parts(key, startAt, endAt, out) == out && PartsCount(key, startAt, endAt, out)
  {
    forall s | s in out ensures PartsOf(key, startAt, endAt, s) == [s] {
      MergedInRange(key, startAt, endAt, c, out, s);
      assert Clip(s, startAt, endAt) == s;
      SplitOfOneYear(s);
    }
    PartsOfSelf(key, startAt, endAt, out);
  }

  lemma MergedInRange(key: StreamKey, startAt: int, endAt: int, c: seq<Segment>, out: seq<Segment>, s: Segment)
    requires IsMergeResult(key, startAt, endAt, c, Ok(out)) && s in out
    ensures s.key == key && InOneYear(s) && startAt <= s.startAt < s.endAt <= endAt
  {
    assert Spans(s, s.startAt) && Spans(s, s.endAt - 1);
    MergeCoversExactly(key, startAt, endAt, c, out, s.startAt);
    MergeCoversExactly(key, startAt, endAt, c, out, s.endAt - 1);
  }

  lemma {:induction false} PartsOfSelf(key: StreamKey, startAt: int, endAt: int, out: seq<Segment>)
    requires forall s :: s in out ==> PartsOf(key, startAt, endAt, s) == [s]
    ensures Parts(key, startAt, endAt, out) == out
  {
    if out != [] {
      var front, last := out[..|out| - 1], out[|out| - 1];
      assert out == front + [last];
      forall s | s in front ensures PartsOf(key, startAt, endAt, s) == [s] {
        assert s in out;
      }
      PartsOfSelf(key, startAt, endAt, front);
      assert last in out;
      assert Parts(key, startAt, endAt, out) == front + PartsOf(key, startAt, endAt, last);
    }
  }

  lemma SelfDescribed(key: StreamKey, out: seq<Segment>, again: seq<Segment>, i: nat)
    requires Canonical(out) && IsMerged(out, again) && Counted(key, out) && Counted(key, again)
    requires |again| == |out| && i < |out| && SameRange(again[i], out[i])
    ensures again[i] == out[i]
  {
    var o := again[i];
    assert Describes(o, out) && o in again && out[i] in out;
    forall p | p in out && (Within(p, o) || p.startAt == o.startAt) ensures p == out[i] {
      var j :| 0 <= j < |out| && out[j] == p;
      OnlyPiece(out, i, j, p.startAt);
    }
    assert Within(out[i], o);
    assert BoundsSources(out[i].source, out, o);
    SourceOrder(o.source, out[i].source, o.source);
  }

  // ---- When it succeeds ---------------------------------------------------------------

  /** Every same-key segment in view, once clipped, is cut only on the interval grid. */
  ghost predicate IndexOnGrid(key: StreamKey, startAt: int, endAt: int, covered: seq<Segment>, d: int) {
    forall seg :: seg in covered && seg.key == key && seg.startAt < seg.endAt && Overlaps(seg, startAt, endAt)
                  ==> CutsAligned(Clip(seg, startAt, endAt), d)
  }

  lemma PartsCountIffOnGrid(key: StreamKey, startAt: int, endAt: int, covered: seq<Segment>, d: int)
    requires startAt < endAt && IntervalDuration(key.interval) == Ok(d)
    ensures PartsCount(key, startAt, endAt, covered) <==> IndexOnGrid(key, startAt, endAt, covered, d)
  {
    if PartsCount(key, startAt, endAt, covered) {
      forall seg | seg in covered && seg.key == key && seg.startAt < seg.endAt && Overlaps(seg, startAt, endAt)
        ensures CutsAligned(Clip(seg, startAt, endAt), d)
      {
        forall p | p in SplitByYear(Clip(seg, startAt, endAt)) ensures EndsAligned(p, d) {
          PartsMembers(key, startAt, endAt, covered, p);
        }
        SplitAligned(Clip(seg, startAt, endAt), d);
      }
    }
    if IndexOnGrid(key, startAt, endAt, covered, d) {
      forall p | p in Parts(key, startAt, endAt, covered)
        ensures ExpectedCount(p.startAt, p.endAt, key.interval).Ok?
      {
        PartsMembers(key, startAt, endAt, covered, p);
        var seg :| seg in covered && p in PartsOf(key, startAt, endAt, seg);
        PieceIsWellFormed(Clip(seg, startAt, endAt), p);
        SplitAligned(Clip(seg, startAt, endAt), d);
      }
    }
  }

  /** With a usable interval, merging succeeds exactly when every cut in view is on the grid. */
  lemma MergeSucceedsIff(key: StreamKey, startAt: int, endAt: int, covered: seq<Segment>, d: int, r: Coverage)
    requires IntervalDuration(key.interval) == Ok(d) && IsMergeResult(key, startAt, endAt, covered, r)
    ensures r.Ok? <==> startAt < endAt && IndexOnGrid(key, startAt, endAt, covered, d)
  {
    if startAt < endAt {
      PartsCountIffOnGrid(key, startAt, endAt, covered, d);
    }
  }

  /** Every same-key segment of the index has its ends on the grid. */
  ghost predicate IndexAligned(key: StreamKey, covered: seq<Segment>, d: int) {
    forall seg :: seg in covered && seg.key == key ==> EndsAligned(seg, d)
  }

  /** For an interval that tiles a day, aligned queries over aligned segments always merge. */
  lemma DayDivisorMergeSucceeds(
    key: StreamKey, startAt: int, endAt: int, covered: seq<Segment>, d: int, r: Coverage)
    requires IntervalDuration(key.interval) == Ok(d) && DAY % d == 0
    requires startAt < endAt && IsAligned(startAt, d) && IsAligned(endAt, d) && IndexAligned(key, covered, d)
    requires IsMergeResult(key, startAt, endAt, covered, r)
    ensures r.Ok?
  {
    forall seg | seg in covered && seg.key == key && seg.startAt < seg.endAt && Overlaps(seg, startAt, endAt)
      ensures CutsAligned(Clip(seg, startAt, endAt), d)
    {
      DayDivisorAlignsCuts(Clip(seg, startAt, endAt), d);
    }
    MergeSucceedsIff(key, startAt, endAt, covered, d, r);
  }

  /**
   * Tiling the day is needed: three-day slots are knocked off their grid by the first of
   * January 1971, so an aligned segment across it cannot be merged.
   */
  lemma ThreeDayMergeFails(key: StreamKey, seg: Segment, r: Coverage)
    requires key.interval == "3d" && seg.key == key
    requires seg.startAt == 363 * DAY && seg.endAt == 366 * DAY
    requires IsMergeResult(key, seg.startAt, seg.endAt, [seg], r)
    ensures ExpectedCount(seg.startAt, seg.endAt, "3d") == Ok(1)
    ensures r == Err(Misaligned)
  {
    OneDigitInterval('3', 'd');
    assert "3d" == ['3', 'd'];
    var d := 3 * DAY;
    DivUnique(363 * DAY, 121, 0, d);
    DivUnique(366 * DAY, 122, 0, d);
    DivUnique(365 * DAY, 121, 2 * DAY, d);
    assert EpochDay(1971) == 365;
    assert Clip(seg, seg.startAt, seg.endAt) == seg;
    assert !CutsAligned(seg, d) by {
      assert seg.startAt < YearStart(1971) < seg.endAt;
    }
    MergeSucceedsIff(key, seg.startAt, seg.endAt, [seg], d, r);
  }
}
