/** What the label, the time and the identity of an answer's piece say about the index and raw storage. */
module ProvenanceLaws {
  import opened Wrappers
  import opened Calendar
  import opened Intervals
  import opened Segments
  import opened Sources
  import opened YearSplit
  import opened Merging
  import opened MergeLaws
  import opened Gaps
  import opened Paging
  import opened FallbackLaws
  import F = Fallback

  /** The two segments share an instant. */
  predicate Meets(a: Segment, b: Segment) {
    Max(a.startAt, b.startAt) < Min(a.endAt, b.endAt)
  }

  /** `seg` is a segment of the stream that shares an instant with `o`. */
  predicate Feeds(key: StreamKey, covered: seq<Segment>, seg: Segment, o: Segment) {
    seg in covered && seg.key == key && Meets(seg, o)
  }

  /** Cutting changes nothing of a segment but its year and its ends. */
  lemma PieceKeepsRest(seg: Segment, p: Segment)
    requires p in SplitByYear(seg)
    ensures p == seg.(year := p.year, startAt := p.startAt, endAt := p.endAt)
    ensures seg.startAt <= p.startAt < p.endAt == Min(seg.endAt, YearStart(p.year + 1))
  {
    var i :| 0 <= i < YearCount(seg) && SplitByYear(seg)[i] == p;
    SplitPiece(seg, i);
  }

  /** `p` is the part of `seg` that falls in one UTC year of the query. */
  predicate ComesFrom(p: Segment, seg: Segment, endAt: int) {
    && p.source == seg.source && p.updatedAt == seg.updatedAt && p.segmentId == seg.segmentId
    && seg.startAt <= p.startAt < p.endAt == Min(Min(seg.endAt, endAt), YearStart(p.year + 1))
  }

  lemma PartComesFrom(key: StreamKey, startAt: int, endAt: int, seg: Segment, p: Segment)
    requires p in PartsOf(key, startAt, endAt, seg)
    ensures ComesFrom(p, seg, endAt) && seg.key == key
  {
    PieceKeepsRest(Clip(seg, startAt, endAt), p);
  }

  /** The part of a same-key segment that holds an instant of the query. */
  lemma PartAt(key: StreamKey, startAt: int, endAt: int, c: seq<Segment>, seg: Segment, t: int)
    returns (p: Segment)
    requires seg in c && seg.key == key && Spans(seg, t) && startAt <= t < endAt
    ensures p in Parts(key, startAt, endAt, c) && Spans(p, t) && ComesFrom(p, seg, endAt)
  {
    hide Parts, SplitByYear, ComesFrom;
    SplitCovers(Clip(seg, startAt, endAt), t);
    p :| p in SplitByYear(Clip(seg, startAt, endAt)) && Spans(p, t);
    PartComesFrom(key, startAt, endAt, seg, p);
    PartsMembers(key, startAt, endAt, c, p);
  }

  /** A part that shares an instant with a piece lies inside it. */
  lemma PartInside(
    key: StreamKey, startAt: int, endAt: int, c: seq<Segment>, out: seq<Segment>, p: Segment, o: Segment, t: int)
    requires IsMergeResult(key, startAt, endAt, c, Ok(out)) && o in out
    requires p in Parts(key, startAt, endAt, c) && Spans(p, t) && Spans(o, t)
    ensures Within(p, o)
  {
    hide Parts, Describes, SameCover, Counted, PartsCount;
    assert Located(p, out);
    var i :| 0 <= i < |out| && Within(p, out[i]);
    var j :| 0 <= j < |out| && out[j] == o;
    OnlyPiece(out, i, j, t);
  }

  /** What a segment of the index contributes at an instant lies inside the piece that holds the instant. */
  lemma PartInPiece(
    key: StreamKey, startAt: int, endAt: int, c: seq<Segment>, out: seq<Segment>, o: Segment, seg: Segment, t: int)
    returns (p: Segment)
    requires IsMergeResult(key, startAt, endAt, c, Ok(out)) && o in out
    requires seg in c && seg.key == key && Spans(seg, t) && Spans(o, t)
    ensures p in Parts(key, startAt, endAt, c) && Within(p, o) && Spans(p, t) && ComesFrom(p, seg, endAt)
  {
    hide IsMergeResult, Parts, ComesFrom;
    MergedInRange(key, startAt, endAt, c, out, o);
    p := PartAt(key, startAt, endAt, c, seg, t);
    PartInside(key, startAt, endAt, c, out, p, o, t);
  }

  /** A part inside a piece comes from a segment that shares an instant with the piece. */
  lemma PartIsFed(key: StreamKey, startAt: int, endAt: int, c: seq<Segment>, o: Segment, p: Segment)
    returns (seg: Segment)
    requires p in Parts(key, startAt, endAt, c) && Within(p, o)
    ensures Feeds(key, c, seg, o) && Spans(seg, p.startAt) && ComesFrom(p, seg, endAt)
  {
    hide Parts, SplitByYear;
    PartsMembers(key, startAt, endAt, c, p);
    seg :| seg in c && p in PartsOf(key, startAt, endAt, seg);
    PartComesFrom(key, startAt, endAt, seg, p);
  }

  lemma MergedDescribes(key: StreamKey, startAt: int, endAt: int, c: seq<Segment>, out: seq<Segment>, o: Segment)
    requires IsMergeResult(key, startAt, endAt, c, Ok(out)) && o in out
    ensures Describes(o, Parts(key, startAt, endAt, c))
  {
  }

  /** What is inside a piece at one of its instants is not older, nor labelled higher. */
  lemma MergedDominates(
    key: StreamKey, startAt: int, endAt: int, c: seq<Segment>, out: seq<Segment>, o: Segment, seg: Segment, t: int)
    requires IsMergeResult(key, startAt, endAt, c, Ok(out)) && o in out
    requires seg in c && seg.key == key && Spans(seg, t) && Spans(o, t)
    ensures SourceLeq(seg.source, o.source) && seg.updatedAt <= o.updatedAt
  {
    hide IsMergeResult, Parts;
    var p := PartInPiece(key, startAt, endAt, c, out, o, seg, t);
    MergedDescribes(key, startAt, endAt, c, out, o);
  }

  /** The label of a piece is the least upper bound of the labels of the segments it was merged from. */
  lemma MergedLabel(
    key: StreamKey, startAt: int, endAt: int, c: seq<Segment>, out: seq<Segment>, o: Segment, u: string)
    requires IsMergeResult(key, startAt, endAt, c, Ok(out)) && o in out
    ensures SourceLeq(o.source, u) <==> forall seg :: Feeds(key, c, seg, o) ==> SourceLeq(seg.source, u)
  {
    hide IsMergeResult, Parts;
    var parts := Parts(key, startAt, endAt, c);
    MergedDescribes(key, startAt, endAt, c, out, o);
    if SourceLeq(o.source, u) {
      forall seg | Feeds(key, c, seg, o) ensures SourceLeq(seg.source, u) {
        MergedDominates(key, startAt, endAt, c, out, o, seg, Max(seg.startAt, o.startAt));
        SourceOrder(seg.source, o.source, u);
      }
    }
    if forall seg :: Feeds(key, c, seg, o) ==> SourceLeq(seg.source, u) {
      forall p | p in parts && Within(p, o) ensures SourceLeq(p.source, u) {
        var seg := PartIsFed(key, startAt, endAt, c, o, p);
      }
      assert BoundsSources(u, parts, o);
    }
  }

  /** Its time is the latest of theirs. */
  lemma MergedTime(key: StreamKey, startAt: int, endAt: int, c: seq<Segment>, out: seq<Segment>, o: Segment)
    returns (latest: Segment)
    requires IsMergeResult(key, startAt, endAt, c, Ok(out)) && o in out
    ensures Feeds(key, c, latest, o) && latest.updatedAt == o.updatedAt
    ensures forall seg :: Feeds(key, c, seg, o) ==> seg.updatedAt <= o.updatedAt
  {
    hide IsMergeResult, Parts;
    var parts := Parts(key, startAt, endAt, c);
    MergedDescribes(key, startAt, endAt, c, out, o);
    var p :| p in parts && Within(p, o) && p.updatedAt == o.updatedAt;
    latest := PartIsFed(key, startAt, endAt, c, o, p);
    forall seg | Feeds(key, c, seg, o) ensures seg.updatedAt <= o.updatedAt {
      MergedDominates(key, startAt, endAt, c, out, o, seg, Max(seg.startAt, o.startAt));
    }
  }

  /** Its identity is that of a segment over its first instant, of those the one that ends first inside it. */
  lemma MergedIdentity(key: StreamKey, startAt: int, endAt: int, c: seq<Segment>, out: seq<Segment>, o: Segment)
    returns (first: Segment)
    requires IsMergeResult(key, startAt, endAt, c, Ok(out)) && o in out
    ensures Feeds(key, c, first, o) && Spans(first, o.startAt) && first.segmentId == o.segmentId
    ensures forall seg :: Feeds(key, c, seg, o) && Spans(seg, o.startAt) ==>
                            Min(first.endAt, o.endAt) <= Min(seg.endAt, o.endAt)
  {
    hide IsMergeResult, Parts;
    var parts := Parts(key, startAt, endAt, c);
    MergedInRange(key, startAt, endAt, c, out, o);
    var p := FirstPart(key, startAt, endAt, c, out, o);
    first := PartIsFed(key, startAt, endAt, c, o, p);
    forall seg | Feeds(key, c, seg, o) && Spans(seg, o.startAt)
      ensures Min(first.endAt, o.endAt) <= Min(seg.endAt, o.endAt)
    {
      var q := PartInPiece(key, startAt, endAt, c, out, o, seg, o.startAt);
      EndsInside(p, first, q, seg, endAt, o);
    }
  }

  lemma EndsInside(p: Segment, first: Segment, q: Segment, seg: Segment, endAt: int, o: Segment)
    requires ComesFrom(p, first, endAt) && ComesFrom(q, seg, endAt) && Within(p, o) && Within(q, o)
    requires InOneYear(o) && o.endAt <= endAt && p.endAt <= q.endAt
    ensures Min(first.endAt, o.endAt) <= Min(seg.endAt, o.endAt)
  {
  }

  lemma FirstPart(key: StreamKey, startAt: int, endAt: int, c: seq<Segment>, out: seq<Segment>, o: Segment)
    returns (p: Segment)
    requires IsMergeResult(key, startAt, endAt, c, Ok(out)) && o in out
    ensures p in Parts(key, startAt, endAt, c) && Within(p, o)
    ensures p.startAt == o.startAt && p.segmentId == o.segmentId
    ensures forall q :: q in Parts(key, startAt, endAt, c) && q.startAt == o.startAt ==> p.endAt <= q.endAt
  {
    hide IsMergeResult, Parts, Summarises;
    MergedDescribes(key, startAt, endAt, c, out, o);
    MergedInRange(key, startAt, endAt, c, out, o);
    PartsAreWellFormed(key, startAt, endAt, c);
    var parts := Parts(key, startAt, endAt, c);
    p :| p in parts && p.startAt == o.startAt && p.segmentId == o.segmentId
         && forall q :: q in parts && q.startAt == o.startAt ==> p.endAt <= q.endAt;
    PartInside(key, startAt, endAt, c, out, p, o, o.startAt);
  }

  // ---- After the repair -----------------------------------------------------------------

  /** Some slot fetched inside a gap of the index shares an instant with `o`. */
  ghost predicate FedFromRaw(
    fetch: KlineQuerier, key: StreamKey, startAt: int, endAt: int, indexed: seq<Segment>, step: int, o: Segment)
  {
    exists t :: Spans(o, t) && RawCovers(fetch, key, startAt, endAt, Parts(key, startAt, endAt, indexed), step, t)
  }

  ghost predicate BoundsFeeds(u: string, key: StreamKey, covered: seq<Segment>, o: Segment) {
    forall seg :: Feeds(key, covered, seg, o) ==> SourceLeq(seg.source, u)
  }

  lemma FeedsConcat(key: StreamKey, a: seq<Segment>, b: seq<Segment>, o: Segment, u: string)
    ensures BoundsFeeds(u, key, a + b, o) <==> BoundsFeeds(u, key, a, o) && BoundsFeeds(u, key, b, o)
  {
    forall seg ensures Feeds(key, a + b, seg, o) <==> Feeds(key, a, seg, o) || Feeds(key, b, seg, o) {
    }
  }

  /** A merged piece that meets a piece of a later merge lies inside it. */
  lemma MergedPieceInside(
    key: StreamKey, startAt: int, endAt: int, all: seq<Segment>, out: seq<Segment>, s: Segment, o: Segment)
    requires IsMergeResult(key, startAt, endAt, all, Ok(out)) && o in out && s in all
    requires s.key == key && InOneYear(s) && startAt <= s.startAt && s.endAt <= endAt && Meets(s, o)
    ensures Within(s, o)
  {
    hide IsMergeResult, Parts;
    var t := Max(s.startAt, o.startAt);
    assert Clip(s, startAt, endAt) == s;
    SplitOfOneYear(s);
    assert s in PartsOf(key, startAt, endAt, s);
    PartsMembers(key, startAt, endAt, all, s);
    PartInside(key, startAt, endAt, all, out, s, o, t);
  }

  /** Merging twice loses no label and adds none. */
  lemma MergedTwice(
    key: StreamKey, startAt: int, endAt: int, indexed: seq<Segment>, merged: seq<Segment>, all: seq<Segment>,
    out: seq<Segment>, o: Segment, u: string)
    requires IsMergeResult(key, startAt, endAt, indexed, Ok(merged)) && (forall s :: s in merged ==> s in all)
    requires IsMergeResult(key, startAt, endAt, all, Ok(out)) && o in out
    ensures BoundsFeeds(u, key, merged, o) <==> BoundsFeeds(u, key, indexed, o)
  {
    hide IsMergeResult, Parts, InOneYear;
    MergedInRange(key, startAt, endAt, all, out, o);
    if BoundsFeeds(u, key, merged, o) {
      forall seg | Feeds(key, indexed, seg, o) ensures SourceLeq(seg.source, u) {
        var t := Max(seg.startAt, o.startAt);
        MergeCoversExactly(key, startAt, endAt, indexed, merged, t);
        var s :| s in merged && Spans(s, t);
        MergedInRange(key, startAt, endAt, indexed, merged, s);
        MergedDominates(key, startAt, endAt, indexed, merged, s, seg, t);
        assert Feeds(key, merged, s, o);
        SourceOrder(seg.source, s.source, u);
      }
    }
    if BoundsFeeds(u, key, indexed, o) {
      forall s | Feeds(key, merged, s, o) ensures SourceLeq(s.source, u) {
        MergedInRange(key, startAt, endAt, indexed, merged, s);
        MergedPieceInside(key, startAt, endAt, all, out, s, o);
        forall seg | Feeds(key, indexed, seg, s) ensures SourceLeq(seg.source, u) {
          assert Feeds(key, indexed, seg, o);
        }
        MergedLabel(key, startAt, endAt, indexed, merged, s, u);
      }
    }
  }

  /** What is rebuilt from raw storage is labelled so. */
  lemma FillLabels(
    fetch: KlineQuerier, key: StreamKey, gaps: seq<TimeRange>, clock: int -> int, fills: seq<seq<Segment>>, s: Segment)
    requires F.AreFills(fetch, key, gaps, clock, fills) && s in F.Concat(fills)
    ensures s.source == "raw_storage"
  {
    ConcatMembers(fills, s);
    var i :| 0 <= i < |fills| && s in fills[i];
    assert F.IsGapFill(fetch, key, gaps[i], clock, Ok(fills[i]));
  }

  lemma FillFeeds(
    fetch: KlineQuerier, key: StreamKey, startAt: int, endAt: int, covered: seq<Segment>, gaps: seq<TimeRange>,
    clock: int -> int, fills: seq<seq<Segment>>, step: int, o: Segment, u: string)
    requires IntervalDuration(key.interval) == Ok(step) && GapsAligned(gaps, step)
    requires IsComplement(startAt, endAt, covered, gaps) && F.AreFills(fetch, key, gaps, clock, fills)
    ensures BoundsFeeds(u, key, F.Concat(fills), o)
            <==> ((exists t :: Spans(o, t) && RawCovers(fetch, key, startAt, endAt, covered, step, t))
                  ==> SourceLeq("raw_storage", u))
  {
    hide IsComplement, F.AreFills, RawCovers;
    if BoundsFeeds(u, key, F.Concat(fills), o) {
      forall t | Spans(o, t) && RawCovers(fetch, key, startAt, endAt, covered, step, t)
        ensures SourceLeq("raw_storage", u)
      {
        ListedIffGap(fetch, key, startAt, endAt, covered, gaps, step, t);
        FillsCover(fetch, key, gaps, clock, fills, step, t);
        var s :| s in F.Concat(fills) && Spans(s, t);
        FillLabels(fetch, key, gaps, clock, fills, s);
        assert Feeds(key, F.Concat(fills), s, o);
      }
    }
    forall s | Feeds(key, F.Concat(fills), s, o)
      ensures s.source == "raw_storage"
      ensures exists t :: Spans(o, t) && RawCovers(fetch, key, startAt, endAt, covered, step, t)
    {
      var t := Max(s.startAt, o.startAt);
      FillLabels(fetch, key, gaps, clock, fills, s);
      assert Spans(s, t) && Spans(o, t);
      FillsCover(fetch, key, gaps, clock, fills, step, t);
      ListedIffGap(fetch, key, startAt, endAt, covered, gaps, step, t);
    }
  }

  /**
   * The label of a repaired piece is the least upper bound of the labels of the index segments that
   * meet it and, if a row was fetched for any part of it, of "raw_storage".
   */
  lemma RepairedLabel(
    fetch: KlineQuerier, key: StreamKey, startAt: int, endAt: int, indexed: seq<Segment>, clock: int -> int,
    out: seq<Segment>, step: int, o: Segment, u: string)
    requires IntervalDuration(key.interval) == Ok(step)
    requires F.IsFallback(Some(fetch), key, startAt, endAt, indexed, clock, Ok(out)) && o in out
    ensures SourceLeq(o.source, u)
            <==>
            && (forall seg :: Feeds(key, indexed, seg, o) ==> SourceLeq(seg.source, u))
            && (FedFromRaw(fetch, key, startAt, endAt, indexed, step, o) ==> SourceLeq("raw_storage", u))
  {
    hide F.IsFallback, F.AreFills, IsMergeResult, RawCovers, Parts, IsComplement;
    var merged, gaps := FallbackStages(fetch, key, startAt, endAt, indexed, clock, out);
    forall t ensures RawCovers(fetch, key, startAt, endAt, merged, step, t)
                     <==> RawCovers(fetch, key, startAt, endAt, Parts(key, startAt, endAt, indexed), step, t)
    {
      SameCoverSameRaw(fetch, key, startAt, endAt, merged, Parts(key, startAt, endAt, indexed), step, t);
    }
    if gaps == [] && out == merged {
      forall t ensures !RawCovers(fetch, key, startAt, endAt, merged, step, t) {
        ListedIffGap(fetch, key, startAt, endAt, merged, gaps, step, t);
      }
      MergedLabel(key, startAt, endAt, indexed, out, o, u);
    } else {
      var fills :| F.AreFills(fetch, key, gaps, clock, fills)
                   && IsMergeResult(key, startAt, endAt, merged + F.Concat(fills), Ok(out));
      var all := merged + F.Concat(fills);
      CountedGapsAligned(key.interval, gaps, step);
      MergedLabel(key, startAt, endAt, all, out, o, u);
      FeedsConcat(key, merged, F.Concat(fills), o, u);
      MergedTwice(key, startAt, endAt, indexed, merged, all, out, o, u);
      FillFeeds(fetch, key, startAt, endAt, merged, gaps, clock, fills, step, o, u);
    }
  }
}
