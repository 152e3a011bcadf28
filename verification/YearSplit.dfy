/** Cutting a segment at UTC year boundaries. */
module YearSplit {
  import opened Calendar
  import opened Intervals
  import opened Segments

  /** The part of `seg` that falls in year `y`. */
  function YearPiece(seg: Segment, y: int): Segment {
    seg.(year := y, startAt := Max(seg.startAt, YearStart(y)), endAt := Min(seg.endAt, YearStart(y + 1)))
  }

  /** How many UTC years `seg` touches. */
  function YearCount(seg: Segment): nat {
    if seg.endAt <= seg.startAt then 0
    else
      YearOfMonotone(seg.startAt, seg.endAt - 1);
      YearOf(seg.endAt - 1) - YearOf(seg.startAt) + 1
  }

  /** One piece for each year the segment touches, in order. */
  function SplitByYear(seg: Segment): seq<Segment> {
    seq(YearCount(seg), i => YearPiece(seg, YearOf(seg.startAt) + i))
  }

  /** Every piece lies in its own year, and its ends are ends of the segment or year starts. */
  lemma SplitPiece(seg: Segment, i: nat)
    requires i < YearCount(seg)
    ensures InOneYear(SplitByYear(seg)[i])
    ensures SplitByYear(seg)[i] == YearPiece(seg, YearOf(seg.startAt) + i)
    ensures i > 0 ==> SplitByYear(seg)[i].startAt == YearStart(YearOf(seg.startAt) + i)
    ensures i + 1 < YearCount(seg) ==> SplitByYear(seg)[i].endAt == YearStart(YearOf(seg.startAt) + i + 1) < seg.endAt
    ensures i == 0 ==> SplitByYear(seg)[i].startAt == seg.startAt
    ensures i + 1 == YearCount(seg) ==> SplitByYear(seg)[i].endAt == seg.endAt
  {
    var y := YearOf(seg.startAt) + i;
    YearInside(seg, y);
    YearOfUnique(YearPiece(seg, y).startAt, y);
  }

  /** Where the years a segment touches begin and end, relative to it. */
  lemma YearInside(seg: Segment, y: int)
    requires seg.startAt < seg.endAt && YearOf(seg.startAt) <= y <= YearOf(seg.endAt - 1)
    ensures YearStart(y) < YearStart(y + 1)
    ensures YearStart(y) < seg.endAt && seg.startAt < YearStart(y + 1)
    ensures y > YearOf(seg.startAt) ==> seg.startAt < YearStart(y)
    ensures y < YearOf(seg.endAt - 1) ==> YearStart(y + 1) < seg.endAt
  {
    var first, last := YearOf(seg.startAt), YearOf(seg.endAt - 1);
    YearStartStep(y);
    if first + 1 < y { YearStartMonotone(first + 1, y); }
    if y < last { YearStartMonotone(y, last); }
    if y + 1 < last { YearStartMonotone(y + 1, last); }
  }

  /** Where the sweep stands after `i` pieces, and where the next one takes it. */
  lemma SweepStep(seg: Segment, i: nat)
    requires i < YearCount(seg)
    ensures var p := SplitByYear(seg)[i];
            && seg.startAt <= p.startAt < seg.endAt
            && p == seg.(year := YearOf(p.startAt), endAt := Min(seg.endAt, YearStart(YearOf(p.startAt) + 1)),
                         startAt := p.startAt)
            && (if i + 1 < YearCount(seg) then p.endAt == SplitByYear(seg)[i + 1].startAt < seg.endAt
                else p.endAt == seg.endAt)
  {
    SplitPiece(seg, i);
    if i + 1 < YearCount(seg) {
      SplitPiece(seg, i + 1);
    }
  }

  method SplitCoverageSegmentByYear(seg: Segment) returns (out: seq<Segment>)
    ensures out == SplitByYear(seg)
  {
    if seg.endAt <= seg.startAt {
      return [];
    }
    out := [];
    var cursor := seg.startAt;
    SplitPiece(seg, 0);
    ghost var n := YearCount(seg);
    while cursor < seg.endAt
      invariant |out| <= n && out == SplitByYear(seg)[..|out|]
      invariant |out| < n ==> cursor == SplitByYear(seg)[|out|].startAt < seg.endAt
      invariant |out| == n ==> cursor == seg.endAt
      decreases seg.endAt - cursor
    {
      SweepStep(seg, |out|);
      var partEnd := Min(seg.endAt, YearStart(YearOf(cursor) + 1));
      var part := seg.(startAt := cursor, endAt := partEnd, year := YearOf(cursor));
      out := out + [part];
      cursor := partEnd;
    }
  }

  lemma SplitIsCanonical(seg: Segment)
    ensures Canonical(SplitByYear(seg))
  {
    var out := SplitByYear(seg);
    forall i | 0 <= i < |out| ensures InOneYear(out[i]) {
      SplitPiece(seg, i);
    }
    forall i, j | 0 <= i < j < |out| ensures Precedes(out[i], out[j]) {
      SplitPiece(seg, i);
      SplitPiece(seg, j);
      var first := YearOf(seg.startAt);
      if i + 1 < j { YearStartMonotone(first + i + 1, first + j); }
    }
  }

  /** The year pieces partition the segment. */
  lemma SplitCovers(seg: Segment, t: int)
    ensures Covers(SplitByYear(seg), t) <==> Spans(seg, t)
  {
    var out := SplitByYear(seg);
    if Covers(out, t) {
      var j := PieceAt(out, t);
      SplitPiece(seg, j);
    }
    if Spans(seg, t) {
      YearOfMonotone(seg.startAt, t);
      YearOfMonotone(t, seg.endAt - 1);
      var i := YearOf(t) - YearOf(seg.startAt);
      assert out[i] == YearPiece(seg, YearOf(t));
      assert Spans(out[i], t);
    }
  }

  /** A segment already inside one year, and labelled with it, is left alone. */
  lemma SplitOfOneYear(seg: Segment)
    requires InOneYear(seg)
    ensures SplitByYear(seg) == [seg]
  {
    YearOfMonotone(seg.startAt, seg.endAt - 1);
    YearOfUnique(seg.endAt - 1, seg.year);
    SplitPiece(seg, 0);
    assert SplitByYear(seg)[0] == seg;
  }

  /** `seg` and every year start strictly inside it sit on the interval grid. */
  ghost predicate CutsAligned(seg: Segment, d: int) {
    && IsAligned(seg.startAt, d)
    && IsAligned(seg.endAt, d)
    && forall y :: seg.startAt < YearStart(y) < seg.endAt ==> IsAligned(YearStart(y), d)
  }

  predicate EndsAligned(s: Segment, d: int) {
    IsAligned(s.startAt, d) && IsAligned(s.endAt, d)
  }

  /** The pieces are all on the grid exactly when the segment and its year cuts are. */
  lemma SplitAligned(seg: Segment, d: int)
    requires seg.startAt < seg.endAt
    ensures (forall p :: p in SplitByYear(seg) ==> EndsAligned(p, d)) <==> CutsAligned(seg, d)
  {
    var out := SplitByYear(seg);
    YearOfMonotone(seg.startAt, seg.endAt - 1);
    if forall p :: p in out ==> EndsAligned(p, d) {
      SplitPiece(seg, 0);
      SplitPiece(seg, |out| - 1);
      assert EndsAligned(out[0], d) && EndsAligned(out[|out| - 1], d);
      forall y | seg.startAt < YearStart(y) < seg.endAt ensures IsAligned(YearStart(y), d) {
        var i := InnerYearIsCut(seg, y);
        assert EndsAligned(out[i], d);
      }
    }
    if CutsAligned(seg, d) {
      forall p | p in out ensures EndsAligned(p, d) {
        var i :| 0 <= i < |out| && out[i] == p;
        PieceAligned(seg, d, i);
      }
    }
  }

  lemma InnerYearIsCut(seg: Segment, y: int) returns (i: nat)
    requires seg.startAt < YearStart(y) < seg.endAt
    ensures i < YearCount(seg) && SplitByYear(seg)[i].startAt == YearStart(y)
  {
    YearStartStep(y);
    YearOfUnique(YearStart(y), y);
    YearOfMonotone(seg.startAt, YearStart(y));
    YearOfMonotone(YearStart(y), seg.endAt - 1);
    i := y - YearOf(seg.startAt);
    SplitPiece(seg, i);
  }

  lemma PieceAligned(seg: Segment, d: int, i: nat)
    requires seg.startAt < seg.endAt && CutsAligned(seg, d) && i < YearCount(seg)
    ensures EndsAligned(SplitByYear(seg)[i], d)
  {
    SplitPiece(seg, i);
    var y := YearOf(seg.startAt) + i;
    if i > 0 {
      YearOfMonotone(seg.startAt, YearStart(y));
      if y == YearOf(seg.startAt) + 1 {} else { YearStartMonotone(YearOf(seg.startAt) + 1, y); }
      assert IsAligned(YearStart(y), d);
    }
    if i + 1 < YearCount(seg) {
      YearStartStep(y);
      assert IsAligned(YearStart(y + 1), d);
    }
  }

  /** Intervals that tile a day tile every year, so year cuts never leave their grid. */
  lemma DayDivisorAlignsCuts(seg: Segment, d: int)
    requires d > 0 && DAY % d == 0
    ensures CutsAligned(seg, d) <==> EndsAligned(seg, d)
  {
    forall y ensures IsAligned(YearStart(y), d) {
      YearStartIsWholeDays(y);
      DivisorOfDay(YearStart(y), d);
    }
  }
}
