/** Merging indexed coverage into its canonical form for one query. */
module Merging {
  import opened Wrappers
  import opened Calendar
  import opened Intervals
  import opened Segments
  import opened Sorting
  import opened Sources
  import opened YearSplit

  // ---- What a query sees of the index -------------------------------------------------

  predicate Overlaps(seg: Segment, startAt: int, endAt: int) {
    seg.endAt > startAt && seg.startAt < endAt
  }

  function Clip(seg: Segment, startAt: int, endAt: int): Segment {
    seg.(startAt := Max(seg.startAt, startAt), endAt := Min(seg.endAt, endAt))
  }

  /** The single-year parts of one indexed segment that matter to the query. */
  function PartsOf(key: StreamKey, startAt: int, endAt: int, seg: Segment): seq<Segment> {
    if seg.key == key && Overlaps(seg, startAt, endAt) then SplitByYear(Clip(seg, startAt, endAt)) else []
  }

  function Parts(key: StreamKey, startAt: int, endAt: int, covered: seq<Segment>): seq<Segment> {
    if covered == [] then []
    else
      Parts(key, startAt, endAt, covered[..|covered| - 1])
      + PartsOf(key, startAt, endAt, covered[|covered| - 1])
  }

  lemma {:induction false} PartsMembers(key: StreamKey, startAt: int, endAt: int, covered: seq<Segment>, p: Segment)
    ensures p in Parts(key, startAt, endAt, covered)
            <==> exists seg :: seg in covered && p in PartsOf(key, startAt, endAt, seg)
  {
    if covered != [] {
      var front, last := covered[..|covered| - 1], covered[|covered| - 1];
      assert covered == front + [last];
      PartsMembers(key, startAt, endAt, front, p);
    }
  }

  /** Some same-key segment of the index covers `t`, and `t` is inside the query. */
  ghost predicate IndexCovers(key: StreamKey, startAt: int, endAt: int, covered: seq<Segment>, t: int) {
    startAt <= t < endAt && exists seg :: seg in covered && seg.key == key && Spans(seg, t)
  }

  lemma PartsCover(key: StreamKey, startAt: int, endAt: int, covered: seq<Segment>, t: int)
    ensures Covers(Parts(key, startAt, endAt, covered), t) <==> IndexCovers(key, startAt, endAt, covered, t)
  {
    var parts := Parts(key, startAt, endAt, covered);
    if Covers(parts, t) {
      var p :| p in parts && Spans(p, t);
      PartsMembers(key, startAt, endAt, covered, p);
      var seg :| seg in covered && p in PartsOf(key, startAt, endAt, seg);
      SplitCovers(Clip(seg, startAt, endAt), t);
    }
    if IndexCovers(key, startAt, endAt, covered, t) {
      var seg :| seg in covered && seg.key == key && Spans(seg, t);
      SplitCovers(Clip(seg, startAt, endAt), t);
      var p :| p in PartsOf(key, startAt, endAt, seg) && Spans(p, t);
      PartsMembers(key, startAt, endAt, covered, p);
    }
  }

  ghost predicate PartsWellFormed(key: StreamKey, parts: seq<Segment>) {
    forall p :: p in parts ==> InOneYear(p) && p.key == key
  }

  lemma PartsAreWellFormed(key: StreamKey, startAt: int, endAt: int, covered: seq<Segment>)
    ensures PartsWellFormed(key, Parts(key, startAt, endAt, covered))
  {
    forall p | p in Parts(key, startAt, endAt, covered) ensures InOneYear(p) && p.key == key {
      PartsMembers(key, startAt, endAt, covered, p);
      var seg :| seg in covered && p in PartsOf(key, startAt, endAt, seg);
      PieceIsWellFormed(Clip(seg, startAt, endAt), p);
    }
  }

  lemma PieceIsWellFormed(seg: Segment, p: Segment)
    requires p in SplitByYear(seg)
    ensures InOneYear(p) && p.key == seg.key
  {
    var i :| 0 <= i < YearCount(seg) && SplitByYear(seg)[i] == p;
    SplitPiece(seg, i);
  }

  // ---- The canonical form -------------------------------------------------------------

  predicate Within(p: Segment, o: Segment) {
    o.startAt <= p.startAt && p.endAt <= o.endAt && p.year == o.year
  }

  ghost predicate BoundsSources(u: string, parts: seq<Segment>, o: Segment) {
    forall p :: p in parts && Within(p, o) ==> SourceLeq(p.source, u)
  }

  /** The label is the least upper bound, and the time the latest, over the parts inside `o`. */
  ghost predicate Summarises(o: Segment, parts: seq<Segment>) {
    && BoundsSources(o.source, parts, o)
    && (forall u :: BoundsSources(u, parts, o) ==> SourceLeq(o.source, u))
    && (forall p :: p in parts && Within(p, o) ==> p.updatedAt <= o.updatedAt)
    && (exists p :: p in parts && Within(p, o) && p.updatedAt == o.updatedAt)
  }

  /** `o` keeps the identity of a shortest part among those that start where it starts. */
  ghost predicate KeepsIdentity(o: Segment, parts: seq<Segment>) {
    exists p :: p in parts && p.startAt == o.startAt && p.segmentId == o.segmentId
             && forall q :: q in parts && q.startAt == o.startAt ==> p.endAt <= q.endAt
  }

  predicate Located(p: Segment, out: seq<Segment>) {
    exists i :: 0 <= i < |out| && Within(p, out[i])
  }

  ghost predicate Describes(o: Segment, parts: seq<Segment>) {
    Summarises(o, parts) && KeepsIdentity(o, parts)
  }

  ghost predicate SameCover(a: seq<Segment>, b: seq<Segment>) {
    forall t :: Covers(a, t) <==> Covers(b, t)
  }

  ghost predicate IsMerged(parts: seq<Segment>, out: seq<Segment>) {
    && Canonical(out)
    && SameCover(out, parts)
    && (forall p :: p in parts ==> Located(p, out))
    && (forall o :: o in out ==> Describes(o, parts))
  }

  ghost predicate Counted(key: StreamKey, out: seq<Segment>) {
    forall s :: s in out ==> s.key == key && ExpectedCount(s.startAt, s.endAt, key.interval) == Ok(s.rowCount)
  }

  // ---- One step of the sweep ----------------------------------------------------------

  /** What the sweep knows when it reaches `p`: everything swept so far sorts no later. */
  ghost predicate Reaches(done: seq<Segment>, out: seq<Segment>, p: Segment) {
    && IsMerged(done, out)
    && InOneYear(p)
    && forall q :: q in done ==> InOneYear(q) && !Before(p, q)
  }

  lemma AppendStep(done: seq<Segment>, out: seq<Segment>, p: Segment, p': Segment)
    requires Reaches(done, out, p)
    requires |out| > 0 ==> !(out[|out| - 1].year == p.year && p.startAt <= out[|out| - 1].endAt)
    requires p' == p.(rowCount := p'.rowCount)
    ensures IsMerged(done + [p], out + [p'])
  {
    AppendPrecedes(done, out, p, p');
    AppendCovers(done, out, p, p');
    forall q | q in done + [p] ensures Located(q, out + [p']) {
      if q in done {
        var i :| 0 <= i < |out| && Within(q, out[i]);
        assert (out + [p'])[i] == out[i];
      } else {
        assert Within(q, (out + [p'])[|out|]);
      }
    }
    forall o | o in out ensures Describes(o, done + [p]) {
      assert Precedes(o, p');
      OldPiece(done, p, o);
    }
    forall q | q in done ensures q.endAt <= p.startAt {
      var j :| 0 <= j < |out| && Within(q, out[j]);
      assert Precedes(out[j], p');
    }
    NewPiece(done, p, p');
  }

  lemma AppendPrecedes(done: seq<Segment>, out: seq<Segment>, p: Segment, p': Segment)
    requires Reaches(done, out, p)
    requires |out| > 0 ==> !(out[|out| - 1].year == p.year && p.startAt <= out[|out| - 1].endAt)
    requires p' == p.(rowCount := p'.rowCount)
    ensures forall o :: o in out ==> Precedes(o, p')
    ensures Canonical(out + [p'])
  {
    if |out| > 0 {
      var last := out[|out| - 1];
      StartsLate(done, out, p);
      YearOfMonotone(last.startAt, p.startAt);
      forall i | 0 <= i < |out| ensures Precedes(out[i], p') {
        assert i < |out| - 1 ==> Precedes(out[i], last);
        YearOfMonotone(out[i].startAt, p.startAt);
      }
    }
  }

  lemma AppendCovers(done: seq<Segment>, out: seq<Segment>, p: Segment, p': Segment)
    requires SameCover(out, done)
    requires p'.startAt == p.startAt && p'.endAt == p.endAt
    ensures SameCover(out + [p'], done + [p])
  {
    forall t ensures Covers(out + [p'], t) <==> Covers(done + [p], t) {
      CoversConcat(out, p', t);
      CoversConcat(done, p, t);
    }
  }

  lemma CoversConcat(a: seq<Segment>, s: Segment, t: int)
    ensures Covers(a + [s], t) <==> Covers(a, t) || Spans(s, t)
  {
    if Covers(a, t) {
      var x :| x in a && Spans(x, t);
      assert x in a + [s];
    }
    if Spans(s, t) {
      assert s in a + [s];
    }
  }

  /** The last piece starts where some part already swept starts. */
  lemma StartsLate(done: seq<Segment>, out: seq<Segment>, p: Segment)
    requires Reaches(done, out, p) && |out| > 0
    ensures out[|out| - 1].startAt <= p.startAt
  {
    var last := out[|out| - 1];
    assert Describes(last, done);
  }

  /** A piece that does not hold `p` is described as before. */
  lemma OldPiece(done: seq<Segment>, p: Segment, o: Segment)
    requires Describes(o, done)
    requires o.endAt <= p.startAt && o.startAt < o.endAt && p.startAt < p.endAt
    ensures Describes(o, done + [p])
  {
    var parts := done + [p];
    assert forall q :: q in parts <==> q in done || q == p;
    assert !Within(p, o);
    forall u ensures BoundsSources(u, parts, o) <==> BoundsSources(u, done, o) {
    }
  }

  lemma NewPiece(done: seq<Segment>, p: Segment, o: Segment)
    requires o == p.(rowCount := o.rowCount) && InOneYear(p)
    requires forall q :: q in done ==> InOneYear(q) && q.endAt <= p.startAt
    ensures Describes(o, done + [p])
  {
    var parts := done + [p];
    assert forall q :: q in parts <==> q in done || q == p;
    assert Within(p, o) && p in parts;
    assert forall q :: q in done ==> !Within(q, o);
  }

  /** The piece that results from absorbing `p` into `last`. */
  function Absorb(last: Segment, p: Segment, rowCount: int): Segment {
    last.(endAt := Max(p.endAt, last.endAt),
          source := MergeCoverageSource(last.source, p.source),
          rowCount := rowCount,
          updatedAt := Max(p.updatedAt, last.updatedAt))
  }

  lemma AbsorbStep(done: seq<Segment>, out: seq<Segment>, p: Segment, rowCount: int)
    requires Reaches(done, out, p) && |out| > 0
    requires out[|out| - 1].year == p.year && p.startAt <= out[|out| - 1].endAt
    ensures IsMerged(done + [p], out[..|out| - 1] + [Absorb(out[|out| - 1], p, rowCount)])
  {
    var n := |out| - 1;
    var last := out[n];
    var grown := Absorb(last, p, rowCount);
    StartsLate(done, out, p);
    AbsorbCanonical(out, grown);
    AbsorbCovers(done, out, p, grown);
    AbsorbLocated(done, out, p, grown);
    AbsorbKeepsFront(done, out, p);
    AbsorbGrows(done, out, p, rowCount);
  }

  /** The pieces before the last are as the absorbed part leaves them: described by the same parts. */
  lemma AbsorbKeepsFront(done: seq<Segment>, out: seq<Segment>, p: Segment)
    requires Canonical(out) && |out| > 0 && (forall o :: o in out ==> Describes(o, done))
    requires out[|out| - 1].startAt <= p.startAt < p.endAt
    ensures forall o :: o in out[..|out| - 1] ==> Describes(o, done + [p])
  {
    var n := |out| - 1;
    forall o | o in out[..n] ensures Describes(o, done + [p]) {
      var i :| 0 <= i < n && out[i] == o;
      assert InOneYear(out[i]) && Precedes(out[i], out[n]);
      OldPiece(done, p, o);
    }
  }

  lemma AbsorbGrows(done: seq<Segment>, out: seq<Segment>, p: Segment, rowCount: int)
    requires Reaches(done, out, p) && |out| > 0
    requires var last := out[|out| - 1]; last.year == p.year && last.startAt <= p.startAt <= last.endAt
    ensures Describes(Absorb(out[|out| - 1], p, rowCount), done + [p])
  {
    var n := |out| - 1;
    var last := out[n];
    var grown := Absorb(last, p, rowCount);
    forall q | q in done ensures Within(q, grown) ==> Within(q, last) {
      var j :| 0 <= j < |out| && Within(q, out[j]);
      assert j < n ==> Precedes(out[j], last);
    }
    GrownPiece(done, p, last, grown);
  }

  lemma AbsorbCanonical(out: seq<Segment>, grown: Segment)
    requires Canonical(out) && |out| > 0
    requires grown.startAt == out[|out| - 1].startAt && grown.year == out[|out| - 1].year && InOneYear(grown)
    ensures Canonical(out[..|out| - 1] + [grown])
  {
    var next := out[..|out| - 1] + [grown];
    forall i, j | 0 <= i < j < |next| ensures Precedes(next[i], next[j]) {
      assert Precedes(out[i], out[j]);
    }
  }

  lemma AbsorbLocated(done: seq<Segment>, out: seq<Segment>, p: Segment, grown: Segment)
    requires |out| > 0 && forall q :: q in done ==> Located(q, out)
    requires Within(out[|out| - 1], grown) && Within(p, grown)
    ensures forall q :: q in done + [p] ==> Located(q, out[..|out| - 1] + [grown])
  {
    var n := |out| - 1;
    var next := out[..n] + [grown];
    forall q | q in done + [p] ensures Located(q, next) {
      if q in done {
        var i :| 0 <= i < |out| && Within(q, out[i]);
        assert Within(q, next[i]);
      } else {
        assert Within(q, next[n]);
      }
    }
  }

  lemma AbsorbCovers(done: seq<Segment>, out: seq<Segment>, p: Segment, grown: Segment)
    requires |out| > 0 && SameCover(out, done)
    requires var last := out[|out| - 1];
             last.startAt <= p.startAt <= last.endAt
             && grown.startAt == last.startAt && grown.endAt == Max(p.endAt, last.endAt)
    ensures SameCover(out[..|out| - 1] + [grown], done + [p])
  {
    var front, last := out[..|out| - 1], out[|out| - 1];
    forall t ensures Covers(front + [grown], t) <==> Covers(done + [p], t) {
      CoversConcat(front, grown, t);
      CoversConcat(front, last, t);
      assert out == front + [last];
      CoversConcat(done, p, t);
    }
  }

  lemma GrownPiece(done: seq<Segment>, p: Segment, last: Segment, grown: Segment)
    requires Describes(last, done)
    requires last.startAt <= p.startAt && p.year == last.year
    requires grown == Absorb(last, p, grown.rowCount)
    requires forall q :: q in done ==> (Within(q, grown) ==> Within(q, last)) && !Before(p, q)
    ensures Describes(grown, done + [p])
  {
    var parts := done + [p];
    assert forall q :: q in parts <==> q in done || q == p;
    assert Within(p, grown);
    assert forall q :: q in done ==> (Within(q, grown) <==> Within(q, last));
    forall u ensures BoundsSources(u, parts, grown) <==> BoundsSources(u, done, last) && SourceLeq(p.source, u) {
    }
    MergeIsJoin(last.source, p.source, grown.source);
    assert SourceLeq(grown.source, grown.source);
    assert BoundsSources(grown.source, parts, grown) by {
      forall q | q in done && Within(q, last) ensures SourceLeq(q.source, grown.source) {
        SourceOrder(q.source, last.source, grown.source);
      }
    }
    forall u | BoundsSources(u, parts, grown) ensures SourceLeq(grown.source, u) {
      MergeIsJoin(last.source, p.source, u);
    }
    var r :| r in done && r.startAt == last.startAt && r.segmentId == last.segmentId
             && forall q :: q in done && q.startAt == last.startAt ==> r.endAt <= q.endAt;
    assert r in parts;
    var latest :| latest in done && Within(latest, last) && latest.updatedAt == last.updatedAt;
    assert latest in parts && p in parts;
  }

  // ---- The sweep ----------------------------------------------------------------------

  /** Every part of the list has a slot count. */
  ghost predicate AllCount(key: StreamKey, parts: seq<Segment>) {
    forall p :: p in parts ==> ExpectedCount(p.startAt, p.endAt, key.interval).Ok?
  }

  /** Every part of the query sits on the interval grid. */
  ghost predicate PartsCount(key: StreamKey, startAt: int, endAt: int, covered: seq<Segment>) {
    AllCount(key, Parts(key, startAt, endAt, covered))
  }

  /** The contract of the merge: canonical, counted, and failing only off the grid. */
  ghost predicate IsMergeResult(
    key: StreamKey, startAt: int, endAt: int, covered: seq<Segment>, r: Result<seq<Segment>, CoverageError>)
  {
    && (r.Ok? <==> startAt < endAt && PartsCount(key, startAt, endAt, covered))
    && (r.Ok? ==> IsMerged(Parts(key, startAt, endAt, covered), r.value) && Counted(key, r.value))
    && (r.Err? ==> r.error == CountError(startAt, endAt, key.interval))
  }

  method MergeCoverageForQuery(key: StreamKey, startAt: int, endAt: int, covered: seq<Segment>)
    returns (r: Result<seq<Segment>, CoverageError>)
    ensures IsMergeResult(key, startAt, endAt, covered, r)
  {
    if endAt <= startAt {
      return Err(EndNotAfterStart);
    }
    var segments := [];
    for i := 0 to |covered|
      invariant segments == Parts(key, startAt, endAt, covered[..i])
    {
      assert covered[..i + 1][..i] == covered[..i];
      var seg := covered[i];
      if seg.key != key || seg.endAt <= startAt || seg.startAt >= endAt {
        continue;
      }
      seg := seg.(startAt := Max(seg.startAt, startAt), endAt := Min(seg.endAt, endAt));
      if seg.endAt > seg.startAt {
        var split := SplitCoverageSegmentByYear(seg);
        segments := segments + split;
      }
    }
    assert covered[..|covered|] == covered;
    PartsAreWellFormed(key, startAt, endAt, covered);
    segments := StableSort(segments);
    r := MergeSorted(key, segments);
    if r.Ok? {
      SameMembers(segments, Parts(key, startAt, endAt, covered), r.value);
    }
  }

  /** The state of the sweep once the parts `done` are behind it. */
  ghost predicate Swept(key: StreamKey, done: seq<Segment>, out: seq<Segment>) {
    IsMerged(done, out) && Counted(key, out) && AllCount(key, done)
  }

  lemma ReachesNext(key: StreamKey, segments: seq<Segment>, i: nat, out: seq<Segment>)
    requires i < |segments| && Sorted(segments) && PartsWellFormed(key, segments) && IsMerged(segments[..i], out)
    ensures Reaches(segments[..i], out, segments[i]) && segments[i].key == key
    ensures segments[..i + 1] == segments[..i] + [segments[i]]
  {
    forall q | q in segments[..i] ensures InOneYear(q) && !Before(segments[i], q) {
    }
  }

  /** The part joins the last piece, whose slots can always be counted again. */
  lemma SweptAbsorb(key: StreamKey, done: seq<Segment>, out: seq<Segment>, p: Segment, rowCount: int)
    requires Swept(key, done, out) && Reaches(done, out, p) && |out| > 0
    requires ExpectedCount(p.startAt, p.endAt, key.interval).Ok?
    requires out[|out| - 1].year == p.year && p.startAt <= out[|out| - 1].endAt
    ensures var last := out[|out| - 1];
            && ExpectedCount(last.startAt, Max(p.endAt, last.endAt), key.interval).Ok?
            && (ExpectedCount(last.startAt, Max(p.endAt, last.endAt), key.interval) == Ok(rowCount) ==>
                  Swept(key, done + [p], out[..|out| - 1] + [Absorb(last, p, rowCount)]))
  {
    var last := out[|out| - 1];
    assert last in out;
    assert ExpectedCount(last.startAt, last.endAt, key.interval).Ok? && last.key == key;
    if ExpectedCount(last.startAt, Max(p.endAt, last.endAt), key.interval) == Ok(rowCount) {
      AbsorbStep(done, out, p, rowCount);
      CountedReplace(key, out, Absorb(last, p, rowCount));
    }
  }

  lemma CountedReplace(key: StreamKey, out: seq<Segment>, x: Segment)
    requires Counted(key, out) && |out| > 0
    requires x.key == key && ExpectedCount(x.startAt, x.endAt, key.interval) == Ok(x.rowCount)
    ensures Counted(key, out[..|out| - 1] + [x]) && Counted(key, out + [x])
  {
  }

  lemma SweptAppend(key: StreamKey, done: seq<Segment>, out: seq<Segment>, p: Segment, p': Segment)
    requires Swept(key, done, out) && Reaches(done, out, p) && p.key == key
    requires ExpectedCount(p.startAt, p.endAt, key.interval) == Ok(p'.rowCount) && p' == p.(rowCount := p'.rowCount)
    requires |out| > 0 ==> !(out[|out| - 1].year == p.year && p.startAt <= out[|out| - 1].endAt)
    ensures Swept(key, done + [p], out + [p'])
  {
    AppendStep(done, out, p, p');
    if out != [] {
      CountedReplace(key, out, p');
    }
  }

  /** The second half of `mergeCoverageForQuery`: the sweep over the sorted parts. */
  method MergeSorted(key: StreamKey, segments: seq<Segment>) returns (r: Result<seq<Segment>, CoverageError>)
    requires Sorted(segments) && PartsWellFormed(key, segments)
    ensures r.Ok? <==> AllCount(key, segments)
    ensures r.Ok? ==> IsMerged(segments, r.value) && Counted(key, r.value)
    ensures r.Err? ==> exists p :: p in segments && r.error == CountError(p.startAt, p.endAt, key.interval)
  {
    var out: seq<Segment> := [];
    for i := 0 to |segments|
      invariant Swept(key, segments[..i], out)
    {
      var seg := segments[i];
      ghost var done := segments[..i];
      ReachesNext(key, segments, i, out);
      var rowCount := ExpectedCount(seg.startAt, seg.endAt, key.interval);
      if rowCount.Err? {
        return Err(rowCount.error);
      }
      seg := seg.(rowCount := rowCount.value);
      if |out| > 0 && out[|out| - 1].year == seg.year && seg.startAt <= out[|out| - 1].endAt {
        var last := out[|out| - 1];
        var endsAt := Max(seg.endAt, last.endAt);
        var total := ExpectedCount(last.startAt, endsAt, key.interval);
        SweptAbsorb(key, done, out, segments[i], if total.Ok? then total.value else 0);
        out := out[..|out| - 1]
               + [last.(endAt := endsAt,
                        source := MergeCoverageSource(last.source, seg.source),
                        rowCount := total.value,
                        updatedAt := Max(seg.updatedAt, last.updatedAt))];
      } else {
        SweptAppend(key, done, out, segments[i], seg);
        out := out + [seg];
      }
    }
    assert segments[..|segments|] == segments;
    return Ok(out);
  }

  /** The canonical form only looks at which parts there are. */
  lemma SameMembers(a: seq<Segment>, b: seq<Segment>, out: seq<Segment>)
    requires IsMerged(a, out)
    requires forall p :: p in a <==> p in b
    ensures IsMerged(b, out)
  {
    forall t ensures Covers(a, t) <==> Covers(b, t) {
    }
    forall o | o in out ensures Describes(o, b) {
      SameDescription(a, b, o);
    }
  }

  lemma SameDescription(a: seq<Segment>, b: seq<Segment>, o: Segment)
    requires Describes(o, a)
    requires forall p :: p in a <==> p in b
    ensures Describes(o, b)
  {
    forall u ensures BoundsSources(u, a, o) <==> BoundsSources(u, b, o) {
    }
  }
}
