/** Coverage segments, the instants they cover, and the canonical lists of segments. */
module Segments {
  import opened Calendar

  datatype StreamKey = StreamKey(exchange: string, market: string, kind: string, symbol: string, interval: string)

  /** Instants are nanoseconds; a segment covers [startAt, endAt). */
  datatype Segment = Segment(
    segmentId: int,
    key: StreamKey,
    year: int,
    startAt: int,
    endAt: int,
    rowCount: int,
    source: string,
    updatedAt: int)

  function Min(a: int, b: int): int {
    if a < b then a else b
  }

  function Max(a: int, b: int): int {
    if a > b then a else b
  }

  predicate Spans(s: Segment, t: int) {
    s.startAt <= t < s.endAt
  }

  ghost predicate Covers(segments: seq<Segment>, t: int) {
    exists s :: s in segments && Spans(s, t)
  }

  /** A non-empty segment that stays inside the UTC year it is labelled with. */
  predicate InOneYear(s: Segment) {
    s.startAt < s.endAt && s.year == YearOf(s.startAt) && s.endAt <= YearStart(s.year + 1)
  }

  predicate Precedes(a: Segment, b: Segment) {
    a.endAt <= b.startAt && (a.year == b.year ==> a.endAt < b.startAt)
  }

  /** Ascending, disjoint, year-confined, with a real gap between neighbours of one year. */
  ghost predicate Canonical(out: seq<Segment>) {
    && (forall i :: 0 <= i < |out| ==> InOneYear(out[i]))
    && (forall i, j :: 0 <= i < j < |out| ==> Precedes(out[i], out[j]))
  }

  predicate SameRange(a: Segment, b: Segment) {
    a.startAt == b.startAt && a.endAt == b.endAt && a.year == b.year
  }

  /** The instants covered determine a canonical list's ranges and years. */
  lemma CanonicalUnique(a: seq<Segment>, b: seq<Segment>)
    requires Canonical(a) && Canonical(b)
    requires forall t :: Covers(a, t) <==> Covers(b, t)
    ensures |a| == |b| && forall i :: 0 <= i < |a| ==> SameRange(a[i], b[i])
  {
    CommonPrefix(a, b, Min(|a|, |b|));
    NoShorter(a, b);
    NoShorter(b, a);
  }

  lemma PieceAt(a: seq<Segment>, t: int) returns (j: nat)
    requires Covers(a, t)
    ensures j < |a| && Spans(a[j], t)
  {
    var s :| s in a && Spans(s, t);
    j :| j < |a| && a[j] == s;
  }

  lemma OnlyPiece(a: seq<Segment>, j: nat, k: nat, t: int)
    requires Canonical(a) && j < |a| && k < |a| && Spans(a[j], t) && Spans(a[k], t)
    ensures j == k
  {
    assert j < k ==> Precedes(a[j], a[k]);
    assert k < j ==> Precedes(a[k], a[j]);
  }

  lemma NoShorter(a: seq<Segment>, b: seq<Segment>)
    requires Canonical(b)
    requires forall t :: Covers(b, t) ==> Covers(a, t)
    requires forall i :: 0 <= i < |a| && i < |b| ==> SameRange(a[i], b[i])
    ensures |a| >= |b|
  {
    if |a| < |b| {
      var t := b[|a|].startAt;
      assert Spans(b[|a|], t);
      var j := PieceAt(a, t);
      OnlyPiece(b, j, |a|, t);
    }
  }

  lemma {:induction false} CommonPrefix(a: seq<Segment>, b: seq<Segment>, n: nat)
    requires Canonical(a) && Canonical(b)
    requires forall t :: Covers(a, t) <==> Covers(b, t)
    requires n <= |a| && n <= |b|
    ensures forall i :: 0 <= i < n ==> SameRange(a[i], b[i])
  {
    if n > 0 {
      CommonPrefix(a, b, n - 1);
      StartNotBefore(a, b, n - 1);
      StartNotBefore(b, a, n - 1);
      EndNotBefore(a, b, n - 1);
      EndNotBefore(b, a, n - 1);
    }
  }

  lemma StartNotBefore(a: seq<Segment>, b: seq<Segment>, k: nat)
    requires Canonical(a) && Canonical(b) && k < |a| && k < |b|
    requires forall t :: Covers(a, t) ==> Covers(b, t)
    requires forall i :: 0 <= i < k ==> SameRange(a[i], b[i])
    ensures a[k].startAt >= b[k].startAt
  {
    var t := a[k].startAt;
    assert Spans(a[k], t);
    var j := PieceAt(b, t);
    if j < k {
      OnlyPiece(a, j, k, t);
    }
    assert k < j ==> Precedes(b[k], b[j]);
  }

  lemma EndNotBefore(a: seq<Segment>, b: seq<Segment>, k: nat)
    requires Canonical(a) && Canonical(b) && k < |a| && k < |b|
    requires forall t :: Covers(b, t) ==> Covers(a, t)
    requires a[k].startAt == b[k].startAt
    ensures a[k].endAt >= b[k].endAt
  {
    var t := a[k].endAt;
    if t < b[k].endAt {
      assert Spans(b[k], t);
      var j := PieceAt(a, t);
      assert j < k ==> Precedes(a[j], a[k]);
      assert k < j ==> Precedes(a[k], a[j]);
      YearOfMonotone(b[k].startAt, t);
      YearOfUnique(t, b[k].year);
    }
  }
}
