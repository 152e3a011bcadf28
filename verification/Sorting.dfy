/** The order `sort.SliceStable` leaves coverage segments in: by start, then by end. */
module Sorting {
  import opened Segments

  predicate Before(a: Segment, b: Segment) {
    a.startAt < b.startAt || (a.startAt == b.startAt && a.endAt < b.endAt)
  }

  ghost predicate Sorted(s: seq<Segment>) {
    forall i, j :: 0 <= i < j < |s| ==> !Before(s[j], s[i])
  }

  /** Places `x` in front of the first segment that is not before it. */
  function Insert(x: Segment, s: seq<Segment>): (r: seq<Segment>)
    requires Sorted(s)
    ensures Sorted(r)
    ensures forall y :: y in r <==> y == x || y in s
  {
    if s == [] then [x]
    else if Before(s[0], x) then
      var rest := Insert(x, s[1..]);
      assert forall y :: y in rest ==> !Before(y, s[0]) by { assert s == [s[0]] + s[1..]; }
      [s[0]] + rest
    else
      assert forall y :: y in s ==> !Before(y, x);
      [x] + s
  }

  function StableSort(s: seq<Segment>): (r: seq<Segment>)
    ensures Sorted(r)
    ensures forall y :: y in r <==> y in s
  {
    if s == [] then [] else Insert(s[0], StableSort(s[1..]))
  }
}
