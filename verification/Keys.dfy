/** Sorting the distinct keys of a map. */
module Keys {
  import opened Sets

  ghost predicate Ascending(keys: seq<int>) {
    forall i, j :: 0 <= i < j < |keys| ==> keys[i] < keys[j]
  }

  lemma {:induction false} MinExists(s: set<int>) returns (m: int)
    requires s != {}
    ensures m in s
    ensures forall x :: x in s ==> m <= x
  {
    var first := Member(s);
    m := first;
    var rest := s - {first};
    if rest != {} {
      var n := MinExists(rest);
      m := if n < first then n else first;
    }
    forall x | x in s ensures m <= x {
      assert x == first || x in rest;
    }
  }

  /** Collecting a map's keys and sorting them. */
  method SortedKeys(seen: set<int>) returns (keys: seq<int>)
    ensures Ascending(keys)
    ensures forall o :: o in keys <==> o in seen
  {
    keys := [];
    var rest := seen;
    while rest != {}
      invariant rest <= seen && Ascending(keys)
      invariant forall o :: o in seen <==> o in keys || o in rest
      invariant forall i, o :: 0 <= i < |keys| && o in rest ==> keys[i] < o
      decreases |rest|
    {
      ghost var least := MinExists(rest);
      var m :| m in rest && forall x :: x in rest ==> m <= x;
      keys, rest := keys + [m], rest - {m};
    }
  }
}
