/** The pages of the runtime list: filtered, newest first, cut out with a one-row sentinel. */
module Listing {
  import opened Sets
  import opened Wrappers
  import opened Text
  import opened RegistryState

  /** The filters of one listing; `None` matches everything. */
  datatype Filter = Filter(userId: int, status: Option<RuntimeStatus>, source: Option<Source>)

  predicate Matches(r: Runtime, f: Filter) {
    && r.userId == f.userId
    && (f.status.Some? ==> r.status == f.status.value)
    && (f.source.Some? ==> r.source == f.source.value)
  }

  function SortTime(r: Runtime): int {
    if r.startedAt.Some? then r.startedAt.value else r.createdAt
  }

  /** ORDER BY COALESCE(started_at, created_at) DESC, runtime_id DESC. */
  predicate ListedBefore(a: Runtime, b: Runtime) {
    SortTime(a) > SortTime(b) || (SortTime(a) == SortTime(b) && Less(b.runtimeId, a.runtimeId))
  }

  lemma ListedBeforeTotal(a: Runtime, b: Runtime)
    ensures a.runtimeId == b.runtimeId || ListedBefore(a, b) || ListedBefore(b, a)
    ensures !(ListedBefore(a, b) && ListedBefore(b, a))
    ensures !ListedBefore(a, a)
  {
    LessTotal(a.runtimeId, b.runtimeId);
    LessTotal(a.runtimeId, a.runtimeId);
  }

  lemma ListedBeforeTransitive(a: Runtime, b: Runtime, c: Runtime)
    requires ListedBefore(a, b) && ListedBefore(b, c)
    ensures ListedBefore(a, c)
  {
    if SortTime(a) == SortTime(b) == SortTime(c) {
      LessTransitive(c.runtimeId, b.runtimeId, a.runtimeId);
    }
  }

  ghost predicate Ordered(list: seq<Runtime>) {
    forall i, j :: 0 <= i < j < |list| ==> ListedBefore(list[i], list[j])
  }

  predicate Stored(rows: map<string, Runtime>, r: Runtime) {
    r.runtimeId in rows && rows[r.runtimeId] == r
  }

  ghost predicate KeyedById(rows: map<string, Runtime>) {
    forall id :: id in rows ==> rows[id].runtimeId == id
  }

  /** All the matching rows, in order. */
  ghost predicate IsListing(rows: map<string, Runtime>, f: Filter, list: seq<Runtime>) {
    && Ordered(list)
    && forall r :: r in list <==> Stored(rows, r) && Matches(r, f)
  }

  /** A table has one listing. */
  lemma ListingUnique(rows: map<string, Runtime>, f: Filter, a: seq<Runtime>, b: seq<Runtime>)
    requires IsListing(rows, f, a) && IsListing(rows, f, b)
    ensures a == b
  {
    OrderedUnique(a, b);
  }

  lemma {:induction false} OrderedUnique(a: seq<Runtime>, b: seq<Runtime>)
    requires Ordered(a) && Ordered(b) && forall r :: r in a <==> r in b
    ensures a == b
  {
    assert b != [] ==> b[0] in a;
    assert a != [] ==> a[0] in b;
    if a != [] {
      SameFirst(a, b);
      assert a == [a[0]] + a[1..] && b == [b[0]] + b[1..];
      forall r ensures r in a[1..] <==> r in b[1..] {
        FirstIsAlone(a);
        FirstIsAlone(b);
        assert r in a <==> r == a[0] || r in a[1..];
        assert r in b <==> r == b[0] || r in b[1..];
      }
      OrderedUnique(a[1..], b[1..]);
    }
  }

  lemma FirstIsAlone(a: seq<Runtime>)
    requires Ordered(a) && a != []
    ensures a[0] !in a[1..]
  {
    ListedBeforeTotal(a[0], a[0]);
  }

  lemma SameFirst(a: seq<Runtime>, b: seq<Runtime>)
    requires Ordered(a) && Ordered(b) && forall r :: r in a <==> r in b
    requires a != [] && b != []
    ensures a[0] == b[0]
  {
    assert b[0] in a && a[0] in b;
    var i :| 0 <= i < |a| && a[i] == b[0];
    var j :| 0 <= j < |b| && b[j] == a[0];
    ListedBeforeTotal(a[0], b[0]);
  }

  /** A non-empty set of rows has one that is listed before all the others. */
  lemma {:induction false} FirstExists(rows: map<string, Runtime>, rest: set<string>) returns (first: string)
    requires KeyedById(rows) && rest != {} && forall id :: id in rest ==> id in rows
    ensures first in rest
    ensures forall id :: id in rest && id != first ==> ListedBefore(rows[first], rows[id])
    decreases |rest|
  {
    var some := Member(rest);
    first := some;
    var others := rest - {some};
    assert forall id :: id in rest ==> id == some || id in others;
    if others != {} {
      var other := FirstExists(rows, others);
      ListedBeforeTotal(rows[some], rows[other]);
      assert rows[some].runtimeId == some && rows[other].runtimeId == other;
      first := if ListedBefore(rows[some], rows[other]) then some else other;
      forall id | id in rest && id != first ensures ListedBefore(rows[first], rows[id]) {
        if id != some && id != other && first == some {
          ListedBeforeTransitive(rows[some], rows[other], rows[id]);
        }
      }
    }
  }

  /** Any set of stored rows can be put in order. */
  lemma {:induction false} OrderedList(rows: map<string, Runtime>, rest: set<string>) returns (list: seq<Runtime>)
    requires KeyedById(rows) && forall id :: id in rest ==> id in rows
    ensures Ordered(list)
    ensures forall r :: r in list <==> Stored(rows, r) && r.runtimeId in rest
    decreases |rest|
  {
    if rest == {} {
      list := [];
    } else {
      var first := FirstExists(rows, rest);
      var tail := OrderedList(rows, rest - {first});
      list := [rows[first]] + tail;
    }
  }

  lemma ListingExists(rows: map<string, Runtime>, f: Filter) returns (list: seq<Runtime>)
    requires KeyedById(rows)
    ensures IsListing(rows, f, list)
  {
    list := OrderedList(rows, set id | id in rows && Matches(rows[id], f));
  }

  /** The database's sort of the matching rows. */
  method SortedRows(rows: map<string, Runtime>, f: Filter) returns (list: seq<Runtime>)
    requires KeyedById(rows)
    ensures IsListing(rows, f, list)
  {
    list := [];
    var rest := set id | id in rows && Matches(rows[id], f);
    while rest != {}
      invariant Ordered(list)
      invariant forall id :: id in rest ==> id in rows && Matches(rows[id], f)
      invariant forall r :: r in list ==> Stored(rows, r) && Matches(r, f)
      invariant forall id :: id in rows && Matches(rows[id], f) ==> id in rest || rows[id] in list
      invariant forall i, id :: 0 <= i < |list| && id in rest ==> ListedBefore(list[i], rows[id])
      decreases |rest|
    {
      var first := PickFirst(rows, rest);
      list, rest := list + [rows[first]], rest - {first};
    }
  }

  method PickFirst(rows: map<string, Runtime>, rest: set<string>) returns (first: string)
    requires KeyedById(rows) && rest != {} && forall id :: id in rest ==> id in rows
    ensures first in rest
    ensures forall id :: id in rest && id != first ==> ListedBefore(rows[first], rows[id])
  {
    ghost var least := FirstExists(rows, rest);
    first :| first in rest && forall id :: id in rest && id != first ==> ListedBefore(rows[first], rows[id]);
  }

  // ---- Pages --------------------------------------------------------------------------

  function ClampLimit(limit: int): int {
    if limit <= 0 then 20 else if limit > 200 then 200 else limit
  }

  function ClampOffset(offset: int): nat {
    if offset < 0 then 0 else offset
  }

  function Upto(n: int, list: seq<Runtime>): nat {
    if n < 0 then 0 else if n > |list| then |list| else n
  }

  /** Rows `lo` to `hi` of the list, as far as it goes. */
  function Window(list: seq<Runtime>, lo: nat, hi: nat): seq<Runtime>
    requires lo <= hi
  {
    list[Upto(lo, list)..Upto(hi, list)]
  }

  datatype Page = Page(items: seq<Runtime>, total: int, hasMore: bool)

  /** A page is a window of the one listing; `hasMore` says whether anything follows it. */
  ghost predicate IsPage(rows: map<string, Runtime>, f: Filter, limit: int, offset: int, page: Page) {
    exists list {:trigger IsListing(rows, f, list)} :: IsListing(rows, f, list)
      && page.items == Window(list, ClampOffset(offset), ClampOffset(offset) + ClampLimit(limit))
      && page.total == |list|
      && (page.hasMore <==> ClampOffset(offset) + ClampLimit(limit) < |list|)
  }

  /** The row past the limit says whether more follows, and is all that is cut off. */
  lemma SentinelCut(list: seq<Runtime>, lo: nat, size: nat)
    ensures |Window(list, lo, lo + size + 1)| > size <==> lo + size < |list|
    ensures var items := Window(list, lo, lo + size + 1);
            Window(list, lo, lo + size) == if |items| > size then items[..size] else items
  {
  }

  lemma CutIsPage(rows: map<string, Runtime>, f: Filter, limit: int, offset: int, list: seq<Runtime>)
    requires IsListing(rows, f, list)
    ensures var lo, size := ClampOffset(offset), ClampLimit(limit);
            IsPage(rows, f, limit, offset, Page(Window(list, lo, lo + size), |list|, lo + size < |list|))
  {
  }

  /** Any listing of the table can stand for the one the page was cut from. */
  lemma PageOfListing(rows: map<string, Runtime>, f: Filter, limit: int, offset: int, page: Page, list: seq<Runtime>)
    requires IsPage(rows, f, limit, offset, page) && IsListing(rows, f, list)
    ensures page.items == Window(list, ClampOffset(offset), ClampOffset(offset) + ClampLimit(limit))
    ensures page.total == |list|
    ensures page.hasMore <==> ClampOffset(offset) + ClampLimit(limit) < |list|
  {
    var list' :| IsListing(rows, f, list')
      && page.items == Window(list', ClampOffset(offset), ClampOffset(offset) + ClampLimit(limit))
      && page.total == |list'|
      && (page.hasMore <==> ClampOffset(offset) + ClampLimit(limit) < |list'|);
    ListingUnique(rows, f, list, list');
  }

  /** Consecutive windows are the consecutive parts of the list. */
  lemma WindowsJoin(list: seq<Runtime>, lo: nat, size: nat)
    ensures list[..Upto(lo, list)] + Window(list, lo, lo + size) == list[..Upto(lo + size, list)]
  {
  }

  // ---- Pages in plain terms ---------------------------------------------------------------

  /** The row belongs to the user and has the status and the source asked for, if any. */
  predicate AskedFor(r: Runtime, userId: int, status: Option<RuntimeStatus>, source: Option<Source>) {
    && r.userId == userId
    && (status.None? || status == Some(r.status))
    && (source.None? || source == Some(r.source))
  }

  /** When a runtime started, or was created if it has not started. */
  predicate Since(r: Runtime, at: int) {
    r.startedAt == Some(at) || (r.startedAt.None? && r.createdAt == at)
  }

  lemma {:induction false} IdsCount(list: seq<Runtime>)
    requires forall i, j :: 0 <= i < j < |list| ==> list[i].runtimeId != list[j].runtimeId
    ensures |set r | r in list :: r.runtimeId| == |list|
  {
    if list != [] {
      var n := |list| - 1;
      var front, last := list[..n], list[n];
      assert list == front + [last];
      IdsCount(front);
      var ids := set r | r in front :: r.runtimeId;
      assert (set r | r in list :: r.runtimeId) == ids + {last.runtimeId};
    }
  }

  /** The total is the number of matching rows of the table. */
  lemma ListingCount(rows: map<string, Runtime>, f: Filter, list: seq<Runtime>)
    requires KeyedById(rows) && IsListing(rows, f, list)
    ensures |list| == |set id | id in rows && AskedFor(rows[id], f.userId, f.status, f.source)|
  {
    forall i, j | 0 <= i < j < |list| ensures list[i].runtimeId != list[j].runtimeId {
      assert list[i] in list && list[j] in list;
      ListedBeforeTotal(list[i], list[i]);
    }
    IdsCount(list);
    var ids := set id | id in rows && AskedFor(rows[id], f.userId, f.status, f.source);
    var listed := set r | r in list :: r.runtimeId;
    forall id | id in ids ensures id in listed {
      assert Stored(rows, rows[id]) && Matches(rows[id], f) && rows[id].runtimeId == id;
    }
    forall id | id in listed ensures id in ids {
      var r :| r in list && r.runtimeId == id;
      assert Stored(rows, r) && Matches(r, f);
    }
    assert ids == listed;
  }

  lemma WindowIn(list: seq<Runtime>, lo: nat, hi: nat, i: int)
    requires lo <= hi && 0 <= i < |Window(list, lo, hi)|
    ensures lo + i < |list| && Window(list, lo, hi)[i] == list[lo + i]
  {
  }

  /** The listing a page was cut from. */
  lemma ListingOf(rows: map<string, Runtime>, f: Filter, limit: int, offset: int, page: Page)
    returns (list: seq<Runtime>)
    requires IsPage(rows, f, limit, offset, page)
    ensures IsListing(rows, f, list)
    ensures page.items == Window(list, ClampOffset(offset), ClampOffset(offset) + ClampLimit(limit))
    ensures page.total == |list|
    ensures page.hasMore <==> ClampOffset(offset) + ClampLimit(limit) < |list|
  {
    hide IsListing, Window;
    list :| IsListing(rows, f, list)
      && page.items == Window(list, ClampOffset(offset), ClampOffset(offset) + ClampLimit(limit))
      && page.total == |list|
      && (page.hasMore <==> ClampOffset(offset) + ClampLimit(limit) < |list|);
  }

  lemma ItemIsListed(rows: map<string, Runtime>, f: Filter, list: seq<Runtime>, i: int)
    requires IsListing(rows, f, list) && 0 <= i < |list|
    ensures Stored(rows, list[i]) && AskedFor(list[i], f.userId, f.status, f.source)
  {
    assert list[i] in list;
  }

  lemma ListedSince(a: Runtime, b: Runtime, t: int, u: int)
    requires ListedBefore(a, b) && Since(a, t) && Since(b, u)
    ensures t >= u && a != b
  {
    ListedBeforeTotal(a, b);
  }

  lemma SinceUnique(r: Runtime, a: int, b: int)
    requires Since(r, a) && Since(r, b)
    ensures a == b
  {
  }

  /** What a page holds: rows asked for, newest first, no row twice. */
  lemma PageRows(rows: map<string, Runtime>, f: Filter, limit: int, offset: int, page: Page, i: int, j: int)
    requires IsPage(rows, f, limit, offset, page) && 0 <= i <= j < |page.items|
    ensures Stored(rows, page.items[i]) && AskedFor(page.items[i], f.userId, f.status, f.source)
    ensures forall a, b :: Since(page.items[i], a) && Since(page.items[j], b) ==> a >= b
    ensures i < j ==> page.items[i] != page.items[j]
  {
    hide IsPage, Window, Stored, AskedFor, ListedBefore, Since;
    var lo, hi := ClampOffset(offset), ClampOffset(offset) + ClampLimit(limit);
    var list := ListingOf(rows, f, limit, offset, page);
    WindowIn(list, lo, hi, i);
    WindowIn(list, lo, hi, j);
    ItemIsListed(rows, f, list, lo + i);
    ListedBeforeTotal(list[lo + i], list[lo + i]);
    forall a, b | Since(page.items[i], a) && Since(page.items[j], b) ensures a >= b {
      if i < j {
        ListedSince(list[lo + i], list[lo + j], a, b);
      } else {
        SinceUnique(list[lo + i], a, b);
      }
    }
  }

  /**
   * How much a page holds: at most the limit, which is 20 if none is given and never above 200, and
   * exactly the limit if anything follows; and what its total counts.
   */
  lemma PageSize(rows: map<string, Runtime>, f: Filter, limit: int, offset: int, page: Page)
    requires KeyedById(rows) && IsPage(rows, f, limit, offset, page)
    ensures var size := if limit <= 0 then 20 else if limit < 200 then limit else 200;
            && |page.items| <= size && (page.hasMore ==> |page.items| == size)
            && (page.hasMore <==> page.total > (if offset > 0 then offset else 0) + size)
    ensures page.total == |set id | id in rows && AskedFor(rows[id], f.userId, f.status, f.source)|
    ensures offset <= 0 && !page.hasMore ==>
              forall id :: id in rows && AskedFor(rows[id], f.userId, f.status, f.source) ==> rows[id] in page.items
  {
    var list := ListingOf(rows, f, limit, offset, page);
    ListingCount(rows, f, list);
    if offset <= 0 && !page.hasMore {
      assert page.items == list;
      forall id | id in rows && AskedFor(rows[id], f.userId, f.status, f.source) ensures rows[id] in list {
        assert Stored(rows, rows[id]) && Matches(rows[id], f);
      }
    }
  }

  // ---- Searching by name --------------------------------------------------------------

  predicate Wanted(r: Runtime, name: string, includeEnded: bool) {
    r.name == name && (includeEnded || Live(r))
  }

  ghost predicate NoneWanted(list: seq<Runtime>, name: string, includeEnded: bool) {
    forall r :: r in list ==> !Wanted(r, name, includeEnded)
  }

  /** What a search finds: a wanted row of the table exactly when there is one. */
  ghost predicate IsFound(
    rows: map<string, Runtime>, f: Filter, name: string, includeEnded: bool, found: Option<Runtime>)
  {
    match found
    case Some(r) => Stored(rows, r) && Matches(r, f) && Wanted(r, name, includeEnded)
    case None => forall r :: Stored(rows, r) && Matches(r, f) ==> !Wanted(r, name, includeEnded)
  }

  lemma NoneWantedYet(list: seq<Runtime>, name: string, includeEnded: bool)
    ensures NoneWanted(list[..0], name, includeEnded)
  {
  }

  lemma OneMoreUnwanted(items: seq<Runtime>, i: nat, name: string, includeEnded: bool)
    requires i < |items| && NoneWanted(items[..i], name, includeEnded) && !Wanted(items[i], name, includeEnded)
    ensures NoneWanted(items[..i + 1], name, includeEnded)
    ensures i + 1 == |items| ==> NoneWanted(items, name, includeEnded)
  {
    assert items[..i + 1] == items[..i] + [items[i]];
    assert i + 1 == |items| ==> items[..i + 1] == items;
  }

  /** A wanted row of any page of the listing is what the search is after. */
  lemma FoundOnPage(
    rows: map<string, Runtime>, f: Filter, list: seq<Runtime>, lo: nat, size: nat, i: nat, name: string,
    includeEnded: bool)
    requires IsListing(rows, f, list) && i < |Window(list, lo, lo + size)|
    requires Wanted(Window(list, lo, lo + size)[i], name, includeEnded)
    ensures IsFound(rows, f, name, includeEnded, Some(Window(list, lo, lo + size)[i]))
  {
    assert Window(list, lo, lo + size)[i] in list;
  }

  /** A page without a wanted row extends the part of the listing known to have none. */
  lemma NoneOnPage(list: seq<Runtime>, lo: nat, size: nat, name: string, includeEnded: bool)
    requires NoneWanted(list[..Upto(lo, list)], name, includeEnded)
    requires NoneWanted(Window(list, lo, lo + size), name, includeEnded)
    ensures NoneWanted(list[..Upto(lo + size, list)], name, includeEnded)
  {
    WindowsJoin(list, lo, size);
  }

  lemma NoneInListing(
    rows: map<string, Runtime>, f: Filter, list: seq<Runtime>, hi: nat, name: string, includeEnded: bool)
    requires IsListing(rows, f, list) && hi >= |list| && NoneWanted(list[..Upto(hi, list)], name, includeEnded)
    ensures IsFound(rows, f, name, includeEnded, None)
  {
    assert list[..Upto(hi, list)] == list;
  }

  /** What a search by name finds, in plain terms. */
  lemma FoundMeans(
    rows: map<string, Runtime>, userId: int, source: Option<Source>, name: string, includeEnded: bool,
    found: Option<Runtime>)
    requires KeyedById(rows) && IsFound(rows, Filter(userId, None, source), name, includeEnded, found)
    ensures match found
            case Some(r) =>
              && Stored(rows, r) && AskedFor(r, userId, None, source) && r.name == name && (includeEnded || Live(r))
            case None =>
              forall id :: id in rows && AskedFor(rows[id], userId, None, source) && rows[id].name == name ==>
                             !includeEnded && !Live(rows[id])
  {
    if found.None? {
      forall id | id in rows && AskedFor(rows[id], userId, None, source) && rows[id].name == name
        ensures !includeEnded && !Live(rows[id])
      {
        assert Stored(rows, rows[id]) && Matches(rows[id], Filter(userId, None, source));
      }
    }
  }
}
