/** The generated names of hosted runtimes. */
module HostedNames {
  import opened Calendar
  import opened Listing
  import opened RegistryState
  import opened Wrappers

  const ADJECTIVES: seq<string> := [
    "amber", "brisk", "calm", "clear", "fresh", "glad", "keen", "lucky", "nimble", "quiet", "rapid", "steady"]

  const NOUNS: seq<string> := [
    "atlas", "beacon", "canvas", "delta", "ember", "forge", "harbor", "ion", "juno", "kepler", "ledger", "matrix"]

  const TOTAL := 144

  predicate IsLowerAlnum(c: char) {
    'a' <= c <= 'z' || '0' <= c <= '9'
  }

  /** ^[a-z0-9][a-z0-9-]{1,46}[a-z0-9]$ */
  predicate ValidRuntimeName(name: string) {
    && 3 <= |name| <= 48
    && IsLowerAlnum(name[0]) && IsLowerAlnum(name[|name| - 1])
    && forall i :: 0 < i < |name| - 1 ==> IsLowerAlnum(name[i]) || name[i] == '-'
  }

  /** Whatever the name pattern admits, the table's own name check admits too. */
  lemma ValidNameIsStorable(name: string)
    requires ValidRuntimeName(name)
    ensures NameChecks(name)
  {
    forall i | 0 < i < |name| ensures IsAlnum(name[i]) || name[i] in {'.', '_', '-'} {
      assert i == |name| - 1 || IsLowerAlnum(name[i]) || name[i] == '-';
    }
  }

  function Hyphenated(adjective: string, noun: string): string {
    "hosted-" + adjective + "-" + noun
  }

  function HostedRuntimeNameForAttempt(attempt: int): string {
    var n := (if attempt < 0 then 0 else attempt) % TOTAL;
    Hyphenated(ADJECTIVES[n % 12], NOUNS[(n / 12) % 12])
  }

  predicate IsWord(w: string) {
    3 <= |w| <= 8 && forall i :: 0 <= i < |w| ==> 'a' <= w[i] <= 'z'
  }

  lemma WordsAreWords(k: int)
    requires 0 <= k < 12
    ensures IsWord(ADJECTIVES[k]) && IsWord(NOUNS[k])
  {
  }

  /** Every generated name is a valid runtime name. */
  lemma HostedNameIsValid(attempt: int)
    ensures ValidRuntimeName(HostedRuntimeNameForAttempt(attempt))
  {
    var n := (if attempt < 0 then 0 else attempt) % TOTAL;
    WordsAreWords(n % 12);
    WordsAreWords((n / 12) % 12);
    HyphenatedIsValid(ADJECTIVES[n % 12], NOUNS[(n / 12) % 12]);
  }

  lemma HyphenatedIsValid(a: string, b: string)
    requires IsWord(a) && IsWord(b)
    ensures ValidRuntimeName(Hyphenated(a, b))
  {
    var name := Hyphenated(a, b);
    assert name[|name| - 1] == b[|b| - 1];
    forall i | 0 < i < |name| - 1 ensures IsLowerAlnum(name[i]) || name[i] == '-' {
      if i < 7 {
        assert name[i] == "hosted-"[i];
      } else if i < 7 + |a| {
        assert name[i] == a[i - 7];
      } else if i > 7 + |a| {
        assert name[i] == b[i - 8 - |a|];
      }
    }
  }

  // ---- Different attempts, different names --------------------------------------------

  /** The lists are alphabetical, and two letters already tell their words apart. */
  function Letters(w: string): int
    requires IsWord(w)
  {
    (w[0] as int) * 256 + w[1] as int
  }

  lemma WordsAscend(k: int)
    requires 0 <= k < 11
    ensures IsWord(ADJECTIVES[k]) && IsWord(ADJECTIVES[k + 1]) && IsWord(NOUNS[k]) && IsWord(NOUNS[k + 1])
    ensures Letters(ADJECTIVES[k]) < Letters(ADJECTIVES[k + 1])
    ensures Letters(NOUNS[k]) < Letters(NOUNS[k + 1])
  {
    WordsAreWords(k);
    WordsAreWords(k + 1);
  }

  lemma {:induction false} WordsDiffer(j: int, k: int)
    requires 0 <= j < k < 12
    ensures IsWord(ADJECTIVES[j]) && IsWord(ADJECTIVES[k]) && Letters(ADJECTIVES[j]) < Letters(ADJECTIVES[k])
    ensures IsWord(NOUNS[j]) && IsWord(NOUNS[k]) && Letters(NOUNS[j]) < Letters(NOUNS[k])
    decreases k
  {
    WordsAscend(k - 1);
    if j < k - 1 {
      WordsDiffer(j, k - 1);
    }
  }

  lemma SameWordSameIndex(j: int, k: int)
    requires 0 <= j < 12 && 0 <= k < 12
    ensures ADJECTIVES[j] == ADJECTIVES[k] ==> j == k
    ensures NOUNS[j] == NOUNS[k] ==> j == k
  {
    if j < k { WordsDiffer(j, k); }
    if k < j { WordsDiffer(k, j); }
  }

  /** A hyphenated pair of words determines the words. */
  lemma HyphenationInjective(a: string, b: string, c: string, d: string)
    requires IsWord(a) && IsWord(b) && IsWord(c) && IsWord(d) && Hyphenated(a, b) == Hyphenated(c, d)
    ensures a == c && b == d
  {
    var x, y := Hyphenated(a, b), Hyphenated(c, d);
    HyphenAt(a, b);
    HyphenAt(c, d);
    assert |a| == |c|;
    assert a == x[7..7 + |a|] && c == y[7..7 + |a|];
    assert b == x[8 + |a|..] && d == y[8 + |a|..];
  }

  lemma HyphenAt(a: string, b: string)
    requires IsWord(a)
    ensures |Hyphenated(a, b)| > 7 + |a| && Hyphenated(a, b)[7 + |a|] == '-'
    ensures forall i :: 7 <= i < 7 + |a| ==> Hyphenated(a, b)[i] != '-'
  {
    forall i | 7 <= i < 7 + |a| ensures Hyphenated(a, b)[i] != '-' {
      assert Hyphenated(a, b)[i] == a[i - 7];
    }
  }

  lemma PairsDiffer(a: int, b: int, c: int, d: int)
    requires 0 <= a < 12 && 0 <= b < 12 && 0 <= c < 12 && 0 <= d < 12 && (a != c || b != d)
    ensures Hyphenated(ADJECTIVES[a], NOUNS[b]) != Hyphenated(ADJECTIVES[c], NOUNS[d])
  {
    WordsAreWords(a);
    WordsAreWords(b);
    WordsAreWords(c);
    WordsAreWords(d);
    SameWordSameIndex(a, c);
    SameWordSameIndex(b, d);
    assert ADJECTIVES[a] != ADJECTIVES[c] || NOUNS[b] != NOUNS[d];
    if Hyphenated(ADJECTIVES[a], NOUNS[b]) == Hyphenated(ADJECTIVES[c], NOUNS[d]) {
      HyphenationInjective(ADJECTIVES[a], NOUNS[b], ADJECTIVES[c], NOUNS[d]);
    }
  }

  lemma NameInRange(m: int)
    requires 0 <= m < TOTAL
    ensures 0 <= m / 12 < 12 && HostedRuntimeNameForAttempt(m) == Hyphenated(ADJECTIVES[m % 12], NOUNS[m / 12])
  {
    DivUnique(m, 0, m, TOTAL);
    DivUnique(m / 12, 0, m / 12, 12);
  }

  /** The adjective varies first: 144 names from "hosted-amber-atlas" to "hosted-steady-matrix". */
  lemma NamesInOrder()
    ensures HostedRuntimeNameForAttempt(0) == "hosted-amber-atlas"
    ensures HostedRuntimeNameForAttempt(1) == "hosted-brisk-atlas"
    ensures HostedRuntimeNameForAttempt(12) == "hosted-amber-beacon"
    ensures HostedRuntimeNameForAttempt(143) == "hosted-steady-matrix"
  {
    NameInRange(0);
    NameInRange(1);
    NameInRange(12);
    NameInRange(143);
  }

  /** The 144 names are pairwise different. */
  lemma HostedNamesDiffer(m: int, n: int)
    requires 0 <= m < TOTAL && 0 <= n < TOTAL && m != n
    ensures HostedRuntimeNameForAttempt(m) != HostedRuntimeNameForAttempt(n)
  {
    NameInRange(m);
    NameInRange(n);
    PairsDiffer(m % 12, m / 12, n % 12, n / 12);
  }

  lemma NameByResidue(m: nat, n: nat)
    requires m % TOTAL == n % TOTAL
    ensures HostedRuntimeNameForAttempt(m) == HostedRuntimeNameForAttempt(n)
  {
  }

  lemma ReachResidue(offset: nat, n: nat) returns (attempt: nat)
    requires n < TOTAL
    ensures attempt < TOTAL && (offset + attempt) % TOTAL == n % TOTAL
  {
    attempt := (n - offset) % TOTAL;
    DivUnique(offset + attempt, -((n - offset) / TOTAL), n, TOTAL);
    DivUnique(n, 0, n, TOTAL);
  }

  /** From any starting point, 144 consecutive attempts try every name. */
  lemma AttemptsReachEveryName(offset: nat, n: nat) returns (attempt: nat)
    requires n < TOTAL
    ensures attempt < TOTAL && HostedRuntimeNameForAttempt(offset + attempt) == HostedRuntimeNameForAttempt(n)
  {
    attempt := ReachResidue(offset, n);
    NameByResidue(offset + attempt, n);
  }

  ghost predicate Injective(f: int -> string, k: nat) {
    forall m, n :: 0 <= m < n < k ==> f(m) != f(n)
  }

  ghost function Image(f: int -> string, k: nat): set<string> {
    set n | 0 <= n < k :: f(n)
  }

  lemma {:induction false} ImageCount(f: int -> string, k: nat)
    requires Injective(f, k)
    ensures |Image(f, k)| == k
  {
    if k > 0 {
      ImageCount(f, k - 1);
      assert f(k - 1) !in Image(f, k - 1);
      assert Image(f, k) == Image(f, k - 1) + {f(k - 1)};
    }
  }

  // ---- Which names a user still has ---------------------------------------------------

  /** Some row of the user, live or ended, has the name. */
  predicate NameInUse(rows: map<string, Runtime>, userId: int, name: string) {
    exists id :: id in rows && rows[id].userId == userId && rows[id].name == name
  }

  ghost function RowsOf(rows: map<string, Runtime>, userId: int): set<string> {
    set id | id in rows && rows[id].userId == userId
  }

  /** Every name the attempts from `lo` up to `hi` produce is in use. */
  ghost predicate AllInUse(rows: map<string, Runtime>, userId: int, lo: nat, hi: nat) {
    forall a :: lo <= a < hi ==> NameInUse(rows, userId, HostedRuntimeNameForAttempt(a))
  }

  lemma NothingTried(rows: map<string, Runtime>, userId: int, lo: nat)
    ensures AllInUse(rows, userId, lo, lo)
  {
  }

  lemma OneMoreTried(rows: map<string, Runtime>, userId: int, lo: nat, hi: nat)
    requires lo <= hi && AllInUse(rows, userId, lo, hi)
    requires NameInUse(rows, userId, HostedRuntimeNameForAttempt(hi))
    ensures AllInUse(rows, userId, lo, hi + 1)
  {
  }

  /** Once 144 attempts have failed, wherever they began, every generated name is in use. */
  lemma AllTried(rows: map<string, Runtime>, userId: int, offset: nat)
    requires AllInUse(rows, userId, offset, offset + TOTAL)
    ensures AllInUse(rows, userId, 0, TOTAL)
  {
    forall n | 0 <= n < TOTAL ensures NameInUse(rows, userId, HostedRuntimeNameForAttempt(n)) {
      var a := AttemptsReachEveryName(offset, n);
    }
  }

  /** One free attempt shows that not every generated name is in use. */
  lemma FreeAttempt(rows: map<string, Runtime>, userId: int, attempt: nat)
    requires !NameInUse(rows, userId, HostedRuntimeNameForAttempt(attempt))
    ensures !AllInUse(rows, userId, 0, TOTAL)
  {
    var n := attempt % TOTAL;
    DivUnique(n, 0, n, TOTAL);
    NameByResidue(n, attempt);
  }

  /** A user whose every generated name is in use has at least 144 rows. */
  lemma ExhaustionNeedsRows(rows: map<string, Runtime>, userId: int)
    requires AllInUse(rows, userId, 0, TOTAL)
    ensures |RowsOf(rows, userId)| >= TOTAL
  {
    forall m, n | 0 <= m < n < TOTAL ensures HostedRuntimeNameForAttempt(m) != HostedRuntimeNameForAttempt(n) {
      HostedNamesDiffer(m, n);
    }
    ImagesNeedRows(HostedRuntimeNameForAttempt, TOTAL, rows, userId);
  }

  lemma ImagesNeedRows(f: int -> string, k: nat, rows: map<string, Runtime>, userId: int)
    requires Injective(f, k) && forall n :: 0 <= n < k ==> NameInUse(rows, userId, f(n))
    ensures |RowsOf(rows, userId)| >= k
  {
    ImageCount(f, k);
    NamesNeedRows(rows, Image(f, k), RowsOf(rows, userId));
  }

  lemma {:induction false} NamesNeedRows(rows: map<string, Runtime>, names: set<string>, ids: set<string>)
    requires forall w :: w in names ==> exists id :: id in ids && id in rows && rows[id].name == w
    ensures |ids| >= |names|
    decreases ids
  {
    if names != {} {
      var w :| w in names;
      var id :| id in ids && id in rows && rows[id].name == w;
      forall v | v in names - {w} ensures exists i :: i in ids - {id} && i in rows && rows[i].name == v {
        var i :| i in ids && i in rows && rows[i].name == v;
        assert i in ids - {id};
      }
      NamesNeedRows(rows, names - {w}, ids - {id});
    }
  }

  /** Searching every source and status for a name finds a row exactly when the name is in use. */
  lemma FoundIffInUse(rows: map<string, Runtime>, userId: int, name: string, found: Option<Runtime>)
    requires KeyedById(rows) && IsFound(rows, Filter(userId, None, None), name, true, found)
    ensures found.Some? <==> NameInUse(rows, userId, name)
  {
    forall id | id in rows && rows[id].userId == userId && rows[id].name == name
      ensures Stored(rows, rows[id]) && Matches(rows[id], Filter(userId, None, None)) && Wanted(rows[id], name, true)
    {
    }
  }

  /** No admission of the user is refused for a name that is not in use. */
  lemma FreeNameIsAdmitted(rows: map<string, Runtime>, rt: Runtime)
    requires !NameInUse(rows, rt.userId, rt.name) && ValidRuntimeName(rt.name)
    ensures !NameTaken(rows, rt) && NameChecks(rt.name)
  {
    ValidNameIsStorable(rt.name);
  }
}
