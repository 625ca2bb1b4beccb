/** Sorting by a comparison function, as sort.Slice does; any sorted permutation will do where the order leaves a
    choice. */
module Sorting {

  /** A three-way comparison that flips with its arguments and is transitive. */
  ghost predicate TotalPreorder<T(!new)>(cmp: (T, T) -> int) {
    && (forall a, b :: cmp(a, b) <= 0 <==> cmp(b, a) >= 0)
    && (forall a, b, c {:trigger Through(a, b, c)} :: Through(a, b, c) && cmp(a, b) <= 0 && cmp(b, c) <= 0 ==>
       cmp(a, c) <= 0)
  }

  /** Marks where transitivity is to be used. */
  predicate Through<T>(a: T, b: T, c: T) {
    true
  }

  lemma Transitive<T(!new)>(a: T, b: T, c: T, cmp: (T, T) -> int)
    requires TotalPreorder(cmp) && cmp(a, b) <= 0 && cmp(b, c) <= 0
    ensures cmp(a, c) <= 0 && (cmp(a, b) < 0 || cmp(b, c) < 0 ==> cmp(a, c) < 0)
  {
    assert Through(a, b, c) && Through(b, c, a) && Through(c, a, b);
  }

  ghost predicate Sorted<T>(s: seq<T>, cmp: (T, T) -> int) {
    forall i, j :: 0 <= i < j < |s| ==> cmp(s[i], s[j]) <= 0
  }

  function Insert<T>(x: T, s: seq<T>, cmp: (T, T) -> int): seq<T> {
    if s == [] || cmp(x, s[0]) <= 0 then [x] + s else [s[0]] + Insert(x, s[1..], cmp)
  }

  function Sort<T>(s: seq<T>, cmp: (T, T) -> int): seq<T> {
    if s == [] then [] else Insert(s[0], Sort(s[1..], cmp), cmp)
  }

  lemma {:induction false} InsertKeeps<T>(x: T, s: seq<T>, cmp: (T, T) -> int)
    ensures multiset(Insert(x, s, cmp)) == multiset(s) + multiset{x}
  {
    if !(s == [] || cmp(x, s[0]) <= 0) {
      InsertKeeps(x, s[1..], cmp);
      assert s == [s[0]] + s[1..];
    }
  }

  lemma FrontSorts<T(!new)>(x: T, s: seq<T>, cmp: (T, T) -> int)
    requires Sorted(s, cmp) && forall y :: y in s ==> cmp(x, y) <= 0
    ensures Sorted([x] + s, cmp)
  {
    var r := [x] + s;
    forall i, j | 0 <= i < j < |r| ensures cmp(r[i], r[j]) <= 0 {
      assert r[j] == s[j - 1] && s[j - 1] in s;
    }
  }

  lemma LeastFirst<T(!new)>(x: T, s: seq<T>, cmp: (T, T) -> int)
    requires TotalPreorder(cmp) && Sorted(s, cmp) && s != [] && cmp(x, s[0]) <= 0
    ensures forall y :: y in s ==> cmp(x, y) <= 0
  {
    forall y | y in s ensures cmp(x, y) <= 0 {
      var j :| 0 <= j < |s| && s[j] == y;
      if j > 0 {
        Transitive(x, s[0], s[j], cmp);
      }
    }
  }

  lemma {:induction false} InsertSorts<T(!new)>(x: T, s: seq<T>, cmp: (T, T) -> int)
    requires TotalPreorder(cmp) && Sorted(s, cmp)
    ensures Sorted(Insert(x, s, cmp), cmp)
  {
    if s == [] {
    } else if cmp(x, s[0]) <= 0 {
      LeastFirst(x, s, cmp);
      FrontSorts(x, s, cmp);
    } else {
      InsertSorts(x, s[1..], cmp);
      StillLeast(x, s, cmp);
      FrontSorts(s[0], Insert(x, s[1..], cmp), cmp);
    }
  }

  lemma StillLeast<T(!new)>(x: T, s: seq<T>, cmp: (T, T) -> int)
    requires TotalPreorder(cmp) && Sorted(s, cmp) && s != [] && cmp(x, s[0]) > 0
    ensures forall y :: y in Insert(x, s[1..], cmp) ==> cmp(s[0], y) <= 0
  {
    InsertKeeps(x, s[1..], cmp);
    forall y | y in Insert(x, s[1..], cmp) ensures cmp(s[0], y) <= 0 {
      assert y in multiset(Insert(x, s[1..], cmp));
      assert y == x || y in s[1..];
    }
  }

  lemma {:induction false} SortKeeps<T>(s: seq<T>, cmp: (T, T) -> int)
    ensures multiset(Sort(s, cmp)) == multiset(s)
  {
    if s != [] {
      SortKeeps(s[1..], cmp);
      InsertKeeps(s[0], Sort(s[1..], cmp), cmp);
      assert s == [s[0]] + s[1..];
    }
  }

  lemma {:induction false} SortSorts<T(!new)>(s: seq<T>, cmp: (T, T) -> int)
    requires TotalPreorder(cmp)
    ensures Sorted(Sort(s, cmp), cmp)
  {
    if s != [] {
      SortSorts(s[1..], cmp);
      InsertSorts(s[0], Sort(s[1..], cmp), cmp);
    }
  }

  lemma TailsAgree<T>(s: seq<T>, t: seq<T>)
    requires multiset(s) == multiset(t) && s != [] && t != [] && s[0] == t[0]
    ensures multiset(s[1..]) == multiset(t[1..])
  {
    assert s == [s[0]] + s[1..] && t == [t[0]] + t[1..];
    assert multiset(s[1..]) == multiset(s) - multiset{s[0]} && multiset(t[1..]) == multiset(t) - multiset{t[0]};
  }

  lemma FirstIsLeast<T(!new)>(s: seq<T>, t: seq<T>, cmp: (T, T) -> int)
    requires TotalPreorder(cmp) && Sorted(t, cmp) && multiset(s) == multiset(t) && s != []
    ensures t != [] && cmp(t[0], s[0]) <= 0
  {
    assert s[0] in multiset(t);
    var j :| 0 <= j < |t| && t[j] == s[0];
    assert cmp(s[0], s[0]) <= 0 <==> cmp(s[0], s[0]) >= 0;
  }

  /** Putting x between what is not above it and what is not below it. */
  lemma InsertedAt<T(!new)>(s: seq<T>, x: T, k: nat, cmp: (T, T) -> int)
    requires TotalPreorder(cmp) && Sorted(s, cmp) && k <= |s|
    requires (forall j :: 0 <= j < k ==> cmp(s[j], x) <= 0) && (k < |s| ==> cmp(x, s[k]) <= 0)
    ensures Sorted(s[..k] + [x] + s[k..], cmp)
  {
    forall j | k < j < |s| ensures cmp(x, s[j]) <= 0 {
      Transitive(x, s[k], s[j], cmp);
    }
    var r := s[..k] + [x] + s[k..];
    forall i, j | 0 <= i < j < |r| ensures cmp(r[i], r[j]) <= 0 {
      assert r[j] == if j < k then s[j] else if j == k then x else s[j - 1];
      assert r[i] == if i < k then s[i] else if i == k then x else s[i - 1];
    }
  }

  lemma InsertedKeeps<T>(s: seq<T>, x: T, k: nat)
    requires k <= |s|
    ensures multiset(s[..k] + [x] + s[k..]) == multiset(s) + multiset{x}
  {
    assert s == s[..k] + s[k..];
  }

  /** Two sorted permutations begin alike. */
  lemma FirstsAgree<T(!new)>(s: seq<T>, t: seq<T>, cmp: (T, T) -> int)
    requires TotalPreorder(cmp) && (forall a, b :: cmp(a, b) == 0 ==> a == b)
    requires Sorted(s, cmp) && Sorted(t, cmp) && multiset(s) == multiset(t) && s != []
    ensures t != [] && s[0] == t[0]
  {
    FirstIsLeast(s, t, cmp);
    FirstIsLeast(t, s, cmp);
  }

  lemma SortedTail<T>(s: seq<T>, cmp: (T, T) -> int)
    requires Sorted(s, cmp) && s != []
    ensures Sorted(s[1..], cmp)
  {
  }

  /** Where only equal things compare equal, there is one sorted permutation. */
  lemma {:induction false} SortedIsUnique<T(!new)>(s: seq<T>, t: seq<T>, cmp: (T, T) -> int)
    requires TotalPreorder(cmp) && (forall a, b :: cmp(a, b) == 0 ==> a == b)
    requires Sorted(s, cmp) && Sorted(t, cmp) && multiset(s) == multiset(t)
    ensures s == t
    decreases |s|
  {
    if s == [] {
      assert |t| == |multiset(t)| == |multiset(s)| == 0;
    } else {
      FirstsAgree(s, t, cmp);
      TailsAgree(s, t);
      SortedTail(s, cmp);
      SortedTail(t, cmp);
      SortedIsUnique(s[1..], t[1..], cmp);
      assert s == [s[0]] + s[1..] && t == [t[0]] + t[1..];
    }
  }

  /** One of each run of equals in a sorted list. */
  function Deduped<T>(s: seq<T>, cmp: (T, T) -> int): (d: seq<T>)
    ensures d == [] <==> s == []
  {
    if s == [] then []
    else
      var d, x := Deduped(s[..|s| - 1], cmp), s[|s| - 1];
      if d == [] || cmp(d[|d| - 1], x) != 0 then d + [x] else d
  }

  lemma DedupedNext<T>(s: seq<T>, i: nat, cmp: (T, T) -> int)
    requires 0 < i < |s|
    ensures var d := Deduped(s[..i], cmp);
            Deduped(s[..i + 1], cmp) == if cmp(d[|d| - 1], s[i]) != 0 then d + [s[i]] else d
  {
    assert s[..i + 1][..i] == s[..i];
  }

  ghost predicate Increasing<T>(s: seq<T>, cmp: (T, T) -> int) {
    forall i, j :: 0 <= i < j < |s| ==> cmp(s[i], s[j]) < 0
  }

  /** What is not below the last of an increasing list can be put behind it, unless it equals the last. */
  lemma OneMoreIncreases<T(!new)>(d: seq<T>, last: T, x: T, cmp: (T, T) -> int)
    requires TotalPreorder(cmp) && Increasing(d, cmp) && d != [] && cmp(d[|d| - 1], last) == 0 && cmp(last, x) <= 0
    ensures cmp(d[|d| - 1], x) <= 0
    ensures cmp(d[|d| - 1], x) != 0 ==> Increasing(d + [x], cmp)
  {
    Transitive(d[|d| - 1], last, x, cmp);
    if cmp(d[|d| - 1], x) != 0 {
      forall i | 0 <= i < |d| - 1 ensures cmp(d[i], x) < 0 {
        Transitive(d[i], d[|d| - 1], x, cmp);
      }
    }
  }

  lemma {:induction false} DedupedIncreases<T(!new)>(s: seq<T>, cmp: (T, T) -> int)
    requires TotalPreorder(cmp) && Sorted(s, cmp)
    ensures Increasing(Deduped(s, cmp), cmp)
    ensures s != [] ==> cmp(Deduped(s, cmp)[|Deduped(s, cmp)| - 1], s[|s| - 1]) == 0
  {
    if s != [] {
      var a, x := s[..|s| - 1], s[|s| - 1];
      DedupedIncreases(a, cmp);
      assert cmp(x, x) <= 0 <==> cmp(x, x) >= 0;
      if a != [] {
        assert cmp(a[|a| - 1], x) <= 0;
        OneMoreIncreases(Deduped(a, cmp), a[|a| - 1], x, cmp);
      }
    }
  }

  /** Something in d equals x. */
  ghost predicate HasEqual<T>(d: seq<T>, x: T, cmp: (T, T) -> int) {
    exists k :: 0 <= k < |d| && cmp(d[k], x) == 0
  }

  lemma StillHasEqual<T>(d: seq<T>, y: T, x: T, cmp: (T, T) -> int)
    requires HasEqual(d, x, cmp)
    ensures HasEqual(d + [y], x, cmp)
  {
    var k :| 0 <= k < |d| && cmp(d[k], x) == 0;
    assert (d + [y])[k] == d[k];
  }

  lemma {:induction false} DedupedKeeps<T(!new)>(s: seq<T>, cmp: (T, T) -> int)
    requires TotalPreorder(cmp) && Sorted(s, cmp)
    ensures forall d :: d in Deduped(s, cmp) ==> d in s
    ensures forall x :: x in s ==> HasEqual(Deduped(s, cmp), x, cmp)
  {
    if s != [] {
      var a, x := s[..|s| - 1], s[|s| - 1];
      var d, d' := Deduped(a, cmp), Deduped(s, cmp);
      assert s == a + [x];
      DedupedKeeps(a, cmp);
      assert HasEqual(d', x, cmp) by {
        DedupedIncreases(s, cmp);
      }
      forall y | y in a ensures HasEqual(d', y, cmp) {
        assert HasEqual(d, y, cmp);
        StillHasEqual(d, x, y, cmp);
      }
    }
  }
}

/** The order of registration entries and their deduplication. */
module EntryOrder {
  import opened Types
  import opened Sorting
  import Lex

  datatype Registration = Registration(
    spiffeId: string, parentId: string, x509SvidTtl: int, jwtSvidTtl: int, selectors: seq<Selector>,
        federatesWith: seq<string>, rest: string)

  function CompareSelector(a: Selector, b: Selector): int {
    var c := Lex.Compare(a.kind, b.kind);
    if c != 0 then c else Lex.Compare(a.value, b.value)
  }

  function CompareEach(a: seq<Selector>, b: seq<Selector>): int
    requires |a| == |b|
  {
    if a == [] then 0
    else if CompareSelector(a[0], b[0]) != 0 then CompareSelector(a[0], b[0])
    else CompareEach(a[1..], b[1..])
  }

  function CompareSelectors(a: seq<Selector>, b: seq<Selector>): int {
    if |a| < |b| then -1 else if |a| > |b| then 1 else CompareEach(a, b)
  }

  /** The loop over both lists at once. */
  method FirstDifference(a: seq<Selector>, b: seq<Selector>) returns (c: int)
    ensures c == CompareSelectors(a, b)
  {
    if |a| < |b| {
      return -1;
    }
    if |a| > |b| {
      return 1;
    }
    for i := 0 to |a|
      invariant CompareEach(a, b) == CompareEach(a[i..], b[i..])
    {
      assert a[i..][1..] == a[i + 1..] && b[i..][1..] == b[i + 1..];
      c := CompareSelector(a[i], b[i]);
      if c != 0 {
        return;
      }
    }
    c := 0;
  }

  function CompareRegistrations(a: Registration, b: Registration): int {
    if Lex.Compare(a.spiffeId, b.spiffeId) != 0 then Lex.Compare(a.spiffeId, b.spiffeId)
    else if Lex.Compare(a.parentId, b.parentId) != 0 then Lex.Compare(a.parentId, b.parentId)
    else if a.x509SvidTtl < b.x509SvidTtl then -1
    else if a.x509SvidTtl > b.x509SvidTtl then 1
    else if a.jwtSvidTtl < b.jwtSvidTtl then -1
    else if a.jwtSvidTtl > b.jwtSvidTtl then 1
    else CompareSelectors(a.selectors, b.selectors)
  }

  /** Which of two entries comes first: by SPIFFE ID, parent ID, X.509 TTL, JWT TTL, number of selectors and then the
      selectors. */
  ghost predicate ComesFirst(a: Registration, b: Registration) {
    if a.spiffeId != b.spiffeId then Lex.Less(a.spiffeId, b.spiffeId)
    else if a.parentId != b.parentId then Lex.Less(a.parentId, b.parentId)
    else if a.x509SvidTtl != b.x509SvidTtl then a.x509SvidTtl < b.x509SvidTtl
    else if a.jwtSvidTtl != b.jwtSvidTtl then a.jwtSvidTtl < b.jwtSvidTtl
    else if |a.selectors| != |b.selectors| then |a.selectors| < |b.selectors|
    else exists i: nat :: FirstLess(a.selectors, b.selectors, i)
  }

  /** The first selectors that differ are at i, and a's is the lower. */
  predicate FirstLess(a: seq<Selector>, b: seq<Selector>, i: nat) {
    && i < |a| && i < |b| && a[..i] == b[..i]
    && (Lex.Less(a[i].kind, b[i].kind) || (a[i].kind == b[i].kind && Lex.Less(a[i].value, b[i].value)))
  }

  lemma FirstLessBehind(a: seq<Selector>, b: seq<Selector>, i: nat)
    requires |a| == |b| && a != [] && a[0] == b[0]
    ensures FirstLess(a[1..], b[1..], i) <==> FirstLess(a, b, i + 1)
  {
    if i < |a| - 1 {
      assert a[..i + 1] == [a[0]] + a[1..][..i] && b[..i + 1] == [b[0]] + b[1..][..i];
      assert a[1..][..i] == a[..i + 1][1..] && b[1..][..i] == b[..i + 1][1..];
    }
  }

  lemma FirstLessHere(a: seq<Selector>, b: seq<Selector>, i: nat)
    requires |a| == |b| && a != [] && FirstLess(a, b, i)
    ensures a[0] == b[0] <==> i > 0
    ensures i == 0 ==> CompareSelector(a[0], b[0]) < 0
  {
    assert i > 0 ==> a[..i][0] == a[0] && b[..i][0] == b[0];
  }

  lemma {:induction false} EachIsFirstLess(a: seq<Selector>, b: seq<Selector>)
    requires |a| == |b|
    ensures CompareEach(a, b) < 0 <==> exists i: nat :: FirstLess(a, b, i)
  {
    if a != [] {
      EachIsFirstLess(a[1..], b[1..]);
      SelectorFlips(a[0], b[0]);
      if CompareEach(a, b) < 0 {
        if a[0] == b[0] {
          var i: nat :| FirstLess(a[1..], b[1..], i);
          FirstLessBehind(a, b, i);
        } else {
          assert FirstLess(a, b, 0);
        }
      }
      if i: nat :| FirstLess(a, b, i) {
        FirstLessHere(a, b, i);
        if i > 0 {
          FirstLessBehind(a, b, i - 1);
        }
      }
    }
  }

  /** Comparison puts exactly that one first. */
  lemma OrderedByFields(a: Registration, b: Registration)
    ensures CompareRegistrations(a, b) < 0 <==> ComesFirst(a, b)
  {
    if |a.selectors| == |b.selectors| {
      EachIsFirstLess(a.selectors, b.selectors);
    }
  }

  lemma SelectorFlips(a: Selector, b: Selector)
    ensures CompareSelector(b, a) == -CompareSelector(a, b) && (CompareSelector(a, b) == 0 <==> a == b)
  {
    Lex.CompareFlips(a.kind, b.kind);
    Lex.CompareFlips(a.value, b.value);
  }

  lemma SelectorTransitive(a: Selector, b: Selector, c: Selector)
    requires CompareSelector(a, b) <= 0 && CompareSelector(b, c) <= 0
    ensures CompareSelector(a, c) <= 0 && (CompareSelector(a, c) == 0 ==> a == b == c)
  {
    Lex.CompareTransitive(a.kind, b.kind, c.kind);
    if a.kind == b.kind == c.kind {
      Lex.CompareTransitive(a.value, b.value, c.value);
    }
  }

  lemma SelectorOrder()
    ensures TotalPreorder(CompareSelector) && forall a, b :: CompareSelector(a, b) == 0 ==> a == b
  {
    forall a, b ensures CompareSelector(a, b) <= 0 <==> CompareSelector(b, a) >= 0
                ensures CompareSelector(a, b) == 0 ==> a == b
    {
      SelectorFlips(a, b);
    }
    forall a, b, c | CompareSelector(a, b) <= 0 && CompareSelector(b, c) <= 0 ensures CompareSelector(a, c) <= 0 {
      SelectorTransitive(a, b, c);
    }
  }

  lemma {:induction false} EachFlips(a: seq<Selector>, b: seq<Selector>)
    requires |a| == |b|
    ensures CompareEach(b, a) == -CompareEach(a, b) && (CompareEach(a, b) == 0 <==> a == b)
  {
    if a != [] {
      SelectorFlips(a[0], b[0]);
      EachFlips(a[1..], b[1..]);
      assert a == [a[0]] + a[1..] && b == [b[0]] + b[1..];
    }
  }

  lemma {:induction false} EachTransitive(a: seq<Selector>, b: seq<Selector>, c: seq<Selector>)
    requires |a| == |b| == |c| && CompareEach(a, b) <= 0 && CompareEach(b, c) <= 0
    ensures CompareEach(a, c) <= 0
  {
    if a != [] {
      SelectorTransitive(a[0], b[0], c[0]);
      if a[0] == b[0] == c[0] {
        SelectorFlips(a[0], a[0]);
        EachTransitive(a[1..], b[1..], c[1..]);
      }
    }
  }

  lemma RegistrationFlips(a: Registration, b: Registration)
    ensures CompareRegistrations(b, a) == -CompareRegistrations(a, b)
  {
    Lex.CompareFlips(a.spiffeId, b.spiffeId);
    Lex.CompareFlips(a.parentId, b.parentId);
    if |a.selectors| == |b.selectors| {
      EachFlips(a.selectors, b.selectors);
    }
  }

  lemma RegistrationTransitive(a: Registration, b: Registration, c: Registration)
    requires CompareRegistrations(a, b) <= 0 && CompareRegistrations(b, c) <= 0
    ensures CompareRegistrations(a, c) <= 0
  {
    Lex.CompareTransitive(a.spiffeId, b.spiffeId, c.spiffeId);
    if a.spiffeId == b.spiffeId == c.spiffeId {
      Lex.CompareTransitive(a.parentId, b.parentId, c.parentId);
      if |a.selectors| == |b.selectors| == |c.selectors| && CompareEach(a.selectors, b.selectors) <= 0 &&
          CompareEach(b.selectors, c.selectors) <= 0 {
        EachTransitive(a.selectors, b.selectors, c.selectors);
      }
    }
  }

  /** compareRegistrationEntries is a total preorder, on all entries. */
  lemma RegistrationOrder()
    ensures TotalPreorder(CompareRegistrations)
  {
    forall a, b ensures CompareRegistrations(a, b) <= 0 <==> CompareRegistrations(b, a) >= 0 {
      RegistrationFlips(a, b);
    }
    forall a, b, c | CompareRegistrations(a, b) <= 0 && CompareRegistrations(b, c) <= 0
        ensures CompareRegistrations(a, c) <= 0 {
      RegistrationTransitive(a, b, c);
    }
  }

  /** What SortRegistrationEntries does to each entry. */
  function Normalized(r: Registration): Registration {
    r.(selectors := Sort(r.selectors, CompareSelector), federatesWith := Lex.Sort(r.federatesWith))
  }

  /** `d` is `x` with its selectors and its federated trust domains sorted, and otherwise the same. */
  ghost predicate SortedInside(x: Registration, d: Registration) {
    && d.spiffeId == x.spiffeId && d.parentId == x.parentId && d.rest == x.rest
    && d.x509SvidTtl == x.x509SvidTtl && d.jwtSvidTtl == x.jwtSvidTtl
    && Sorted(d.selectors, CompareSelector) && multiset(d.selectors) == multiset(x.selectors)
    && Lex.Ascending(d.federatesWith) && multiset(d.federatesWith) == multiset(x.federatesWith)
  }

  lemma NormalizedExactly(x: Registration)
    ensures SortedInside(x, Normalized(x))
  {
    SelectorOrder();
    SortSorts(x.selectors, CompareSelector);
    SortKeeps(x.selectors, CompareSelector);
  }

  lemma StringOrder()
    ensures TotalPreorder(Lex.Compare)
  {
    forall a, b ensures Lex.Compare(a, b) <= 0 <==> Lex.Compare(b, a) >= 0 {
      Lex.CompareFlips(a, b);
    }
    forall a, b, c | Lex.Compare(a, b) <= 0 && Lex.Compare(b, c) <= 0 ensures Lex.Compare(a, c) <= 0 {
      Lex.CompareTransitive(a, b, c);
    }
  }

  lemma NormalizedTwice(r: Registration)
    ensures Normalized(Normalized(r)) == Normalized(r)
  {
    SelectorOrder();
    SortSorts(r.selectors, CompareSelector);
    var s := Sort(r.selectors, CompareSelector);
    SortSorts(s, CompareSelector);
    SortKeeps(s, CompareSelector);
    SortedIsUnique(Sort(s, CompareSelector), s, CompareSelector);
    StringOrder();
    var f := Lex.Sort(r.federatesWith);
    SortedIsUnique(Lex.Sort(f), f, Lex.Compare);
  }

  /** The same registration: same IDs and TTLs, and the same selectors in whatever order. */
  predicate Same(a: Registration, b: Registration) {
    && a.spiffeId == b.spiffeId && a.parentId == b.parentId && a.x509SvidTtl == b.x509SvidTtl &&
       a.jwtSvidTtl == b.jwtSvidTtl
    && multiset(a.selectors) == multiset(b.selectors)
  }

  lemma NormalizedIsSame(a: Registration)
    ensures Same(a, Normalized(a))
  {
    SortKeeps(a.selectors, CompareSelector);
  }

  lemma SortedSelectorsAgree(a: seq<Selector>, b: seq<Selector>)
    ensures Sort(a, CompareSelector) == Sort(b, CompareSelector) <==> multiset(a) == multiset(b)
  {
    SelectorOrder();
    SortSorts(a, CompareSelector);
    SortSorts(b, CompareSelector);
    SortKeeps(a, CompareSelector);
    SortKeeps(b, CompareSelector);
    if multiset(a) == multiset(b) {
      SortedIsUnique(Sort(a, CompareSelector), Sort(b, CompareSelector), CompareSelector);
    }
  }

  lemma SelectorsEqual(a: seq<Selector>, b: seq<Selector>)
    ensures CompareSelectors(a, b) == 0 <==> a == b
  {
    if |a| == |b| {
      EachFlips(a, b);
    }
  }

  /** Once their selectors are sorted, two entries compare equal if and only if they are the same registration. */
  lemma EqualMeansSame(a: Registration, b: Registration)
    ensures CompareRegistrations(Normalized(a), Normalized(b)) == 0 <==> Same(a, b)
  {
    SortedSelectorsAgree(a.selectors, b.selectors);
    SelectorsEqual(Normalized(a).selectors, Normalized(b).selectors);
  }

  function AllNormalized(rs: seq<Registration>): (ns: seq<Registration>)
    ensures |ns| == |rs| && forall i :: 0 <= i < |rs| ==> ns[i] == Normalized(rs[i])
  {
    seq(|rs|, i requires 0 <= i < |rs| => Normalized(rs[i]))
  }

  /** `out` has exactly one of each registration in `inputs`, its selectors sorted, in strictly increasing order. */
  ghost predicate Distinct(inputs: seq<Registration>, out: seq<Registration>) {
    && Increasing(out, CompareRegistrations)
    && (forall d :: d in out ==> exists x :: x in inputs && d == Normalized(x))
    && (forall x :: x in inputs ==> Represented(x, out))
  }

  ghost predicate Represented(x: Registration, out: seq<Registration>) {
    exists k :: 0 <= k < |out| && Same(x, out[k]) && forall j :: 0 <= j < |out| && Same(x, out[j]) ==> j == k
  }

  lemma NormalizedMembers(inputs: seq<Registration>, sorted: seq<Registration>)
    requires multiset(sorted) == multiset(AllNormalized(inputs))
    ensures forall d :: d in sorted ==> exists x :: x in inputs && d == Normalized(x)
    ensures forall x :: x in inputs ==> Normalized(x) in sorted
  {
    var ns := AllNormalized(inputs);
    forall d | d in sorted ensures exists x :: x in inputs && d == Normalized(x) {
      assert d in multiset(sorted) && d in multiset(ns);
      var i :| 0 <= i < |ns| && ns[i] == d;
      assert inputs[i] in inputs;
    }
    forall x | x in inputs ensures Normalized(x) in sorted {
      var i :| 0 <= i < |inputs| && inputs[i] == x;
      assert ns[i] in multiset(ns) && Normalized(x) in multiset(sorted);
    }
  }

  /** For every sorted permutation the sort may have come up with. */
  lemma DedupIsExact(inputs: seq<Registration>, sorted: seq<Registration>)
    requires Sorted(sorted, CompareRegistrations) && multiset(sorted) == multiset(AllNormalized(inputs))
    ensures Distinct(inputs, Deduped(sorted, CompareRegistrations))
  {
    RegistrationOrder();
    DedupedIncreases(sorted, CompareRegistrations);
    DedupedKeeps(sorted, CompareRegistrations);
    NormalizedMembers(inputs, sorted);
    var out := Deduped(sorted, CompareRegistrations);
    forall x | x in inputs ensures Represented(x, out) {
      assert Normalized(x) in sorted && HasEqual(out, Normalized(x), CompareRegistrations);
      var k :| 0 <= k < |out| && CompareRegistrations(out[k], Normalized(x)) == 0;
      OnlyOne(x, out, k, inputs);
    }
  }

  lemma DistinctIsSorted(inputs: seq<Registration>, out: seq<Registration>)
    requires Distinct(inputs, out)
    ensures forall d :: d in out ==> exists x :: x in inputs && SortedInside(x, d)
  {
    forall d | d in out ensures exists x :: x in inputs && SortedInside(x, d) {
      var x :| x in inputs && d == Normalized(x);
      NormalizedExactly(x);
    }
  }

  lemma OnlyOne(x: Registration, out: seq<Registration>, k: nat, inputs: seq<Registration>)
    requires Increasing(out, CompareRegistrations) && k < |out| && CompareRegistrations(out[k], Normalized(x)) == 0
    requires forall d :: d in out ==> exists z :: z in inputs && d == Normalized(z)
    ensures Represented(x, out)
  {
    assert out[k] in out;
    var y :| y in inputs && out[k] == Normalized(y);
    EqualMeansSame(y, x);
    NormalizedIsSame(y);
    forall j | 0 <= j < |out| && Same(x, out[j]) ensures j == k {
      assert out[j] in out;
      var z :| z in inputs && out[j] == Normalized(z);
      NormalizedIsSame(z);
      EqualMeansSame(y, z);
      EqualMeansSame(z, y);
    }
  }

  class RegistrationEntry {
    var reg: Registration

    constructor (reg: Registration)
      ensures this.reg == reg
    {
      this.reg := reg;
    }
  }

  ghost function Regs(es: seq<RegistrationEntry>): (rs: seq<Registration>)
    reads set e | e in es
    ensures |rs| == |es| && forall i :: 0 <= i < |es| ==> rs[i] == es[i].reg
  {
    seq(|es|, i requires 0 <= i < |es| reads set e | e in es => es[i].reg)
  }

  method CloneRegistrationEntries(entries: seq<RegistrationEntry>) returns (cloned: seq<RegistrationEntry>)
    ensures Regs(cloned) == Regs(entries)
    ensures forall e :: e in cloned ==> fresh(e)
  {
    cloned := [];
    for i := 0 to |entries|
      invariant |cloned| == i && forall k :: 0 <= k < i ==> cloned[k].reg == entries[k].reg
      invariant forall e :: e in cloned ==> fresh(e)
    {
      var clone := new RegistrationEntry(entries[i].reg);
      cloned := cloned + [clone];
    }
  }

  lemma RegsConcat(a: seq<RegistrationEntry>, b: seq<RegistrationEntry>)
    ensures Regs(a + b) == Regs(a) + Regs(b)
  {
  }

  lemma RegsSlices(es: seq<RegistrationEntry>, k: nat)
    requires k <= |es|
    ensures Regs(es[..k]) == Regs(es)[..k] && Regs(es[k..]) == Regs(es)[k..]
  {
  }

  /** Changes each entry in place; one that is in the list twice is changed twice, which must make no difference. */
  method ChangeAll(entries: seq<RegistrationEntry>, f: Registration -> Registration)
    requires forall e :: e in entries ==> f(f(e.reg)) == f(e.reg)
    modifies set e | e in entries
    ensures forall k :: 0 <= k < |entries| ==> entries[k].reg == f(old(entries[k].reg))
  {
    for i := 0 to |entries|
      invariant forall k :: 0 <= k < i ==> entries[k].reg == f(old(entries[k].reg))
      invariant forall k :: 0 <= k < |entries| ==>
                entries[k].reg == old(entries[k].reg) || entries[k].reg == f(old(entries[k].reg))
    {
      entries[i].reg := f(entries[i].reg);
    }
  }

  /** Sorts the lists inside each entry, in place. */
  method SortInside(entries: seq<RegistrationEntry>)
    modifies set e | e in entries
    ensures Regs(entries) == AllNormalized(old(Regs(entries)))
  {
    forall r ensures Normalized(Normalized(r)) == Normalized(r) {
      NormalizedTwice(r);
    }
    ChangeAll(entries, Normalized);
  }

  method SortRegistrationEntries(entries: seq<RegistrationEntry>) returns (sorted: seq<RegistrationEntry>)
    modifies set e | e in entries
    ensures forall e :: e in sorted ==> e in entries
    ensures Sorted(Regs(sorted), CompareRegistrations) &&
            multiset(Regs(sorted)) == multiset(AllNormalized(old(Regs(entries))))
  {
    SortInside(entries);
    sorted := SortSlice(entries);
  }

  method SortSlice(entries: seq<RegistrationEntry>) returns (sorted: seq<RegistrationEntry>)
    ensures forall e :: e in sorted ==> e in entries
    ensures Sorted(Regs(sorted), CompareRegistrations) && multiset(Regs(sorted)) == multiset(Regs(entries))
  {
    sorted := [];
    for i := 0 to |entries|
      invariant forall e :: e in sorted ==> e in entries
      invariant Sorted(Regs(sorted), CompareRegistrations) && multiset(Regs(sorted)) == multiset(Regs(entries)[..i])
    {
      assert Regs(entries)[..i + 1] == Regs(entries)[..i] + [entries[i].reg];
      sorted := InsertEntry(sorted, entries[i]);
    }
    assert Regs(entries)[..|entries|] == Regs(entries);
  }

  method InsertEntry(sorted: seq<RegistrationEntry>, e: RegistrationEntry) returns (r: seq<RegistrationEntry>)
    requires Sorted(Regs(sorted), CompareRegistrations)
    ensures forall x :: x in r ==> x == e || x in sorted
    ensures Sorted(Regs(r), CompareRegistrations) && multiset(Regs(r)) == multiset(Regs(sorted)) + multiset{e.reg}
  {
    var k := Position(sorted, e);
    r := sorted[..k] + [e] + sorted[k..];
    RegsInserted(sorted, e, k);
    InsertedSorts(Regs(sorted), e.reg, k);
  }

  lemma RegsInserted(sorted: seq<RegistrationEntry>, e: RegistrationEntry, k: nat)
    requires k <= |sorted|
    ensures Regs(sorted[..k] + [e] + sorted[k..]) == Regs(sorted)[..k] + [e.reg] + Regs(sorted)[k..]
  {
    RegsConcat(sorted[..k] + [e], sorted[k..]);
    RegsConcat(sorted[..k], [e]);
    RegsSlices(sorted, k);
    assert Regs([e]) == [e.reg];
  }

  lemma InsertedSorts(rs: seq<Registration>, r: Registration, k: nat)
    requires Sorted(rs, CompareRegistrations) && k <= |rs|
    requires forall j :: 0 <= j < k ==> CompareRegistrations(rs[j], r) <= 0
    requires k < |rs| ==> CompareRegistrations(r, rs[k]) <= 0
    ensures Sorted(rs[..k] + [r] + rs[k..], CompareRegistrations) &&
            multiset(rs[..k] + [r] + rs[k..]) == multiset(rs) + multiset{r}
  {
    RegistrationOrder();
    InsertedAt(rs, r, k, CompareRegistrations);
    InsertedKeeps(rs, r, k);
  }

  method Position(sorted: seq<RegistrationEntry>, e: RegistrationEntry) returns (k: nat)
    ensures k <= |sorted| && forall j :: 0 <= j < k ==> CompareRegistrations(Regs(sorted)[j], e.reg) <= 0
    ensures k < |sorted| ==> CompareRegistrations(e.reg, Regs(sorted)[k]) <= 0
  {
    k := 0;
    while k < |sorted| && CompareRegistrations(sorted[k].reg, e.reg) <= 0
      invariant 0 <= k <= |sorted|
      invariant forall j :: 0 <= j < k ==> CompareRegistrations(Regs(sorted)[j], e.reg) <= 0
    {
      k := k + 1;
    }
    if k < |sorted| {
      RegistrationFlips(sorted[k].reg, e.reg);
    }
  }

  /** The entries of a sorted list, without those that equal the one before. */
  method DedupSorted(sorted: seq<RegistrationEntry>) returns (deduped: seq<RegistrationEntry>)
    requires |sorted| > 0
    ensures Regs(deduped) == Deduped(Regs(sorted), CompareRegistrations) && forall e :: e in deduped ==> e in sorted
  {
    deduped := [sorted[0]];
    ghost var rs := Regs(sorted);
    assert rs[..1] == [rs[0]] && rs[..1][..0] == [];
    for i := 1 to |sorted|
      invariant |deduped| > 0 && Regs(deduped) == Deduped(rs[..i], CompareRegistrations)
      invariant forall e :: e in deduped ==> e in sorted
    {
      DedupedNext(rs, i, CompareRegistrations);
      if CompareRegistrations(deduped[|deduped| - 1].reg, sorted[i].reg) != 0 {
        RegsConcat(deduped, [sorted[i]]);
        assert Regs([sorted[i]]) == [rs[i]];
        deduped := deduped + [sorted[i]];
      }
    }
    assert rs[..|sorted|] == rs;
  }

  lemma SameSize(a: seq<Registration>, b: seq<Registration>)
    requires multiset(a) == multiset(b)
    ensures |a| == |b|
  {
    assert |a| == |multiset(a)| && |b| == |multiset(b)|;
  }

  method DedupInPlace(entries: seq<RegistrationEntry>) returns (deduped: seq<RegistrationEntry>)
    requires |entries| > 0
    modifies set e | e in entries
    ensures Distinct(old(Regs(entries)), Regs(deduped)) && forall e :: e in deduped ==> e in entries
  {
    var sorted := SortRegistrationEntries(entries);
    SameSize(Regs(sorted), AllNormalized(old(Regs(entries))));
    deduped := DedupSorted(sorted);
    DedupIsExact(old(Regs(entries)), Regs(sorted));
  }

  /** Exactly one of each registration, in strictly increasing order; the entries given are left as they are. */
  method DedupRegistrationEntries(entries: seq<RegistrationEntry>) returns (deduped: seq<RegistrationEntry>)
    ensures Distinct(Regs(entries), Regs(deduped))
    ensures forall d :: d in Regs(deduped) ==> exists x :: x in Regs(entries) && SortedInside(x, d)
    ensures forall e :: e in deduped ==> fresh(e)
  {
    if |entries| == 0 {
      return [];
    }
    var cloned := CloneRegistrationEntries(entries);
    deduped := DedupInPlace(cloned);
    DistinctIsSorted(Regs(entries), Regs(deduped));
  }
}
