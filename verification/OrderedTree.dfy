/** The google/btree ordered set: a sequence kept strictly ascending under the order it was created with.
    Records that neither precede the other are the same key, so inserting one replaces the other. */
module OrderedTree {

  /** A strict weak order: what a btree `less` function has to be. */
  ghost predicate Order<T(!new)>(less: (T, T) -> bool) {
    && (forall a, b :: less(a, b) ==> !less(b, a))
    && (forall a, b, c {:trigger less(a, b), less(b, c)} :: less(a, b) && less(b, c) ==> less(a, c))
    && (forall a, b, c {:trigger less(a, b), less(b, c)} :: !less(a, b) && !less(b, c) ==> !less(a, c))
  }

  predicate SameKey<T>(less: (T, T) -> bool, a: T, b: T) {
    !less(a, b) && !less(b, a)
  }

  ghost predicate Sorted<T>(less: (T, T) -> bool, t: seq<T>) {
    forall i, j {:trigger less(t[i], t[j])} :: 0 <= i < j < |t| ==> less(t[i], t[j])
  }

  lemma SortedAt<T>(less: (T, T) -> bool, t: seq<T>, i: nat, j: nat)
    requires Sorted(less, t) && i < j < |t|
    ensures less(t[i], t[j])
  {
  }

  /** `lo` is the position of the first record that does not precede `x`. */
  ghost predicate IsLowerBound<T>(less: (T, T) -> bool, t: seq<T>, x: T, lo: nat) {
    && lo <= |t|
    && (forall j {:trigger less(t[j], x)} :: 0 <= j < lo ==> less(t[j], x))
    && (lo < |t| ==> !less(t[lo], x))
  }

  function LowerBound<T>(less: (T, T) -> bool, t: seq<T>, x: T): (lo: nat)
    ensures IsLowerBound(less, t, x, lo)
  {
    if t == [] || !less(t[0], x) then 0
    else
      var k := LowerBound(less, t[1..], x);
      assert forall j :: 0 < j < k + 1 ==> t[j] == t[1..][j - 1];
      1 + k
  }

  /** No record from the lower bound on precedes `x`. */
  lemma NotBelow<T(!new)>(less: (T, T) -> bool, t: seq<T>, x: T, lo: nat, k: nat)
    requires Order(less) && Sorted(less, t) && IsLowerBound(less, t, x, lo) && lo <= k < |t|
    ensures !less(t[k], x)
  {
    if lo < k {
      SortedAt(less, t, lo, k);
    }
  }

  /** Putting a record before a sorted run it precedes keeps the run sorted. */
  lemma SortedCons<T>(less: (T, T) -> bool, x: T, t: seq<T>)
    requires Sorted(less, t) && forall y :: y in t ==> less(x, y)
    ensures Sorted(less, [x] + t)
  {
    var s := [x] + t;
    forall i, j | 0 <= i < j < |s| ensures less(s[i], s[j]) {
      assert s[j] == t[j - 1];
    }
  }

  lemma SortedTail<T(!new)>(less: (T, T) -> bool, t: seq<T>)
    requires Sorted(less, t) && t != []
    ensures Sorted(less, t[1..])
    ensures forall y :: y in t[1..] ==> less(t[0], y)
    ensures forall y :: y in t <==> y == t[0] || y in t[1..]
  {
    assert t == [t[0]] + t[1..];
  }

  function ReplaceOrInsert<T(!new)>(less: (T, T) -> bool, t: seq<T>, x: T): (r: seq<T>)
    requires Order(less) && Sorted(less, t)
    ensures Sorted(less, r)
    ensures forall y :: y in r <==> y == x || (y in t && !SameKey(less, y, x))
  {
    if t == [] then [x]
    else
      SortedTail(less, t);
      if less(t[0], x) then
        var r := ReplaceOrInsert(less, t[1..], x);
        SortedCons(less, t[0], r);
        [t[0]] + r
      else if less(x, t[0]) then
        SortedCons(less, x, t);
        [x] + t
      else
        SortedCons(less, x, t[1..]);
        [x] + t[1..]
  }

  function Delete<T(!new)>(less: (T, T) -> bool, t: seq<T>, x: T): (r: seq<T>)
    requires Order(less) && Sorted(less, t)
    ensures Sorted(less, r)
    ensures forall y :: y in r <==> y in t && !SameKey(less, y, x)
  {
    if t == [] then []
    else
      SortedTail(less, t);
      if less(t[0], x) then
        var r := Delete(less, t[1..], x);
        SortedCons(less, t[0], r);
        [t[0]] + r
      else if less(x, t[0]) then t
      else t[1..]
  }
}
