/** A stable insertion sort over any strict weak order, and uniqueness of sorted permutations. */
module Sorting {
  ghost predicate NoRepeats<T>(s: seq<T>) {
    forall i, j :: 0 <= i < j < |s| ==> s[i] != s[j]
  }

  ghost predicate StrictWeakOrder<T(!new)>(less: (T, T) -> bool) {
    && (forall x, y :: !(less(x, y) && less(y, x)))
    && (forall x, y, z :: !less(y, x) && !less(z, y) ==> !less(z, x))
  }

  ghost predicate Sorted<T>(less: (T, T) -> bool, q: seq<T>) {
    forall i, j :: 0 <= i < j < |q| ==> !less(q[j], q[i])
  }

  function Insert<T>(less: (T, T) -> bool, q: seq<T>, x: T): seq<T> {
    if q == [] || !less(x, q[|q| - 1]) then q + [x]
    else Insert(less, q[..|q| - 1], x) + [q[|q| - 1]]
  }

  function SortBy<T>(less: (T, T) -> bool, q: seq<T>): seq<T> {
    if q == [] then [] else Insert(less, SortBy(less, q[..|q| - 1]), q[|q| - 1])
  }

  lemma {:induction false} InsertKeeps<T>(less: (T, T) -> bool, q: seq<T>, x: T)
    ensures multiset(Insert(less, q, x)) == multiset(q) + multiset{x}
  {
    if q != [] && less(x, q[|q| - 1]) {
      InsertKeeps(less, q[..|q| - 1], x);
      assert q == q[..|q| - 1] + [q[|q| - 1]];
    }
  }

  lemma {:induction false} InsertSorts<T(!new)>(less: (T, T) -> bool, q: seq<T>, x: T)
    requires StrictWeakOrder(less) && Sorted(less, q)
    ensures Sorted(less, Insert(less, q, x))
  {
    if q != [] && less(x, q[|q| - 1]) {
      var init, last := q[..|q| - 1], q[|q| - 1];
      InsertSorts(less, init, x);
      InsertKeeps(less, init, x);
      var r := Insert(less, init, x);
      forall i | 0 <= i < |r| ensures !less(last, r[i]) {
        assert r[i] in multiset(r);
        if r[i] != x {
          assert r[i] in multiset(init);
          var k :| 0 <= k < |init| && init[k] == r[i];
          assert q[k] == init[k];
        }
      }
    }
  }

  lemma {:induction false} SortBySorts<T(!new)>(less: (T, T) -> bool, q: seq<T>)
    requires StrictWeakOrder(less)
    ensures Sorted(less, SortBy(less, q)) && multiset(SortBy(less, q)) == multiset(q)
  {
    if q != [] {
      var init, last := q[..|q| - 1], q[|q| - 1];
      SortBySorts(less, init);
      InsertSorts(less, SortBy(less, init), last);
      InsertKeeps(less, SortBy(less, init), last);
      LastCounted(q);
    }
  }

  lemma LastCounted<T>(q: seq<T>)
    requires q != []
    ensures multiset(q) == multiset(q[..|q| - 1]) + multiset{q[|q| - 1]}
  {
    assert q == q[..|q| - 1] + [q[|q| - 1]];
  }

  lemma SameMembers<T>(q: seq<T>, q': seq<T>)
    requires multiset(q) == multiset(q')
    ensures |q| == |q'| && forall x :: x in q <==> x in q'
  {
    assert |multiset(q)| == |q| && |multiset(q')| == |q'|;
    assert forall x :: x in q <==> x in multiset(q);
    assert forall x :: x in q' <==> x in multiset(q');
  }

  lemma CountedTwice<T>(t: seq<T>, i: nat, j: nat)
    requires i < j < |t|
    ensures t[i] == t[j] ==> multiset(t)[t[i]] >= 2
  {
    assert t == t[..i] + [t[i]] + t[i + 1..j] + [t[j]] + t[j + 1..];
  }

  lemma RemoveHead<T>(q: seq<T>, q': seq<T>)
    requires q != [] && q' != [] && q[0] == q'[0] && multiset(q) == multiset(q')
    ensures multiset(q[1..]) == multiset(q'[1..])
  {
    assert q == [q[0]] + q[1..] && q' == [q'[0]] + q'[1..];
    assert multiset(q[1..]) == multiset(q) - multiset{q[0]};
    assert multiset(q'[1..]) == multiset(q') - multiset{q'[0]};
  }

  ghost predicate Separates<T>(less: (T, T) -> bool, q: seq<T>) {
    forall i, j :: 0 <= i < |q| && 0 <= j < |q| && q[i] != q[j] ==> less(q[i], q[j]) || less(q[j], q[i])
  }

  /** Where the order separates distinct elements, a multiset has one sorted arrangement. */
  lemma {:induction false} SortedIsUnique<T(!new)>(less: (T, T) -> bool, q: seq<T>, q': seq<T>)
    requires Sorted(less, q) && Sorted(less, q') && multiset(q) == multiset(q') && Separates(less, q)
    ensures q == q'
    decreases |q|
  {
    SameMembers(q, q');
    if q != [] {
      assert q'[0] in q && q[0] in q';
      var i :| 0 <= i < |q| && q[i] == q'[0];
      var j :| 0 <= j < |q'| && q'[j] == q[0];
      assert q[0] == q'[0];
      RemoveHead(q, q');
      SortedIsUnique(less, q[1..], q'[1..]);
      assert q == [q[0]] + q[1..] && q' == [q'[0]] + q'[1..];
    }
  }

  /** A sorted list stays as it is. */
  lemma {:induction false} SortedStays<T>(less: (T, T) -> bool, q: seq<T>)
    requires Sorted(less, q)
    ensures SortBy(less, q) == q
    decreases |q|
  {
    if q != [] {
      var init, last := q[..|q| - 1], q[|q| - 1];
      SortedStays(less, init);
      assert init != [] ==> !less(last, init[|init| - 1]);
      assert Insert(less, init, last) == init + [last] == q;
    }
  }

  /** Lexicographic comparison; on UTF-16 units it is what `compareCanonicalStrings` does. */
  predicate LexLess(a: seq<int>, b: seq<int>) {
    b != [] && (a == [] || a[0] < b[0] || (a[0] == b[0] && LexLess(a[1..], b[1..])))
  }

  lemma {:induction false} LexTotal(a: seq<int>, b: seq<int>)
    ensures a == b || LexLess(a, b) || LexLess(b, a)
    ensures !(LexLess(a, b) && LexLess(b, a))
    ensures a == b ==> !LexLess(a, b)
  {
    if a != [] && b != [] {
      LexTotal(a[1..], b[1..]);
      assert a == [a[0]] + a[1..] && b == [b[0]] + b[1..];
    }
  }

  lemma {:induction false} LexTransitive(a: seq<int>, b: seq<int>, c: seq<int>)
    requires LexLess(a, b) && LexLess(b, c)
    ensures LexLess(a, c)
  {
    if a != [] && a[0] == b[0] == c[0] {
      LexTransitive(a[1..], b[1..], c[1..]);
    }
  }

  /** `a` is a proper beginning of `b`, or smaller where they first differ. */
  ghost predicate FirstSmaller(a: seq<int>, b: seq<int>) {
    exists k :: 0 <= k < |b| && k <= |a| && a[..k] == b[..k] && (k == |a| || a[k] < b[k])
  }

  lemma {:induction false} LexLessIs(a: seq<int>, b: seq<int>)
    ensures LexLess(a, b) <==> FirstSmaller(a, b)
    decreases |a|
  {
    if a != [] && b != [] {
      LexLessIs(a[1..], b[1..]);
      FirstSmallerNext(a, b);
    } else if b != [] {
      assert a[..0] == b[..0];
    }
  }

  lemma FirstSmallerNext(a: seq<int>, b: seq<int>)
    requires a != [] && b != []
    ensures FirstSmaller(a, b) <==> a[0] < b[0] || (a[0] == b[0] && FirstSmaller(a[1..], b[1..]))
  {
    if a[0] < b[0] { assert a[..0] == b[..0]; }
    if FirstSmaller(a, b) && !(a[0] < b[0]) { FirstSmallerTail(a, b); }
    if a[0] == b[0] && FirstSmaller(a[1..], b[1..]) {
      var c, d := a[1..], b[1..];
      var k :| 0 <= k < |d| && k <= |c| && c[..k] == d[..k] && (k == |c| || c[k] < d[k]);
      assert a[..k + 1] == [a[0]] + c[..k] && b[..k + 1] == [b[0]] + d[..k];
    }
  }

  lemma FirstSmallerTail(a: seq<int>, b: seq<int>)
    requires a != [] && b != [] && FirstSmaller(a, b) && !(a[0] < b[0])
    ensures a[0] == b[0] && FirstSmaller(a[1..], b[1..])
  {
    var k :| 0 <= k < |b| && k <= |a| && a[..k] == b[..k] && (k == |a| || a[k] < b[k]);
    assert a[0] == a[..k][0] && b[0] == b[..k][0];
    assert a[1..][..k - 1] == a[..k][1..] && b[1..][..k - 1] == b[..k][1..];
  }
}
