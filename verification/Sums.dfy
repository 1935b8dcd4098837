/** Sums of a weight over a sequence. */
module Sums {
  function Sum<T>(s: seq<T>, w: T -> int): int {
    if s == [] then 0 else Sum(s[..|s| - 1], w) + w(s[|s| - 1])
  }

  lemma SumSnoc<T>(s: seq<T>, x: T, w: T -> int)
    ensures Sum(s + [x], w) == Sum(s, w) + w(x)
  {
    assert (s + [x])[..|s|] == s;
  }

  lemma {:induction false} SumAppend<T>(s: seq<T>, t: seq<T>, w: T -> int)
    ensures Sum(s + t, w) == Sum(s, w) + Sum(t, w)
    decreases |t|
  {
    if t == [] {
      assert s + t == s;
    } else {
      var init, last := t[..|t| - 1], t[|t| - 1];
      SumAppend(s, init, w);
      SumSnoc(s + init, last, w);
      assert s + t == s + init + [last];
    }
  }

  lemma {:induction false} SumNonNegative<T>(s: seq<T>, w: T -> int)
    requires forall x :: x in s ==> w(x) >= 0
    ensures Sum(s, w) >= 0
    decreases |s|
  {
    if s != [] { SumNonNegative(s[..|s| - 1], w); }
  }

  lemma SumWithout<T>(s: seq<T>, k: nat, w: T -> int)
    requires k < |s|
    ensures Sum(s, w) == Sum(s[..k] + s[k + 1..], w) + w(s[k])
  {
    assert s == s[..k] + [s[k]] + s[k + 1..];
    SumAround(s[..k], s[k], s[k + 1..], w);
  }

  lemma SumAround<T>(a: seq<T>, x: T, b: seq<T>, w: T -> int)
    ensures Sum(a + [x] + b, w) == Sum(a + b, w) + w(x)
  {
    SumAppend(a + [x], b, w);
    SumSnoc(a, x, w);
    SumAppend(a, b, w);
  }

  /** Different elements of `t` weigh together at most what all of `t` weighs. */
  lemma {:induction false} SumOfSome<T>(s: seq<T>, t: seq<T>, w: T -> int)
    requires forall i, j :: 0 <= i < j < |s| ==> s[i] != s[j]
    requires forall x :: x in s ==> x in t
    requires forall x :: x in t ==> w(x) >= 0
    ensures Sum(s, w) <= Sum(t, w)
    decreases |s|
  {
    if s == [] {
      SumNonNegative(t, w);
    } else {
      var init, last := s[..|s| - 1], s[|s| - 1];
      assert last in s;
      var k :| 0 <= k < |t| && t[k] == last;
      var rest := t[..k] + t[k + 1..];
      forall x | x in init ensures x in rest {
        var i :| 0 <= i < |init| && init[i] == x;
        assert s[i] == x && x in s;
        var j :| 0 <= j < |t| && t[j] == x;
        assert j != k;
        assert rest[if j < k then j else j - 1] == x;
      }
      SumOfSome(init, rest, w);
      SumWithout(t, k, w);
    }
  }
}
