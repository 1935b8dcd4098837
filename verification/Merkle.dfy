/** The block transaction tree: the last node of an odd level is duplicated. */
module Merkle {
  import opened Sorting
  import opened Digests

  type Hash = Bytes -> Digest

  // -------------------------------------------------------------------------
  // The root of a list
  // -------------------------------------------------------------------------

  function Pad(level: seq<Digest>): (p: seq<Digest>)
    ensures |p| % 2 == 0 && |level| <= |p| <= |level| + 1
  {
    if |level| % 2 == 1 then level + [level[|level| - 1]] else level
  }

  function Concat(a: Bytes, b: Bytes): Bytes { a + b }

  /** What is hashed for node `i` of the next level. */
  function Pair(level: seq<Digest>, i: nat): Bytes
    requires 2 * i + 1 < |Pad(level)|
  {
    Concat(Pad(level)[2 * i], Pad(level)[2 * i + 1])
  }

  function Next(h: Hash, level: seq<Digest>): (next: seq<Digest>)
    ensures |next| == (|level| + 1) / 2
    ensures forall i :: 0 <= i < |next| ==> next[i] == h(Pair(level, i))
  {
    seq<Digest>((|level| + 1) / 2, i requires 0 <= i < (|level| + 1) / 2 => h(Pair(level, i)))
  }

  function Top(h: Hash, level: seq<Digest>): Digest
    requires level != []
    decreases |level|
  {
    if |level| == 1 then level[0] else Top(h, Next(h, level))
  }

  function Leaves(h: Hash, texts: seq<Bytes>): (level: seq<Digest>)
    ensures |level| == |texts| && forall i :: 0 <= i < |texts| ==> level[i] == h(texts[i])
  {
    seq<Digest>(|texts|, i requires 0 <= i < |texts| => h(texts[i]))
  }

  function Root(h: Hash, texts: seq<Bytes>): Digest {
    if texts == [] then h([]) else Top(h, Leaves(h, texts))
  }

  /** The loop of the source: pushes the duplicate in place and folds the level pair by pair. */
  method MerkleRoot(h: Hash, texts: seq<Bytes>) returns (root: Digest)
    ensures root == Root(h, texts)
  {
    if texts == [] { return h([]); }
    var level := Leaves(h, texts);
    while |level| > 1
      invariant level != [] && Root(h, texts) == Top(h, level)
      decreases |level|
    {
      ghost var before := level;
      if |level| % 2 == 1 { level := level + [level[|level| - 1]]; }
      assert level == Pad(before);
      var next: seq<Digest> := [];
      for i := 0 to |level| / 2
        invariant |next| == i && forall j :: 0 <= j < i ==> next[j] == h(Pair(before, j))
      {
        next := next + [h(Concat(level[2 * i], level[2 * i + 1]))];
      }
      assert next == Next(h, before);
      level := next;
    }
    root := level[0];
  }

  // -------------------------------------------------------------------------
  // Binding
  // -------------------------------------------------------------------------

  ghost function PairInputs(level: seq<Digest>): set<Bytes> {
    set i | 0 <= i < (|level| + 1) / 2 :: Pair(level, i)
  }

  /** All inputs hashed above a level. */
  ghost function NodeInputs(h: Hash, level: seq<Digest>): set<Bytes>
    decreases |level|
  {
    if |level| <= 1 then {}
    else PairInputs(level) + NodeInputs(h, Next(h, level))
  }

  /** All inputs hashed for a list. */
  ghost function Inputs(h: Hash, texts: seq<Bytes>): set<Bytes> {
    (set i | 0 <= i < |texts| :: texts[i]) + {[]} + NodeInputs(h, Leaves(h, texts))
  }

  /** The inputs hashed for the next level are among these. */
  ghost predicate Covers(level: seq<Digest>, all: set<Bytes>) {
    PairInputs(level) <= all
  }

  lemma CoversPair(level: seq<Digest>, all: set<Bytes>, i: nat)
    requires Covers(level, all) && i < (|level| + 1) / 2
    ensures Pair(level, i) in all
  {
    assert Pair(level, i) in PairInputs(level);
  }

  /** The inputs hashed on all levels above are among these. */
  ghost predicate AllCovered(h: Hash, level: seq<Digest>, all: set<Bytes>)
    decreases |level|
  {
    |level| > 1 ==> Covers(level, all) && AllCovered(h, Next(h, level), all)
  }

  lemma {:induction false} InputsCover(h: Hash, level: seq<Digest>, all: set<Bytes>)
    requires NodeInputs(h, level) <= all
    ensures AllCovered(h, level, all)
    decreases |level|
  {
    if |level| > 1 {
      var here, above := PairInputs(level), NodeInputs(h, Next(h, level));
      assert NodeInputs(h, level) == here + above;
      assert here <= here + above && above <= here + above;
      InputsCover(h, Next(h, level), all);
    }
  }

  /** Splitting a pair gives back the two digests. */
  lemma ConcatHalves(a: Digest, b: Digest, c: Digest, d: Digest)
    requires Concat(a, b) == Concat(c, d)
    ensures a == c && b == d
  {
    assert Concat(a, b)[..32] == a && Concat(c, d)[..32] == c;
    assert Concat(a, b)[32..] == b && Concat(c, d)[32..] == d;
  }

  function Depth(n: nat): nat {
    if n <= 1 then 0 else 1 + Depth((n + 1) / 2)
  }

  // ---- The complete tree a list stands for -------------------------------------

  function Pow2(n: nat): (r: nat)
    ensures r >= 1
  {
    if n == 0 then 1 else 2 * Pow2(n - 1)
  }

  /** Which entry of a list of `n` sits at leaf `i` of the complete tree the duplications stand for. */
  function LeafIndex(n: nat, i: nat): (k: nat)
    requires n >= 1
    ensures k < n
    decreases n
  {
    if n == 1 then 0
    else
      var k := 2 * LeafIndex((n + 1) / 2, i / 2) + i % 2;
      if k < n then k else n - 1
  }

  /** The list written out to a full power of two, as the duplicated nodes repeat its entries. */
  function Filled<T>(x: seq<T>): (full: seq<T>)
    ensures x == [] ==> full == []
    ensures x != [] ==> |full| == Pow2(Depth(|x|)) && forall i :: 0 <= i < |full| ==> full[i] == x[LeafIndex(|x|, i)]
  {
    if x == [] then [] else seq<T>(Pow2(Depth(|x|)), i requires 0 <= i => x[LeafIndex(|x|, i)])
  }

  lemma PadAt(level: seq<Digest>, k: nat)
    requires k < |Pad(level)|
    ensures Pad(level)[k] == if k < |level| then level[k] else level[|level| - 1]
  {
  }

  lemma LeafIndexChildren(n: nat, i: nat)
    requires n > 1
    ensures var k := LeafIndex((n + 1) / 2, i);
      && LeafIndex(n, 2 * i) == 2 * k && LeafIndex(n, 2 * i + 1) == if 2 * k + 1 < n then 2 * k + 1 else n - 1
  {
    assert (2 * i) / 2 == i && (2 * i) % 2 == 0 && (2 * i + 1) / 2 == i && (2 * i + 1) % 2 == 1;
  }

  /** The two leaves below a node of the complete tree, as a digest pair. */
  function FilledPair(full: seq<Digest>, i: nat): Bytes
    requires 2 * i + 1 < |full|
  {
    Concat(full[2 * i], full[2 * i + 1])
  }

  lemma FilledRoom(level: seq<Digest>, i: nat)
    requires |level| > 1 && i < Pow2(Depth(|level|) - 1)
    ensures 2 * i + 1 < |Filled(level)|
  {
    assert Pow2(Depth(|level|)) == 2 * Pow2(Depth(|level|) - 1);
  }

  lemma PairAt(level: seq<Digest>, k: nat)
    requires k < (|level| + 1) / 2
    ensures 2 * k + 1 < |Pad(level)|
    ensures Pair(level, k) == Concat(level[2 * k], level[if 2 * k + 1 < |level| then 2 * k + 1 else |level| - 1])
  {
    PadAt(level, 2 * k);
    PadAt(level, 2 * k + 1);
  }

  lemma FilledNode(level: seq<Digest>, i: nat)
    requires |level| > 1 && i < Pow2(Depth(|level|) - 1)
    ensures 2 * i + 1 < |Filled(level)| && 2 * LeafIndex((|level| + 1) / 2, i) + 1 < |Pad(level)|
    ensures FilledPair(Filled(level), i) == Pair(level, LeafIndex((|level| + 1) / 2, i))
  {
    FilledRoom(level, i);
    LeafIndexChildren(|level|, i);
    PairAt(level, LeafIndex((|level| + 1) / 2, i));
  }

  /** Folding commutes with filling: the next level of the complete tree is the filled next level. */
  lemma FilledNext(h: Hash, level: seq<Digest>, i: nat)
    requires |level| > 1 && i < |Filled(Next(h, level))|
    ensures 2 * i + 1 < |Filled(level)| && Filled(Next(h, level))[i] == h(FilledPair(Filled(level), i))
  {
    FilledNode(level, i);
  }

  /** Lists that fill to the same complete tree have the same top, whatever the hash. */
  lemma {:induction false} SameFillSameTop(h: Hash, a: seq<Digest>, b: seq<Digest>)
    requires a != [] && b != [] && Depth(|a|) == Depth(|b|) && Filled(a) == Filled(b)
    ensures Top(h, a) == Top(h, b)
    decreases |a|
  {
    if |a| == 1 {
      assert a[0] == Filled(a)[0] && b[0] == Filled(b)[0];
    } else {
      SameFillNext(h, a, b);
      SameFillSameTop(h, Next(h, a), Next(h, b));
    }
  }

  lemma SameFillNext(h: Hash, a: seq<Digest>, b: seq<Digest>)
    requires |a| > 1 && |b| > 1 && Depth(|a|) == Depth(|b|) && Filled(a) == Filled(b)
    ensures Filled(Next(h, a)) == Filled(Next(h, b))
  {
    var x, y := Filled(Next(h, a)), Filled(Next(h, b));
    assert |x| == |y|;
    forall i | 0 <= i < |x| ensures x[i] == y[i] {
      FilledNext(h, a, i);
      FilledNext(h, b, i);
    }
  }

  /** Without collisions the top determines the complete tree. */
  lemma {:induction false} SameTopSameFill(h: Hash, a: seq<Digest>, b: seq<Digest>, all: set<Bytes>)
    requires a != [] && b != [] && Depth(|a|) == Depth(|b|) && Top(h, a) == Top(h, b)
    requires InjectiveOn(h, all) && AllCovered(h, a, all) && AllCovered(h, b, all)
    ensures Filled(a) == Filled(b)
    decreases |a|
  {
    if |a| > 1 {
      SameTopSameFill(h, Next(h, a), Next(h, b), all);
      ParentsAgree(h, a, b, all);
    }
  }

  predicate SamePair(x: seq<Digest>, y: seq<Digest>, n: nat) {
    2 * n + 1 < |x| && 2 * n + 1 < |y| && x[2 * n] == y[2 * n] && x[2 * n + 1] == y[2 * n + 1]
  }

  lemma SamePairsSameLevel(x: seq<Digest>, y: seq<Digest>, pairs: nat)
    requires |x| == |y| == 2 * pairs && forall n :: 0 <= n < pairs ==> SamePair(x, y, n)
    ensures x == y
  {
    forall i | 0 <= i < |x| ensures x[i] == y[i] {
      var n := i / 2;
      assert SamePair(x, y, n) && (i == 2 * n || i == 2 * n + 1);
    }
  }

  lemma ParentsAgree(h: Hash, a: seq<Digest>, b: seq<Digest>, all: set<Bytes>)
    requires |a| > 1 && |b| > 1 && Depth(|a|) == Depth(|b|) && Filled(Next(h, a)) == Filled(Next(h, b))
    requires InjectiveOn(h, all) && Covers(a, all) && Covers(b, all)
    ensures Filled(a) == Filled(b)
  {
    var pairs := |Filled(Next(h, a))|;
    assert |Filled(a)| == |Filled(b)| == 2 * pairs;
    forall n | 0 <= n < pairs ensures SamePair(Filled(a), Filled(b), n) {
      ParentAgrees(h, a, b, all, n);
    }
    SamePairsSameLevel(Filled(a), Filled(b), pairs);
  }

  lemma ParentAgrees(h: Hash, a: seq<Digest>, b: seq<Digest>, all: set<Bytes>, n: nat)
    requires |a| > 1 && |b| > 1 && Depth(|a|) == Depth(|b|) && Filled(Next(h, a)) == Filled(Next(h, b))
    requires InjectiveOn(h, all) && Covers(a, all) && Covers(b, all) && n < |Filled(Next(h, a))|
    ensures SamePair(Filled(a), Filled(b), n)
  {
    FilledNext(h, a, n);
    FilledNext(h, b, n);
    FilledCovered(a, all, n);
    FilledCovered(b, all, n);
    SameParentSamePair(h, Filled(a), Filled(b), all, n);
  }

  lemma SameParentSamePair(h: Hash, x: seq<Digest>, y: seq<Digest>, all: set<Bytes>, n: nat)
    requires 2 * n + 1 < |x| && 2 * n + 1 < |y| && InjectiveOn(h, all)
    requires FilledPair(x, n) in all && FilledPair(y, n) in all && h(FilledPair(x, n)) == h(FilledPair(y, n))
    ensures SamePair(x, y, n)
  {
    ConcatHalves(x[2 * n], x[2 * n + 1], y[2 * n], y[2 * n + 1]);
  }

  lemma FilledCovered(level: seq<Digest>, all: set<Bytes>, n: nat)
    requires |level| > 1 && Covers(level, all) && n < Pow2(Depth(|level|) - 1)
    ensures 2 * n + 1 < |Filled(level)| && FilledPair(Filled(level), n) in all
  {
    FilledNode(level, n);
    CoversPair(level, all, LeafIndex((|level| + 1) / 2, n));
  }

  // ---- Lists of different depth never share a root ---------------------------

  /** The inputs hashed on the way from a digest down to a leaf text, which is longer than a pair of digests. */
  ghost predicate Descends(h: Hash, all: set<Bytes>, d: Digest, chain: seq<Bytes>)
    decreases |chain|
  {
    && chain != [] && chain[0] in all && d == h(chain[0])
    && if |chain| == 1 then |chain[0]| > 64 else |chain[0]| == 64 && Descends(h, all, chain[0][..32], chain[1..])
  }

  /** A digest's height above the leaves is determined. */
  lemma {:induction false} OneHeight(h: Hash, all: set<Bytes>, d: Digest, x: seq<Bytes>, y: seq<Bytes>)
    requires InjectiveOn(h, all) && Descends(h, all, d, x) && Descends(h, all, d, y)
    ensures |x| == |y|
    decreases |x|
  {
    assert x[0] == y[0];
    if |x| > 1 { OneHeight(h, all, x[0][..32], x[1..], y[1..]); }
  }

  lemma {:induction false} TopDescends(h: Hash, level: seq<Digest>, all: set<Bytes>, chain: seq<Bytes>)
    returns (top: seq<Bytes>)
    requires level != [] && AllCovered(h, level, all) && Descends(h, all, level[0], chain)
    ensures Descends(h, all, Top(h, level), top) && |top| == |chain| + Depth(|level|)
    decreases |level|
  {
    top := chain;
    if |level| > 1 {
      CoversPair(level, all, 0);
      var pair := Pair(level, 0);
      assert pair[..32] == level[0];
      top := [pair] + chain;
      assert top[1..] == chain;
      top := TopDescends(h, Next(h, level), all, top);
    }
  }

  ghost predicate LongTexts(texts: seq<Bytes>) {
    forall i :: 0 <= i < |texts| ==> |texts[i]| > 64
  }

  lemma RootDescends(h: Hash, texts: seq<Bytes>, all: set<Bytes>) returns (top: seq<Bytes>)
    requires texts != [] && LongTexts(texts) && Inputs(h, texts) <= all
    ensures Descends(h, all, Root(h, texts), top) && |top| == 1 + Depth(|texts|)
  {
    assert texts[0] in Inputs(h, texts);
    InputsCover(h, Leaves(h, texts), all);
    top := TopDescends(h, Leaves(h, texts), all, [texts[0]]);
  }

  /** The empty list's root is no other list's. */
  lemma EmptyIsAlone(h: Hash, texts: seq<Bytes>, all: set<Bytes>)
    requires InjectiveOn(h, all) && [] in all && LongTexts(texts) && Inputs(h, texts) <= all
    ensures Root(h, texts) == h([]) ==> texts == []
  {
    if texts != [] { var top := RootDescends(h, texts, all); }
  }

  lemma FilledLeaves(h: Hash, texts: seq<Bytes>)
    ensures Leaves(h, Filled(texts)) == Filled(Leaves(h, texts))
  {
  }

  lemma {:induction false} Pow2Injective(m: nat, n: nat)
    requires Pow2(m) == Pow2(n)
    ensures m == n
    decreases m
  {
    if m > 0 && n > 0 { Pow2Injective(m - 1, n - 1); }
  }

  lemma LeavesAreBinding(h: Hash, x: seq<Bytes>, y: seq<Bytes>, all: set<Bytes>)
    requires InjectiveOn(h, all) && (forall t :: t in x ==> t in all) && (forall t :: t in y ==> t in all)
    requires Leaves(h, x) == Leaves(h, y)
    ensures x == y
  {
    forall i | 0 <= i < |x| ensures x[i] == y[i] {
      assert h(x[i]) == Leaves(h, x)[i] == h(y[i]);
      assert x[i] in x && y[i] in y;
    }
  }

  /** Whatever the hash, lists that fill to the same complete tree share their root. */
  lemma SameFillSameRoot(h: Hash, x: seq<Bytes>, y: seq<Bytes>)
    requires Filled(x) == Filled(y)
    ensures Root(h, x) == Root(h, y)
  {
    if x != [] && y != [] {
      Pow2Injective(Depth(|x|), Depth(|y|));
      FilledLeaves(h, x);
      FilledLeaves(h, y);
      SameFillSameTop(h, Leaves(h, x), Leaves(h, y));
    }
  }

  /** Main result: two lists of long leaf texts share a root exactly when they fill to the same complete tree. */
  lemma SharedRootIff(h: Hash, x: seq<Bytes>, y: seq<Bytes>)
    requires LongTexts(x) && LongTexts(y) && InjectiveOn(h, Inputs(h, x) + Inputs(h, y))
    ensures Root(h, x) == Root(h, y) <==> Filled(x) == Filled(y)
  {
    var all := Inputs(h, x) + Inputs(h, y);
    assert [] in Inputs(h, x);
    EmptyIsAlone(h, x, all);
    EmptyIsAlone(h, y, all);
    if Filled(x) == Filled(y) { SameFillSameRoot(h, x, y); }
    if Root(h, x) == Root(h, y) && x != [] && y != [] { SameRootSameFill(h, x, y, all); }
  }

  lemma SameRootSameFill(h: Hash, x: seq<Bytes>, y: seq<Bytes>, all: set<Bytes>)
    requires x != [] && y != [] && LongTexts(x) && LongTexts(y) && Root(h, x) == Root(h, y)
    requires InjectiveOn(h, all) && Inputs(h, x) <= all && Inputs(h, y) <= all
    ensures Filled(x) == Filled(y)
  {
    var p := RootDescends(h, x, all);
    var q := RootDescends(h, y, all);
    OneHeight(h, all, Root(h, x), p, q);
    InputsCover(h, Leaves(h, x), all);
    InputsCover(h, Leaves(h, y), all);
    SameTopSameFill(h, Leaves(h, x), Leaves(h, y), all);
    FilledLeaves(h, x);
    FilledLeaves(h, y);
    FilledInputs(h, x, all);
    FilledInputs(h, y, all);
    LeavesAreBinding(h, Filled(x), Filled(y), all);
  }

  lemma FilledInputs(h: Hash, x: seq<Bytes>, all: set<Bytes>)
    requires Inputs(h, x) <= all
    ensures forall t :: t in Filled(x) ==> t in all
  {
    forall t | t in Filled(x) ensures t in all {
      var i :| 0 <= i < |Filled(x)| && Filled(x)[i] == t;
      assert x[LeafIndex(|x|, i)] in Inputs(h, x);
    }
  }

  // ---- What sharing a complete tree means --------------------------------------

  lemma {:induction false} LeafIndexIdentity(n: nat, i: nat)
    requires i < n
    ensures LeafIndex(n, i) == i && n <= Pow2(Depth(n))
    decreases n
  {
    if n > 1 { LeafIndexIdentity((n + 1) / 2, i / 2); }
  }

  /** A list begins its complete tree. */
  lemma FilledBegins<T>(x: seq<T>)
    ensures x <= Filled(x)
  {
    if x != [] { LeafIndexIdentity(|x|, 0); }
    forall i | 0 <= i < |x| ensures x[i] == Filled(x)[i] {
      LeafIndexIdentity(|x|, i);
    }
  }

  /** A longer list with the same complete tree repeats an entry. */
  lemma LongerRepeats<T>(x: seq<T>, y: seq<T>)
    requires x != [] && |x| < |y| && Filled(x) == Filled(y)
    ensures !NoRepeats(y)
  {
    FilledBegins(x);
    FilledBegins(y);
    var n := |x|;
    var s := LeafIndex(n, n);
    assert y[n] == Filled(y)[n] == x[s] && x[s] == Filled(x)[s] == y[s];
  }

  /** Main result: lists of long leaf texts that share a root are equal, unless the longer one repeats an entry. */
  lemma MerkleBinding(h: Hash, x: seq<Bytes>, y: seq<Bytes>)
    requires LongTexts(x) && LongTexts(y) && InjectiveOn(h, Inputs(h, x) + Inputs(h, y))
    requires (|x| < |y| ==> NoRepeats(y)) && (|y| < |x| ==> NoRepeats(x))
    requires Root(h, x) == Root(h, y)
    ensures x == y
  {
    SharedRootIff(h, x, y);
    FilledBegins(x);
    FilledBegins(y);
    if 0 < |x| < |y| { LongerRepeats(x, y); }
    if 0 < |y| < |x| { LongerRepeats(y, x); }
    assert |x| == |y| ==> x == Filled(x)[..|x|] == y;
  }

  /** With an odd number of blocks of 2^k, one more block sits where the last one is repeated. */
  lemma {:induction false} LeafIndexRepeats(q: nat, k: nat, i: nat)
    requires q > 1 && q % 2 == 1
    ensures q * Pow2(k) >= 1 && (q + 1) * Pow2(k) >= 1
    ensures var n, m := LeafIndex(q * Pow2(k), i), LeafIndex((q + 1) * Pow2(k), i);
      n == if m < q * Pow2(k) then m else m - Pow2(k)
    decreases k
  {
    if k == 0 {
      OneMoreLeaf(q, i);
    } else {
      LeafIndexRepeats(q, k - 1, i / 2);
      BlocksDouble(q, k);
      BlocksDouble(q + 1, k);
      LeafIndexRepeatsDoubled(q * Pow2(k - 1), (q + 1) * Pow2(k - 1), Pow2(k - 1), i);
    }
  }

  lemma LeafIndexRepeatsDoubled(n: nat, m: nat, block: nat, i: nat)
    requires n >= 1 && m >= 1
    requires var k := LeafIndex(m, i / 2); LeafIndex(n, i / 2) == if k < n then k else k - block
    ensures var k := LeafIndex(2 * m, i); LeafIndex(2 * n, i) == if k < 2 * n then k else k - 2 * block
  {
    LeafIndexDoubles(n, i);
    LeafIndexDoubles(m, i);
  }

  lemma OneMoreLeaf(q: nat, i: nat)
    requires q > 1 && q % 2 == 1
    ensures LeafIndex(q, i) == if LeafIndex(q + 1, i) < q then LeafIndex(q + 1, i) else q - 1
  {
    assert (q + 2) / 2 == (q + 1) / 2;
  }

  lemma BlocksDouble(q: nat, k: nat)
    requires q >= 1 && k > 0
    ensures q * Pow2(k - 1) >= 1 && q * Pow2(k) == 2 * (q * Pow2(k - 1))
  {
  }

  lemma LeafIndexDoubles(m: nat, i: nat)
    requires m >= 1
    ensures LeafIndex(2 * m, i) == 2 * LeafIndex(m, i / 2) + i % 2
  {
    assert (2 * m + 1) / 2 == m;
  }

  lemma {:induction false} DepthOfBlocks(q: nat, k: nat)
    requires q >= 1
    ensures q * Pow2(k) >= 1 && Depth(q * Pow2(k)) == Depth(q) + k
    decreases k
  {
    if k > 0 {
      var a := q * Pow2(k - 1);
      DepthOfBlocks(q, k - 1);
      assert q * Pow2(k) == 2 * a && (2 * a + 1) / 2 == a;
    }
  }

  /**
   * Collisions on every level: an odd number of blocks of 2^k texts and the same list with its
   * last block repeated share a root, whatever the hash.
   */
  lemma RepeatedBlockCollides(h: Hash, x: seq<Bytes>, q: nat, k: nat)
    requires q > 1 && q % 2 == 1 && |x| == q * Pow2(k)
    ensures Pow2(k) <= |x| && Root(h, x + x[|x| - Pow2(k)..]) == Root(h, x)
  {
    var n, block := |x|, Pow2(k);
    BlockFits(q, block);
    var y := x + x[n - block..];
    DepthOfBlocks(q, k);
    DepthOfBlocks(q + 1, k);
    assert (q + 2) / 2 == (q + 1) / 2;
    BlocksRepeat(n, |y|, q, k);
    RepeatedBlockFills(x, y, block);
    SameFillSameRoot(h, x, y);
  }

  lemma BlockFits(q: nat, block: nat)
    requires q > 1
    ensures block <= q * block && (q + 1) * block == q * block + block
  {
  }

  /** With `m` entries, those from `n` on sit where with `n` entries the last block is repeated. */
  ghost predicate Repeats(n: nat, m: nat, block: nat)
    requires n >= 1 && m >= 1
  {
    forall i :: 0 <= i ==>
      LeafIndex(n, i) == if LeafIndex(m, i) < n then LeafIndex(m, i) else LeafIndex(m, i) - block
  }

  lemma RepeatedBlockFills<T>(x: seq<T>, y: seq<T>, block: nat)
    requires 0 < block <= |x| && y == x + x[|x| - block..]
    requires Depth(|x|) == Depth(|y|) && Repeats(|x|, |y|, block)
    ensures Filled(x) == Filled(y)
  {
    forall i | 0 <= i < |Filled(x)| ensures Filled(x)[i] == Filled(y)[i] {
      SameEntry(x, y, block, LeafIndex(|x|, i), LeafIndex(|y|, i));
    }
  }

  lemma BlocksRepeat(n: nat, m: nat, q: nat, k: nat)
    requires q > 1 && q % 2 == 1 && n == q * Pow2(k) >= 1 && m == (q + 1) * Pow2(k) >= 1
    ensures Repeats(n, m, Pow2(k))
  {
    forall i | 0 <= i
      ensures LeafIndex(n, i) == if LeafIndex(m, i) < n then LeafIndex(m, i) else LeafIndex(m, i) - Pow2(k)
    {
      LeafIndexRepeats(q, k, i);
    }
  }

  lemma SameEntry<T>(x: seq<T>, y: seq<T>, block: nat, a: nat, b: nat)
    requires 0 < block <= |x| && y == x + x[|x| - block..] && b < |y|
    requires a == if b < |x| then b else b - block
    ensures a < |x| && x[a] == y[b]
  {
  }

  /** On the lowest level: an odd list and the list with its last text repeated share a root. */
  lemma RepeatedLastCollides(h: Hash, x: seq<Bytes>)
    requires |x| > 1 && |x| % 2 == 1
    ensures Root(h, x + [x[|x| - 1]]) == Root(h, x)
  {
    assert Pow2(0) == 1 && x[|x| - 1..] == [x[|x| - 1]];
    RepeatedBlockCollides(h, x, |x|, 0);
  }

  /** Every list shares its root with the complete list it fills to. */
  lemma FilledKeepsRoot(h: Hash, x: seq<Bytes>)
    ensures Root(h, Filled(x)) == Root(h, x)
  {
    var full := Filled(x);
    if x != [] {
      var d := Depth(|x|);
      DepthOfBlocks(1, d);
      assert 1 * Pow2(d) == Pow2(d) == |full|;
      forall i | 0 <= i < |full| ensures Filled(full)[i] == full[i] {
        LeafIndexIdentity(|full|, i);
      }
      assert Filled(full) == full;
    }
    SameFillSameRoot(h, full, x);
  }

  // ---- The root by halves ---------------------------------------------------

  lemma EvenPair(level: seq<Digest>, i: nat)
    requires |level| % 2 == 0 && 2 * i + 1 < |level|
    ensures Pair(level, i) == Concat(level[2 * i], level[2 * i + 1])
  {
  }

  lemma NextHalves(h: Hash, level: seq<Digest>, half: nat)
    requires |level| == 4 * half
    ensures |Next(h, level)| == 2 * half
    ensures Next(h, level)[..half] == Next(h, level[..2 * half])
    ensures Next(h, level)[half..] == Next(h, level[2 * half..])
  {
    var left, right := level[..2 * half], level[2 * half..];
    forall i | 0 <= i < half ensures Pair(level, i) == Pair(left, i) {
      EvenPair(level, i);
      EvenPair(left, i);
    }
    forall i | 0 <= i < half ensures Pair(level, half + i) == Pair(right, i) {
      EvenPair(level, half + i);
      EvenPair(right, i);
    }
  }

  lemma {:induction false} TopHalves(h: Hash, level: seq<Digest>, k: nat)
    requires |level| == Pow2(k + 1)
    ensures Top(h, level) == h(Top(h, level[..Pow2(k)]) + Top(h, level[Pow2(k)..]))
    decreases k
  {
    if k == 0 {
      assert |Next(h, level)| == 1 && Next(h, level)[0] == h(Pair(level, 0));
    } else {
      NextHalves(h, level, Pow2(k - 1));
      TopHalves(h, Next(h, level), k - 1);
    }
  }

  /** The root of two texts is the hash of the left digest followed by the right one. */
  lemma RootOfTwo(h: Hash, a: Bytes, b: Bytes)
    ensures Root(h, [a, b]) == h(h(a) + h(b))
  {
    RootByHalves(h, [a, b], 0);
    assert [a, b][..1] == [a] && [a, b][1..] == [b];
  }

  /** The root of 2^(k+1) texts is the hash of the roots of its halves, left before right. */
  lemma RootByHalves(h: Hash, texts: seq<Bytes>, k: nat)
    requires |texts| == Pow2(k + 1)
    ensures Root(h, texts) == h(Root(h, texts[..Pow2(k)]) + Root(h, texts[Pow2(k)..]))
  {
    var half := Pow2(k);
    TopHalves(h, Leaves(h, texts), k);
    assert Leaves(h, texts)[..half] == Leaves(h, texts[..half]);
    assert Leaves(h, texts)[half..] == Leaves(h, texts[half..]);
  }

  /** The root of a complete tree of texts, from the top down. */
  function Tree(h: Hash, k: nat, texts: seq<Bytes>): Digest
    requires |texts| == Pow2(k)
  {
    if k == 0 then h(texts[0])
    else h(Tree(h, k - 1, texts[..Pow2(k - 1)]) + Tree(h, k - 1, texts[Pow2(k - 1)..]))
  }

  lemma {:induction false} TreeIsRoot(h: Hash, k: nat, texts: seq<Bytes>)
    requires |texts| == Pow2(k)
    ensures Tree(h, k, texts) == Root(h, texts)
  {
    if k > 0 {
      RootByHalves(h, texts, k - 1);
      TreeIsRoot(h, k - 1, texts[..Pow2(k - 1)]);
      TreeIsRoot(h, k - 1, texts[Pow2(k - 1)..]);
    }
  }

  /** Main result: the root of any list is that of the complete tree over the list it fills to. */
  lemma RootIsTree(h: Hash, texts: seq<Bytes>)
    requires texts != []
    ensures Root(h, texts) == Tree(h, Depth(|texts|), Filled(texts))
  {
    FilledKeepsRoot(h, texts);
    TreeIsRoot(h, Depth(|texts|), Filled(texts));
  }
}
