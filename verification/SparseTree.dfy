/**
 * The 256-level authenticated key/value tree of State v2 as a mathematical
 * object: the root of a key/value assignment, and what a chain of sibling
 * hashes says about one key.
 */
module SparseTree {
  import opened Digests
  import opened Quorum

  const DEPTH := 256

  /** What gets hashed: five domain prefixes keep the five kinds apart. */
  datatype Input =
    | KeyIn(text: string)
    | ValueIn(text: string)
    | LeafIn(keyHash: Digest, valueHash: Digest)
    | EmptyIn
    | BranchIn(left: Digest, right: Digest)

  type Hash = Input -> Digest

  type Assignment = Digest -> Option<Digest>

  // -------------------------------------------------------------------------
  // Bits of a key, most significant first
  // -------------------------------------------------------------------------

  predicate BitOf(x: bv8, i: nat)
    requires i < 8
  {
    match i
    case 0 => x & 128 != 0
    case 1 => x & 64 != 0
    case 2 => x & 32 != 0
    case 3 => x & 16 != 0
    case 4 => x & 8 != 0
    case 5 => x & 4 != 0
    case 6 => x & 2 != 0
    case 7 => x & 1 != 0
  }

  /** The bits of a byte are its binary digits, the highest first. */
  lemma BitsAre(x: bv8)
    ensures x as int ==
      (if BitOf(x, 0) then 128 else 0) + (if BitOf(x, 1) then 64 else 0)
      + (if BitOf(x, 2) then 32 else 0) + (if BitOf(x, 3) then 16 else 0)
      + (if BitOf(x, 4) then 8 else 0) + (if BitOf(x, 5) then 4 else 0)
      + (if BitOf(x, 6) then 2 else 0) + (if BitOf(x, 7) then 1 else 0)
  {
  }

  predicate Bit(k: Digest, d: nat)
    requires d < DEPTH
  {
    BitOf(k[d / 8], d % 8)
  }

  lemma ByteFromBits(x: bv8, y: bv8)
    requires BitOf(x, 0) == BitOf(y, 0) && BitOf(x, 1) == BitOf(y, 1)
    requires BitOf(x, 2) == BitOf(y, 2) && BitOf(x, 3) == BitOf(y, 3)
    requires BitOf(x, 4) == BitOf(y, 4) && BitOf(x, 5) == BitOf(y, 5)
    requires BitOf(x, 6) == BitOf(y, 6) && BitOf(x, 7) == BitOf(y, 7)
    ensures x == y
  {
  }

  /** The path from the root that leads to a key. */
  function Path(k: Digest, n: nat): (p: seq<bool>)
    requires n <= DEPTH
    ensures |p| == n && forall i :: 0 <= i < n ==> p[i] == Bit(k, i)
  {
    if n == 0 then [] else Path(k, n - 1) + [Bit(k, n - 1)]
  }

  /** A key lies below a tree position. */
  ghost predicate Below(k: Digest, p: seq<bool>) {
    |p| <= DEPTH && Path(k, |p|) == p
  }

  lemma PathPrefix(k: Digest, m: nat, n: nat)
    requires m <= n <= DEPTH
    ensures Path(k, n)[..m] == Path(k, m)
  {
  }

  lemma BitAtByte(k: Digest, j: nat, i: nat)
    requires j < 32 && i < 8
    ensures Bit(k, 8 * j + i) == BitOf(k[j], i)
  {
    assert (8 * j + i) / 8 == j && (8 * j + i) % 8 == i;
  }

  /** Keys with the same 256 bits are the same key. */
  lemma SamePathSameKey(k: Digest, l: Digest)
    requires Path(k, DEPTH) == Path(l, DEPTH)
    ensures k == l
  {
    forall j | 0 <= j < 32 ensures k[j] == l[j] {
      forall i | 0 <= i < 8 ensures BitOf(k[j], i) == BitOf(l[j], i) {
        BitAtByte(k, j, i);
        BitAtByte(l, j, i);
        assert Path(k, DEPTH)[8 * j + i] == Path(l, DEPTH)[8 * j + i];
      }
      ByteFromBits(k[j], l[j]);
    }
  }

  lemma BelowChild(k: Digest, p: seq<bool>, b: bool)
    requires |p| < DEPTH
    ensures Below(k, p + [b]) <==> Below(k, p) && Bit(k, |p|) == b
  {
    assert (p + [b])[..|p|] == p;
    if Below(k, p + [b]) { PathPrefix(k, |p|, |p| + 1); }
  }

  // -------------------------------------------------------------------------
  // The root of an assignment
  // -------------------------------------------------------------------------

  function AnswerHash(h: Hash, k: Digest, answer: Option<Digest>): Digest {
    match answer
    case None => h(EmptyIn)
    case Some(v) => h(LeafIn(k, v))
  }

  /** The key at a full-length position. */
  ghost function KeyAt(p: seq<bool>): Digest
    requires |p| == DEPTH && exists k :: Below(k, p)
  {
    var k :| Below(k, p); k
  }

  lemma KeyAtIs(k: Digest)
    ensures Below(k, Path(k, DEPTH)) && KeyAt(Path(k, DEPTH)) == k
  {
    assert Below(k, Path(k, DEPTH));
    SamePathSameKey(KeyAt(Path(k, DEPTH)), k);
  }

  /** The hash of the subtree at a position, every level written out. */
  ghost function NodeHash(h: Hash, m: Assignment, p: seq<bool>): Digest
    requires |p| <= DEPTH
    decreases DEPTH - |p|
  {
    if |p| < DEPTH then h(BranchIn(NodeHash(h, m, p + [false]), NodeHash(h, m, p + [true])))
    else if exists k :: Below(k, p) then AnswerHash(h, KeyAt(p), m(KeyAt(p)))
    else h(EmptyIn)
  }

  ghost function Root(h: Hash, m: Assignment): Digest { NodeHash(h, m, []) }

  lemma LeafHash(h: Hash, m: Assignment, k: Digest)
    ensures NodeHash(h, m, Path(k, DEPTH)) == AnswerHash(h, k, m(k))
  {
    KeyAtIs(k);
  }

  /** A subtree's hash depends only on the keys below it. */
  lemma {:induction false} NodeHashLocal(h: Hash, m: Assignment, n: Assignment, p: seq<bool>)
    requires |p| <= DEPTH && forall k :: Below(k, p) ==> m(k) == n(k)
    ensures NodeHash(h, m, p) == NodeHash(h, n, p)
    decreases DEPTH - |p|
  {
    if |p| < DEPTH {
      forall k, b | Below(k, p + [b]) ensures m(k) == n(k) {
        BelowChild(k, p, b);
      }
      NodeHashLocal(h, m, n, p + [false]);
      NodeHashLocal(h, m, n, p + [true]);
    }
  }

  function EmptyHash(h: Hash, d: nat): Digest
    requires d <= DEPTH
    decreases DEPTH - d
  {
    if d == DEPTH then h(EmptyIn) else h(BranchIn(EmptyHash(h, d + 1), EmptyHash(h, d + 1)))
  }

  lemma {:induction false} EmptySubtree(h: Hash, m: Assignment, p: seq<bool>)
    requires |p| <= DEPTH && forall k :: Below(k, p) ==> m(k) == None
    ensures NodeHash(h, m, p) == EmptyHash(h, |p|)
    decreases DEPTH - |p|
  {
    if |p| < DEPTH {
      forall k, b | Below(k, p + [b]) ensures m(k) == None {
        BelowChild(k, p, b);
      }
      EmptySubtree(h, m, p + [false]);
      EmptySubtree(h, m, p + [true]);
    }
  }

  function Join(h: Hash, bit: bool, child: Digest, sibling: Digest): Digest {
    if bit then h(BranchIn(sibling, child)) else h(BranchIn(child, sibling))
  }

  /** The hash of a subtree holding one leaf. */
  function LoneLeaf(h: Hash, k: Digest, v: Digest, d: nat): Digest
    requires d <= DEPTH
    decreases DEPTH - d
  {
    if d == DEPTH then h(LeafIn(k, v)) else Join(h, Bit(k, d), LoneLeaf(h, k, v, d + 1), EmptyHash(h, d + 1))
  }

  lemma {:induction false} LoneLeafSubtree(h: Hash, m: Assignment, k: Digest, v: Digest, p: seq<bool>)
    requires Below(k, p) && m(k) == Some(v) && forall l :: Below(l, p) && l != k ==> m(l) == None
    ensures NodeHash(h, m, p) == LoneLeaf(h, k, v, |p|)
    decreases DEPTH - |p|
  {
    if |p| == DEPTH {
      LeafHash(h, m, k);
    } else {
      var b := Bit(k, |p|);
      BelowChild(k, p, b);
      forall l | Below(l, p + [!b]) ensures m(l) == None {
        BelowChild(l, p, !b);
      }
      forall l | Below(l, p + [b]) && l != k ensures m(l) == None {
        BelowChild(l, p, b);
      }
      EmptySubtree(h, m, p + [!b]);
      LoneLeafSubtree(h, m, k, v, p + [b]);
    }
  }

  // -------------------------------------------------------------------------
  // Sibling chains
  // -------------------------------------------------------------------------

  /** The hash at level `d` of a key's path, rebuilt from the leaf hash and the siblings below. */
  function PathHash(h: Hash, k: Digest, siblings: seq<Digest>, leaf: Digest, d: nat): Digest
    requires |siblings| == DEPTH && d <= DEPTH
    decreases DEPTH - d
  {
    if d == DEPTH then leaf else Join(h, Bit(k, d), PathHash(h, k, siblings, leaf, d + 1), siblings[d])
  }

  function PathInput(h: Hash, k: Digest, siblings: seq<Digest>, leaf: Digest, d: nat): Input
    requires |siblings| == DEPTH && d < DEPTH
  {
    var child := PathHash(h, k, siblings, leaf, d + 1);
    if Bit(k, d) then BranchIn(siblings[d], child) else BranchIn(child, siblings[d])
  }

  /** The branch inputs hashed while rebuilding a root. */
  function PathInputs(h: Hash, k: Digest, siblings: seq<Digest>, leaf: Digest): set<Input>
    requires |siblings| == DEPTH
  {
    set d: nat | d < DEPTH :: PathInput(h, k, siblings, leaf, d)
  }

  lemma PathHashStep(h: Hash, k: Digest, siblings: seq<Digest>, leaf: Digest, d: nat)
    requires |siblings| == DEPTH && d < DEPTH
    ensures PathHash(h, k, siblings, leaf, d) == h(PathInput(h, k, siblings, leaf, d))
    ensures PathInput(h, k, siblings, leaf, d) in PathInputs(h, k, siblings, leaf)
  {
  }

  /** Two chains for one key that rebuild the same root start from the same leaf hash. */
  lemma {:induction false} ChainsAgree(h: Hash, k: Digest, s: seq<Digest>, t: seq<Digest>, a: Digest, b: Digest, d: nat)
    requires |s| == DEPTH && |t| == DEPTH && d <= DEPTH
    requires InjectiveOn(h, PathInputs(h, k, s, a) + PathInputs(h, k, t, b))
    requires PathHash(h, k, s, a, d) == PathHash(h, k, t, b, d)
    ensures a == b
    decreases DEPTH - d
  {
    if d < DEPTH {
      PathHashStep(h, k, s, a, d);
      PathHashStep(h, k, t, b, d);
      ChainsAgree(h, k, s, t, a, b, d + 1);
    }
  }

  /** The hash beside a key's path just below level `d`. */
  ghost function SiblingHash(h: Hash, m: Assignment, k: Digest, d: nat): Digest
    requires d < DEPTH
  {
    NodeHash(h, m, Path(k, d) + [!Bit(k, d)])
  }

  /** These are the siblings of a key's path from level `d` on. */
  ghost predicate Beside(h: Hash, m: Assignment, k: Digest, d: nat, s: seq<Digest>) {
    d + |s| <= DEPTH && forall i :: 0 <= i < |s| ==> s[i] == SiblingHash(h, m, k, d + i)
  }

  lemma BesideSnoc(h: Hash, m: Assignment, k: Digest, d: nat, s: seq<Digest>, x: Digest)
    requires Beside(h, m, k, d, s) && d + |s| < DEPTH && x == SiblingHash(h, m, k, d + |s|)
    ensures Beside(h, m, k, d, s + [x])
  {
  }

  lemma BesideAppend(h: Hash, m: Assignment, k: Digest, s: seq<Digest>, t: seq<Digest>)
    requires Beside(h, m, k, 0, s) && Beside(h, m, k, |s|, t)
    ensures Beside(h, m, k, 0, s + t)
  {
  }

  /** The siblings a tree really has along a key's path. */
  ghost function TrueSiblings(h: Hash, m: Assignment, k: Digest): (s: seq<Digest>)
    ensures |s| == DEPTH && Beside(h, m, k, 0, s)
  {
    SiblingsTo(h, m, k, DEPTH)
  }

  ghost function SiblingsTo(h: Hash, m: Assignment, k: Digest, n: nat): (s: seq<Digest>)
    requires n <= DEPTH
    ensures |s| == n && Beside(h, m, k, 0, s)
  {
    if n == 0 then [] else SiblingsTo(h, m, k, n - 1) + [SiblingHash(h, m, k, n - 1)]
  }

  lemma BesideIsTrue(h: Hash, m: Assignment, k: Digest, s: seq<Digest>)
    requires Beside(h, m, k, 0, s) && |s| == DEPTH
    ensures s == TrueSiblings(h, m, k)
  {
  }

  /** The true siblings rebuild the true root, at every level. */
  lemma {:induction false} TrueChain(h: Hash, m: Assignment, k: Digest, s: seq<Digest>, d: nat)
    requires s == TrueSiblings(h, m, k) && d <= DEPTH
    ensures PathHash(h, k, s, AnswerHash(h, k, m(k)), d) == NodeHash(h, m, Path(k, d))
    decreases DEPTH - d
  {
    if d == DEPTH {
      LeafHash(h, m, k);
    } else {
      TrueChain(h, m, k, s, d + 1);
      assert s[d] == SiblingHash(h, m, k, 0 + d);
    }
  }

  ghost function AnswerInputs(k: Digest, x: Option<Digest>, y: Option<Digest>): set<Input> {
    {EmptyIn} + (if x.Some? then {LeafIn(k, x.value)} else {}) + (if y.Some? then {LeafIn(k, y.value)} else {})
  }

  lemma SameAnswer(h: Hash, k: Digest, x: Option<Digest>, y: Option<Digest>)
    requires InjectiveOn(h, AnswerInputs(k, x, y)) && AnswerHash(h, k, x) == AnswerHash(h, k, y)
    ensures x == y
  {
    assert EmptyIn in AnswerInputs(k, x, y);
    assert x.Some? ==> LeafIn(k, x.value) in AnswerInputs(k, x, y);
    assert y.Some? ==> LeafIn(k, y.value) in AnswerInputs(k, x, y);
  }

  /** Everything hashed when a claimed answer is checked against a tree, on one key's path. */
  ghost function CheckInputs(h: Hash, k: Digest, s: seq<Digest>, x: Option<Digest>, t: seq<Digest>,
                             y: Option<Digest>): set<Input>
    requires |s| == DEPTH && |t| == DEPTH
  {
    PathInputs(h, k, s, AnswerHash(h, k, x)) + PathInputs(h, k, t, AnswerHash(h, k, y)) + AnswerInputs(k, x, y)
  }

  /** Main result: one root never verifies two answers for one key. */
  lemma OneAnswer(h: Hash, k: Digest, s: seq<Digest>, x: Option<Digest>, t: seq<Digest>, y: Option<Digest>)
    requires |s| == DEPTH && |t| == DEPTH && InjectiveOn(h, CheckInputs(h, k, s, x, t, y))
    requires PathHash(h, k, s, AnswerHash(h, k, x), 0) == PathHash(h, k, t, AnswerHash(h, k, y), 0)
    ensures x == y
  {
    ChainsAgree(h, k, s, t, AnswerHash(h, k, x), AnswerHash(h, k, y), 0);
    SameAnswer(h, k, x, y);
  }

  /** Main result: a chain that rebuilds the root of an assignment claims exactly the assignment's answer. */
  lemma Soundness(h: Hash, m: Assignment, k: Digest, s: seq<Digest>, x: Option<Digest>)
    requires |s| == DEPTH && InjectiveOn(h, CheckInputs(h, k, s, x, TrueSiblings(h, m, k), m(k)))
    requires PathHash(h, k, s, AnswerHash(h, k, x), 0) == Root(h, m)
    ensures x == m(k)
  {
    TrueChain(h, m, k, TrueSiblings(h, m, k), 0);
    OneAnswer(h, k, s, x, TrueSiblings(h, m, k), m(k));
  }
}
