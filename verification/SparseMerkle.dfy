/**
 * State v2: the compressed tree that stores a lone leaf at the first level
 * where it is alone, its updates and proofs, and the independent proof
 * verifier. The compressed tree is proved to refine the 256-level tree.
 */
module SparseMerkle {
  import opened Digests
  import opened Quorum
  import opened SparseTree
  import CanonicalText
  import JsonReader

  // -------------------------------------------------------------------------
  // The compressed tree
  // -------------------------------------------------------------------------

  datatype Tree = Nil | Leaf(keyHash: Digest, valueHash: Digest) | Branch(left: Tree, right: Tree)

  function NodeHashOf(h: Hash, t: Tree, d: nat): Digest
    requires d <= DEPTH && Fits(t, d)
    decreases t
  {
    match t
    case Nil => EmptyHash(h, d)
    case Leaf(k, v) => LoneLeaf(h, k, v, d)
    case Branch(l, r) => h(BranchIn(NodeHashOf(h, l, d + 1), NodeHashOf(h, r, d + 1)))
  }

  /** No branch at or below the last level. */
  predicate Fits(t: Tree, d: nat) {
    t.Branch? ==> d < DEPTH && Fits(t.left, d + 1) && Fits(t.right, d + 1)
  }

  function FindLeaf(t: Tree, k: Digest, d: nat): Option<Digest>
    requires d <= DEPTH && Fits(t, d)
    decreases t
  {
    match t
    case Nil => None
    case Leaf(l, v) => if l == k then Some(v) else None
    case Branch(l, r) => FindLeaf(if Bit(k, d) then r else l, k, d + 1)
  }

  function MergeLeaves(l: Digest, w: Digest, k: Digest, v: Digest, d: nat): Option<Tree>
    requires d <= DEPTH
    decreases DEPTH - d
  {
    if d == DEPTH then None
    else if Bit(l, d) != Bit(k, d) then
      Some(if Bit(l, d) then Branch(Leaf(k, v), Leaf(l, w)) else Branch(Leaf(l, w), Leaf(k, v)))
    else
      match MergeLeaves(l, w, k, v, d + 1)
      case None => None
      case Some(child) => Some(if Bit(l, d) then Branch(Nil, child) else Branch(child, Nil))
  }

  /** Sets one key below level `d`; None is the "key hash collision" error. */
  function UpdateNode(t: Tree, k: Digest, v: Digest, d: nat): Option<Tree>
    requires d <= DEPTH
    decreases t
  {
    match t
    case Nil => Some(Leaf(k, v))
    case Leaf(l, w) => if l == k then Some(Leaf(k, v)) else MergeLeaves(l, w, k, v, d)
    case Branch(l, r) =>
      if d == DEPTH then None
      else
        (match UpdateNode(if Bit(k, d) then r else l, k, v, d + 1)
         case None => None
         case Some(child) => Some(if Bit(k, d) then Branch(l, child) else Branch(child, r)))
  }

  /** Every leaf sits on its own key's path. */
  ghost predicate TreeOk(t: Tree, p: seq<bool>)
    decreases t
  {
    match t
    case Nil => |p| <= DEPTH
    case Leaf(k, v) => Below(k, p)
    case Branch(l, r) => |p| < DEPTH && TreeOk(l, p + [false]) && TreeOk(r, p + [true])
  }

  /** The assignment a subtree stands for. */
  ghost function View(t: Tree, d: nat): Assignment
    requires d <= DEPTH && Fits(t, d)
  {
    k => FindLeaf(t, k, d)
  }

  /** Main result: the compressed tree has the hash of the fully written-out tree. */
  lemma {:induction false} CompressionIsExact(h: Hash, t: Tree, p: seq<bool>)
    requires TreeOk(t, p) && |p| <= DEPTH && Fits(t, |p|)
    ensures NodeHashOf(h, t, |p|) == NodeHash(h, View(t, |p|), p)
    decreases t
  {
    match t
    case Nil => EmptySubtree(h, View(t, |p|), p);
    case Leaf(k, v) => LoneLeafSubtree(h, View(t, |p|), k, v, p);
    case Branch(l, r) =>
      CompressionIsExact(h, l, p + [false]);
      CompressionIsExact(h, r, p + [true]);
      BranchView(h, t, p, false);
      BranchView(h, t, p, true);
  }

  /** Below a branch the whole tree answers as the child does. */
  lemma BranchView(h: Hash, t: Tree, p: seq<bool>, b: bool)
    requires t.Branch? && |p| < DEPTH && Fits(t, |p|)
    ensures NodeHash(h, View(t, |p|), p + [b]) == NodeHash(h, View(if b then t.right else t.left, |p| + 1), p + [b])
  {
    var child := if b then t.right else t.left;
    forall k | Below(k, p + [b]) ensures View(t, |p|)(k) == View(child, |p| + 1)(k) {
      BelowChild(k, p, b);
    }
    NodeHashLocal(h, View(t, |p|), View(child, |p| + 1), p + [b]);
  }

  // ---- Updates --------------------------------------------------------------

  ghost predicate Updates(t: Option<Tree>, p: seq<bool>, k: Digest, v: Digest, before: Assignment) {
    && t.Some? && TreeOk(t.value, p) && |p| <= DEPTH && Fits(t.value, |p|)
    && forall l :: Below(l, p) ==> FindLeaf(t.value, l, |p|) == if l == k then Some(v) else before(l)
  }

  ghost function Lone(l: Digest, w: Digest): Assignment {
    x => if x == l then Some(w) else None
  }

  lemma LeafBelow(k: Digest, p: seq<bool>)
    requires Below(k, p) && |p| < DEPTH
    ensures Below(k, p + [Bit(k, |p|)])
  {
    BelowChild(k, p, Bit(k, |p|));
  }

  lemma {:induction false} MergeUpdates(l: Digest, w: Digest, k: Digest, v: Digest, p: seq<bool>)
    requires Below(l, p) && Below(k, p) && l != k
    ensures Updates(MergeLeaves(l, w, k, v, |p|), p, k, v, Lone(l, w))
    decreases DEPTH - |p|
  {
    if |p| == DEPTH {
      SamePathSameKey(l, k);
    } else {
      LeafBelow(l, p);
      LeafBelow(k, p);
      if Bit(l, |p|) == Bit(k, |p|) {
        MergeUpdates(l, w, k, v, p + [Bit(k, |p|)]);
        MergedBelow(l, w, k, v, p);
      } else {
        SplitUpdates(l, w, k, v, p);
      }
    }
  }

  lemma SplitUpdates(l: Digest, w: Digest, k: Digest, v: Digest, p: seq<bool>)
    requires |p| < DEPTH && Bit(l, |p|) != Bit(k, |p|) && Below(l, p + [Bit(l, |p|)]) && Below(k, p + [Bit(k, |p|)])
    ensures Updates(MergeLeaves(l, w, k, v, |p|), p, k, v, Lone(l, w))
  {
    var t := MergeLeaves(l, w, k, v, |p|).value;
    assert Fits(t.left, |p| + 1) && Fits(t.right, |p| + 1);
    forall x | Below(x, p) ensures FindLeaf(t, x, |p|) == if x == k then Some(v) else Lone(l, w)(x) {
      var child := if Bit(x, |p|) then t.right else t.left;
      assert FindLeaf(t, x, |p|) == FindLeaf(child, x, |p| + 1);
    }
  }

  lemma MergedBelow(l: Digest, w: Digest, k: Digest, v: Digest, p: seq<bool>)
    requires Below(l, p) && Below(k, p) && l != k && |p| < DEPTH && Bit(l, |p|) == Bit(k, |p|)
    requires Updates(MergeLeaves(l, w, k, v, |p| + 1), p + [Bit(k, |p|)], k, v, Lone(l, w))
    ensures Updates(MergeLeaves(l, w, k, v, |p|), p, k, v, Lone(l, w))
  {
    var b := Bit(k, |p|);
    var t, child := MergeLeaves(l, w, k, v, |p|).value, MergeLeaves(l, w, k, v, |p| + 1).value;
    assert t == if b then Branch(Nil, child) else Branch(child, Nil);
    assert Fits(t, |p|) && TreeOk(t, p);
    forall x | Below(x, p) ensures FindLeaf(t, x, |p|) == if x == k then Some(v) else Lone(l, w)(x) {
      if Bit(x, |p|) == b {
        BelowChild(x, p, b);
        assert FindLeaf(t, x, |p|) == FindLeaf(child, x, |p| + 1);
      } else {
        assert FindLeaf(t, x, |p|) == FindLeaf(Nil, x, |p| + 1);
      }
    }
  }

  /** Main result: an update below its key's path never fails and changes that key's answer only. */
  lemma {:induction false} UpdateIsExact(t: Tree, k: Digest, v: Digest, p: seq<bool>)
    requires TreeOk(t, p) && Below(k, p) && Fits(t, |p|)
    ensures Updates(UpdateNode(t, k, v, |p|), p, k, v, View(t, |p|))
    decreases t
  {
    match t
    case Nil =>
    case Leaf(l, w) => if l != k { MergeUpdates(l, w, k, v, p); }
    case Branch(l, r) =>
      var b := Bit(k, |p|);
      LeafBelow(k, p);
      UpdateIsExact(if b then r else l, k, v, p + [b]);
      forall x | Below(x, p)
        ensures FindLeaf(UpdateNode(t, k, v, |p|).value, x, |p|) == if x == k then Some(v) else FindLeaf(t, x, |p|)
      {
        BelowChild(x, p, Bit(x, |p|));
      }
  }

  // ---- Runs of updates --------------------------------------------------------

  function Build(h: Hash, sets: seq<(string, string)>): Option<Tree> {
    if sets == [] then Some(Nil)
    else
      var n := |sets| - 1;
      match Build(h, sets[..n])
      case None => None
      case Some(t) => UpdateNode(t, h(KeyIn(sets[n].0)), h(ValueIn(sets[n].1)), 0)
  }

  /** The last value set for each key. */
  function Contents(sets: seq<(string, string)>): map<string, string> {
    if sets == [] then map[] else Contents(sets[..|sets| - 1])[sets[|sets| - 1].0 := sets[|sets| - 1].1]
  }

  function KeyInputs(state: map<string, string>): set<Input> {
    set k | k in state :: KeyIn(k)
  }

  /** A text-level state as an assignment of value hashes to key hashes. */
  ghost function Hashed(h: Hash, state: map<string, string>): Assignment {
    k => if exists text :: text in state && h(KeyIn(text)) == k
         then (var text :| text in state && h(KeyIn(text)) == k; Some(h(ValueIn(state[text])))) else None
  }

  lemma HashedAt(h: Hash, state: map<string, string>, text: string)
    requires InjectiveOn(h, KeyInputs(state) + {KeyIn(text)})
    ensures Hashed(h, state)(h(KeyIn(text))) == if text in state then Some(h(ValueIn(state[text]))) else None
  {
    forall other | other in state && h(KeyIn(other)) == h(KeyIn(text)) ensures other == text {
      assert KeyIn(other) in KeyInputs(state);
    }
  }

  /** Setting a text sets its key hash and nothing else. */
  lemma HashedUpdate(h: Hash, state: map<string, string>, text: string, value: string, k: Digest)
    requires InjectiveOn(h, KeyInputs(state[text := value]))
    ensures Hashed(h, state[text := value])(k) ==
      if k == h(KeyIn(text)) then Some(h(ValueIn(value))) else Hashed(h, state)(k)
  {
    var after := state[text := value];
    assert KeyIn(text) in KeyInputs(after);
    if k == h(KeyIn(text)) {
      assert text in after;
      assert KeyInputs(after) + {KeyIn(text)} == KeyInputs(after);
      HashedAt(h, after, text);
    } else if exists x :: x in state && h(KeyIn(x)) == k {
      var x :| x in state && h(KeyIn(x)) == k;
      assert KeyIn(x) in KeyInputs(after);
      assert KeyInputs(after) + {KeyIn(x)} == KeyInputs(after);
      HashedAt(h, after, x);
      SmallerInjective(h, KeyInputs(state) + {KeyIn(x)}, KeyInputs(after));
      HashedAt(h, state, x);
    }
  }

  lemma SmallerInjective(h: Hash, small: set<Input>, large: set<Input>)
    requires InjectiveOn(h, large) && small <= large
    ensures InjectiveOn(h, small)
  {
  }

  lemma {:induction false} ContentsGrow(sets: seq<(string, string)>, n: nat)
    requires n <= |sets|
    ensures Contents(sets[..n]).Keys <= Contents(sets).Keys
    decreases |sets|
  {
    if n == |sets| {
      assert sets[..n] == sets;
    } else {
      ContentsGrow(sets[..|sets| - 1], n);
      assert sets[..|sets| - 1][..n] == sets[..n];
    }
  }

  /** A tree that answers exactly as a text-level state. */
  ghost predicate Holds(h: Hash, t: Tree, state: map<string, string>) {
    TreeOk(t, []) && Fits(t, 0) && forall k :: FindLeaf(t, k, 0) == Hashed(h, state)(k)
  }

  lemma SetHolds(h: Hash, t: Tree, state: map<string, string>, text: string, value: string)
    requires Holds(h, t, state) && InjectiveOn(h, KeyInputs(state[text := value]))
    ensures var r := UpdateNode(t, h(KeyIn(text)), h(ValueIn(value)), 0);
      r.Some? && Holds(h, r.value, state[text := value])
  {
    var k, v := h(KeyIn(text)), h(ValueIn(value));
    UpdateIsExact(t, k, v, []);
    var r := UpdateNode(t, k, v, 0).value;
    forall l ensures FindLeaf(r, l, 0) == Hashed(h, state[text := value])(l) {
      assert Below(l, []);
      HashedUpdate(h, state, text, value, l);
    }
  }

  lemma HoldsRoot(h: Hash, t: Tree, state: map<string, string>)
    requires Holds(h, t, state)
    ensures NodeHashOf(h, t, 0) == Root(h, Hashed(h, state)) == Root(h, View(t, 0))
  {
    CompressionIsExact(h, t, []);
    NodeHashLocal(h, View(t, 0), Hashed(h, state), []);
  }

  lemma {:induction false} RunHolds(h: Hash, sets: seq<(string, string)>)
    requires InjectiveOn(h, KeyInputs(Contents(sets)))
    ensures Build(h, sets).Some? && Holds(h, Build(h, sets).value, Contents(sets))
    decreases |sets|
  {
    if sets != [] {
      var n := |sets| - 1;
      ContentsGrow(sets, n);
      SmallerInjective(h, KeyInputs(Contents(sets[..n])), KeyInputs(Contents(sets)));
      RunHolds(h, sets[..n]);
      SetHolds(h, Build(h, sets[..n]).value, Contents(sets[..n]), sets[n].0, sets[n].1);
    }
  }

  /** Main result: runs of sets with the same final contents end in the same root, whatever their order. */
  lemma SameContentsSameRoot(h: Hash, sets: seq<(string, string)>, others: seq<(string, string)>)
    requires Contents(sets) == Contents(others) && InjectiveOn(h, KeyInputs(Contents(sets)))
    ensures Build(h, sets).Some? && Fits(Build(h, sets).value, 0) && Build(h, others).Some?
    ensures Fits(Build(h, others).value, 0)
    ensures NodeHashOf(h, Build(h, sets).value, 0) == NodeHashOf(h, Build(h, others).value, 0)
  {
    RunHolds(h, sets);
    RunHolds(h, others);
    HoldsRoot(h, Build(h, sets).value, Contents(sets));
    HoldsRoot(h, Build(h, others).value, Contents(others));
  }

  // -------------------------------------------------------------------------
  // Proving
  // -------------------------------------------------------------------------

  method EmptyHashes(h: Hash) returns (hashes: seq<Digest>)
    ensures |hashes| == DEPTH + 1 && forall d :: 0 <= d <= DEPTH ==> hashes[d] == EmptyHash(h, d)
  {
    hashes := [h(EmptyIn)];
    for d := DEPTH downto 0
      invariant |hashes| == DEPTH + 1 - d
      invariant forall i :: d <= i <= DEPTH ==> hashes[i - d] == EmptyHash(h, i)
    {
      hashes := [h(BranchIn(hashes[0], hashes[0]))] + hashes;
    }
  }

  /** The siblings from level `d` on, where a lone leaf or nothing is left. */
  method LeafSiblings(h: Hash, t: Tree, k: Digest, d: nat, empty: seq<Digest>) returns (siblings: seq<Digest>)
    requires d <= DEPTH && !t.Branch? && TreeOk(t, Path(k, d)) && Fits(t, d)
    requires |empty| == DEPTH + 1 && forall i :: 0 <= i <= DEPTH ==> empty[i] == EmptyHash(h, i)
    ensures |siblings| == DEPTH - d && Beside(h, View(t, d), k, d, siblings)
  {
    siblings := [];
    var divergence := -1;
    if t.Leaf? { divergence := Divergence(t.keyHash, k, d); }
    ghost var m := View(t, d);
    for i := d to DEPTH
      invariant |siblings| == i - d && Beside(h, m, k, d, siblings)
    {
      var sibling := if i == divergence then LoneLeaf(h, t.keyHash, t.valueHash, i + 1) else empty[i + 1];
      LeafSibling(h, t, k, d, i, divergence);
      BesideSnoc(h, m, k, d, siblings, sibling);
      siblings := siblings + [sibling];
    }
  }

  /** Where the keys of a lone leaf and of the proof part ways, if they do. */
  ghost predicate Parts(t: Tree, k: Digest, d: nat, divergence: int)
    requires d <= DEPTH
  {
    && (t.Leaf? && divergence == -1 ==> t.keyHash == k)
    && (divergence != -1 ==>
          && t.Leaf? && d <= divergence < DEPTH && Path(t.keyHash, divergence) == Path(k, divergence)
          && Bit(t.keyHash, divergence) != Bit(k, divergence))
  }

  lemma LeafSibling(h: Hash, t: Tree, k: Digest, d: nat, i: nat, divergence: int)
    requires d <= i < DEPTH && !t.Branch? && Fits(t, d) && Parts(t, k, d, divergence)
    ensures SiblingHash(h, View(t, d), k, i) ==
      if i == divergence then LoneLeaf(h, t.keyHash, t.valueHash, i + 1) else EmptyHash(h, i + 1)
  {
    if i == divergence {
      SplitSibling(h, t.keyHash, t.valueHash, k, i, View(t, d));
    } else {
      EmptySibling(h, t, k, d, i, divergence);
    }
  }

  /** The first level from `d` on where two keys differ, -1 if none. */
  method Divergence(l: Digest, k: Digest, d: nat) returns (at: int)
    requires d <= DEPTH && Path(l, d) == Path(k, d)
    ensures at == -1 ==> l == k
    ensures at != -1 ==> d <= at < DEPTH && Path(l, at) == Path(k, at) && Bit(l, at) != Bit(k, at)
  {
    at := -1;
    for i := d to DEPTH
      invariant Path(l, i) == Path(k, i)
    {
      if Bit(l, i) != Bit(k, i) { return i; }
    }
    SamePathSameKey(l, k);
  }

  /** Where the only leaf leaves the path, its lone-leaf hash is the sibling. */
  lemma SplitSibling(h: Hash, l: Digest, v: Digest, k: Digest, i: nat, m: Assignment)
    requires i < DEPTH && Path(l, i) == Path(k, i) && Bit(l, i) != Bit(k, i)
    requires m(l) == Some(v) && forall x :: x != l ==> m(x) == None
    ensures SiblingHash(h, m, k, i) == LoneLeaf(h, l, v, i + 1)
  {
    var p := Path(k, i);
    assert !Bit(k, i) == Bit(l, i);
    BelowChild(l, p, Bit(l, i));
    LoneLeafSubtree(h, m, l, v, p + [!Bit(k, i)]);
  }

  /** Everywhere else the sibling subtree is empty. */
  lemma EmptySibling(h: Hash, t: Tree, k: Digest, d: nat, i: nat, divergence: int)
    requires d <= i < DEPTH && !t.Branch? && Fits(t, d) && i != divergence && Parts(t, k, d, divergence)
    ensures SiblingHash(h, View(t, d), k, i) == EmptyHash(h, i + 1)
  {
    var p := Path(k, i) + [!Bit(k, i)];
    forall x | Below(x, p) ensures View(t, d)(x) == None {
      BelowChild(x, Path(k, i), !Bit(k, i));
      if t.Leaf? && divergence != -1 {
        if i < divergence {
          assert Path(t.keyHash, divergence)[i] == Path(k, divergence)[i];
        } else {
          assert Path(k, i)[divergence] == Path(x, i)[divergence];
        }
      }
    }
    EmptySubtree(h, View(t, d), p);
  }

  /** A subtree reached along a key's path answers as the whole tree does below it. */
  ghost predicate Reached(root: Tree, t: Tree, k: Digest, d: nat) {
    && d <= DEPTH && Fits(root, 0) && Fits(t, d) && TreeOk(t, Path(k, d))
    && forall x :: Below(x, Path(k, d)) ==> FindLeaf(root, x, 0) == FindLeaf(t, x, d)
  }

  function Child(t: Tree, b: bool): Tree
    requires t.Branch?
  {
    if b then t.right else t.left
  }

  lemma ReachedChild(root: Tree, t: Tree, k: Digest, d: nat, b: bool, x: Digest)
    requires Reached(root, t, k, d) && t.Branch? && Below(x, Path(k, d) + [b])
    ensures FindLeaf(root, x, 0) == FindLeaf(Child(t, b), x, d + 1)
  {
    BelowChild(x, Path(k, d), b);
  }

  lemma ReachedNext(root: Tree, t: Tree, k: Digest, d: nat)
    requires Reached(root, t, k, d) && t.Branch?
    ensures Reached(root, Child(t, Bit(k, d)), k, d + 1)
  {
    var next := Child(t, Bit(k, d));
    assert Path(k, d + 1) == Path(k, d) + [Bit(k, d)];
    forall x | Below(x, Path(k, d + 1)) ensures FindLeaf(root, x, 0) == FindLeaf(next, x, d + 1) {
      ReachedChild(root, t, k, d, Bit(k, d), x);
    }
  }

  lemma SiblingOfBranch(h: Hash, root: Tree, t: Tree, k: Digest, d: nat)
    requires Reached(root, t, k, d) && t.Branch?
    ensures NodeHashOf(h, Child(t, !Bit(k, d)), d + 1) == SiblingHash(h, View(root, 0), k, d)
  {
    var b := !Bit(k, d);
    ChildHash(h, root, Child(t, b), View(root, 0), Path(k, d) + [b], d + 1) by {
      forall x | Below(x, Path(k, d) + [b]) ensures FindLeaf(root, x, 0) == FindLeaf(Child(t, b), x, d + 1) {
        ReachedChild(root, t, k, d, b, x);
      }
    }
  }

  lemma ChildHash(h: Hash, root: Tree, t: Tree, m: Assignment, p: seq<bool>, d: nat)
    requires Fits(root, 0) && m == View(root, 0) && TreeOk(t, p) && |p| == d <= DEPTH && Fits(t, d)
    requires forall x :: Below(x, p) ==> FindLeaf(root, x, 0) == FindLeaf(t, x, d)
    ensures NodeHashOf(h, t, d) == NodeHash(h, m, p)
  {
    CompressionIsExact(h, t, p);
    NodeHashLocal(h, m, View(t, d), p);
  }

  lemma DescendStep(h: Hash, root: Tree, t: Tree, k: Digest, siblings: seq<Digest>)
    requires Reached(root, t, k, |siblings|) && Beside(h, View(root, 0), k, 0, siblings) && t.Branch?
    ensures var d := |siblings|;
      && Reached(root, Child(t, Bit(k, d)), k, d + 1)
      && Beside(h, View(root, 0), k, 0, siblings + [NodeHashOf(h, Child(t, !Bit(k, d)), d + 1)])
  {
    var d := |siblings|;
    ReachedNext(root, t, k, d);
    SiblingOfBranch(h, root, t, k, d);
    BesideSnoc(h, View(root, 0), k, 0, siblings, NodeHashOf(h, Child(t, !Bit(k, d)), d + 1));
  }

  /** Walks down to the last subtree on the key's path, collecting the siblings passed. */
  method Descend(h: Hash, root: Tree, k: Digest) returns (t: Tree, siblings: seq<Digest>)
    requires TreeOk(root, []) && Fits(root, 0)
    ensures !t.Branch? && Reached(root, t, k, |siblings|) && Beside(h, View(root, 0), k, 0, siblings)
  {
    t, siblings := root, [];
    assert Reached(root, t, k, 0);
    while t.Branch?
      invariant Reached(root, t, k, |siblings|) && Beside(h, View(root, 0), k, 0, siblings)
      decreases t
    {
      var d := |siblings|;
      DescendStep(h, root, t, k, siblings);
      siblings := siblings + [NodeHashOf(h, Child(t, !Bit(k, d)), d + 1)];
      t := Child(t, Bit(k, d));
    }
  }

  /** Main result: the siblings a proof carries are the tree's own, whichever answer it holds. */
  method Prove(h: Hash, root: Tree, k: Digest) returns (valueHash: Option<Digest>, siblings: seq<Digest>)
    requires TreeOk(root, []) && Fits(root, 0)
    ensures valueHash == FindLeaf(root, k, 0)
    ensures siblings == TrueSiblings(h, View(root, 0), k)
    ensures PathHash(h, k, siblings, AnswerHash(h, k, valueHash), 0) == NodeHashOf(h, root, 0)
  {
    var empty := EmptyHashes(h);
    var t;
    t, siblings := Descend(h, root, k);
    var rest := LeafSiblings(h, t, k, |siblings|, empty);
    RestSiblings(h, root, t, k, |siblings|, rest);
    BesideAppend(h, View(root, 0), k, siblings, rest);
    siblings := siblings + rest;
    valueHash := FindLeaf(root, k, 0);
    BesideIsTrue(h, View(root, 0), k, siblings);
    TrueChain(h, View(root, 0), k, siblings, 0);
    CompressionIsExact(h, root, []);
  }

  lemma RestSiblings(h: Hash, root: Tree, t: Tree, k: Digest, d: nat, rest: seq<Digest>)
    requires Reached(root, t, k, d) && Beside(h, View(t, d), k, d, rest)
    ensures Beside(h, View(root, 0), k, d, rest)
  {
    forall i | 0 <= i < |rest| ensures rest[i] == SiblingHash(h, View(root, 0), k, d + i) {
      RestSibling(h, root, t, k, d, d + i);
    }
  }

  lemma RestSibling(h: Hash, root: Tree, t: Tree, k: Digest, d: nat, i: nat)
    requires Reached(root, t, k, d) && d <= i < DEPTH
    ensures SiblingHash(h, View(t, d), k, i) == SiblingHash(h, View(root, 0), k, i)
  {
    var p := Path(k, i) + [!Bit(k, i)];
    forall x | Below(x, p) ensures View(t, d)(x) == View(root, 0)(x) {
      BelowChild(x, Path(k, i), !Bit(k, i));
      PathPrefix(x, d, i);
      PathPrefix(k, d, i);
    }
    NodeHashLocal(h, View(t, d), View(root, 0), p);
  }

  // -------------------------------------------------------------------------
  // Verifying
  // -------------------------------------------------------------------------

  datatype Proof = Proof(version: int, keyHash: Digest, valueHash: Option<Digest>, siblings: seq<Digest>)

  datatype Anchor = Anchor(height: nat, protocolVersion: int, stateRoot: Digest)

  const STATE_V2_VERSIONS := {2, 3, 5}

  const SUPPORTED_VERSIONS := {1, 2, 3, 5}

  function ValueHash(h: Hash, value: Option<string>): Option<Digest> {
    match value
    case None => None
    case Some(text) => Some(h(ValueIn(text)))
  }

  /** What acceptance of a proof means. */
  ghost predicate Accepts(h: Hash, anchor: Anchor, key: string, value: Option<string>, proof: Proof) {
    && anchor.protocolVersion in STATE_V2_VERSIONS && key != ""
    && proof.version == 1 && |proof.siblings| == DEPTH
    && proof.keyHash == h(KeyIn(key)) && proof.valueHash == ValueHash(h, value)
    && PathHash(h, proof.keyHash, proof.siblings, AnswerHash(h, proof.keyHash, proof.valueHash), 0) == anchor.stateRoot
  }

  method VerifyStateProof(h: Hash, anchor: Anchor, key: string, value: Option<string>, proof: Proof) returns (ok: bool)
    ensures ok <==> Accepts(h, anchor, key, value, proof)
    ensures ok ==> anchor.protocolVersion in {2, 3, 5} && key != "" && proof.version == 1 && |proof.siblings| == 256
  {
    if anchor.protocolVersion !in STATE_V2_VERSIONS || key == "" { return false; }
    if proof.version != 1 || |proof.siblings| != DEPTH { return false; }
    var keyHash := h(KeyIn(key));
    if proof.keyHash != keyHash { return false; }
    var current: Digest;
    if value.None? {
      if proof.valueHash.Some? { return false; }
      current := h(EmptyIn);
    } else {
      var valueHash := h(ValueIn(value.value));
      if proof.valueHash != Some(valueHash) { return false; }
      current := h(LeafIn(keyHash, valueHash));
    }
    ghost var leaf := current;
    for d := DEPTH downto 0
      invariant current == PathHash(h, keyHash, proof.siblings, leaf, d)
    {
      var sibling := proof.siblings[d];
      current := if Bit(keyHash, d) then h(BranchIn(sibling, current)) else h(BranchIn(current, sibling));
    }
    ok := current == anchor.stateRoot;
  }

  /**
   * Every input a check of `proof` against the true contents hashes on the key's path, the two values, and
   * all keys.
   */
  ghost function SoundnessInputs(h: Hash, state: map<string, string>, key: string, value: Option<string>,
                                 proof: Proof): set<Input>
    requires |proof.siblings| == DEPTH
  {
    var k, m := h(KeyIn(key)), Hashed(h, state);
    CheckInputs(h, k, proof.siblings, ValueHash(h, value), TrueSiblings(h, m, k), m(k))
      + KeyInputs(state) + {KeyIn(key)}
      + (if value.Some? then {ValueIn(value.value)} else {})
      + (if key in state then {ValueIn(state[key])} else {})
  }

  lemma AnswerIsTrue(h: Hash, state: map<string, string>, anchor: Anchor, key: string, value: Option<string>,
                     proof: Proof)
    requires Accepts(h, anchor, key, value, proof) && anchor.stateRoot == Root(h, Hashed(h, state))
    requires InjectiveOn(h, SoundnessInputs(h, state, key, value, proof))
    ensures ValueHash(h, value) == Hashed(h, state)(h(KeyIn(key)))
  {
    var k, m, all := h(KeyIn(key)), Hashed(h, state), SoundnessInputs(h, state, key, value, proof);
    SmallerInjective(h, CheckInputs(h, k, proof.siblings, ValueHash(h, value), TrueSiblings(h, m, k), m(k)), all);
    Soundness(h, m, k, proof.siblings, ValueHash(h, value));
  }

  /** Main result: an accepted proof against the root of a state tells exactly what the state holds at the key. */
  lemma AcceptedIsTrue(h: Hash, state: map<string, string>, anchor: Anchor, key: string, value: Option<string>,
                       proof: Proof)
    requires Accepts(h, anchor, key, value, proof) && anchor.stateRoot == Root(h, Hashed(h, state))
    requires InjectiveOn(h, SoundnessInputs(h, state, key, value, proof))
    ensures value == if key in state then Some(state[key]) else None
  {
    var all := SoundnessInputs(h, state, key, value, proof);
    AnswerIsTrue(h, state, anchor, key, value, proof);
    SmallerInjective(h, KeyInputs(state) + {KeyIn(key)}, all);
    HashedAt(h, state, key);
    ValuesDiffer(h, all, value, if key in state then Some(state[key]) else None);
  }

  lemma ValuesDiffer(h: Hash, all: set<Input>, x: Option<string>, y: Option<string>)
    requires InjectiveOn(h, all) && ValueHash(h, x) == ValueHash(h, y)
    requires (x.Some? ==> ValueIn(x.value) in all) && (y.Some? ==> ValueIn(y.value) in all)
    ensures x == y
  {
  }

  /** Main result: the tree's own proof of any key, held or absent, is accepted. */
  method ProveText(h: Hash, sets: seq<(string, string)>, key: string, protocolVersion: int, height: nat)
    returns (value: Option<string>, proof: Proof)
    requires key != "" && protocolVersion in {2, 3, 5}
    requires InjectiveOn(h, KeyInputs(Contents(sets)) + {KeyIn(key)})
    ensures value == if key in Contents(sets) then Some(Contents(sets)[key]) else None
    ensures Accepts(h, Anchor(height, protocolVersion, Root(h, Hashed(h, Contents(sets)))), key, value, proof)
  {
    SmallerInjective(h, KeyInputs(Contents(sets)), KeyInputs(Contents(sets)) + {KeyIn(key)});
    RunHolds(h, sets);
    HashedAt(h, Contents(sets), key);
    var root := Build(h, sets).value;
    HoldsRoot(h, root, Contents(sets));
    var k := h(KeyIn(key));
    var valueHash, siblings := Prove(h, root, k);
    value := if key in Contents(sets) then Some(Contents(sets)[key]) else None;
    proof := Proof(1, k, valueHash, siblings);
  }

  // -------------------------------------------------------------------------
  // Activating the next protocol version
  // -------------------------------------------------------------------------

  /** The decimal digits as the source writes them into keys and values. */
  function Decimal(n: nat): (s: string)
    ensures s != ""
  {
    var digits := CanonicalText.Digits(n);
    seq(|digits|, i requires 0 <= i < |digits| => digits[i] as int as char)
  }

  /** Different numbers are written differently. */
  lemma DecimalDiffers(m: nat, n: nat)
    requires Decimal(m) == Decimal(n)
    ensures m == n
  {
    var a, b := CanonicalText.Digits(m), CanonicalText.Digits(n);
    assert |a| == |Decimal(m)| == |Decimal(n)| == |b|;
    forall i | 0 <= i < |a| ensures a[i] == b[i] {
      assert Decimal(m)[i] == a[i] as int as char && Decimal(n)[i] == b[i] as int as char;
    }
    assert a == b;
    JsonReader.DigitsReadBack(m);
    JsonReader.DigitsReadBack(n);
  }

  lemma SamePrefix(prefix: string, s: string, t: string)
    requires prefix + s == prefix + t
    ensures s == t
  {
    assert (prefix + s)[|prefix|..] == s && (prefix + t)[|prefix|..] == t;
  }

  function ScheduleKey(height: nat): (key: string)
    ensures key != ""
  {
    "protocol-schedule:" + Decimal(height)
  }

  /** Every height has its own key. */
  lemma ScheduleKeyDiffers(m: nat, n: nat)
    requires ScheduleKey(m) == ScheduleKey(n)
    ensures m == n
  {
    SamePrefix("protocol-schedule:", Decimal(m), Decimal(n));
    DecimalDiffers(m, n);
  }

  function ScheduleValue(version: nat): string {
    "{\"protocolVersion\":" + Decimal(version) + "}"
  }

  method ActivateNextProtocolVersion(h: Hash, anchor: Anchor, version: nat, proof: Proof) returns (next: Option<Anchor>)
    ensures next.Some? <==>
      version in {1, 2, 3, 5} &&
        Accepts(h, anchor, ScheduleKey(anchor.height + 1), Some(ScheduleValue(version)), proof)
    ensures next.Some? ==> next.value == anchor.(protocolVersion := version)
  {
    if anchor.protocolVersion !in STATE_V2_VERSIONS || version !in SUPPORTED_VERSIONS { return None; }
    var ok := VerifyStateProof(h, anchor, ScheduleKey(anchor.height + 1), Some(ScheduleValue(version)), proof);
    next := if ok then Some(anchor.(protocolVersion := version)) else None;
  }

  lemma DigitsDiffer(v: nat, w: nat)
    requires v in SUPPORTED_VERSIONS && w in SUPPORTED_VERSIONS && ScheduleValue(v) == ScheduleValue(w)
    ensures v == w
  {
    assert ScheduleValue(v)[19] == ('0' as int + v) as char && ScheduleValue(w)[19] == ('0' as int + w) as char;
  }

  /** Main result: whatever the proofs, one anchor activates at most one next protocol version. */
  lemma OneNextVersion(h: Hash, anchor: Anchor, v: nat, p: Proof, w: nat, q: Proof)
    requires v in SUPPORTED_VERSIONS && w in SUPPORTED_VERSIONS
    requires Accepts(h, anchor, ScheduleKey(anchor.height + 1), Some(ScheduleValue(v)), p)
    requires Accepts(h, anchor, ScheduleKey(anchor.height + 1), Some(ScheduleValue(w)), q)
    requires InjectiveOn(h, CheckInputs(h, p.keyHash, p.siblings, p.valueHash, q.siblings, q.valueHash)
                            + {ValueIn(ScheduleValue(v)), ValueIn(ScheduleValue(w))})
    ensures v == w
  {
    var all := CheckInputs(h, p.keyHash, p.siblings, p.valueHash, q.siblings, q.valueHash)
      + {ValueIn(ScheduleValue(v)), ValueIn(ScheduleValue(w))};
    SmallerInjective(h, CheckInputs(h, p.keyHash, p.siblings, p.valueHash, q.siblings, q.valueHash), all);
    OneAnswer(h, p.keyHash, p.siblings, p.valueHash, q.siblings, q.valueHash);
    assert ValueIn(ScheduleValue(v)) in all && ValueIn(ScheduleValue(w)) in all;
    DigitsDiffer(v, w);
  }
}
