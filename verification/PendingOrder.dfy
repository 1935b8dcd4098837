/** The proposer's pool ordering: a heap-based k-way merge of sender lanes (l1/src/chain.ts). */
module PendingOrder {
  import opened Quorum
  import opened ChainTypes
  import opened Sorting

  /** `arrival` is empty under fee priority. */
  datatype Ctx = Ctx(authorized: Tx -> bool, feePriority: bool, arrival: map<string, nat>)

  predicate Lifts(ctx: Ctx, tx: Tx) {
    !tx.kind.Transfer? && ctx.authorized(tx)
  }

  function ArrivalOf(ctx: Ctx, tx: Tx): nat {
    if tx.txid in ctx.arrival then ctx.arrival[tx.txid] else 0
  }

  function ProtocolRank(tx: Tx): int {
    match tx.kind
    case ActivitySettlement(_) => 0
    case ValidatorUpdate(_, _) => 1
    case ProtocolUpgrade(_, _) => 2
    case OracleGovernance(_, _, _) => 3
    case Transfer => 4
  }

  function ActivationOf(tx: Tx): int {
    if tx.kind.ValidatorUpdate? || tx.kind.ProtocolUpgrade? || tx.kind.OracleGovernance?
    then tx.kind.activationHeight
    else 0
  }

  // -------------------------------------------------------------------------
  // The order on lane heads; a lane is given by what is left of its queue
  // -------------------------------------------------------------------------

  function FirstLifter(ctx: Ctx, q: seq<Tx>): Option<Tx> {
    if q == [] then None else if Lifts(ctx, q[0]) then Some(q[0]) else FirstLifter(ctx, q[1..])
  }

  /** [class, rank, activation]; class 0 is protocol or lifted by a later authorized protocol transaction. */
  function HeadKey(ctx: Ctx, q: seq<Tx>): seq<int>
    requires q != []
  {
    if !q[0].kind.Transfer? then [0, ProtocolRank(q[0]), ActivationOf(q[0])]
    else match FirstLifter(ctx, q)
      case Some(lifter) => [0, ProtocolRank(lifter), ActivationOf(lifter)]
      case None => [1, 0, 0]
  }

  function TieKey(ctx: Ctx, tx: Tx): seq<int> {
    var fee: int := tx.feeAtoms;
    [if ctx.feePriority then -fee else ArrivalOf(ctx, tx), tx.timestampMs]
  }

  /** Head comparison: key, fee or arrival, time, txid, sender. */
  predicate HeadBefore(ctx: Ctx, q: seq<Tx>, q': seq<Tx>)
    requires q != [] && q' != []
  {
    KeyLess(HeadKey(ctx, q) + TieKey(ctx, q[0]), Units(q[0].txid), Units(q[0].sender),
            HeadKey(ctx, q') + TieKey(ctx, q'[0]), Units(q'[0].txid), Units(q'[0].sender))
  }

  predicate KeyLess(k: seq<int>, t: seq<int>, s: seq<int>, k': seq<int>, t': seq<int>, s': seq<int>) {
    LexLess(k, k') || (k == k' && (LexLess(t, t') || (t == t' && LexLess(s, s'))))
  }

  lemma HeadBeforeTotal(ctx: Ctx, q: seq<Tx>, q': seq<Tx>)
    requires q != [] && q' != []
    ensures !(HeadBefore(ctx, q, q') && HeadBefore(ctx, q', q))
    ensures q[0].sender != q'[0].sender ==> HeadBefore(ctx, q, q') || HeadBefore(ctx, q', q)
  {
    LexTotal(HeadKey(ctx, q) + TieKey(ctx, q[0]), HeadKey(ctx, q') + TieKey(ctx, q'[0]));
    LexTotal(Units(q[0].txid), Units(q'[0].txid));
    LexTotal(Units(q[0].sender), Units(q'[0].sender));
    if Units(q[0].sender) == Units(q'[0].sender) { UnitsInjective(q[0].sender, q'[0].sender); }
  }

  lemma KeyLessTransitive(k: seq<int>, t: seq<int>, s: seq<int>, k': seq<int>, t': seq<int>, s': seq<int>,
                          k'': seq<int>, t'': seq<int>, s'': seq<int>)
    requires KeyLess(k, t, s, k', t', s') && KeyLess(k', t', s', k'', t'', s'')
    ensures KeyLess(k, t, s, k'', t'', s'')
  {
    if LexLess(k, k') && LexLess(k', k'') { LexTransitive(k, k', k''); }
    if LexLess(t, t') && LexLess(t', t'') { LexTransitive(t, t', t''); }
    if LexLess(s, s') && LexLess(s', s'') { LexTransitive(s, s', s''); }
  }

  lemma HeadBeforeTransitive(ctx: Ctx, q: seq<Tx>, q': seq<Tx>, q'': seq<Tx>)
    requires q != [] && q' != [] && q'' != [] && HeadBefore(ctx, q, q') && HeadBefore(ctx, q', q'')
    ensures HeadBefore(ctx, q, q'')
  {
    KeyLessTransitive(HeadKey(ctx, q) + TieKey(ctx, q[0]), Units(q[0].txid), Units(q[0].sender),
                      HeadKey(ctx, q') + TieKey(ctx, q'[0]), Units(q'[0].txid), Units(q'[0].sender),
                      HeadKey(ctx, q'') + TieKey(ctx, q''[0]), Units(q''[0].txid), Units(q''[0].sender));
  }

  // -------------------------------------------------------------------------
  // The simple form: repeatedly take the least lane head
  // -------------------------------------------------------------------------

  type Lanes = map<Address, seq<Tx>>

  ghost predicate WellFormed(lanes: Lanes) {
    forall a :: a in lanes ==> lanes[a] != [] && forall tx :: tx in lanes[a] ==> tx.sender == a
  }

  ghost predicate IsLeast(ctx: Ctx, lanes: Lanes, a: Address)
    requires WellFormed(lanes)
  {
    a in lanes && forall b :: b in lanes && b != a ==> HeadBefore(ctx, lanes[a], lanes[b])
  }

  function Pop(lanes: Lanes, a: Address): Lanes
    requires a in lanes && lanes[a] != []
  {
    if |lanes[a]| == 1 then lanes - {a} else lanes[a := lanes[a][1..]]
  }

  ghost predicate IsMerge(ctx: Ctx, lanes: Lanes, out: seq<Tx>)
    requires WellFormed(lanes)
    decreases |out|
  {
    if out == [] then lanes == map[]
    else
      var a := out[0].sender;
      && IsLeast(ctx, lanes, a) && out[0] == lanes[a][0]
      && IsMerge(ctx, Pop(lanes, a), out[1..])
  }

  function BySender(txs: seq<Tx>, a: Address): seq<Tx> {
    if txs == [] then [] else (if txs[0].sender == a then [txs[0]] else []) + BySender(txs[1..], a)
  }

  lemma {:induction false} BySenderMember(txs: seq<Tx>, a: Address, tx: Tx)
    ensures tx in BySender(txs, a) <==> tx in txs && tx.sender == a
  {
    if txs != [] {
      BySenderMember(txs[1..], a, tx);
    }
  }

  /** The merge is a function of the lanes. */
  lemma {:induction false} MergeIsUnique(ctx: Ctx, lanes: Lanes, out: seq<Tx>, out': seq<Tx>)
    requires WellFormed(lanes) && IsMerge(ctx, lanes, out) && IsMerge(ctx, lanes, out')
    ensures out == out'
    decreases |out|
  {
    if out != [] && out' != [] {
      var a, a' := out[0].sender, out'[0].sender;
      if a != a' {
        HeadBeforeTotal(ctx, lanes[a], lanes[a']);
        assert false;
      }
      MergeIsUnique(ctx, Pop(lanes, a), out[1..], out'[1..]);
      assert out == [out[0]] + out[1..] && out' == [out'[0]] + out'[1..];
    }
  }

  /** Each lane comes out whole and in its own order. */
  lemma {:induction false} MergeKeepsLanes(ctx: Ctx, lanes: Lanes, out: seq<Tx>, a: Address)
    requires WellFormed(lanes) && IsMerge(ctx, lanes, out)
    ensures BySender(out, a) == LaneOf(lanes, a)
    decreases |out|
  {
    if out != [] {
      MergeKeepsLanes(ctx, Pop(lanes, out[0].sender), out[1..], a);
      PoppedLane(lanes, out[0].sender, a);
    }
  }

  function LaneOf(lanes: Lanes, a: Address): seq<Tx> {
    if a in lanes then lanes[a] else []
  }

  lemma PoppedLane(lanes: Lanes, b: Address, a: Address)
    requires b in lanes && lanes[b] != []
    ensures LaneOf(lanes, a) == (if a == b then [lanes[b][0]] else []) + LaneOf(Pop(lanes, b), a)
  {
    if a == b { assert lanes[b] == [lanes[b][0]] + lanes[b][1..]; }
  }

  lemma {:induction false} LifterFound(ctx: Ctx, q: seq<Tx>, tx: Tx)
    requires tx in q && Lifts(ctx, tx)
    ensures FirstLifter(ctx, q).Some?
  {
    if q[0] != tx { LifterFound(ctx, q[1..], tx); }
  }

  lemma {:induction false} LifterIsMember(ctx: Ctx, q: seq<Tx>)
    ensures FirstLifter(ctx, q).Some? ==> FirstLifter(ctx, q).value in q && Lifts(ctx, FirstLifter(ctx, q).value)
  {
    if q != [] && !Lifts(ctx, q[0]) { LifterIsMember(ctx, q[1..]); }
  }

  /** If the least head is a transfer that nothing lifts, nothing is lifted in any lane. */
  lemma UnliftedIsLast(ctx: Ctx, q: seq<Tx>, q': seq<Tx>)
    requires q != [] && q' != [] && HeadBefore(ctx, q, q')
    requires q[0].kind.Transfer? && FirstLifter(ctx, q).None?
    ensures FirstLifter(ctx, q').None?
  {
    var k, k' := HeadKey(ctx, q) + TieKey(ctx, q[0]), HeadKey(ctx, q') + TieKey(ctx, q'[0]);
    assert k[0] == 1 && k'[0] == HeadKey(ctx, q')[0];
  }

  /**
   * A transfer that no authorized protocol transaction of its own sender follows is
   * followed by no authorized protocol transaction at all.
   */
  lemma {:induction false} ProtocolFirst(ctx: Ctx, lanes: Lanes, out: seq<Tx>, i: nat, j: nat) returns (k: nat)
    requires WellFormed(lanes) && IsMerge(ctx, lanes, out) && i < j < |out|
    requires out[i].kind.Transfer? && Lifts(ctx, out[j])
    ensures i < k < |out| && out[k].sender == out[i].sender && Lifts(ctx, out[k])
    decreases |out|
  {
    if i > 0 {
      var rest := out[1..];
      assert rest[i - 1] == out[i] && rest[j - 1] == out[j];
      k := ProtocolFirst(ctx, Pop(lanes, out[0].sender), rest, i - 1, j - 1);
      assert rest[k] == out[k + 1];
      k := k + 1;
    } else {
      k := LifterAhead(ctx, lanes, out, j);
    }
  }

  lemma LifterAhead(ctx: Ctx, lanes: Lanes, out: seq<Tx>, j: nat) returns (k: nat)
    requires WellFormed(lanes) && IsMerge(ctx, lanes, out) && 0 < j < |out|
    requires out[0].kind.Transfer? && Lifts(ctx, out[j])
    ensures 0 < k < |out| && out[k].sender == out[0].sender && Lifts(ctx, out[k])
  {
    var a, b := out[0].sender, out[j].sender;
    MergeKeepsLanes(ctx, lanes, out, a);
    MergeKeepsLanes(ctx, lanes, out, b);
    BySenderMember(out, b, out[j]);
    LifterFound(ctx, lanes[b], out[j]);
    if a != b && FirstLifter(ctx, lanes[a]).None? {
      UnliftedIsLast(ctx, lanes[a], lanes[b]);
    }
    LifterIsMember(ctx, lanes[a]);
    var lifter := FirstLifter(ctx, lanes[a]).value;
    BySenderMember(out, a, lifter);
    k :| 0 <= k < |out| && out[k] == lifter;
  }

  // -------------------------------------------------------------------------
  // Lanes of a pool
  // -------------------------------------------------------------------------

  /** Order within a lane: nonce, then fee or arrival, time, txid. */
  predicate LaneLess(ctx: Ctx, x: Tx, y: Tx) {
    KeyLess([x.nonce] + TieKey(ctx, x), Units(x.txid), [], [y.nonce] + TieKey(ctx, y), Units(y.txid), [])
  }

  /** The source calls the runtime's stable sort. */
  function SortLane(ctx: Ctx, q: seq<Tx>): seq<Tx> {
    SortBy((x: Tx, y: Tx) => LaneLess(ctx, x, y), q)
  }

  lemma LaneLessFacts(ctx: Ctx, x: Tx, y: Tx)
    ensures !(LaneLess(ctx, x, y) && LaneLess(ctx, y, x))
    ensures x.txid != y.txid ==> LaneLess(ctx, x, y) || LaneLess(ctx, y, x)
    ensures !LaneLess(ctx, x, y) ==> y.nonce <= x.nonce
  {
    LexTotal([x.nonce] + TieKey(ctx, x), [y.nonce] + TieKey(ctx, y));
    LexTotal(Units(x.txid), Units(y.txid));
    if Units(x.txid) == Units(y.txid) { UnitsInjective(x.txid, y.txid); }
  }

  /** Ties agree on every key, so not-less is transitive. */
  lemma LaneNotLessTransitive(ctx: Ctx, x: Tx, y: Tx, z: Tx)
    requires !LaneLess(ctx, y, x) && !LaneLess(ctx, z, y)
    ensures !LaneLess(ctx, z, x)
  {
    LexTotal([x.nonce] + TieKey(ctx, x), [y.nonce] + TieKey(ctx, y));
    LexTotal(Units(x.txid), Units(y.txid));
    LexTotal([y.nonce] + TieKey(ctx, y), [z.nonce] + TieKey(ctx, z));
    LexTotal(Units(y.txid), Units(z.txid));
    if LaneLess(ctx, x, y) && LaneLess(ctx, z, x) {
      KeyLessTransitive([z.nonce] + TieKey(ctx, z), Units(z.txid), [], [x.nonce] + TieKey(ctx, x), Units(x.txid), [],
                        [y.nonce] + TieKey(ctx, y), Units(y.txid), []);
    }
  }

  lemma SortLaneSorts(ctx: Ctx, q: seq<Tx>)
    ensures Sorted((x: Tx, y: Tx) => LaneLess(ctx, x, y), SortLane(ctx, q)) && multiset(SortLane(ctx, q)) == multiset(q)
    ensures StrictWeakOrder((x: Tx, y: Tx) => LaneLess(ctx, x, y))
  {
    var less := (x: Tx, y: Tx) => LaneLess(ctx, x, y);
    forall x, y ensures !(less(x, y) && less(y, x)) { LaneLessFacts(ctx, x, y); }
    forall x, y, z | !less(y, x) && !less(z, y) ensures !less(z, x) { LaneNotLessTransitive(ctx, x, y, z); }
    SortBySorts(less, q);
  }

  ghost function Senders(txs: seq<Tx>): set<Address> {
    set tx | tx in txs :: tx.sender
  }

  /** One sorted lane per sender. */
  ghost function LanesOf(ctx: Ctx, txs: seq<Tx>): Lanes {
    map a | a in Senders(txs) :: SortLane(ctx, BySender(txs, a))
  }

  lemma LanesAreWellFormed(ctx: Ctx, txs: seq<Tx>)
    ensures WellFormed(LanesOf(ctx, txs))
  {
    forall a | a in Senders(txs)
      ensures SortLane(ctx, BySender(txs, a)) != []
      ensures forall tx :: tx in SortLane(ctx, BySender(txs, a)) ==> tx.sender == a
    {
      SortLaneSorts(ctx, BySender(txs, a));
      var tx :| tx in txs && tx.sender == a;
      BySenderMember(txs, a, tx);
      SameMembers(SortLane(ctx, BySender(txs, a)), BySender(txs, a));
      forall x | x in SortLane(ctx, BySender(txs, a)) ensures x.sender == a {
        BySenderMember(txs, a, x);
      }
    }
  }

  function ArrivalIndex(txs: seq<Tx>): map<string, nat> {
    if txs == [] then map[]
    else
      var m, last := ArrivalIndex(txs[..|txs| - 1]), txs[|txs| - 1];
      if last.txid in m then m else m[last.txid := |txs| - 1]
  }

  function Context(txs: seq<Tx>, authorized: Tx -> bool, feePriority: bool): Ctx {
    Ctx(authorized, feePriority, if feePriority then map[] else ArrivalIndex(txs))
  }

  // -------------------------------------------------------------------------
  // What the ordering promises
  // -------------------------------------------------------------------------

  /** `out` is the order the source computes for the pool `txs`. */
  ghost predicate IsOrdered(txs: seq<Tx>, authorized: Tx -> bool, feePriority: bool, out: seq<Tx>) {
    var ctx := Context(txs, authorized, feePriority);
    LanesAreWellFormed(ctx, txs);
    IsMerge(ctx, LanesOf(ctx, txs), out)
  }

  lemma {:induction false} SenderCounts(txs: seq<Tx>, tx: Tx)
    ensures multiset(txs)[tx] == multiset(BySender(txs, tx.sender))[tx]
  {
    if txs != [] {
      SenderCounts(txs[1..], tx);
      assert txs == [txs[0]] + txs[1..];
    }
  }

  /** A permutation of the pool in which every sender's transactions ascend in nonce. */
  lemma OrderedIsPermutation(txs: seq<Tx>, authorized: Tx -> bool, feePriority: bool, out: seq<Tx>)
    requires IsOrdered(txs, authorized, feePriority, out)
    ensures multiset(out) == multiset(txs)
    ensures forall i, j :: 0 <= i < j < |out| && out[i].sender == out[j].sender ==> out[i].nonce <= out[j].nonce
  {
    var ctx := Context(txs, authorized, feePriority);
    LanesAreWellFormed(ctx, txs);
    forall tx ensures multiset(out)[tx] == multiset(txs)[tx] {
      CountKept(ctx, txs, out, tx);
    }
    forall i, j | 0 <= i < j < |out| && out[i].sender == out[j].sender ensures out[i].nonce <= out[j].nonce {
      NonceAscends(ctx, txs, out, i, j);
    }
  }

  lemma SenderLane(ctx: Ctx, txs: seq<Tx>, out: seq<Tx>, a: Address)
    requires WellFormed(LanesOf(ctx, txs)) && IsMerge(ctx, LanesOf(ctx, txs), out)
    ensures BySender(out, a) == SortLane(ctx, BySender(txs, a))
  {
    MergeKeepsLanes(ctx, LanesOf(ctx, txs), out, a);
    if a !in Senders(txs) {
      var mine := BySender(txs, a);
      if mine != [] { BySenderMember(txs, a, mine[0]); }
      assert mine == [];
    }
  }

  lemma CountKept(ctx: Ctx, txs: seq<Tx>, out: seq<Tx>, tx: Tx)
    requires WellFormed(LanesOf(ctx, txs)) && IsMerge(ctx, LanesOf(ctx, txs), out)
    ensures multiset(out)[tx] == multiset(txs)[tx]
  {
    SenderLane(ctx, txs, out, tx.sender);
    SenderCounts(out, tx);
    SenderCounts(txs, tx);
    SortLaneSorts(ctx, BySender(txs, tx.sender));
  }

  lemma NonceAscends(ctx: Ctx, txs: seq<Tx>, out: seq<Tx>, i: nat, j: nat)
    requires WellFormed(LanesOf(ctx, txs)) && IsMerge(ctx, LanesOf(ctx, txs), out)
    requires i < j < |out| && out[i].sender == out[j].sender
    ensures out[i].nonce <= out[j].nonce
  {
    SenderLane(ctx, txs, out, out[i].sender);
    SortLaneSorts(ctx, BySender(txs, out[i].sender));
    var m, n := LanePositions(out, i, j);
    LaneLessFacts(ctx, out[j], out[i]);
  }

  lemma {:induction false} BySenderConcat(s: seq<Tx>, t: seq<Tx>, a: Address)
    ensures BySender(s + t, a) == BySender(s, a) + BySender(t, a)
    decreases |s|
  {
    if s == [] {
      assert s + t == t;
    } else {
      BySenderConcat(s[1..], t, a);
      BySenderHead(s[0], s[1..], a);
      BySenderHead(s[0], s[1..] + t, a);
      assert s == [s[0]] + s[1..] && s + t == [s[0]] + (s[1..] + t);
    }
  }

  lemma BySenderHead(x: Tx, s: seq<Tx>, a: Address)
    ensures BySender([x] + s, a) == (if x.sender == a then [x] else []) + BySender(s, a)
  {
    assert ([x] + s)[1..] == s;
  }

  /** The place of `out[i]` in its lane is the number of its sender's transactions before it. */
  lemma LanePosition(out: seq<Tx>, i: nat)
    requires i < |out|
    ensures var a := out[i].sender; var m := |BySender(out[..i], a)|;
      m < |BySender(out, a)| && BySender(out, a)[m] == out[i] && |BySender(out[..i + 1], a)| == m + 1
  {
    var a := out[i].sender;
    assert out == out[..i] + out[i..] && out[..i + 1] == out[..i] + [out[i]];
    BySenderConcat(out[..i], out[i..], a);
    BySenderConcat(out[..i], [out[i]], a);
  }

  lemma LanePositions(out: seq<Tx>, i: nat, j: nat) returns (m: nat, n: nat)
    requires i < j < |out| && out[i].sender == out[j].sender
    ensures var lane := BySender(out, out[i].sender); m < n < |lane| && lane[m] == out[i] && lane[n] == out[j]
  {
    var a := out[i].sender;
    LanePosition(out, i);
    LanePosition(out, j);
    m, n := |BySender(out[..i], a)|, |BySender(out[..j], a)|;
    assert out[..j] == out[..i + 1] + out[i + 1..j];
    BySenderConcat(out[..i + 1], out[i + 1..j], a);
  }

  lemma {:induction false} BySenderCounts(txs: seq<Tx>, a: Address, tx: Tx)
    ensures multiset(BySender(txs, a))[tx] == if tx.sender == a then multiset(txs)[tx] else 0
  {
    if tx.sender == a {
      SenderCounts(txs, tx);
    } else {
      BySenderMember(txs, a, tx);
    }
  }

  /** Sorting a sender's transactions forgets the order they came in. */
  lemma LaneOrderIrrelevant(ctx: Ctx, txs: seq<Tx>, txs': seq<Tx>, a: Address)
    requires multiset(txs) == multiset(txs')
    requires forall x, y :: x in txs && y in txs && x.txid == y.txid ==> x == y
    ensures SortLane(ctx, BySender(txs, a)) == SortLane(ctx, BySender(txs', a))
  {
    var q, q' := BySender(txs, a), BySender(txs', a);
    forall tx ensures multiset(q)[tx] == multiset(q')[tx] {
      BySenderCounts(txs, a, tx);
      BySenderCounts(txs', a, tx);
    }
    assert multiset(q) == multiset(q');
    SortLaneSorts(ctx, q);
    SortLaneSorts(ctx, q');
    SameMembers(SortLane(ctx, q), q);
    var r := SortLane(ctx, q);
    forall i, j | 0 <= i < |r| && 0 <= j < |r| && r[i] != r[j]
      ensures LaneLess(ctx, r[i], r[j]) || LaneLess(ctx, r[j], r[i])
    {
      BySenderMember(txs, a, r[i]);
      BySenderMember(txs, a, r[j]);
      LaneLessFacts(ctx, r[i], r[j]);
    }
    SortedIsUnique((x: Tx, y: Tx) => LaneLess(ctx, x, y), SortLane(ctx, q), SortLane(ctx, q'));
  }

  /** Under fee priority the order does not depend on the order the pool is given in. */
  lemma InputOrderIrrelevant(txs: seq<Tx>, txs': seq<Tx>, authorized: Tx -> bool, out: seq<Tx>, out': seq<Tx>)
    requires multiset(txs) == multiset(txs')
    requires forall x, y :: x in txs && y in txs && x.txid == y.txid ==> x == y
    requires IsOrdered(txs, authorized, true, out) && IsOrdered(txs', authorized, true, out')
    ensures out == out'
  {
    var ctx := Context(txs, authorized, true);
    SameLanes(ctx, txs, txs');
    LanesAreWellFormed(ctx, txs);
    assert Context(txs', authorized, true) == ctx;
    MergeIsUnique(ctx, LanesOf(ctx, txs), out, out');
  }

  lemma SameLanes(ctx: Ctx, txs: seq<Tx>, txs': seq<Tx>)
    requires multiset(txs) == multiset(txs')
    requires forall x, y :: x in txs && y in txs && x.txid == y.txid ==> x == y
    ensures LanesOf(ctx, txs) == LanesOf(ctx, txs')
  {
    SameMembers(txs, txs');
    assert Senders(txs) == Senders(txs');
    forall a | a in Senders(txs) ensures SortLane(ctx, BySender(txs, a)) == SortLane(ctx, BySender(txs', a)) {
      LaneOrderIrrelevant(ctx, txs, txs', a);
    }
  }

  /**
   * Every authorized protocol transaction comes before every transfer that has no authorized
   * protocol transaction of its own sender behind it.
   */
  lemma OrderedProtocolFirst(txs: seq<Tx>, authorized: Tx -> bool, feePriority: bool, out: seq<Tx>)
    requires IsOrdered(txs, authorized, feePriority, out)
    ensures var ctx := Context(txs, authorized, feePriority);
      forall i, j :: 0 <= i < j < |out| && out[i].kind.Transfer? && Lifts(ctx, out[j]) ==>
        exists k :: i < k < |out| && out[k].sender == out[i].sender && Lifts(ctx, out[k])
  {
    var ctx := Context(txs, authorized, feePriority);
    LanesAreWellFormed(ctx, txs);
    forall i, j | 0 <= i < j < |out| && out[i].kind.Transfer? && Lifts(ctx, out[j])
      ensures exists k :: i < k < |out| && out[k].sender == out[i].sender && Lifts(ctx, out[k])
    {
      var k := ProtocolFirst(ctx, LanesOf(ctx, txs), out, i, j);
    }
  }
}
