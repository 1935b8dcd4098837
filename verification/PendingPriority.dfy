/**
 * Which pending transaction comes next, told key by key and from the ordered list alone
 * (l1/src/chain.ts).
 */
module PendingPriority {
  import opened Quorum
  import opened ChainTypes
  import opened Sorting
  import opened PendingOrder

  // -------------------------------------------------------------------------
  // Priorities
  // -------------------------------------------------------------------------

  /** Smaller is earlier, from the first key to the last. */
  datatype Priority = Priority(
    group: int, rank: int, activation: int, tie: int, time: int, txid: string, sender: string)

  /** `s` sorts before `t` by code units. */
  ghost predicate StringBefore(s: string, t: string) {
    FirstSmaller(Units(s), Units(t))
  }

  ghost predicate Precedes(p: Priority, q: Priority) {
    if p.group != q.group then p.group < q.group
    else if p.rank != q.rank then p.rank < q.rank
    else if p.activation != q.activation then p.activation < q.activation
    else if p.tie != q.tie then p.tie < q.tie
    else if p.time != q.time then p.time < q.time
    else if p.txid != q.txid then StringBefore(p.txid, q.txid)
    else StringBefore(p.sender, q.sender)
  }

  /** Settlements, then validator updates, protocol upgrades and oracle governance, each by activation height. */
  predicate RankedAs(tx: Tx, rank: int, activation: int) {
    match tx.kind
    case Transfer => false
    case ActivitySettlement(_) => rank == 0 && activation == 0
    case ValidatorUpdate(height, _) => rank == 1 && activation == height
    case ProtocolUpgrade(height, _) => rank == 2 && activation == height
    case OracleGovernance(height, _, _) => rank == 3 && activation == height
  }

  /** The lane `q` ranks like its `k`-th transaction: its head if that is no transfer, else the first vouched for. */
  ghost predicate RanksLike(authorized: Tx -> bool, q: seq<Tx>, k: int) {
    && 0 <= k < |q| && !q[k].kind.Transfer?
    && (!q[0].kind.Transfer? ==> k == 0)
    && (q[0].kind.Transfer? ==>
          authorized(q[k]) && forall l :: 0 <= l < k ==> q[l].kind.Transfer? || !authorized(q[l]))
  }

  /** The pool's first transaction with this identifier is at `n`. */
  ghost predicate ArrivesAt(txs: seq<Tx>, txid: string, n: int) {
    0 <= n < |txs| && txs[n].txid == txid && forall k :: 0 <= k < n ==> txs[k].txid != txid
  }

  /** Higher fees first, or earlier arrivals first. */
  ghost predicate TiedBy(txs: seq<Tx>, feePriority: bool, tx: Tx, tie: int) {
    if feePriority then tie == 0 - tx.feeAtoms else ArrivesAt(txs, tx.txid, tie)
  }

  /** The priority of a lane with the transactions `q` left. */
  ghost predicate HasPriority(txs: seq<Tx>, authorized: Tx -> bool, feePriority: bool, q: seq<Tx>, p: Priority) {
    && q != [] && p.time == q[0].timestampMs && p.txid == q[0].txid && p.sender == q[0].sender
    && TiedBy(txs, feePriority, q[0], p.tie)
    && if exists k :: RanksLike(authorized, q, k)
       then p.group == 0 && exists k :: RanksLike(authorized, q, k) && RankedAs(q[k], p.rank, p.activation)
       else p.group == 1 && p.rank == 0 && p.activation == 0
  }

  // -------------------------------------------------------------------------
  // The comparison of lane heads is the comparison of priorities
  // -------------------------------------------------------------------------

  /** Five keys compare as one list. */
  lemma FiveKeys(k: seq<int>, l: seq<int>)
    requires |k| == |l| == 5
    ensures LexLess(k, l) <==>
      if k[0] != l[0] then k[0] < l[0]
      else if k[1] != l[1] then k[1] < l[1]
      else if k[2] != l[2] then k[2] < l[2]
      else if k[3] != l[3] then k[3] < l[3]
      else k[4] < l[4]
    ensures k == l <==> k[0] == l[0] && k[1] == l[1] && k[2] == l[2] && k[3] == l[3] && k[4] == l[4]
  {
    assert LexLess(k[4..], l[4..]) <==> k[4] < l[4];
    assert k[3..][1..] == k[4..] && l[3..][1..] == l[4..];
    assert k[2..][1..] == k[3..] && l[2..][1..] == l[3..];
    assert k[1..][1..] == k[2..] && l[1..][1..] == l[2..];
    assert LexLess(k[3..], l[3..]) <==> k[3] < l[3] || (k[3] == l[3] && LexLess(k[4..], l[4..]));
    assert LexLess(k[2..], l[2..]) <==> k[2] < l[2] || (k[2] == l[2] && LexLess(k[3..], l[3..]));
    assert LexLess(k[1..], l[1..]) <==> k[1] < l[1] || (k[1] == l[1] && LexLess(k[2..], l[2..]));
  }

  /** What the comparison computes with. */
  function Computed(ctx: Ctx, q: seq<Tx>): Priority
    requires q != []
  {
    var k, t := HeadKey(ctx, q), TieKey(ctx, q[0]);
    Priority(k[0], k[1], k[2], t[0], t[1], q[0].txid, q[0].sender)
  }

  lemma ComparesPriorities(ctx: Ctx, q: seq<Tx>, q': seq<Tx>)
    requires q != [] && q' != []
    ensures HeadBefore(ctx, q, q') <==> Precedes(Computed(ctx, q), Computed(ctx, q'))
  {
    var k, k' := HeadKey(ctx, q) + TieKey(ctx, q[0]), HeadKey(ctx, q') + TieKey(ctx, q'[0]);
    FiveKeys(k, k');
    LexLessIs(Units(q[0].txid), Units(q'[0].txid));
    LexLessIs(Units(q[0].sender), Units(q'[0].sender));
    if Units(q[0].txid) == Units(q'[0].txid) { UnitsInjective(q[0].txid, q'[0].txid); }
    LexTotal(Units(q[0].txid), Units(q'[0].txid));
  }

  lemma {:induction false} ArrivalIs(txs: seq<Tx>, txid: string)
    ensures txid in ArrivalIndex(txs) <==> exists n :: ArrivesAt(txs, txid, n)
    ensures txid in ArrivalIndex(txs) ==> ArrivesAt(txs, txid, ArrivalIndex(txs)[txid])
    decreases |txs|
  {
    if txs != [] {
      var m := |txs| - 1;
      var init := txs[..m];
      ArrivalIs(init, txid);
      if n :| ArrivesAt(txs, txid, n) && n < m { assert ArrivesAt(init, txid, n); }
      if txid in ArrivalIndex(init) {
        assert ArrivesAt(txs, txid, ArrivalIndex(init)[txid]);
      } else if txs[m].txid == txid {
        forall k | 0 <= k < m ensures txs[k].txid != txid { NoArrival(init, txid, k); }
        assert ArrivesAt(txs, txid, m);
      }
    }
  }

  /** Where an identifier is, it first arrives somewhere. */
  lemma {:induction false} NoArrival(txs: seq<Tx>, txid: string, k: nat)
    requires k < |txs| && forall n :: !ArrivesAt(txs, txid, n)
    ensures txs[k].txid != txid
    decreases k
  {
    forall l | 0 <= l < k ensures txs[l].txid != txid { NoArrival(txs, txid, l); }
    assert !ArrivesAt(txs, txid, k);
  }

  lemma TieIs(txs: seq<Tx>, authorized: Tx -> bool, feePriority: bool, tx: Tx)
    requires tx in txs
    ensures TiedBy(txs, feePriority, tx, TieKey(Context(txs, authorized, feePriority), tx)[0])
  {
    if !feePriority {
      var k :| 0 <= k < |txs| && txs[k] == tx;
      ArrivalIs(txs, tx.txid);
      if forall n :: !ArrivesAt(txs, tx.txid, n) { NoArrival(txs, tx.txid, k); }
    }
  }

  lemma {:induction false} LifterIs(ctx: Ctx, q: seq<Tx>)
    requires q != [] && q[0].kind.Transfer?
    ensures FirstLifter(ctx, q).Some? ==>
      exists k :: RanksLike(ctx.authorized, q, k) && q[k] == FirstLifter(ctx, q).value
    ensures FirstLifter(ctx, q).None? ==> forall k :: !RanksLike(ctx.authorized, q, k)
  {
    if FirstLifter(ctx, q).Some? {
      var k := LifterAt(ctx, q);
      assert RanksLike(ctx.authorized, q, k);
    } else {
      forall k | RanksLike(ctx.authorized, q, k) ensures false { LifterFound(ctx, q, q[k]); }
    }
  }

  lemma {:induction false} LifterAt(ctx: Ctx, q: seq<Tx>) returns (k: nat)
    requires FirstLifter(ctx, q).Some?
    ensures k < |q| && q[k] == FirstLifter(ctx, q).value && Lifts(ctx, q[k])
    ensures forall l :: 0 <= l < k ==> !Lifts(ctx, q[l])
  {
    if Lifts(ctx, q[0]) {
      k := 0;
    } else {
      k := LifterAt(ctx, q[1..]);
      k := k + 1;
    }
  }

  lemma RanksOnce(authorized: Tx -> bool, q: seq<Tx>, k: int, l: int)
    requires RanksLike(authorized, q, k) && RanksLike(authorized, q, l)
    ensures k == l
  {
  }

  lemma ComputedIs(txs: seq<Tx>, authorized: Tx -> bool, feePriority: bool, q: seq<Tx>)
    requires q != [] && q[0] in txs
    ensures HasPriority(txs, authorized, feePriority, q, Computed(Context(txs, authorized, feePriority), q))
  {
    var ctx := Context(txs, authorized, feePriority);
    TieIs(txs, authorized, feePriority, q[0]);
    if q[0].kind.Transfer? {
      LifterIs(ctx, q);
    } else {
      assert RanksLike(authorized, q, 0);
    }
  }

  lemma PriorityIsOne(txs: seq<Tx>, authorized: Tx -> bool, feePriority: bool, q: seq<Tx>, p: Priority, p': Priority)
    requires HasPriority(txs, authorized, feePriority, q, p) && HasPriority(txs, authorized, feePriority, q, p')
    ensures p == p'
  {
    assert p.tie == p'.tie;
    if exists k :: RanksLike(authorized, q, k) {
      var k :| RanksLike(authorized, q, k) && RankedAs(q[k], p.rank, p.activation);
      var l :| RanksLike(authorized, q, l) && RankedAs(q[l], p'.rank, p'.activation);
      RanksOnce(authorized, q, k, l);
    }
  }

  // -------------------------------------------------------------------------
  // The ordered list
  // -------------------------------------------------------------------------

  lemma {:induction false} LeastAt(ctx: Ctx, lanes: Lanes, out: seq<Tx>, i: nat, b: Address)
    requires WellFormed(lanes) && IsMerge(ctx, lanes, out) && i < |out|
    requires b != out[i].sender && BySender(out[i..], b) != []
    ensures BySender(out[i..], out[i].sender) != []
    ensures HeadBefore(ctx, BySender(out[i..], out[i].sender), BySender(out[i..], b))
    decreases i
  {
    if i > 0 {
      assert out[1..][i - 1..] == out[i..];
      LeastAt(ctx, Pop(lanes, out[0].sender), out[1..], i - 1, b);
    } else {
      assert out[0..] == out;
      MergeKeepsLanes(ctx, lanes, out, out[0].sender);
      MergeKeepsLanes(ctx, lanes, out, b);
    }
  }

  lemma FirstLeft(out: seq<Tx>, i: nat, j: nat)
    requires i <= j < |out| && forall k :: i <= k < j ==> out[k].sender != out[j].sender
    ensures var q := BySender(out[i..], out[j].sender); q != [] && q[0] == out[j]
  {
    var rest, a := out[i..], out[j].sender;
    LanePosition(rest, j - i);
    var before := BySender(rest[..j - i], a);
    if before != [] { BySenderMember(rest[..j - i], a, before[0]); }
    assert before == [];
  }

  /**
   * Main result: whenever a transaction comes out, its lane has a higher priority than the lane of every other
   * sender whose next transaction comes later.
   */
  lemma OrderedByPriority(txs: seq<Tx>, authorized: Tx -> bool, feePriority: bool, out: seq<Tx>, i: nat, j: nat,
                          p: Priority, p': Priority)
    requires IsOrdered(txs, authorized, feePriority, out) && i < j < |out|
    requires forall k :: i <= k < j ==> out[k].sender != out[j].sender
    requires HasPriority(txs, authorized, feePriority, BySender(out[i..], out[i].sender), p)
    requires HasPriority(txs, authorized, feePriority, BySender(out[i..], out[j].sender), p')
    ensures Precedes(p, p')
  {
    var ctx := Context(txs, authorized, feePriority);
    var q, q' := BySender(out[i..], out[i].sender), BySender(out[i..], out[j].sender);
    LanesAreWellFormed(ctx, txs);
    LeastAt(ctx, LanesOf(ctx, txs), out, i, out[j].sender);
    FirstLeft(out, i, i);
    FirstLeft(out, i, j);
    OrderedIsPermutation(txs, authorized, feePriority, out);
    SameMembers(out, txs);
    ComputedIs(txs, authorized, feePriority, q);
    ComputedIs(txs, authorized, feePriority, q');
    PriorityIsOne(txs, authorized, feePriority, q, p, Computed(ctx, q));
    PriorityIsOne(txs, authorized, feePriority, q', p', Computed(ctx, q'));
    ComparesPriorities(ctx, q, q');
  }

  /** Out of two senders' next transfers, `i` comes out first with nothing vouched for behind it. */
  ghost predicate NextTransfers(authorized: Tx -> bool, out: seq<Tx>, i: nat, j: nat) {
    && i < j < |out| && out[i].kind.Transfer? && out[j].kind.Transfer?
    && (forall k :: i <= k < j ==> out[k].sender != out[j].sender)
    && (forall k :: i < k < |out| && out[k].sender == out[i].sender ==> out[k].kind.Transfer? || !authorized(out[k]))
  }

  lemma NothingVouched(authorized: Tx -> bool, out: seq<Tx>, i: nat, j: nat, k: int)
    requires NextTransfers(authorized, out, i, j)
    ensures !RanksLike(authorized, BySender(out[i..], out[i].sender), k)
  {
    var q := BySender(out[i..], out[i].sender);
    FirstLeft(out, i, i);
    if RanksLike(authorized, q, k) { BySenderMember(out[i..], out[i].sender, q[k]); }
  }

  lemma NextTransfersTie(txs: seq<Tx>, authorized: Tx -> bool, feePriority: bool, out: seq<Tx>, i: nat, j: nat)
    returns (p: Priority, p': Priority)
    requires IsOrdered(txs, authorized, feePriority, out) && NextTransfers(authorized, out, i, j)
    ensures TiedBy(txs, feePriority, out[i], p.tie) && TiedBy(txs, feePriority, out[j], p'.tie) && p.tie <= p'.tie
  {
    var ctx := Context(txs, authorized, feePriority);
    FirstLeft(out, i, i);
    FirstLeft(out, i, j);
    OrderedIsPermutation(txs, authorized, feePriority, out);
    SameMembers(out, txs);
    var q, q' := BySender(out[i..], out[i].sender), BySender(out[i..], out[j].sender);
    ComputedIs(txs, authorized, feePriority, q);
    ComputedIs(txs, authorized, feePriority, q');
    p, p' := Computed(ctx, q), Computed(ctx, q');
    OrderedByPriority(txs, authorized, feePriority, out, i, j, p, p');
    forall k ensures !RanksLike(authorized, q, k) { NothingVouched(authorized, out, i, j, k); }
  }

  /** Under fee priority, the first of two senders' next transfers pays at least as much, unless it is lifted. */
  lemma OrderedByFee(txs: seq<Tx>, authorized: Tx -> bool, out: seq<Tx>, i: nat, j: nat)
    requires IsOrdered(txs, authorized, true, out) && NextTransfers(authorized, out, i, j)
    ensures out[i].feeAtoms >= out[j].feeAtoms
  {
    var p, p' := NextTransfersTie(txs, authorized, true, out, i, j);
  }

  /** Without it, the first of two senders' next transfers arrived first, unless it is lifted. */
  lemma OrderedByArrival(txs: seq<Tx>, authorized: Tx -> bool, out: seq<Tx>, i: nat, j: nat, m: nat, n: nat)
    requires IsOrdered(txs, authorized, false, out) && NextTransfers(authorized, out, i, j)
    requires ArrivesAt(txs, out[i].txid, m) && ArrivesAt(txs, out[j].txid, n)
    ensures m <= n
  {
    var p, p' := NextTransfersTie(txs, authorized, false, out, i, j);
  }

  /** Of one sender's transactions with one nonce, none follows one it should precede: fee or arrival, time, txid. */
  lemma SameNonceOrder(txs: seq<Tx>, authorized: Tx -> bool, feePriority: bool, out: seq<Tx>, i: nat, j: nat,
                       tie: int, tie': int)
    requires IsOrdered(txs, authorized, feePriority, out) && i < j < |out|
    requires out[i].sender == out[j].sender && out[i].nonce == out[j].nonce
    requires TiedBy(txs, feePriority, out[i], tie) && TiedBy(txs, feePriority, out[j], tie')
    ensures var a, b := out[i], out[j];
      !Precedes(Priority(0, 0, 0, tie', b.timestampMs, b.txid, ""), Priority(0, 0, 0, tie, a.timestampMs, a.txid, ""))
  {
    var ctx := Context(txs, authorized, feePriority);
    LanesAreWellFormed(ctx, txs);
    OrderedIsPermutation(txs, authorized, feePriority, out);
    SameMembers(out, txs);
    TieIsOne(txs, authorized, feePriority, out[i], tie);
    TieIsOne(txs, authorized, feePriority, out[j], tie');
    LaneSorted(ctx, txs, out, i, j);
    LaneLessIs(ctx, out[j], out[i]);
  }

  lemma TieIsOne(txs: seq<Tx>, authorized: Tx -> bool, feePriority: bool, tx: Tx, tie: int)
    requires tx in txs && TiedBy(txs, feePriority, tx, tie)
    ensures TieKey(Context(txs, authorized, feePriority), tx) == [tie, tx.timestampMs]
  {
    TieIs(txs, authorized, feePriority, tx);
  }

  lemma LaneSorted(ctx: Ctx, txs: seq<Tx>, out: seq<Tx>, i: nat, j: nat)
    requires WellFormed(LanesOf(ctx, txs)) && IsMerge(ctx, LanesOf(ctx, txs), out)
    requires i < j < |out| && out[i].sender == out[j].sender
    ensures !LaneLess(ctx, out[j], out[i])
  {
    SenderLane(ctx, txs, out, out[i].sender);
    SortLaneSorts(ctx, BySender(txs, out[i].sender));
    var m, n := LanePositions(out, i, j);
  }

  lemma LaneLessIs(ctx: Ctx, x: Tx, y: Tx)
    requires x.nonce == y.nonce
    ensures var k, l := TieKey(ctx, x), TieKey(ctx, y);
      LaneLess(ctx, x, y) <==>
        Precedes(Priority(0, 0, 0, k[0], k[1], x.txid, ""), Priority(0, 0, 0, l[0], l[1], y.txid, ""))
  {
    var k, l := [x.nonce] + TieKey(ctx, x), [y.nonce] + TieKey(ctx, y);
    assert k[1..] == TieKey(ctx, x) && l[1..] == TieKey(ctx, y);
    TwoKeys(TieKey(ctx, x), TieKey(ctx, y));
    assert k == l <==> k[1..] == l[1..];
    LexLessIs(Units(x.txid), Units(y.txid));
    if Units(x.txid) == Units(y.txid) { UnitsInjective(x.txid, y.txid); }
    LexLessIs(Units(""), Units(""));
  }

  lemma TwoKeys(k: seq<int>, l: seq<int>)
    requires |k| == |l| == 2
    ensures LexLess(k, l) <==> if k[0] != l[0] then k[0] < l[0] else k[1] < l[1]
    ensures k == l <==> k[0] == l[0] && k[1] == l[1]
  {
    assert LexLess(k[1..], l[1..]) <==> k[1] < l[1];
  }
}
