/** What the mempool does, on the list of pending transactions alone (l1/src/mempool.ts). */
module MempoolSpec {
  import opened Arithmetic
  import opened Quorum
  import opened Sums

  datatype TxKind = Transfer | ValidatorUpdate | OtherProtocol

  /** `bytes` is the length of the canonical JSON of the transaction. */
  datatype PoolTx = PoolTx(
    txid: string, sender: Address, nonce: nat, kind: TxKind, amountAtoms: nat, feeAtoms: nat, timestampMs: int,
    bytes: nat)

  /** The source's `${sender}:${nonce}` key. */
  datatype Slot = Slot(sender: Address, nonce: nat)

  datatype Config = Config(
    maxSize: nat, maxBytes: nat, reserve: nat, reserveBytes: nat,
    disableFeeReplacement: bool, fixedFee: Option<nat>, minFee: nat, maxPerSender: Option<nat>)

  /** Pending transactions in insertion order, and admission times by slot. */
  datatype Pool = Pool(txs: seq<PoolTx>, admitted: map<Slot, int>)

  predicate ValidConfig(cfg: Config) {
    && cfg.maxSize >= 1 && cfg.maxBytes >= 1 && cfg.reserve < cfg.maxSize && cfg.reserveBytes < cfg.maxBytes
    && (cfg.fixedFee.Some? ==> cfg.fixedFee.value >= 1 && cfg.minFee == 0)
    && (cfg.maxPerSender.Some? ==> cfg.maxPerSender.value >= 1)
  }

  function SlotOf(tx: PoolTx): Slot {
    Slot(tx.sender, tx.nonce)
  }

  // -------------------------------------------------------------------------
  // Folds over the pool
  // -------------------------------------------------------------------------

  function ByteWeight(): PoolTx -> int { (tx: PoolTx) => tx.bytes }
  function TransferWeight(): PoolTx -> int { (tx: PoolTx) => if tx.kind.Transfer? then 1 else 0 }
  function TransferByteWeight(): PoolTx -> int { (tx: PoolTx) => if tx.kind.Transfer? then tx.bytes else 0 }
  function SenderWeight(a: Address): PoolTx -> int { (tx: PoolTx) => if tx.sender == a then 1 else 0 }
  function UpdateWeight(a: Address): PoolTx -> int {
    (tx: PoolTx) => if tx.sender == a && tx.kind.ValidatorUpdate? then 1 else 0
  }
  function SpendWeight(a: Address): PoolTx -> int {
    (tx: PoolTx) => if tx.sender == a && tx.kind.Transfer? then tx.amountAtoms + tx.feeAtoms else 0
  }

  function Bytes(txs: seq<PoolTx>): int { Sum(txs, ByteWeight()) }
  function TransferCount(txs: seq<PoolTx>): int { Sum(txs, TransferWeight()) }
  function TransferBytes(txs: seq<PoolTx>): int { Sum(txs, TransferByteWeight()) }
  function SenderCount(txs: seq<PoolTx>, a: Address): int { Sum(txs, SenderWeight(a)) }

  /** The list without its i-th element. */
  function Drop(txs: seq<PoolTx>, i: nat): seq<PoolTx>
    requires i < |txs|
  {
    txs[..i] + txs[i + 1..]
  }

  lemma SumDrop(txs: seq<PoolTx>, i: nat, weight: PoolTx -> int)
    requires i < |txs|
    ensures Sum(Drop(txs, i), weight) == Sum(txs, weight) - weight(txs[i])
  {
    SumWithout(txs, i, weight);
  }

  // -------------------------------------------------------------------------
  // Fee-rate comparison and the eviction victim
  // -------------------------------------------------------------------------

  /** feeAtoms / bytes of `left` is below that of `right`. */
  predicate LowerRate(left: PoolTx, right: PoolTx) {
    left.feeAtoms * right.bytes < right.feeAtoms * left.bytes
  }

  predicate SameRate(left: PoolTx, right: PoolTx) {
    left.feeAtoms * right.bytes == right.feeAtoms * left.bytes
  }

  /** Replacement needs a higher fee and a fee rate at least 10% higher. */
  predicate RequiredBump(existing: PoolTx, incoming: PoolTx) {
    && existing.kind.Transfer? && incoming.kind.Transfer?
    && incoming.feeAtoms > existing.feeAtoms
    && incoming.feeAtoms * existing.bytes * 10 >= existing.feeAtoms * incoming.bytes * 11
  }

  /** A required bump pays a higher fee and a higher fee rate, by a tenth at least. */
  lemma BumpRaisesRate(existing: PoolTx, incoming: PoolTx)
    requires existing.bytes >= 1 && incoming.bytes >= 1 && RequiredBump(existing, incoming)
    ensures LowerRate(existing, incoming) && !LowerRate(incoming, existing)
  {
    var e, i := existing.feeAtoms * incoming.bytes, incoming.feeAtoms * existing.bytes;
    assert i >= 1 by { MulMonotone(existing.bytes, 1, incoming.feeAtoms); }
    assert i * 10 >= e * 11;
  }

  /** No pending transaction of the sender has a higher nonce. */
  predicate IsTail(txs: seq<PoolTx>, tx: PoolTx) {
    forall other :: other in txs && other.sender == tx.sender ==> other.nonce <= tx.nonce
  }

  predicate Evictable(txs: seq<PoolTx>, tx: PoolTx) {
    tx in txs && tx.kind.Transfer? && IsTail(txs, tx)
  }

  predicate Weaker(tx: PoolTx, than: PoolTx) {
    LowerRate(tx, than) || (SameRate(tx, than) && tx.timestampMs < than.timestampMs)
  }

  /** The scan for the victim among the first n transactions of `txs`: the first of the weakest wins. */
  function WeakestOf(txs: seq<PoolTx>, n: nat): Option<PoolTx>
    requires n <= |txs|
  {
    if n == 0 then None
    else
      var best, tx := WeakestOf(txs, n - 1), txs[n - 1];
      if Evictable(txs, tx) && (best.None? || Weaker(tx, best.value)) then Some(tx) else best
  }

  function Victim(txs: seq<PoolTx>): Option<PoolTx> {
    WeakestOf(txs, |txs|)
  }

  lemma RateTransitive(x: PoolTx, y: PoolTx, z: PoolTx)
    requires x.bytes > 0 && y.bytes > 0 && z.bytes > 0
    requires !LowerRate(y, x) && !LowerRate(z, y)
    ensures !LowerRate(z, x)
  {
    var a, b, c := x.feeAtoms * y.bytes, y.feeAtoms * x.bytes, y.bytes;
    assert a <= b && y.feeAtoms * z.bytes <= z.feeAtoms * y.bytes;
    calc {
      x.feeAtoms * z.bytes * y.bytes;
    ==
      (x.feeAtoms * y.bytes) * z.bytes;
    <= { MulMonotone(z.bytes, a, b); }
      (y.feeAtoms * x.bytes) * z.bytes;
    ==
      (y.feeAtoms * z.bytes) * x.bytes;
    <= { MulMonotone(x.bytes, y.feeAtoms * z.bytes, z.feeAtoms * y.bytes); }
      (z.feeAtoms * y.bytes) * x.bytes;
    ==
      z.feeAtoms * x.bytes * y.bytes;
    }
    CancelRight(x.feeAtoms * z.bytes, z.feeAtoms * x.bytes, y.bytes);
  }

  lemma CancelRight(a: int, b: int, k: nat)
    requires k > 0 && a * k <= b * k
    ensures a <= b
  {
    if a > b { MulMonotone(k, b + 1, a); }
  }

  /**
   * The victim is evictable and no evictable transfer pays a lower fee rate; there is none only if nothing is
   * evictable.
   */
  lemma {:induction false} VictimIsWeakest(txs: seq<PoolTx>, n: nat)
    requires n <= |txs| && forall tx :: tx in txs ==> tx.bytes > 0
    ensures WeakestOf(txs, n).None? <==> forall i :: 0 <= i < n ==> !Evictable(txs, txs[i])
    ensures WeakestOf(txs, n).Some? ==> Evictable(txs, WeakestOf(txs, n).value)
    ensures WeakestOf(txs, n).Some? ==> forall i :: 0 <= i < n && Evictable(txs, txs[i]) ==>
      !LowerRate(txs[i], WeakestOf(txs, n).value)
  {
    if n > 0 {
      VictimIsWeakest(txs, n - 1);
      var best, tx := WeakestOf(txs, n - 1), txs[n - 1];
      if best.Some? && Evictable(txs, tx) && Weaker(tx, best.value) {
        forall i | 0 <= i < n - 1 && Evictable(txs, txs[i]) ensures !LowerRate(txs[i], tx) {
          RateTransitive(tx, best.value, txs[i]);
        }
      }
    }
  }

  // -------------------------------------------------------------------------
  // Operations
  // -------------------------------------------------------------------------

  function IndexOf(txs: seq<PoolTx>, txid: string): (i: nat)
    ensures i <= |txs| && (i < |txs| ==> txs[i].txid == txid)
    ensures forall k :: 0 <= k < i ==> txs[k].txid != txid
  {
    if txs == [] then 0 else if txs[0].txid == txid then 0 else 1 + IndexOf(txs[1..], txid)
  }

  function FindSlot(txs: seq<PoolTx>, slot: Slot): (r: Option<PoolTx>)
    ensures r.Some? ==> r.value in txs && SlotOf(r.value) == slot
    ensures r.None? ==> forall tx :: tx in txs ==> SlotOf(tx) != slot
  {
    if txs == [] then None else if SlotOf(txs[0]) == slot then Some(txs[0]) else FindSlot(txs[1..], slot)
  }

  function Delete(p: Pool, tx: PoolTx, keepAdmission: bool): Pool {
    var i := IndexOf(p.txs, tx.txid);
    Pool(if i < |p.txs| then Drop(p.txs, i) else p.txs, if keepAdmission then p.admitted else p.admitted - {SlotOf(tx)})
  }

  /** A slot that is already known keeps its admission time. */
  function Store(p: Pool, tx: PoolTx, now: int): Pool {
    Pool(p.txs + [tx], if SlotOf(tx) in p.admitted then p.admitted else p.admitted[SlotOf(tx) := now])
  }

  predicate NeedsRoom(cfg: Config, txs: seq<PoolTx>, tx: PoolTx) {
    || |txs| >= cfg.maxSize || Bytes(txs) + tx.bytes > cfg.maxBytes
    || (tx.kind.Transfer? && (TransferCount(txs) >= cfg.maxSize - cfg.reserve
                              || TransferBytes(txs) + tx.bytes > cfg.maxBytes - cfg.reserveBytes))
  }

  /** Whether `victim` may be evicted in favour of `tx`. */
  predicate MayEvict(cfg: Config, txs: seq<PoolTx>, victim: PoolTx, tx: PoolTx) {
    && !(cfg.disableFeeReplacement && tx.kind.Transfer?)
    && (tx.kind.Transfer? ==> RequiredBump(victim, tx))
    && Bytes(txs) - victim.bytes + tx.bytes <= cfg.maxBytes
  }

  /** Capacity checks, at most one eviction, then the insert; None where the source throws. */
  function InsertAfterCapacity(cfg: Config, p: Pool, tx: PoolTx, now: int): Option<Pool> {
    if !NeedsRoom(cfg, p.txs, tx) then Some(Store(p, tx, now))
    else match Victim(p.txs)
      case None => None
      case Some(victim) =>
        if MayEvict(cfg, p.txs, victim, tx) then Some(Store(Delete(p, victim, false), tx, now)) else None
  }

  predicate FeeOk(cfg: Config, tx: PoolTx) {
    tx.kind.Transfer? ==> (cfg.fixedFee.Some? ==> tx.feeAtoms == cfg.fixedFee.value) && tx.feeAtoms >= cfg.minFee
  }

  predicate ReplacementOk(cfg: Config, existing: PoolTx, tx: PoolTx) {
    !cfg.disableFeeReplacement && RequiredBump(existing, tx)
  }

  datatype Outcome = Outcome(accepted: bool, pool: Pool)

  function Add(cfg: Config, p: Pool, tx: PoolTx, now: int): Outcome {
    if !FeeOk(cfg, tx) || IndexOf(p.txs, tx.txid) < |p.txs| || tx.bytes < 1 || tx.bytes > cfg.maxBytes
    then Outcome(false, p)
    else match FindSlot(p.txs, SlotOf(tx))
      case Some(prior) => TryReplace(cfg, p, prior, tx, now)
      case None => TryInsert(cfg, p, tx, now)
  }

  /** Replaces the pending transaction of the same slot, or restores it when the newcomer does not fit. */
  function TryReplace(cfg: Config, p: Pool, prior: PoolTx, tx: PoolTx, now: int): Outcome {
    if !ReplacementOk(cfg, prior, tx) || Bytes(p.txs) - prior.bytes + tx.bytes > cfg.maxBytes then Outcome(false, p)
    else
      var without := Delete(p, prior, true);
      match InsertAfterCapacity(cfg, without, tx, now)
      case Some(next) => Outcome(true, next)
      case None => Outcome(false, Store(without, prior, now))
  }

  function TryInsert(cfg: Config, p: Pool, tx: PoolTx, now: int): Outcome {
    if cfg.maxPerSender.Some? && SenderCount(p.txs, tx.sender) >= cfg.maxPerSender.value then Outcome(false, p)
    else
      match InsertAfterCapacity(cfg, p, tx, now)
      case Some(next) => Outcome(true, next)
      case None => Outcome(false, p)
  }

  function Remove(p: Pool, txids: seq<string>): Pool
    decreases |txids|
  {
    if txids == [] then p else Remove(RemoveOne(p, txids[0]), txids[1..])
  }

  /** Deletes, in insertion order, every transaction the predicate selects. */
  function Prune(p: Pool, select: PoolTx -> bool, i: nat): Pool
    requires i <= |p.txs|
    decreases |p.txs| - i
  {
    if i == |p.txs| then p
    else if !select(p.txs[i]) then Prune(p, select, i + 1)
    else Prune(Pool(Drop(p.txs, i), p.admitted - {SlotOf(p.txs[i])}), select, i)
  }

  // -------------------------------------------------------------------------
  // What every operation keeps
  // -------------------------------------------------------------------------

  ghost predicate Distinct(txs: seq<PoolTx>) {
    forall i, j :: 0 <= i < j < |txs| ==> txs[i].txid != txs[j].txid && SlotOf(txs[i]) != SlotOf(txs[j])
  }

  ghost function Slots(txs: seq<PoolTx>): set<Slot> {
    set tx | tx in txs :: SlotOf(tx)
  }

  /**
   * Slots, bytes, the transfer slot reserve and the per-sender cap hold; times are kept for exactly the
   * pending slots.
   */
  ghost predicate PoolInv(cfg: Config, p: Pool) {
    && Distinct(p.txs) && p.admitted.Keys == Slots(p.txs)
    && (forall tx :: tx in p.txs ==> tx.bytes >= 1)
    && |p.txs| <= cfg.maxSize && Bytes(p.txs) <= cfg.maxBytes
    && TransferCount(p.txs) <= cfg.maxSize - cfg.reserve
    && (cfg.maxPerSender.Some? ==> forall a :: SenderCount(p.txs, a) <= cfg.maxPerSender.value)
  }

  lemma {:induction false} IndexOfMember(txs: seq<PoolTx>, tx: PoolTx)
    requires Distinct(txs) && tx in txs
    ensures IndexOf(txs, tx.txid) < |txs| && txs[IndexOf(txs, tx.txid)] == tx
  {
    var k :| 0 <= k < |txs| && txs[k] == tx;
    var i := IndexOf(txs, tx.txid);
    assert i <= k;
  }

  lemma DropMembers(txs: seq<PoolTx>, i: nat)
    requires Distinct(txs) && i < |txs|
    ensures Distinct(Drop(txs, i)) && |Drop(txs, i)| == |txs| - 1
    ensures forall tx :: tx in Drop(txs, i) <==> tx in txs && tx != txs[i]
    ensures Slots(Drop(txs, i)) == Slots(txs) - {SlotOf(txs[i])}
    ensures multiset(Drop(txs, i)) == multiset(txs) - multiset{txs[i]}
  {
    var d := Drop(txs, i);
    assert forall k :: 0 <= k < |d| ==> d[k] == txs[if k < i then k else k + 1];
    forall tx | tx in txs && tx != txs[i] ensures tx in d {
      var k :| 0 <= k < |txs| && txs[k] == tx;
      assert d[if k < i then k else k - 1] == tx;
    }
    assert txs == txs[..i] + [txs[i]] + txs[i + 1..];
  }

  /** Deleting a pending transaction removes it and lowers every fold by its weight. */
  lemma DeleteMember(p: Pool, tx: PoolTx, keepAdmission: bool)
    requires Distinct(p.txs) && tx in p.txs
    ensures var q := Delete(p, tx, keepAdmission);
      && Distinct(q.txs) && |q.txs| == |p.txs| - 1
      && (forall x :: x in q.txs <==> x in p.txs && x != tx)
      && Slots(q.txs) == Slots(p.txs) - {SlotOf(tx)}
      && multiset(q.txs) == multiset(p.txs) - multiset{tx}
  {
    IndexOfMember(p.txs, tx);
    DropMembers(p.txs, IndexOf(p.txs, tx.txid));
  }

  lemma DeleteSum(p: Pool, tx: PoolTx, keepAdmission: bool, weight: PoolTx -> int)
    requires Distinct(p.txs) && tx in p.txs
    ensures Sum(Delete(p, tx, keepAdmission).txs, weight) == Sum(p.txs, weight) - weight(tx)
  {
    IndexOfMember(p.txs, tx);
    SumDrop(p.txs, IndexOf(p.txs, tx.txid), weight);
  }

  lemma VictimEvictable(txs: seq<PoolTx>)
    requires Victim(txs).Some? && forall tx :: tx in txs ==> tx.bytes >= 1
    ensures Evictable(txs, Victim(txs).value)
    ensures forall tx :: Evictable(txs, tx) ==> !LowerRate(tx, Victim(txs).value)
  {
    VictimIsWeakest(txs, |txs|);
    forall tx | Evictable(txs, tx) ensures !LowerRate(tx, Victim(txs).value) {
      var i :| 0 <= i < |txs| && txs[i] == tx;
    }
  }

  /** The state an insert starts from: the invariant, but for the slot of `tx`, whose time may already be known. */
  ghost predicate ReadyFor(cfg: Config, p: Pool, tx: PoolTx) {
    && Distinct(p.txs) && p.admitted.Keys + {SlotOf(tx)} == Slots(p.txs) + {SlotOf(tx)}
    && (forall x :: x in p.txs ==> x.bytes >= 1 && x.txid != tx.txid && SlotOf(x) != SlotOf(tx))
    && |p.txs| <= cfg.maxSize && Bytes(p.txs) <= cfg.maxBytes && TransferCount(p.txs) <= cfg.maxSize - cfg.reserve
    && (cfg.maxPerSender.Some? ==> forall a :: SenderCount(p.txs, a) + SenderWeight(a)(tx) <= cfg.maxPerSender.value)
  }

  lemma StoreEstablishes(cfg: Config, p: Pool, tx: PoolTx, now: int)
    requires ReadyFor(cfg, p, tx) && tx.bytes >= 1
    requires |p.txs| < cfg.maxSize && Bytes(p.txs) + tx.bytes <= cfg.maxBytes
    requires tx.kind.Transfer? ==> TransferCount(p.txs) < cfg.maxSize - cfg.reserve
    ensures PoolInv(cfg, Store(p, tx, now))
  {
    StoreMembers(p, tx, now);
    SumSnoc(p.txs, tx, ByteWeight());
    SumSnoc(p.txs, tx, TransferWeight());
    forall a ensures SenderCount(p.txs + [tx], a) == SenderCount(p.txs, a) + SenderWeight(a)(tx) {
      SumSnoc(p.txs, tx, SenderWeight(a));
    }
  }

  lemma StoreMembers(p: Pool, tx: PoolTx, now: int)
    requires Distinct(p.txs) && p.admitted.Keys + {SlotOf(tx)} == Slots(p.txs) + {SlotOf(tx)}
    requires forall x :: x in p.txs ==> x.txid != tx.txid && SlotOf(x) != SlotOf(tx)
    ensures Distinct(Store(p, tx, now).txs) && Store(p, tx, now).admitted.Keys == Slots(Store(p, tx, now).txs)
  {
    var q := Store(p, tx, now);
    assert Slots(q.txs) == Slots(p.txs) + {SlotOf(tx)};
    assert q.admitted.Keys == p.admitted.Keys + {SlotOf(tx)};
  }

  lemma EvictionMakesRoom(cfg: Config, p: Pool, victim: PoolTx, tx: PoolTx)
    requires ReadyFor(cfg, p, tx) && Evictable(p.txs, victim)
    ensures var q := Delete(p, victim, false);
      && ReadyFor(cfg, q, tx) && |q.txs| < cfg.maxSize && TransferCount(q.txs) < cfg.maxSize - cfg.reserve
      && Bytes(q.txs) == Bytes(p.txs) - victim.bytes
  {
    var q := Delete(p, victim, false);
    DeleteMember(p, victim, false);
    DeleteTotals(p, victim, false);
    assert q.admitted.Keys == p.admitted.Keys - {SlotOf(victim)};
    forall a ensures SenderCount(q.txs, a) <= SenderCount(p.txs, a) { DeleteSum(p, victim, false, SenderWeight(a)); }
  }

  lemma DeleteTotals(p: Pool, tx: PoolTx, keepAdmission: bool)
    requires Distinct(p.txs) && tx in p.txs
    ensures var q := Delete(p, tx, keepAdmission);
      && Bytes(q.txs) == Bytes(p.txs) - tx.bytes
      && TransferCount(q.txs) == TransferCount(p.txs) - (if tx.kind.Transfer? then 1 else 0)
  {
    DeleteSum(p, tx, keepAdmission, ByteWeight());
    DeleteSum(p, tx, keepAdmission, TransferWeight());
  }

  lemma InsertKeepsInv(cfg: Config, p: Pool, tx: PoolTx, now: int)
    requires ReadyFor(cfg, p, tx) && tx.bytes >= 1 && InsertAfterCapacity(cfg, p, tx, now).Some?
    ensures PoolInv(cfg, InsertAfterCapacity(cfg, p, tx, now).value)
  {
    if NeedsRoom(cfg, p.txs, tx) {
      var victim := Victim(p.txs).value;
      VictimEvictable(p.txs);
      EvictionMakesRoom(cfg, p, victim, tx);
      StoreEstablishes(cfg, Delete(p, victim, false), tx, now);
    } else {
      StoreEstablishes(cfg, p, tx, now);
    }
  }

  lemma WithoutConflict(cfg: Config, p: Pool, prior: PoolTx, tx: PoolTx)
    requires PoolInv(cfg, p) && prior in p.txs && SlotOf(prior) == SlotOf(tx)
    requires forall x :: x in p.txs ==> x.txid != tx.txid
    ensures ReadyFor(cfg, Delete(p, prior, true), tx) && ReadyFor(cfg, Delete(p, prior, true), prior)
    ensures var q := Delete(p, prior, true);
      |q.txs| < cfg.maxSize && Bytes(q.txs) == Bytes(p.txs) - prior.bytes
      && TransferCount(q.txs) == TransferCount(p.txs) - TransferWeight()(prior)
  {
    DeleteTotals(p, prior, true);
    OthersDiffer(p, prior);
    ReadyAgain(cfg, p, prior, tx);
    ReadyAgain(cfg, p, prior, prior);
  }

  /** Without `prior`, the pool is ready for any transaction of its slot. */
  lemma ReadyAgain(cfg: Config, p: Pool, prior: PoolTx, tx: PoolTx)
    requires PoolInv(cfg, p) && prior in p.txs && SlotOf(prior) == SlotOf(tx)
    requires forall x :: x in Delete(p, prior, true).txs ==>
      x in p.txs && x.txid != tx.txid && SlotOf(x) != SlotOf(prior)
    ensures ReadyFor(cfg, Delete(p, prior, true), tx) && |Delete(p, prior, true).txs| < cfg.maxSize
  {
    var q := Delete(p, prior, true);
    DeleteMember(p, prior, true);
    DeleteTotals(p, prior, true);
    assert q.admitted == p.admitted;
    forall a ensures SenderCount(q.txs, a) + SenderWeight(a)(tx) == SenderCount(p.txs, a) {
      DeleteSum(p, prior, true, SenderWeight(a));
    }
  }

  lemma OthersDiffer(p: Pool, prior: PoolTx)
    requires Distinct(p.txs) && prior in p.txs
    ensures forall x :: x in Delete(p, prior, true).txs ==>
      x in p.txs && x.txid != prior.txid && SlotOf(x) != SlotOf(prior)
  {
    DeleteMember(p, prior, true);
    forall x | x in Delete(p, prior, true).txs
      ensures x in p.txs && x.txid != prior.txid && SlotOf(x) != SlotOf(prior)
    {
      var i :| 0 <= i < |p.txs| && p.txs[i] == x;
      var j :| 0 <= j < |p.txs| && p.txs[j] == prior;
    }
  }

  lemma NewcomerReady(cfg: Config, p: Pool, tx: PoolTx)
    requires PoolInv(cfg, p) && FindSlot(p.txs, SlotOf(tx)).None? && IndexOf(p.txs, tx.txid) == |p.txs|
    requires cfg.maxPerSender.Some? ==> SenderCount(p.txs, tx.sender) < cfg.maxPerSender.value
    ensures ReadyFor(cfg, p, tx)
  {
    forall x | x in p.txs ensures x.txid != tx.txid && SlotOf(x) != SlotOf(tx) {
      var k :| 0 <= k < |p.txs| && p.txs[k] == x;
    }
  }

  /** Every add, accepted or refused, keeps the bounds. */
  lemma AddKeepsInv(cfg: Config, p: Pool, tx: PoolTx, now: int)
    requires ValidConfig(cfg) && PoolInv(cfg, p)
    ensures PoolInv(cfg, Add(cfg, p, tx, now).pool)
  {
    if FeeOk(cfg, tx) && IndexOf(p.txs, tx.txid) == |p.txs| && 1 <= tx.bytes <= cfg.maxBytes {
      var conflict := FindSlot(p.txs, SlotOf(tx));
      if conflict.Some? {
        var prior := conflict.value;
        if ReplacementOk(cfg, prior, tx) && Bytes(p.txs) - prior.bytes + tx.bytes <= cfg.maxBytes {
          WithoutConflict(cfg, p, prior, tx);
          var without := Delete(p, prior, true);
          if InsertAfterCapacity(cfg, without, tx, now).Some? {
            InsertKeepsInv(cfg, without, tx, now);
          } else {
            StoreEstablishes(cfg, without, prior, now);
          }
        }
      } else if cfg.maxPerSender.Some? ==> SenderCount(p.txs, tx.sender) < cfg.maxPerSender.value {
        NewcomerReady(cfg, p, tx);
        if InsertAfterCapacity(cfg, p, tx, now).Some? { InsertKeepsInv(cfg, p, tx, now); }
      }
    }
  }

  /** Taking a transaction out and storing it again restores the contents and its admission time. */
  lemma RestoreIsExact(p: Pool, prior: PoolTx, now: int)
    requires Distinct(p.txs) && prior in p.txs && SlotOf(prior) in p.admitted
    ensures var q := Store(Delete(p, prior, true), prior, now);
      multiset(q.txs) == multiset(p.txs) && q.admitted == p.admitted
  {
    DeleteMember(p, prior, true);
    assert prior in multiset(p.txs);
  }

  /** A refused add, a refused replacement included, changes neither the contents nor any admission time. */
  lemma RefusedAddIsAtomic(cfg: Config, p: Pool, tx: PoolTx, now: int)
    requires PoolInv(cfg, p) && !Add(cfg, p, tx, now).accepted
    ensures multiset(Add(cfg, p, tx, now).pool.txs) == multiset(p.txs)
    ensures Add(cfg, p, tx, now).pool.admitted == p.admitted
  {
    var conflict := FindSlot(p.txs, SlotOf(tx));
    if conflict.Some? {
      assert SlotOf(conflict.value) in Slots(p.txs);
      RestoreIsExact(p, conflict.value, now);
    }
  }

  /** What an insert does: the newcomer joins and, if room was needed, exactly the victim leaves. */
  lemma InsertEffect(cfg: Config, p: Pool, tx: PoolTx, now: int)
    requires Distinct(p.txs) && (forall x :: x in p.txs ==> x.bytes >= 1) && InsertAfterCapacity(cfg, p, tx, now).Some?
    requires forall x :: x in p.txs ==> SlotOf(x) != SlotOf(tx)
    ensures var q := InsertAfterCapacity(cfg, p, tx, now).value; var evicts := NeedsRoom(cfg, p.txs, tx);
      && (evicts ==>
        Victim(p.txs).Some? && Evictable(p.txs, Victim(p.txs).value) && MayEvict(cfg, p.txs, Victim(p.txs).value, tx))
      && (forall x :: x in q.txs <==> x == tx || (x in p.txs && !(evicts && Victim(p.txs) == Some(x))))
      && SlotOf(tx) in q.admitted
      && q.admitted[SlotOf(tx)] == (if SlotOf(tx) in p.admitted then p.admitted[SlotOf(tx)] else now)
  {
    if NeedsRoom(cfg, p.txs, tx) {
      VictimEvictable(p.txs);
      DeleteMember(p, Victim(p.txs).value, false);
    }
  }

  /** The pool an add inserts into: without the transaction it replaces. */
  function Base(p: Pool, tx: PoolTx): Pool {
    match FindSlot(p.txs, SlotOf(tx))
    case Some(prior) => Delete(p, prior, true)
    case None => p
  }

  lemma BaseMembers(p: Pool, tx: PoolTx)
    requires Distinct(p.txs)
    ensures Distinct(Base(p, tx).txs) && Base(p, tx).admitted == p.admitted
    ensures forall x :: x in Base(p, tx).txs <==> x in p.txs && SlotOf(x) != SlotOf(tx)
  {
    var conflict := FindSlot(p.txs, SlotOf(tx));
    if conflict.Some? {
      DeleteMember(p, conflict.value, true);
      forall x | x in p.txs && x != conflict.value ensures SlotOf(x) != SlotOf(tx) {
        var i :| 0 <= i < |p.txs| && p.txs[i] == x;
        var j :| 0 <= j < |p.txs| && p.txs[j] == conflict.value;
      }
    }
  }

  /**
   * What an accepted add does: the newcomer joins; the transaction of its slot and at most
   * one victim leave; the slot keeps its first admission time.
   */
  lemma AcceptedAdd(cfg: Config, p: Pool, tx: PoolTx, now: int)
    requires PoolInv(cfg, p) && Add(cfg, p, tx, now).accepted
    ensures var q, base := Add(cfg, p, tx, now).pool, Base(p, tx); var evicts := NeedsRoom(cfg, base.txs, tx);
      && (evicts ==>
            && Victim(base.txs).Some? && Evictable(base.txs, Victim(base.txs).value)
            && MayEvict(cfg, base.txs, Victim(base.txs).value, tx))
      && (forall x :: x in q.txs <==>
        x == tx || (x in p.txs && SlotOf(x) != SlotOf(tx) && !(evicts && Victim(base.txs) == Some(x))))
      && SlotOf(tx) in q.admitted
      && q.admitted[SlotOf(tx)] == (if SlotOf(tx) in p.admitted then p.admitted[SlotOf(tx)] else now)
  {
    BaseMembers(p, tx);
    InsertEffect(cfg, Base(p, tx), tx, now);
  }

  // -------------------------------------------------------------------------
  // Runs
  // -------------------------------------------------------------------------

  lemma {:induction false} RemoveKeepsInv(cfg: Config, p: Pool, txids: seq<string>)
    requires PoolInv(cfg, p)
    ensures PoolInv(cfg, Remove(p, txids))
    ensures forall tx :: tx in Remove(p, txids).txs <==> tx in p.txs && tx.txid !in txids
    decreases |txids|
  {
    if txids != [] {
      var q := RemoveOne(p, txids[0]);
      RemoveOneKeepsInv(cfg, p, txids[0]);
      RemoveKeepsInv(cfg, q, txids[1..]);
      assert txids == [txids[0]] + txids[1..];
    }
  }

  function RemoveOne(p: Pool, txid: string): Pool {
    var i := IndexOf(p.txs, txid);
    if i < |p.txs| then Delete(p, p.txs[i], false) else p
  }

  lemma RemoveOneKeepsInv(cfg: Config, p: Pool, txid: string)
    requires PoolInv(cfg, p)
    ensures PoolInv(cfg, RemoveOne(p, txid))
    ensures forall tx :: tx in RemoveOne(p, txid).txs <==> tx in p.txs && tx.txid != txid
  {
    var i := IndexOf(p.txs, txid);
    if i < |p.txs| {
      ShrinkKeepsInv(cfg, p, i);
      IndexOfMember(p.txs, p.txs[i]);
    }
    forall tx | tx in p.txs ensures tx in RemoveOne(p, txid).txs <==> tx.txid != txid {
      var k :| 0 <= k < |p.txs| && p.txs[k] == tx;
    }
  }

  /** Dropping one transaction, with its admission time, keeps the bounds. */
  lemma ShrinkKeepsInv(cfg: Config, p: Pool, i: nat)
    requires PoolInv(cfg, p) && i < |p.txs|
    ensures PoolInv(cfg, Pool(Drop(p.txs, i), p.admitted - {SlotOf(p.txs[i])}))
    ensures forall tx :: tx in Drop(p.txs, i) <==> tx in p.txs && tx != p.txs[i]
  {
    DropMembers(p.txs, i);
    SumDrop(p.txs, i, ByteWeight());
    SumDrop(p.txs, i, TransferWeight());
    forall a ensures SenderCount(Drop(p.txs, i), a) <= SenderCount(p.txs, a) { SumDrop(p.txs, i, SenderWeight(a)); }
  }

  lemma {:induction false} PruneKeepsInv(cfg: Config, p: Pool, select: PoolTx -> bool, i: nat)
    requires PoolInv(cfg, p) && i <= |p.txs| && forall k :: 0 <= k < i ==> !select(p.txs[k])
    ensures PoolInv(cfg, Prune(p, select, i))
    ensures forall tx :: tx in Prune(p, select, i).txs <==> tx in p.txs && !select(tx)
    decreases |p.txs| - i
  {
    if i < |p.txs| {
      if select(p.txs[i]) {
        ShrinkKeepsInv(cfg, p, i);
        PruneKeepsInv(cfg, Pool(Drop(p.txs, i), p.admitted - {SlotOf(p.txs[i])}), select, i);
      } else {
        PruneKeepsInv(cfg, p, select, i + 1);
      }
    }
  }

  datatype Op = AddOp(tx: PoolTx, now: int) | RemoveOp(txids: seq<string>) | PruneOp(select: PoolTx -> bool)

  function Step(cfg: Config, p: Pool, op: Op): Pool {
    match op
    case AddOp(tx, now) => Add(cfg, p, tx, now).pool
    case RemoveOp(txids) => Remove(p, txids)
    case PruneOp(select) => Prune(p, select, 0)
  }

  function Run(cfg: Config, p: Pool, ops: seq<Op>): Pool
    decreases |ops|
  {
    if ops == [] then p else Run(cfg, Step(cfg, p, ops[0]), ops[1..])
  }

  /** The bounds hold after any sequence of operations. */
  lemma {:induction false} RunKeepsInv(cfg: Config, p: Pool, ops: seq<Op>)
    requires ValidConfig(cfg) && PoolInv(cfg, p)
    ensures PoolInv(cfg, Run(cfg, p, ops))
    decreases |ops|
  {
    if ops != [] {
      match ops[0]
      case AddOp(tx, now) => AddKeepsInv(cfg, p, tx, now); RunKeepsInv(cfg, Step(cfg, p, ops[0]), ops[1..]);
      case RemoveOp(txids) => RemoveKeepsInv(cfg, p, txids); RunKeepsInv(cfg, Step(cfg, p, ops[0]), ops[1..]);
      case PruneOp(select) => PruneKeepsInv(cfg, p, select, 0); RunKeepsInv(cfg, Step(cfg, p, ops[0]), ops[1..]);
    }
  }

  // -------------------------------------------------------------------------
  // The transfer byte reserve is no invariant
  // -------------------------------------------------------------------------

  predicate ByteReserveKept(cfg: Config, txs: seq<PoolTx>) {
    TransferBytes(txs) <= cfg.maxBytes - cfg.reserveBytes
  }

  /** An eviction is judged against the total byte limit only; here it leaves the transfers over their own limit. */
  predicate Overruns(cfg: Config, base: seq<PoolTx>, tx: PoolTx) {
    && tx.kind.Transfer? && NeedsRoom(cfg, base, tx)
    && Victim(base).Some? && TransferBytes(base) - Victim(base).value.bytes + tx.bytes > cfg.maxBytes - cfg.reserveBytes
  }

  /** An accepted add keeps the transfer byte reserve exactly when its eviction does not overrun it. */
  lemma ByteReserveCondition(cfg: Config, p: Pool, tx: PoolTx, now: int)
    requires PoolInv(cfg, p) && ByteReserveKept(cfg, p.txs) && Add(cfg, p, tx, now).accepted
    ensures ByteReserveKept(cfg, Add(cfg, p, tx, now).pool.txs) <==> !Overruns(cfg, Base(p, tx).txs, tx)
  {
    var base := Base(p, tx);
    BaseMembers(p, tx);
    var conflict := FindSlot(p.txs, SlotOf(tx));
    if conflict.Some? { DeleteSum(p, conflict.value, true, TransferByteWeight()); }
    assert TransferBytes(base.txs) <= cfg.maxBytes - cfg.reserveBytes;
    if NeedsRoom(cfg, base.txs, tx) {
      VictimEvictable(base.txs);
      DeleteSum(base, Victim(base.txs).value, false, TransferByteWeight());
      SumSnoc(Delete(base, Victim(base.txs).value, false).txs, tx, TransferByteWeight());
    } else {
      SumSnoc(base.txs, tx, TransferByteWeight());
    }
  }

  lemma SumPair(a: PoolTx, b: PoolTx, weight: PoolTx -> int)
    ensures Sum([a, b], weight) == weight(a) + weight(b)
  {
    assert [a, b] == ([] + [a]) + [b];
    SumSnoc([] + [a], b, weight);
    SumSnoc([], a, weight);
  }

  /** A pool at its transfer byte limit that an accepted transfer takes over the limit. */
  lemma ByteReserveFails()
    ensures var cfg := Config(10, 100, 1, 50, false, None, 0, None);
      var a := PoolTx("a", "A", 1, Transfer, 5, 1, 0, 10);
      var b := PoolTx("b", "B", 1, Transfer, 5, 100, 0, 40);
      var c := PoolTx("c", "C", 1, Transfer, 5, 1000, 0, 45);
      var p := Pool([a, b], map[SlotOf(a) := 0, SlotOf(b) := 0]);
      && ValidConfig(cfg) && PoolInv(cfg, p) && ByteReserveKept(cfg, p.txs)
      && Add(cfg, p, c, 0).accepted && !ByteReserveKept(cfg, Add(cfg, p, c, 0).pool.txs)
  {
    var cfg := Config(10, 100, 1, 50, false, None, 0, None);
    var a := PoolTx("a", "A", 1, Transfer, 5, 1, 0, 10);
    var b := PoolTx("b", "B", 1, Transfer, 5, 100, 0, 40);
    var c := PoolTx("c", "C", 1, Transfer, 5, 1000, 0, 45);
    var p := Pool([a, b], map[SlotOf(a) := 0, SlotOf(b) := 0]);
    SumPair(a, b, ByteWeight());
    SumPair(a, b, TransferByteWeight());
    SumPair(a, b, TransferWeight());
    assert Bytes([a, b]) == 50 && TransferBytes([a, b]) == 50 && TransferCount([a, b]) == 2;
    assert WeakestOf([a, b], 1) == Some(a) && WeakestOf([a, b], 2) == Some(a);
    assert FindSlot([a, b], SlotOf(c)) == None;
    assert IndexOf([a, b], "c") == 2 by { assert [a, b][1..] == [b]; assert [b][1..] == []; }
    assert Add(cfg, p, c, 0).accepted;
    assert Base(p, c) == p;
    ByteReserveCondition(cfg, p, c, 0);
  }
}
