/**
 * Exactly which transactions the mempool takes, and what it then holds, told by lists, sizes and
 * totals (l1/src/mempool.ts).
 */
module MempoolAdmission {
  import opened Quorum
  import opened MempoolSpec

  // -------------------------------------------------------------------------
  // Sizes and totals
  // -------------------------------------------------------------------------

  function Transfers(txs: seq<PoolTx>): seq<PoolTx> {
    if txs == [] then []
    else Transfers(txs[..|txs| - 1]) + if txs[|txs| - 1].kind.Transfer? then [txs[|txs| - 1]] else []
  }

  function From(txs: seq<PoolTx>, sender: Address): seq<PoolTx> {
    if txs == [] then []
    else From(txs[..|txs| - 1], sender) + if txs[|txs| - 1].sender == sender then [txs[|txs| - 1]] else []
  }

  function TotalBytes(txs: seq<PoolTx>): nat {
    if txs == [] then 0 else TotalBytes(txs[..|txs| - 1]) + txs[|txs| - 1].bytes
  }

  /** The counts and sums the pool is checked by are these. */
  lemma {:induction false} SumsAre(txs: seq<PoolTx>, sender: Address)
    ensures Bytes(txs) == TotalBytes(txs) && SenderCount(txs, sender) == |From(txs, sender)|
    ensures TransferCount(txs) == |Transfers(txs)| && TransferBytes(txs) == TotalBytes(Transfers(txs))
  {
    if txs != [] {
      var init, last := txs[..|txs| - 1], txs[|txs| - 1];
      SumsAre(init, sender);
      assert (Transfers(init) + [last])[..|Transfers(init)|] == Transfers(init) == Transfers(init) + [];
    }
  }

  // -------------------------------------------------------------------------
  // Who goes
  // -------------------------------------------------------------------------

  /** A transfer that no pending transaction of its sender follows. */
  ghost predicate TailTransfer(txs: seq<PoolTx>, i: int) {
    && 0 <= i < |txs| && txs[i].kind.Transfer?
    && forall j :: 0 <= j < |txs| && txs[j].sender == txs[i].sender ==> txs[j].nonce <= txs[i].nonce
  }

  /** The rate of `x` is lower than that of `y`, or the same and `x` is no later. */
  predicate NoStronger(x: PoolTx, y: PoolTx) {
    && x.feeAtoms * y.bytes <= y.feeAtoms * x.bytes
    && (x.feeAtoms * y.bytes == y.feeAtoms * x.bytes ==> x.timestampMs <= y.timestampMs)
  }

  /** Of the tail transfers among the first `n`: lowest rate, then earliest timestamp, then earliest admission. */
  ghost predicate WeakestAmong(txs: seq<PoolTx>, n: nat, i: int) {
    && i < n <= |txs| && TailTransfer(txs, i)
    && forall j :: 0 <= j < n && TailTransfer(txs, j) ==>
      NoStronger(txs[i], txs[j]) && (NoStronger(txs[j], txs[i]) ==> i <= j)
  }

  ghost predicate WeakestTail(txs: seq<PoolTx>, i: int) {
    WeakestAmong(txs, |txs|, i)
  }

  lemma WeakerStill(x: PoolTx, y: PoolTx, z: PoolTx)
    requires x.bytes > 0 && y.bytes > 0 && z.bytes > 0 && Weaker(x, y) && NoStronger(y, z)
    ensures Weaker(x, z)
  {
    RateTransitive(x, y, z);
    if SameRate(x, z) {
      RateTransitive(y, z, x);
      RateTransitive(z, x, y);
    }
  }

  lemma {:induction false} ScanFindsWeakest(txs: seq<PoolTx>, n: nat) returns (i: int)
    requires n <= |txs| && forall tx :: tx in txs ==> tx.bytes > 0
    ensures WeakestOf(txs, n).Some? ==> WeakestAmong(txs, n, i) && WeakestOf(txs, n).value == txs[i]
    ensures WeakestOf(txs, n).None? ==> forall j :: 0 <= j < n ==> !TailTransfer(txs, j)
  {
    i := -1;
    if n > 0 {
      i := ScanFindsWeakest(txs, n - 1);
      var best, tx := WeakestOf(txs, n - 1), txs[n - 1];
      assert Evictable(txs, tx) <==> TailTransfer(txs, n - 1);
      if best.Some? && Evictable(txs, tx) && Weaker(tx, best.value) {
        forall j | 0 <= j < n && TailTransfer(txs, j)
          ensures NoStronger(tx, txs[j]) && (j < n - 1 ==> Weaker(tx, txs[j]))
        {
          if j < n - 1 { WeakerStill(tx, txs[i], txs[j]); }
        }
        i := n - 1;
      } else if Evictable(txs, tx) && best.None? {
        i := n - 1;
      }
    }
  }

  lemma WeakestIsOne(txs: seq<PoolTx>, i: int, j: int)
    requires WeakestTail(txs, i) && WeakestTail(txs, j)
    ensures i == j
  {
  }

  /** The transfer the pool would evict is the weakest tail transfer. */
  lemma VictimIs(txs: seq<PoolTx>, i: nat)
    requires Distinct(txs) && i < |txs| && forall tx :: tx in txs ==> tx.bytes > 0
    ensures Victim(txs) == Some(txs[i]) <==> WeakestTail(txs, i)
  {
    var k := ScanFindsWeakest(txs, |txs|);
    if Victim(txs).Some? && WeakestTail(txs, i) { WeakestIsOne(txs, i, k); }
  }

  // -------------------------------------------------------------------------
  // Who comes
  // -------------------------------------------------------------------------

  /** One more slot and its bytes are free, for a transfer within what is not reserved. */
  ghost predicate Room(cfg: Config, others: seq<PoolTx>, tx: PoolTx) {
    && |others| + 1 <= cfg.maxSize && TotalBytes(others) + tx.bytes <= cfg.maxBytes
    && (tx.kind.Transfer? ==>
          && |Transfers(others)| + 1 <= cfg.maxSize - cfg.reserve
          && TotalBytes(Transfers(others)) + tx.bytes <= cfg.maxBytes - cfg.reserveBytes)
  }

  /** A transfer that pays a higher fee than the other, and 11/10 of its rate. */
  predicate Outbids(tx: PoolTx, other: PoolTx) {
    && tx.kind.Transfer? && other.kind.Transfer? && tx.feeAtoms > other.feeAtoms
    && 10 * (tx.feeAtoms * other.bytes) >= 11 * (other.feeAtoms * tx.bytes)
  }

  function Without(txs: seq<PoolTx>, i: nat): seq<PoolTx>
    requires i < |txs|
  {
    txs[..i] + txs[i + 1..]
  }

  /** The weakest tail transfer is at `i` and may go for `tx`. */
  ghost predicate GivesWay(cfg: Config, others: seq<PoolTx>, tx: PoolTx, i: int) {
    && WeakestTail(others, i) && TotalBytes(others) - others[i].bytes + tx.bytes <= cfg.maxBytes
    && (tx.kind.Transfer? ==> !cfg.disableFeeReplacement && Outbids(tx, others[i]))
  }

  ghost predicate Fits(cfg: Config, others: seq<PoolTx>, tx: PoolTx) {
    Room(cfg, others, tx) || exists i :: GivesWay(cfg, others, tx, i)
  }

  /** `tx` came last, into free room or else for the weakest tail transfer. */
  ghost predicate Joined(cfg: Config, others: seq<PoolTx>, tx: PoolTx, after: seq<PoolTx>) {
    if Room(cfg, others, tx) then after == others + [tx]
    else exists i :: GivesWay(cfg, others, tx, i) && after == Without(others, i) + [tx]
  }

  lemma RoomIs(cfg: Config, others: seq<PoolTx>, tx: PoolTx)
    ensures NeedsRoom(cfg, others, tx) <==> !Room(cfg, others, tx)
  {
    SumsAre(others, tx.sender);
  }

  lemma InsertIs(cfg: Config, p: Pool, tx: PoolTx, now: int)
    requires Distinct(p.txs) && forall x :: x in p.txs ==> x.bytes > 0
    ensures InsertAfterCapacity(cfg, p, tx, now).Some? <==> Fits(cfg, p.txs, tx)
    ensures InsertAfterCapacity(cfg, p, tx, now).Some? ==>
      Joined(cfg, p.txs, tx, InsertAfterCapacity(cfg, p, tx, now).value.txs)
  {
    RoomIs(cfg, p.txs, tx);
    if NeedsRoom(cfg, p.txs, tx) { EvictionIs(cfg, p, tx, now); }
  }

  lemma EvictionIs(cfg: Config, p: Pool, tx: PoolTx, now: int)
    requires Distinct(p.txs) && (forall x :: x in p.txs ==> x.bytes > 0) && NeedsRoom(cfg, p.txs, tx)
    ensures InsertAfterCapacity(cfg, p, tx, now).Some? <==> exists i :: GivesWay(cfg, p.txs, tx, i)
    ensures InsertAfterCapacity(cfg, p, tx, now).Some? ==>
      exists i :: GivesWay(cfg, p.txs, tx, i) &&
        InsertAfterCapacity(cfg, p, tx, now).value.txs == Without(p.txs, i) + [tx]
  {
    var i := ScanFindsWeakest(p.txs, |p.txs|);
    if Victim(p.txs).Some? {
      SumsAre(p.txs, tx.sender);
      MayEvictIs(cfg, p.txs, tx, i);
      IndexOfMember(p.txs, p.txs[i]);
      assert IndexOf(p.txs, p.txs[i].txid) == i;
      forall j | GivesWay(cfg, p.txs, tx, j) ensures j == i { WeakestIsOne(p.txs, i, j); }
    }
  }

  lemma MayEvictIs(cfg: Config, others: seq<PoolTx>, tx: PoolTx, i: int)
    requires WeakestTail(others, i)
    ensures MayEvict(cfg, others, others[i], tx) <==> GivesWay(cfg, others, tx, i)
  {
    SumsAre(others, tx.sender);
  }

  /** What is asked of every newcomer. */
  ghost predicate Proper(cfg: Config, txs: seq<PoolTx>, tx: PoolTx) {
    && (tx.kind.Transfer? ==> tx.feeAtoms >= cfg.minFee && (cfg.fixedFee.Some? ==> tx.feeAtoms == cfg.fixedFee.value))
    && (forall x :: x in txs ==> x.txid != tx.txid)
    && 1 <= tx.bytes <= cfg.maxBytes
  }

  /** No pending transaction has the newcomer's sender and nonce, and its sender may have one more. */
  ghost predicate FreshSlot(cfg: Config, txs: seq<PoolTx>, tx: PoolTx) {
    && (forall x :: x in txs ==> !(x.sender == tx.sender && x.nonce == tx.nonce))
    && (cfg.maxPerSender.Some? ==> |From(txs, tx.sender)| < cfg.maxPerSender.value)
  }

  /** The pending transaction at `k` has the newcomer's sender and nonce, and gives way to it. */
  ghost predicate Replaces(cfg: Config, txs: seq<PoolTx>, tx: PoolTx, k: int) {
    && 0 <= k < |txs| && txs[k].sender == tx.sender && txs[k].nonce == tx.nonce
    && !cfg.disableFeeReplacement && Outbids(tx, txs[k])
    && TotalBytes(txs) - txs[k].bytes + tx.bytes <= cfg.maxBytes
  }

  lemma ProperIs(cfg: Config, txs: seq<PoolTx>, tx: PoolTx)
    ensures Proper(cfg, txs, tx) <==>
      FeeOk(cfg, tx) && IndexOf(txs, tx.txid) == |txs| && 1 <= tx.bytes <= cfg.maxBytes
  {
    var i := IndexOf(txs, tx.txid);
    if i < |txs| { assert txs[i] in txs; }
  }

  lemma ReplaceIs(cfg: Config, p: Pool, tx: PoolTx, now: int, k: nat)
    requires PoolInv(cfg, p) && k < |p.txs| && SlotOf(p.txs[k]) == SlotOf(tx)
    ensures var outcome := TryReplace(cfg, p, p.txs[k], tx, now);
      && (outcome.accepted <==> Replaces(cfg, p.txs, tx, k) && Fits(cfg, Without(p.txs, k), tx))
      && (outcome.accepted ==> Joined(cfg, Without(p.txs, k), tx, outcome.pool.txs))
  {
    IndexOfMember(p.txs, p.txs[k]);
    SumsAre(p.txs, tx.sender);
    DeleteMember(p, p.txs[k], true);
    InsertIs(cfg, Delete(p, p.txs[k], true), tx, now);
  }

  /** At most one pending transaction has a given sender and nonce. */
  lemma HolderIsOne(txs: seq<PoolTx>, k: nat)
    requires Distinct(txs) && k < |txs|
    ensures FindSlot(txs, SlotOf(txs[k])) == Some(txs[k])
    ensures forall l :: 0 <= l < |txs| && SlotOf(txs[l]) == SlotOf(txs[k]) ==> l == k
  {
    var found := FindSlot(txs, SlotOf(txs[k]));
    assert txs[k] in txs;
    var l :| 0 <= l < |txs| && txs[l] == found.value;
  }

  /** Main result: exactly which transactions are taken. */
  lemma AddAcceptedIff(cfg: Config, p: Pool, tx: PoolTx, now: int)
    requires PoolInv(cfg, p)
    ensures Add(cfg, p, tx, now).accepted <==>
      && Proper(cfg, p.txs, tx)
      && (|| (FreshSlot(cfg, p.txs, tx) && Fits(cfg, p.txs, tx))
          || exists k :: Replaces(cfg, p.txs, tx, k) && Fits(cfg, Without(p.txs, k), tx))
  {
    ProperIs(cfg, p.txs, tx);
    match FindSlot(p.txs, SlotOf(tx))
    case None =>
      SumsAre(p.txs, tx.sender);
      InsertIs(cfg, p, tx, now);
    case Some(prior) =>
      var k :| 0 <= k < |p.txs| && p.txs[k] == prior;
      HolderIsOne(p.txs, k);
      ReplaceIs(cfg, p, tx, now, k);
  }

  /** What the pool then holds, in order, when the slot was free: the newcomer last, without what gave way. */
  lemma InsertedIs(cfg: Config, p: Pool, tx: PoolTx, now: int)
    requires PoolInv(cfg, p) && Add(cfg, p, tx, now).accepted && FreshSlot(cfg, p.txs, tx)
    ensures Joined(cfg, p.txs, tx, Add(cfg, p, tx, now).pool.txs)
  {
    InsertIs(cfg, p, tx, now);
  }

  /** And when it was held: also without what the newcomer replaced. */
  lemma ReplacedIs(cfg: Config, p: Pool, tx: PoolTx, now: int, k: nat)
    requires PoolInv(cfg, p) && Add(cfg, p, tx, now).accepted && Replaces(cfg, p.txs, tx, k)
    ensures Joined(cfg, Without(p.txs, k), tx, Add(cfg, p, tx, now).pool.txs)
  {
    HolderIsOne(p.txs, k);
    ReplaceIs(cfg, p, tx, now, k);
  }
}
