/**
 * The mempool object: redundant indexes, counters and an eviction cache, all changed in
 * place, proved to follow the operations on the plain list (l1/src/mempool.ts).
 */
module Mempool {
  import opened Quorum
  import opened MempoolSpec
  import opened Sums

  /** A per-sender tally holds exactly the non-zero sums. */
  ghost predicate Tallies(m: map<Address, int>, txs: seq<PoolTx>, weight: Address -> (PoolTx -> int)) {
    forall a :: if a in m then m[a] == Sum(txs, weight(a)) && m[a] != 0 else Sum(txs, weight(a)) == 0
  }

  /** A weight that only counts a sender's own transactions. */
  ghost predicate BySender(weight: Address -> (PoolTx -> int)) {
    forall a, tx: PoolTx :: tx.sender != a ==> weight(a)(tx) == 0
  }

  function Adjust(m: map<Address, int>, a: Address, delta: int): map<Address, int> {
    var next := (if a in m then m[a] else 0) + delta;
    if next == 0 then m - {a} else m[a := next]
  }

  function Spend(): Address -> (PoolTx -> int) { (a: Address) => SpendWeight(a) }
  function Count(): Address -> (PoolTx -> int) { (a: Address) => SenderWeight(a) }
  function Updates(): Address -> (PoolTx -> int) { (a: Address) => UpdateWeight(a) }

  lemma TallyStore(m: map<Address, int>, txs: seq<PoolTx>, weight: Address -> (PoolTx -> int), tx: PoolTx)
    requires Tallies(m, txs, weight) && BySender(weight)
    ensures Tallies(Adjust(m, tx.sender, weight(tx.sender)(tx)), txs + [tx], weight)
  {
    forall a ensures Sum(txs + [tx], weight(a)) == Sum(txs, weight(a)) + weight(a)(tx) {
      SumSnoc(txs, tx, weight(a));
    }
  }

  lemma TallyDrop(m: map<Address, int>, txs: seq<PoolTx>, weight: Address -> (PoolTx -> int), i: nat)
    requires Tallies(m, txs, weight) && BySender(weight) && i < |txs|
    ensures Tallies(Adjust(m, txs[i].sender, -weight(txs[i].sender)(txs[i])), Drop(txs, i), weight)
  {
    forall a ensures Sum(Drop(txs, i), weight(a)) == Sum(txs, weight(a)) - weight(a)(txs[i]) {
      SumDrop(txs, i, weight(a));
    }
  }

  /** The nonce index names, for exactly the pending slots, the transaction in the slot. */
  ghost predicate NonceIndexOk(ids: map<Slot, string>, txs: seq<PoolTx>) {
    && ids.Keys == Slots(txs)
    && forall tx :: tx in txs ==> ids[SlotOf(tx)] == tx.txid
  }

  ghost function UpdateIds(txs: seq<PoolTx>): set<string> {
    set tx | tx in txs && tx.kind.ValidatorUpdate? :: tx.txid
  }

  lemma NonceIndexStore(ids: map<Slot, string>, txs: seq<PoolTx>, tx: PoolTx)
    requires NonceIndexOk(ids, txs) && forall x :: x in txs ==> SlotOf(x) != SlotOf(tx)
    ensures NonceIndexOk(ids[SlotOf(tx) := tx.txid], txs + [tx])
  {
    assert Slots(txs + [tx]) == Slots(txs) + {SlotOf(tx)};
  }

  lemma NonceIndexDrop(ids: map<Slot, string>, txs: seq<PoolTx>, i: nat)
    requires NonceIndexOk(ids, txs) && Distinct(txs) && i < |txs|
    ensures NonceIndexOk(ids - {SlotOf(txs[i])}, Drop(txs, i))
  {
    DropMembers(txs, i);
    forall x | x in Drop(txs, i) ensures SlotOf(x) != SlotOf(txs[i]) {
      var k :| 0 <= k < |txs| && txs[k] == x;
    }
  }

  lemma UpdateIdsStore(txs: seq<PoolTx>, tx: PoolTx)
    ensures UpdateIds(txs + [tx]) == if tx.kind.ValidatorUpdate? then UpdateIds(txs) + {tx.txid} else UpdateIds(txs)
  {
    assert forall x :: x in txs + [tx] <==> x in txs || x == tx;
  }

  lemma UpdateIdsDrop(txs: seq<PoolTx>, i: nat)
    requires Distinct(txs) && i < |txs|
    ensures UpdateIds(Drop(txs, i)) ==
      if txs[i].kind.ValidatorUpdate? then UpdateIds(txs) - {txs[i].txid} else UpdateIds(txs)
  {
    DropMembers(txs, i);
    forall x | x in txs && x != txs[i] ensures x.txid != txs[i].txid {
      var k :| 0 <= k < |txs| && txs[k] == x;
    }
    assert txs[i] in txs;
  }

  // -------------------------------------------------------------------------
  // All indexes as one value
  // -------------------------------------------------------------------------

  datatype Indexes = Indexes(
    nonceIds: map<Slot, string>, spend: map<Address, int>, size: int, bytes: int, transfers: int, transferBytes: int,
    pending: map<Address, int>, updates: map<Address, int>, updateIds: set<string>)

  ghost predicate CountersOk(x: Indexes, txs: seq<PoolTx>) {
    x.size == |txs| && x.bytes == Bytes(txs)
    && x.transfers == TransferCount(txs) && x.transferBytes == TransferBytes(txs)
  }

  /** Every index and counter equals what a fold over the pending transactions gives. */
  ghost predicate IndexesOk(x: Indexes, txs: seq<PoolTx>) {
    && NonceIndexOk(x.nonceIds, txs) && CountersOk(x, txs)
    && Tallies(x.spend, txs, Spend()) && Tallies(x.pending, txs, Count()) && Tallies(x.updates, txs, Updates())
    && x.updateIds == UpdateIds(txs)
  }

  /** Counters and tallies after one transaction came (direction 1) or went (direction -1). */
  function Shift(x: Indexes, tx: PoolTx, direction: int): Indexes {
    Indexes(x.nonceIds, Adjust(x.spend, tx.sender, direction * SpendWeight(tx.sender)(tx)),
            x.size + direction, x.bytes + direction * tx.bytes,
            x.transfers + direction * TransferWeight()(tx), x.transferBytes + direction * TransferByteWeight()(tx),
            Adjust(x.pending, tx.sender, direction),
            Adjust(x.updates, tx.sender, direction * UpdateWeight(tx.sender)(tx)),
            if !tx.kind.ValidatorUpdate? then x.updateIds
            else if direction == 1 then x.updateIds + {tx.txid}
            else x.updateIds - {tx.txid})
  }

  function StoreIndexes(x: Indexes, tx: PoolTx): Indexes {
    Shift(x.(nonceIds := x.nonceIds[SlotOf(tx) := tx.txid]), tx, 1)
  }

  function DropIndexes(x: Indexes, tx: PoolTx): Indexes {
    Shift(x.(nonceIds := x.nonceIds - {SlotOf(tx)}), tx, -1)
  }

  lemma CountersStore(x: Indexes, txs: seq<PoolTx>, tx: PoolTx)
    requires CountersOk(x, txs)
    ensures CountersOk(StoreIndexes(x, tx), txs + [tx])
  {
    SumSnoc(txs, tx, ByteWeight());
    SumSnoc(txs, tx, TransferWeight());
    SumSnoc(txs, tx, TransferByteWeight());
  }

  lemma CountersDrop(x: Indexes, txs: seq<PoolTx>, i: nat)
    requires CountersOk(x, txs) && i < |txs|
    ensures CountersOk(DropIndexes(x, txs[i]), Drop(txs, i))
  {
    SumDrop(txs, i, ByteWeight());
    SumDrop(txs, i, TransferWeight());
    SumDrop(txs, i, TransferByteWeight());
  }

  lemma StoreKeepsIndexes(x: Indexes, txs: seq<PoolTx>, tx: PoolTx)
    requires IndexesOk(x, txs) && forall y :: y in txs ==> SlotOf(y) != SlotOf(tx)
    ensures IndexesOk(StoreIndexes(x, tx), txs + [tx])
  {
    CountersStore(x, txs, tx);
    NonceIndexStore(x.nonceIds, txs, tx);
    TallyStore(x.spend, txs, Spend(), tx);
    TallyStore(x.pending, txs, Count(), tx);
    TallyStore(x.updates, txs, Updates(), tx);
    UpdateIdsStore(txs, tx);
  }

  lemma DropKeepsIndexes(x: Indexes, txs: seq<PoolTx>, i: nat)
    requires IndexesOk(x, txs) && Distinct(txs) && i < |txs|
    ensures IndexesOk(DropIndexes(x, txs[i]), Drop(txs, i))
  {
    CountersDrop(x, txs, i);
    NonceIndexDrop(x.nonceIds, txs, i);
    TallyDrop(x.spend, txs, Spend(), i);
    TallyDrop(x.pending, txs, Count(), i);
    TallyDrop(x.updates, txs, Updates(), i);
    UpdateIdsDrop(txs, i);
  }

  function At(m: map<Address, int>, a: Address): int {
    if a in m then m[a] else 0
  }

  /** None of the source's "occupancy invariant violated" checks can fire on `x`. */
  ghost predicate Adjustable(x: Indexes, tx: PoolTx, direction: int, maxBytes: nat) {
    && 0 <= x.bytes + direction * tx.bytes <= maxBytes && x.size + direction >= 0
    && At(x.pending, tx.sender) + direction >= 0
    && At(x.updates, tx.sender) + direction * UpdateWeight(tx.sender)(tx) >= 0
    && Adjust(x.spend, tx.sender, 0) == x.spend && Adjust(x.updates, tx.sender, 0) == x.updates
  }

  lemma TallyValue(m: map<Address, int>, txs: seq<PoolTx>, weight: Address -> (PoolTx -> int), a: Address)
    requires Tallies(m, txs, weight)
    ensures At(m, a) == Sum(txs, weight(a)) && Adjust(m, a, 0) == m
  {
  }

  lemma StoreIsAdjustable(x: Indexes, txs: seq<PoolTx>, tx: PoolTx, maxBytes: nat)
    requires IndexesOk(x, txs) && Bytes(txs) + tx.bytes <= maxBytes
    ensures Adjustable(x, tx, 1, maxBytes)
  {
    SumNonNegative(txs, ByteWeight());
    TallyValue(x.spend, txs, Spend(), tx.sender);
    TallyValue(x.pending, txs, Count(), tx.sender);
    TallyValue(x.updates, txs, Updates(), tx.sender);
    SumNonNegative(txs, SenderWeight(tx.sender));
    SumNonNegative(txs, UpdateWeight(tx.sender));
  }

  lemma DropIsAdjustable(x: Indexes, txs: seq<PoolTx>, i: nat, maxBytes: nat)
    requires IndexesOk(x, txs) && i < |txs| && Bytes(txs) <= maxBytes
    ensures Adjustable(x, txs[i], -1, maxBytes)
  {
    var tx := txs[i];
    SumDrop(txs, i, ByteWeight());
    SumNonNegative(Drop(txs, i), ByteWeight());
    TallyValue(x.spend, txs, Spend(), tx.sender);
    TallyValue(x.pending, txs, Count(), tx.sender);
    TallyValue(x.updates, txs, Updates(), tx.sender);
    SumDrop(txs, i, SenderWeight(tx.sender));
    SumNonNegative(Drop(txs, i), SenderWeight(tx.sender));
    SumDrop(txs, i, UpdateWeight(tx.sender));
    SumNonNegative(Drop(txs, i), UpdateWeight(tx.sender));
  }

  class MempoolObject {
    const cfg: Config
    var byId: seq<PoolTx>
    var nonceIds: map<Slot, string>
    var transferSpendBySender: map<Address, int>
    var nonMiningSize: int
    var nonMiningBytes: int
    var transferSize: int
    var transferBytes: int
    var evictionCacheValid: bool
    var evictionCache: Option<PoolTx>
    var pendingBySender: map<Address, int>
    var validatorUpdatesBySender: map<Address, int>
    var validatorUpdateIds: set<string>
    var admittedAtMs: map<Slot, int>

    ghost function View(): Pool
      reads this
    {
      Pool(byId, admittedAtMs)
    }

    ghost function Index(): Indexes
      reads this
    {
      Indexes(nonceIds, transferSpendBySender, nonMiningSize, nonMiningBytes, transferSize, transferBytes,
              pendingBySender, validatorUpdatesBySender, validatorUpdateIds)
    }

    /** The indexes agree with the pending transactions, and a valid cache holds the victim a fresh scan finds. */
    ghost predicate Valid()
      reads this
    {
      && ValidConfig(cfg) && PoolOk(byId, cfg.maxBytes) && IndexesOk(Index(), byId)
      && (evictionCacheValid ==> evictionCache == Victim(byId))
    }

    constructor (c: Config)
      requires ValidConfig(c)
      ensures cfg == c && Valid() && View() == Pool([], map[])
    {
      cfg := c;
      byId, nonceIds, transferSpendBySender := [], map[], map[];
      nonMiningSize, nonMiningBytes, transferSize, transferBytes := 0, 0, 0, 0;
      evictionCacheValid, evictionCache := false, None;
      pendingBySender, validatorUpdatesBySender, validatorUpdateIds, admittedAtMs := map[], map[], {}, map[];
    }

    /** False is the source's "occupancy invariant violated". */
    method AdjustOccupancy(tx: PoolTx, direction: int) returns (ok: bool)
      modifies this`nonMiningSize, this`nonMiningBytes, this`transferSize, this`transferBytes
      ensures nonMiningSize == old(nonMiningSize) + direction
      ensures nonMiningBytes == old(nonMiningBytes) + direction * tx.bytes
      ensures transferSize == old(transferSize) + direction * TransferWeight()(tx)
      ensures transferBytes == old(transferBytes) + direction * TransferByteWeight()(tx)
      ensures ok <==> nonMiningSize >= 0 && 0 <= nonMiningBytes <= cfg.maxBytes && nonMiningSize == |byId|
    {
      nonMiningSize := nonMiningSize + direction;
      nonMiningBytes := nonMiningBytes + direction * tx.bytes;
      if tx.kind.Transfer? {
        transferSize := transferSize + direction;
        transferBytes := transferBytes + direction * tx.bytes;
      }
      ok := !(nonMiningSize < 0 || nonMiningBytes < 0 || nonMiningBytes > cfg.maxBytes || nonMiningSize != |byId|);
    }

    method AdjustTransferSpend(tx: PoolTx, direction: int)
      requires Adjust(transferSpendBySender, tx.sender, 0) == transferSpendBySender
      modifies this`transferSpendBySender
      ensures transferSpendBySender ==
        Adjust(old(transferSpendBySender), tx.sender, direction * SpendWeight(tx.sender)(tx))
    {
      if !tx.kind.Transfer? { return; }
      var next := At(transferSpendBySender, tx.sender) + direction * (tx.amountAtoms + tx.feeAtoms);
      transferSpendBySender :=
        if next == 0 then transferSpendBySender - {tx.sender} else transferSpendBySender[tx.sender := next];
    }

    method AdjustSenderCount(sender: Address, direction: int) returns (ok: bool)
      modifies this`pendingBySender
      ensures ok <==> At(old(pendingBySender), sender) + direction >= 0
      ensures pendingBySender == if ok then Adjust(old(pendingBySender), sender, direction) else old(pendingBySender)
    {
      var next := At(pendingBySender, sender) + direction;
      if next < 0 { return false; }
      pendingBySender := if next == 0 then pendingBySender - {sender} else pendingBySender[sender := next];
      ok := true;
    }

    method AdjustValidatorUpdateSender(sender: Address, direction: int) returns (ok: bool)
      modifies this`validatorUpdatesBySender
      ensures ok <==> At(old(validatorUpdatesBySender), sender) + direction >= 0
      ensures validatorUpdatesBySender ==
        if ok then Adjust(old(validatorUpdatesBySender), sender, direction) else old(validatorUpdatesBySender)
    {
      var next := At(validatorUpdatesBySender, sender) + direction;
      if next < 0 { return false; }
      validatorUpdatesBySender :=
        if next == 0 then validatorUpdatesBySender - {sender} else validatorUpdatesBySender[sender := next];
      ok := true;
    }

    /** The per-sender tallies of one transaction; the result says whether the checks passed. */
    method AdjustTallies(tx: PoolTx, direction: int) returns (ok: bool)
      requires direction == 1 || direction == -1
      requires Adjust(transferSpendBySender, tx.sender, 0) == transferSpendBySender
      requires Adjust(validatorUpdatesBySender, tx.sender, 0) == validatorUpdatesBySender
      requires At(pendingBySender, tx.sender) + direction >= 0
      requires At(validatorUpdatesBySender, tx.sender) + direction * UpdateWeight(tx.sender)(tx) >= 0
      modifies this`transferSpendBySender, this`pendingBySender, this`validatorUpdatesBySender, this`validatorUpdateIds
      ensures ok
      ensures transferSpendBySender ==
        Adjust(old(transferSpendBySender), tx.sender, direction * SpendWeight(tx.sender)(tx))
      ensures pendingBySender == Adjust(old(pendingBySender), tx.sender, direction)
      ensures validatorUpdatesBySender ==
        Adjust(old(validatorUpdatesBySender), tx.sender, direction * UpdateWeight(tx.sender)(tx))
      ensures validatorUpdateIds ==
        if !tx.kind.ValidatorUpdate? then old(validatorUpdateIds)
        else if direction == 1 then old(validatorUpdateIds) + {tx.txid} else old(validatorUpdateIds) - {tx.txid}
    {
      AdjustTransferSpend(tx, direction);
      ok := AdjustSenderCount(tx.sender, direction);
      if tx.kind.ValidatorUpdate? {
        ok := AdjustValidatorUpdateSender(tx.sender, direction);
        validatorUpdateIds := if direction == 1 then validatorUpdateIds + {tx.txid} else validatorUpdateIds - {tx.txid};
      }
    }

    /** All counters and tallies of one transaction; the result says whether every occupancy check passed. */
    method AdjustAll(tx: PoolTx, direction: int) returns (ok: bool)
      requires direction == 1 || direction == -1
      requires Adjustable(Index(), tx, direction, cfg.maxBytes) && nonMiningSize + direction == |byId|
      modifies this`nonMiningSize, this`nonMiningBytes, this`transferSize, this`transferBytes
      modifies this`transferSpendBySender, this`pendingBySender, this`validatorUpdatesBySender, this`validatorUpdateIds
      ensures ok && Index() == Shift(old(Index()), tx, direction)
    {
      ok := AdjustOccupancy(tx, direction);
      if !ok { return; }
      ok := AdjustTallies(tx, direction);
    }

    /** The writes of `store`. */
    method EnterSlot(tx: PoolTx, now: int)
      modifies this`byId, this`nonceIds, this`admittedAtMs
      ensures byId == old(byId) + [tx] && nonceIds == old(nonceIds)[SlotOf(tx) := tx.txid]
      ensures admittedAtMs ==
        if SlotOf(tx) in old(admittedAtMs) then old(admittedAtMs) else old(admittedAtMs)[SlotOf(tx) := now]
    {
      byId := byId + [tx];
      nonceIds := nonceIds[SlotOf(tx) := tx.txid];
      if SlotOf(tx) !in admittedAtMs { admittedAtMs := admittedAtMs[SlotOf(tx) := now]; }
    }

    method LeaveSlot(i: nat, keepAdmission: bool)
      requires i < |byId|
      modifies this`byId, this`nonceIds, this`admittedAtMs
      ensures byId == Drop(old(byId), i) && nonceIds == old(nonceIds) - {SlotOf(old(byId)[i])}
      ensures admittedAtMs == if keepAdmission then old(admittedAtMs) else old(admittedAtMs) - {SlotOf(old(byId)[i])}
    {
      var slot := SlotOf(byId[i]);
      byId := Drop(byId, i);
      nonceIds := nonceIds - {slot};
      if !keepAdmission { admittedAtMs := admittedAtMs - {slot}; }
    }

    method WriteStore(tx: PoolTx, now: int) returns (ok: bool)
      requires nonMiningSize == |byId| && Adjustable(Index(), tx, 1, cfg.maxBytes)
      modifies this
      ensures ok && byId == old(byId) + [tx] && Index() == StoreIndexes(old(Index()), tx) && !evictionCacheValid
      ensures admittedAtMs ==
        if SlotOf(tx) in old(admittedAtMs) then old(admittedAtMs) else old(admittedAtMs)[SlotOf(tx) := now]
    {
      ghost var x := Index();
      EnterSlot(tx, now);
      assert Index() == x.(nonceIds := x.nonceIds[SlotOf(tx) := tx.txid]);
      ok := AdjustAll(tx, 1);
      evictionCacheValid, evictionCache := false, None;
    }

    /** The writes of `deleteTransaction`. */
    method WriteDelete(i: nat, keepAdmission: bool) returns (ok: bool)
      requires i < |byId| && nonMiningSize == |byId| && Adjustable(Index(), byId[i], -1, cfg.maxBytes)
      modifies this
      ensures ok && byId == Drop(old(byId), i) && Index() == DropIndexes(old(Index()), old(byId)[i])
      ensures !evictionCacheValid
      ensures admittedAtMs == if keepAdmission then old(admittedAtMs) else old(admittedAtMs) - {SlotOf(old(byId)[i])}
    {
      var tx := byId[i];
      ghost var x := Index();
      LeaveSlot(i, keepAdmission);
      assert Index() == x.(nonceIds := x.nonceIds - {SlotOf(tx)});
      ok := AdjustAll(tx, -1);
      evictionCacheValid, evictionCache := false, None;
    }

    method StoreTx(tx: PoolTx, now: int) returns (ok: bool)
      requires Valid() && tx.bytes >= 1 && Bytes(byId) + tx.bytes <= cfg.maxBytes
      requires Fresh(byId, tx)
      modifies this
      ensures ok && Valid() && View() == Store(old(View()), tx, now)
    {
      StoreIsAdjustable(Index(), byId, tx, cfg.maxBytes);
      StoreKeepsIndexes(Index(), byId, tx);
      StoreKeepsPool(byId, tx, cfg.maxBytes);
      ok := WriteStore(tx, now);
    }

    /** Deletes the transaction at place i of the insertion order. */
    method DeleteAt(i: nat, keepAdmission: bool) returns (ok: bool)
      requires Valid() && i < |byId|
      modifies this
      ensures ok && Valid() && byId == Drop(old(byId), i)
      ensures admittedAtMs == if keepAdmission then old(admittedAtMs) else old(admittedAtMs) - {SlotOf(old(byId)[i])}
    {
      DropIsAdjustable(Index(), byId, i, cfg.maxBytes);
      DropKeepsIndexes(Index(), byId, i);
      DropKeepsPool(byId, i, cfg.maxBytes);
      ok := WriteDelete(i, keepAdmission);
    }

    method DeleteTransaction(tx: PoolTx, keepAdmission: bool) returns (ok: bool)
      requires Valid() && tx in byId
      modifies this
      ensures ok && Valid() && View() == Delete(old(View()), tx, keepAdmission)
    {
      IndexOfMember(byId, tx);
      ok := DeleteAt(IndexOf(byId, tx.txid), keepAdmission);
    }

    // -----------------------------------------------------------------------
    // The eviction victim
    // -----------------------------------------------------------------------

    method HighestNonces() returns (highest: map<Address, nat>)
      ensures forall tx :: tx in byId ==> tx.sender in highest && (tx.nonce == highest[tx.sender] <==> IsTail(byId, tx))
    {
      highest := map[];
      for n := 0 to |byId|
        invariant forall tx :: tx in byId[..n] ==> tx.sender in highest && tx.nonce <= highest[tx.sender]
        invariant forall a :: a in highest ==> exists tx :: tx in byId[..n] && tx.sender == a && tx.nonce == highest[a]
      {
        var tx := byId[n];
        assert byId[..n + 1] == byId[..n] + [tx];
        var known := if tx.sender in highest then highest[tx.sender] else 0;
        ghost var before := highest;
        highest := highest[tx.sender := if known > tx.nonce then known else tx.nonce];
        forall a | a in highest ensures exists x :: x in byId[..n + 1] && x.sender == a && x.nonce == highest[a] {
          if a == tx.sender && known <= tx.nonce {
            assert tx in byId[..n + 1];
          } else {
            var x :| x in byId[..n] && x.sender == a && x.nonce == before[a];
            assert x in byId[..n + 1];
          }
        }
      }
      assert byId[..|byId|] == byId;
    }

    method ComputeLowestPriorityEvictableTransfer() returns (selected: Option<PoolTx>)
      ensures selected == Victim(byId)
    {
      var highest := HighestNonces();
      selected := None;
      for n := 0 to |byId|
        invariant selected == WeakestOf(byId, n)
      {
        var tx := byId[n];
        assert tx in byId;
        if !tx.kind.Transfer? || tx.nonce != highest[tx.sender] { continue; }
        if selected.None? || LowerRate(tx, selected.value)
           || (SameRate(tx, selected.value) && tx.timestampMs < selected.value.timestampMs) {
          selected := Some(tx);
        }
      }
    }

    /** The cached victim is always the one a fresh scan would find. */
    method LowestPriorityEvictableTransfer() returns (selected: Option<PoolTx>)
      requires Valid()
      modifies this`evictionCacheValid, this`evictionCache
      ensures Valid() && selected == Victim(byId)
    {
      if evictionCacheValid { return evictionCache; }
      selected := ComputeLowestPriorityEvictableTransfer();
      evictionCache := selected;
      evictionCacheValid := true;
    }

    // -----------------------------------------------------------------------
    // Add, remove, prune
    // -----------------------------------------------------------------------

    method CapacityReached(tx: PoolTx) returns (full: bool)
      requires Valid()
      ensures full == NeedsRoom(cfg, byId, tx)
    {
      full := nonMiningSize >= cfg.maxSize || nonMiningBytes + tx.bytes > cfg.maxBytes
        || (tx.kind.Transfer? && (transferSize >= cfg.maxSize - cfg.reserve
                                  || transferBytes + tx.bytes > cfg.maxBytes - cfg.reserveBytes));
    }

    method EvictAndStore(victim: PoolTx, tx: PoolTx, now: int)
      requires Valid() && tx.bytes >= 1 && Fresh(byId, tx) && victim in byId && MayEvict(cfg, byId, victim, tx)
      modifies this
      ensures Valid() && View() == Store(Delete(old(View()), victim, false), tx, now)
    {
      DeleteMember(View(), victim, false);
      DeleteSum(View(), victim, false, ByteWeight());
      var deleted := DeleteTransaction(victim, false);
      var stored := StoreTx(tx, now);
    }

    /** Throws, that is returns false, before any eviction when the transaction does not fit. */
    method InsertIfRoom(tx: PoolTx, now: int) returns (ok: bool)
      requires Valid() && tx.bytes >= 1 && Fresh(byId, tx)
      modifies this
      ensures Valid()
      ensures var r := InsertAfterCapacity(cfg, old(View()), tx, now);
        ok == r.Some? && View() == if ok then r.value else old(View())
    {
      var full := CapacityReached(tx);
      if full {
        var eviction := LowestPriorityEvictableTransfer();
        if eviction.None? || !MayEvict(cfg, byId, eviction.value, tx) { return false; }
        VictimEvictable(byId);
        EvictAndStore(eviction.value, tx, now);
      } else {
        var stored := StoreTx(tx, now);
      }
      ok := true;
    }

    /** A same-nonce replacement: on refusal the original is restored. */
    method Replace(prior: PoolTx, tx: PoolTx, now: int) returns (ok: bool)
      requires Valid() && tx.bytes >= 1 && prior in byId && SlotOf(prior) == SlotOf(tx)
      requires IndexOf(byId, tx.txid) == |byId|
      modifies this
      ensures Valid()
      ensures var without := Delete(old(View()), prior, true); var r := InsertAfterCapacity(cfg, without, tx, now);
        ok == r.Some? && View() == if ok then r.value else Store(without, prior, now)
    {
      DeleteMember(View(), prior, true);
      DeleteSum(View(), prior, true, ByteWeight());
      FreshAfterDelete(byId, prior, tx, Delete(View(), prior, true).txs);
      var deleted := DeleteTransaction(prior, true);
      ok := InsertIfRoom(tx, now);
      if !ok {
        var restored := StoreTx(prior, now);
      }
    }

    method AddTx(tx: PoolTx, now: int) returns (ok: bool)
      requires Valid()
      modifies this
      ensures Valid() && Outcome(ok, View()) == Add(cfg, old(View()), tx, now)
    {
      if cfg.fixedFee.Some? && tx.kind.Transfer? && tx.feeAtoms != cfg.fixedFee.value { return false; }
      if tx.kind.Transfer? && tx.feeAtoms < cfg.minFee { return false; }
      if IndexOf(byId, tx.txid) < |byId| { return false; }
      if tx.bytes < 1 || tx.bytes > cfg.maxBytes { return false; }
      ConflictByIndex(tx);
      if SlotOf(tx) in nonceIds {
        ok := AddReplacement(FindSlot(byId, SlotOf(tx)).value, tx, now);
      } else {
        ok := AddNewcomer(tx, now);
      }
    }

    method AddReplacement(prior: PoolTx, tx: PoolTx, now: int) returns (ok: bool)
      requires Valid() && tx.bytes >= 1 && prior in byId && SlotOf(prior) == SlotOf(tx)
      requires IndexOf(byId, tx.txid) == |byId|
      modifies this
      ensures Valid() && Outcome(ok, View()) == TryReplace(cfg, old(View()), prior, tx, now)
    {
      if !ReplacementOk(cfg, prior, tx) { return false; }
      if nonMiningBytes - prior.bytes + tx.bytes > cfg.maxBytes { return false; }
      ok := Replace(prior, tx, now);
    }

    method AddNewcomer(tx: PoolTx, now: int) returns (ok: bool)
      requires Valid() && tx.bytes >= 1 && Fresh(byId, tx)
      modifies this
      ensures Valid() && Outcome(ok, View()) == TryInsert(cfg, old(View()), tx, now)
    {
      TallyValue(pendingBySender, byId, Count(), tx.sender);
      if cfg.maxPerSender.Some? && At(pendingBySender, tx.sender) >= cfg.maxPerSender.value { return false; }
      ok := InsertIfRoom(tx, now);
    }

    /** The nonce index finds exactly the pending transaction of the slot. */
    lemma ConflictByIndex(tx: PoolTx)
      requires Valid()
      ensures SlotOf(tx) in nonceIds <==> FindSlot(byId, SlotOf(tx)).Some?
      ensures SlotOf(tx) in nonceIds ==> nonceIds[SlotOf(tx)] == FindSlot(byId, SlotOf(tx)).value.txid
      ensures SlotOf(tx) !in nonceIds && IndexOf(byId, tx.txid) == |byId| ==> Fresh(byId, tx)
    {
      if SlotOf(tx) !in nonceIds && IndexOf(byId, tx.txid) == |byId| {
        forall x | x in byId ensures x.txid != tx.txid && SlotOf(x) != SlotOf(tx) {
          var k :| 0 <= k < |byId| && byId[k] == x;
        }
      }
    }

    method RemoveTxs(txids: seq<string>)
      requires Valid()
      modifies this
      ensures Valid() && View() == Remove(old(View()), txids)
    {
      for n := 0 to |txids|
        invariant Valid() && Remove(old(View()), txids) == Remove(View(), txids[n..])
      {
        assert txids[n..][1..] == txids[n + 1..];
        var i := IndexOf(byId, txids[n]);
        if i < |byId| {
          var deleted := DeleteTransaction(byId[i], false);
        }
      }
    }

    method PruneTxs(select: PoolTx -> bool) returns (removed: nat)
      requires Valid()
      modifies this
      ensures Valid() && View() == Prune(old(View()), select, 0) && removed == |old(byId)| - |byId|
    {
      removed := 0;
      var i := 0;
      ghost var left := View();
      while i < |byId|
        invariant 0 <= i <= |byId| && Valid() && removed == |old(byId)| - |byId|
        invariant left == View() && Prune(left, select, i) == Prune(old(View()), select, 0)
        decreases |byId| - i
      {
        if select(byId[i]) {
          PruneAt(select, i);
          removed := removed + 1;
          left := View();
        } else {
          i := i + 1;
        }
      }
    }

    method PruneAt(select: PoolTx -> bool, i: nat)
      requires Valid() && i < |byId| && select(byId[i])
      modifies this
      ensures Valid() && |byId| == |old(byId)| - 1 && Prune(View(), select, i) == Prune(old(View()), select, i)
    {
      var _ := DeleteAt(i, false);
    }

    // -----------------------------------------------------------------------
    // Queries answered from the indexes
    // -----------------------------------------------------------------------

    method PendingTransferSpend(sender: Address) returns (atoms: int)
      requires Valid()
      ensures atoms == Sum(byId, SpendWeight(sender))
    {
      TallyValue(transferSpendBySender, byId, Spend(), sender);
      atoms := At(transferSpendBySender, sender);
    }

    method HasValidatorUpdateFrom(sender: Address) returns (r: bool)
      requires Valid()
      ensures r <==> exists tx :: tx in byId && tx.sender == sender && tx.kind.ValidatorUpdate?
    {
      TallyValue(validatorUpdatesBySender, byId, Updates(), sender);
      UpdatesPositive(byId, sender);
      r := sender in validatorUpdatesBySender;
    }

    method ConflictingTransaction(sender: Address, nonce: nat) returns (r: Option<PoolTx>)
      requires Valid()
      ensures r.None? <==> forall tx :: tx in byId ==> SlotOf(tx) != Slot(sender, nonce)
      ensures r.Some? ==> r.value in byId && SlotOf(r.value) == Slot(sender, nonce)
    {
      var slot := Slot(sender, nonce);
      if slot !in nonceIds { return None; }
      var i := IndexOf(byId, nonceIds[slot]);
      ghost var k :| 0 <= k < |byId| && SlotOf(byId[k]) == slot;
      assert byId[k] in byId && i == k;
      r := Some(byId[i]);
    }
  }

  lemma {:induction false} UpdatesPositive(txs: seq<PoolTx>, a: Address)
    ensures Sum(txs, UpdateWeight(a)) != 0 <==> exists tx :: tx in txs && tx.sender == a && tx.kind.ValidatorUpdate?
  {
    if txs != [] {
      var init, last := txs[..|txs| - 1], txs[|txs| - 1];
      UpdatesPositive(init, a);
      SumNonNegative(init, UpdateWeight(a));
      assert txs == init + [last];
      if last.sender == a && last.kind.ValidatorUpdate? { assert last in txs; }
    }
  }

  ghost predicate Fresh(txs: seq<PoolTx>, tx: PoolTx) {
    forall x :: x in txs ==> x.txid != tx.txid && SlotOf(x) != SlotOf(tx)
  }

  lemma FreshAfterDelete(txs: seq<PoolTx>, prior: PoolTx, tx: PoolTx, rest: seq<PoolTx>)
    requires Distinct(txs) && prior in txs && SlotOf(prior) == SlotOf(tx) && IndexOf(txs, tx.txid) == |txs|
    requires forall x :: x in rest <==> x in txs && x != prior
    ensures Fresh(rest, tx) && Fresh(rest, prior)
  {
    forall x | x in rest ensures x.txid != tx.txid && x.txid != prior.txid && SlotOf(x) != SlotOf(prior) {
      var k :| 0 <= k < |txs| && txs[k] == x;
      var j :| 0 <= j < |txs| && txs[j] == prior;
    }
  }

  ghost predicate PoolOk(txs: seq<PoolTx>, maxBytes: nat) {
    Distinct(txs) && (forall tx :: tx in txs ==> tx.bytes >= 1) && Bytes(txs) <= maxBytes
  }

  lemma StoreKeepsPool(txs: seq<PoolTx>, tx: PoolTx, maxBytes: nat)
    requires PoolOk(txs, maxBytes) && tx.bytes >= 1 && Bytes(txs) + tx.bytes <= maxBytes
    requires forall x :: x in txs ==> x.txid != tx.txid && SlotOf(x) != SlotOf(tx)
    ensures PoolOk(txs + [tx], maxBytes)
  {
    SumSnoc(txs, tx, ByteWeight());
  }

  lemma DropKeepsPool(txs: seq<PoolTx>, i: nat, maxBytes: nat)
    requires PoolOk(txs, maxBytes) && i < |txs|
    ensures PoolOk(Drop(txs, i), maxBytes)
  {
    DropMembers(txs, i);
    SumDrop(txs, i, ByteWeight());
  }
}
