/** The block validator and the proposer's greedy selector (l1/src/chain.ts). */
module BlockBuilding {
  import opened Quorum
  import opened ChainTypes
  import opened Governance
  import opened PendingOrder
  import opened LaneHeap

  /** The ledger applier: all or nothing, None where the source throws. */
  type Applier<!S> = (S, Tx) -> Option<S>

  /** What validation makes of a transaction list: the final state and cursors, or None if it throws. */
  function ValidateTxs<S>(env: Env, apply: Applier<S>, st: S, cur: Cursors, seen: set<string>,
                          txs: seq<Tx>): Option<(S, Cursors)>
    decreases |txs|
  {
    if txs == [] then Some((st, cur))
    else
      var tx := txs[0];
      if tx.txid in seen || !TxOk(env, cur, tx) then None
      else match apply(st, tx)
        case None => None
        case Some(st') => ValidateTxs(env, apply, st', AdvanceCursors(cur, tx), seen + {tx.txid}, txs[1..])
  }

  method ValidateAndApply<S>(env: Env, apply: Applier<S>, st0: S, cur0: Cursors, txs: seq<Tx>)
    returns (r: Option<(S, Cursors)>)
    ensures r == ValidateTxs(env, apply, st0, cur0, {}, txs)
  {
    var st, cur := st0, cur0;
    var seen: set<string> := {};
    for i := 0 to |txs|
      invariant ValidateTxs(env, apply, st0, cur0, {}, txs) == ValidateTxs(env, apply, st, cur, seen, txs[i..])
    {
      var tx := txs[i];
      assert txs[i..][1..] == txs[i + 1..];
      if tx.txid in seen { return None; }
      seen := seen + {tx.txid};
      if !TxOk(env, cur, tx) { return None; }
      cur := AdvanceCursors(cur, tx);
      var next := apply(st, tx);
      if next.None? { return None; }
      st := next.value;
    }
    r := Some((st, cur));
  }

  function Txids(txs: seq<Tx>): set<string> {
    set tx | tx in txs :: tx.txid
  }

  /** Validating a longer list: first the prefix, then the last transaction from where the prefix ended. */
  lemma {:induction false} ValidateSnoc<S>(env: Env, apply: Applier<S>, st: S, cur: Cursors, seen: set<string>,
                                           txs: seq<Tx>, tx: Tx)
    ensures ValidateTxs(env, apply, st, cur, seen, txs + [tx]) ==
      match ValidateTxs(env, apply, st, cur, seen, txs)
      case None => None
      case Some((st', cur')) => ValidateTxs(env, apply, st', cur', seen + Txids(txs), [tx])
    decreases |txs|
  {
    if txs == [] {
      assert txs + [tx] == [tx];
      assert seen + Txids(txs) == seen;
    } else {
      assert (txs + [tx])[0] == txs[0] && (txs + [tx])[1..] == txs[1..] + [tx];
      var next := apply(st, txs[0]);
      if txs[0].txid !in seen && TxOk(env, cur, txs[0]) && next.Some? {
        ValidateSnoc(env, apply, next.value, AdvanceCursors(cur, txs[0]), seen + {txs[0].txid}, txs[1..], tx);
        assert Txids(txs) == {txs[0].txid} + Txids(txs[1..]);
        assert (seen + {txs[0].txid}) + Txids(txs[1..]) == seen + Txids(txs);
      }
    }
  }

  /** Bytes of the list inside a JSON array: the elements and the commas between them. */
  function ListBytes(txs: seq<Tx>): nat {
    if txs == [] then 0
    else ListBytes(txs[..|txs| - 1]) + txs[|txs| - 1].bytes + (if |txs| > 1 then 1 else 0)
  }

  ghost predicate IsSubsequence<T(!new)>(a: seq<T>, b: seq<T>) {
    if a == [] then true
    else if b == [] then false
    else IsSubsequence(a, b[..|b| - 1]) || (a[|a| - 1] == b[|b| - 1] && IsSubsequence(a[..|a| - 1], b[..|b| - 1]))
  }

  datatype Limits = Limits(count: nat, bytes: nat)

  /** Why the selector passes a transaction over when `chosen` is what it has selected so far. */
  ghost predicate Refused<S>(env: Env, apply: Applier<S>, st: S, cur: Cursors, limits: Limits, chosen: seq<Tx>, tx: Tx)
  {
    || |chosen| >= limits.count
    || tx.txid in Txids(chosen)
    || !TxOk(env, cur, tx)
    || ListBytes(chosen + [tx]) > limits.bytes
    || apply(st, tx).None?
  }

  /** At some point of the selection, `tx` was refused. */
  ghost predicate LeftOut<S>(env: Env, apply: Applier<S>, st0: S, cur0: Cursors, limits: Limits, selected: seq<Tx>,
                             tx: Tx)
  {
    exists k :: 0 <= k <= |selected| && RefusedAfter(env, apply, st0, cur0, limits, selected[..k], tx)
  }

  ghost predicate RefusedAfter<S>(env: Env, apply: Applier<S>, st0: S, cur0: Cursors, limits: Limits, chosen: seq<Tx>,
                                  tx: Tx)
  {
    var at := ValidateTxs(env, apply, st0, cur0, {}, chosen);
    at.Some? && Refused(env, apply, at.value.0, at.value.1, limits, chosen, tx)
  }

  lemma LeftOutStays<S>(env: Env, apply: Applier<S>, st0: S, cur0: Cursors, limits: Limits, selected: seq<Tx>,
                        more: Tx, tx: Tx)
    requires LeftOut(env, apply, st0, cur0, limits, selected, tx)
    ensures LeftOut(env, apply, st0, cur0, limits, selected + [more], tx)
  {
    var k :| 0 <= k <= |selected| && RefusedAfter(env, apply, st0, cur0, limits, selected[..k], tx);
    assert (selected + [more])[..k] == selected[..k];
  }

  lemma OneValid<S>(env: Env, apply: Applier<S>, st: S, cur: Cursors, seen: set<string>, tx: Tx)
    ensures ValidateTxs(env, apply, st, cur, seen, [tx]) ==
      if tx.txid !in seen && TxOk(env, cur, tx) && apply(st, tx).Some?
        then Some((apply(st, tx).value, AdvanceCursors(cur, tx)))
        else None
  {
    assert [tx][1..] == [];
  }

  /** What the greedy loop over an ordered pool has established. */
  ghost predicate SelectedFrom<S>(
    env: Env, apply: Applier<S>, st0: S, cur0: Cursors, limits: Limits, ordered: seq<Tx>, selected: seq<Tx>, st: S,
    cur: Cursors)
  {
    && ValidateTxs(env, apply, st0, cur0, {}, selected) == Some((st, cur))
    && |selected| <= limits.count && ListBytes(selected) <= limits.bytes
    && IsSubsequence(selected, ordered)
    && (forall tx :: tx in ordered ==> tx in selected || LeftOut(env, apply, st0, cur0, limits, selected, tx))
  }

  lemma SkipStep<S>(
    env: Env, apply: Applier<S>, st0: S, cur0: Cursors, limits: Limits, ordered: seq<Tx>, selected: seq<Tx>, st: S,
    cur: Cursors, tx: Tx)
    requires SelectedFrom(env, apply, st0, cur0, limits, ordered, selected, st, cur)
    requires Refused(env, apply, st, cur, limits, selected, tx)
    ensures SelectedFrom(env, apply, st0, cur0, limits, ordered + [tx], selected, st, cur)
  {
    assert (ordered + [tx])[..|ordered|] == ordered;
    assert selected[..|selected|] == selected;
    assert RefusedAfter(env, apply, st0, cur0, limits, selected[..|selected|], tx);
  }

  lemma TakeStep<S>(
    env: Env, apply: Applier<S>, st0: S, cur0: Cursors, limits: Limits, ordered: seq<Tx>, selected: seq<Tx>, st: S,
    cur: Cursors, tx: Tx)
    requires SelectedFrom(env, apply, st0, cur0, limits, ordered, selected, st, cur)
    requires !Refused(env, apply, st, cur, limits, selected, tx)
    ensures SelectedFrom(env, apply, st0, cur0, limits, ordered + [tx], selected + [tx], apply(st, tx).value,
      AdvanceCursors(cur, tx))
  {
    ValidateSnoc(env, apply, st0, cur0, {}, selected, tx);
    assert {} + Txids(selected) == Txids(selected);
    OneValid(env, apply, st, cur, Txids(selected), tx);
    assert (ordered + [tx])[..|ordered|] == ordered && (selected + [tx])[..|selected|] == selected;
    forall x | x in ordered + [tx]
      ensures x in selected + [tx] || LeftOut(env, apply, st0, cur0, limits, selected + [tx], x)
    {
      if x in ordered && x !in selected { LeftOutStays(env, apply, st0, cur0, limits, selected, tx, x); }
    }
  }

  lemma RestLeftOut<S>(
    env: Env, apply: Applier<S>, st0: S, cur0: Cursors, limits: Limits, ordered: seq<Tx>, n: nat, selected: seq<Tx>,
    st: S, cur: Cursors)
    requires n <= |ordered| && SelectedFrom(env, apply, st0, cur0, limits, ordered[..n], selected, st, cur)
    requires |selected| >= limits.count
    ensures SelectedFrom(env, apply, st0, cur0, limits, ordered, selected, st, cur)
    decreases |ordered| - n
  {
    if n < |ordered| {
      SkipStep(env, apply, st0, cur0, limits, ordered[..n], selected, st, cur, ordered[n]);
      assert ordered[..n] + [ordered[n]] == ordered[..n + 1];
      RestLeftOut(env, apply, st0, cur0, limits, ordered, n + 1, selected, st, cur);
    } else {
      assert ordered[..n] == ordered;
    }
  }

  lemma BytesSnoc(chosen: seq<Tx>, tx: Tx)
    ensures ListBytes(chosen + [tx]) == ListBytes(chosen) + tx.bytes + (if chosen != [] then 1 else 0)
  {
    assert (chosen + [tx])[..|chosen|] == chosen;
  }

  /** One turn of the greedy loop. */
  method Consider<S>(
    env: Env, apply: Applier<S>, ghost st0: S, ghost cur0: Cursors, limits: Limits, ghost ordered: seq<Tx>,
    selected: seq<Tx>, selectedBytes: nat, seen: set<string>, st: S, cur: Cursors, tx: Tx)
    returns (taken: bool, st': S, cur': Cursors)
    requires SelectedFrom(env, apply, st0, cur0, limits, ordered, selected, st, cur)
    requires |selected| < limits.count && seen == Txids(selected) && selectedBytes == ListBytes(selected)
    ensures SelectedFrom(env, apply, st0, cur0, limits, ordered + [tx],
      if taken then selected + [tx] else selected, st', cur')
  {
    BytesSnoc(selected, tx);
    var transactionBytes := tx.bytes + if selected != [] then 1 else 0;
    var next := apply(st, tx);
    if tx.txid in seen || !TxOk(env, cur, tx) || selectedBytes + transactionBytes > limits.bytes || next.None? {
      SkipStep(env, apply, st0, cur0, limits, ordered, selected, st, cur, tx);
      return false, st, cur;
    }
    TakeStep(env, apply, st0, cur0, limits, ordered, selected, st, cur, tx);
    return true, next.value, AdvanceCursors(cur, tx);
  }

  lemma NothingSelected<S>(env: Env, apply: Applier<S>, st0: S, cur0: Cursors, limits: Limits)
    ensures SelectedFrom(env, apply, st0, cur0, limits, [], [], st0, cur0)
  {
  }

  method SelectInOrder<S>(env: Env, apply: Applier<S>, st0: S, cur0: Cursors, queue: seq<Tx>, limits: Limits)
    returns (selected: seq<Tx>, st: S, cur: Cursors)
    ensures SelectedFrom(env, apply, st0, cur0, limits, queue, selected, st, cur)
  {
    selected, st, cur := [], st0, cur0;
    var selectedBytes := 0;
    var seen: set<string> := {};
    NothingSelected(env, apply, st0, cur0, limits);
    for i := 0 to |queue|
      invariant seen == Txids(selected) && selectedBytes == ListBytes(selected)
      invariant SelectedFrom(env, apply, st0, cur0, limits, queue[..i], selected, st, cur)
    {
      if |selected| >= limits.count {
        RestLeftOut(env, apply, st0, cur0, limits, queue, i, selected, st, cur);
        return;
      }
      assert queue[..i + 1] == queue[..i] + [queue[i]];
      var taken;
      taken, st, cur := Consider(env, apply, st0, cur0, limits, queue[..i], selected, selectedBytes, seen, st, cur,
        queue[i]);
      if taken { selected, selectedBytes, seen := Take(selected, selectedBytes, seen, queue[i]); }
    }
    assert queue[..|queue|] == queue;
  }

  /** Adds a transaction to the running list, byte total and seen set. */
  method Take(selected: seq<Tx>, selectedBytes: nat, seen: set<string>, tx: Tx)
    returns (selected': seq<Tx>, selectedBytes': nat, seen': set<string>)
    requires seen == Txids(selected) && selectedBytes == ListBytes(selected)
    ensures selected' == selected + [tx] && seen' == Txids(selected') && selectedBytes' == ListBytes(selected')
  {
    BytesSnoc(selected, tx);
    selectedBytes' := selectedBytes + tx.bytes + if selected != [] then 1 else 0;
    selected', seen' := selected + [tx], seen + {tx.txid};
  }

  /**
   * The selector agrees with the validator: what it returns validates to the very state
   * and cursors it ended in, within both limits, in pool order; and whatever it leaves
   * out it could not have taken when its turn came.
   */
  method SelectValidPending<S>(
    env: Env, apply: Applier<S>, st0: S, cur0: Cursors, pool: seq<Tx>, authorized: Tx -> bool, feePriority: bool,
    limits: Limits)
    returns (selected: seq<Tx>, st: S, cur: Cursors, ordered: seq<Tx>)
    ensures IsOrdered(pool, authorized, feePriority, ordered)
    ensures SelectedFrom(env, apply, st0, cur0, limits, ordered, selected, st, cur)
  {
    ordered := OrderPendingByFeePriority(pool, authorized, feePriority);
    selected, st, cur := SelectInOrder(env, apply, st0, cur0, ordered, limits);
  }

  /** A selected list is accepted by block validation at the same height, timestamp and producer. */
  method ProposeAndValidate<S>(
    env: Env, apply: Applier<S>, st0: S, cur0: Cursors, pool: seq<Tx>, authorized: Tx -> bool, feePriority: bool,
    limits: Limits)
    returns (block: seq<Tx>, st: S, cur: Cursors, ordered: seq<Tx>)
    ensures IsOrdered(pool, authorized, feePriority, ordered)
    ensures SelectedFrom(env, apply, st0, cur0, limits, ordered, block, st, cur)
    ensures ValidateTxs(env, apply, st0, cur0, {}, block) == Some((st, cur))
    ensures |block| <= limits.count && ListBytes(block) <= limits.bytes
  {
    var st1, cur1;
    block, st1, cur1, ordered := SelectValidPending(env, apply, st0, cur0, pool, authorized, feePriority, limits);
    var checked := ValidateAndApply(env, apply, st0, cur0, block);
    assert checked == Some((st1, cur1));
    st, cur := checked.value.0, checked.value.1;
  }
}
