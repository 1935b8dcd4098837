/**
 * The legacy ledger's transaction selection and block building, and the exact
 * conditions under which a mined block extends a valid chain to a valid chain.
 */
module LegacyMiner {
  import opened Arithmetic
  import opened Constants
  import opened Quorum
  import opened Sums
  import opened LegacyLedger
  import opened LegacyValidator
  import opened Sorting

  // -------------------------------------------------------------------------
  // Greedy selection
  // -------------------------------------------------------------------------

  /** Higher fee first, then later timestamp. */
  predicate Better(x: Tx, y: Tx) {
    x.fee > y.fee || (x.fee == y.fee && x.timestampMs > y.timestampMs)
  }

  lemma BetterOrders()
    ensures StrictWeakOrder(Better)
  {
  }

  predicate Spendable(base: seq<Tx>, selected: seq<Tx>, tx: Tx) {
    var a := tx.sender;
    && tx.txid !in Txids(selected)
    && a != ""
    && tx.nonce == MaxNonce(base, a) + Sent(selected, a) + 1
    && Balance(base, a) - Spent(selected, a) >= tx.amount + tx.fee
  }

  function Candidates(base: seq<Tx>, pool: seq<Tx>, selected: seq<Tx>): seq<Tx> {
    if pool == [] then []
    else
      var init, last := Candidates(base, pool[..|pool| - 1], selected), pool[|pool| - 1];
      if Spendable(base, selected, last) then init + [last] else init
  }

  /** The list the greedy loop ends with when it has already chosen `selected`. */
  function Select(base: seq<Tx>, pool: seq<Tx>, selected: seq<Tx>): seq<Tx>
    decreases MAX_BLOCK_TRANSACTIONS - |selected|
  {
    if |selected| >= MAX_BLOCK_TRANSACTIONS then selected
    else
      var sorted := SortBy(Better, Candidates(base, pool, selected));
      if sorted == [] then selected else Select(base, pool, selected + [sorted[0]])
  }

  lemma {:induction false} CandidatesAre(base: seq<Tx>, pool: seq<Tx>, selected: seq<Tx>)
    ensures forall tx :: tx in Candidates(base, pool, selected) <==> tx in pool && Spendable(base, selected, tx)
    decreases |pool|
  {
    if pool != [] {
      CandidatesAre(base, pool[..|pool| - 1], selected);
      assert pool == pool[..|pool| - 1] + [pool[|pool| - 1]];
    }
  }

  /** The chosen transaction is a spendable pool transaction that no other candidate beats. */
  lemma ChoiceIsBest(base: seq<Tx>, pool: seq<Tx>, selected: seq<Tx>)
    requires SortBy(Better, Candidates(base, pool, selected)) != []
    ensures var choice := SortBy(Better, Candidates(base, pool, selected))[0];
      && choice in pool && Spendable(base, selected, choice)
      && forall tx :: tx in pool && Spendable(base, selected, tx) ==>
        tx.fee < choice.fee || (tx.fee == choice.fee && tx.timestampMs <= choice.timestampMs)
  {
    var candidates := Candidates(base, pool, selected);
    var sorted := SortBy(Better, candidates);
    BetterOrders();
    SortBySorts(Better, candidates);
    SameMembers(sorted, candidates);
    CandidatesAre(base, pool, selected);
    assert sorted[0] in sorted;
    forall tx | tx in pool && Spendable(base, selected, tx) ensures !Better(tx, sorted[0]) {
      assert tx in sorted;
      var k :| 0 <= k < |sorted| && sorted[k] == tx;
    }
  }

  /** What every selection state satisfies: spends the validator accepts, of distinct pool transactions. */
  ghost predicate Selection(base: seq<Tx>, pool: seq<Tx>, selected: seq<Tx>) {
    && SpendsOk(base, selected)
    && DistinctTxids(selected)
    && (forall tx :: tx in selected ==> tx in pool)
    && |selected| <= MAX_BLOCK_TRANSACTIONS
  }

  lemma SelectionGrows(base: seq<Tx>, pool: seq<Tx>, selected: seq<Tx>, tx: Tx)
    requires Selection(base, pool, selected) && |selected| < MAX_BLOCK_TRANSACTIONS
    requires tx in pool && Spendable(base, selected, tx)
    ensures Selection(base, pool, selected + [tx])
  {
    var more := selected + [tx];
    DistinctSnoc(selected, tx);
    forall k | 0 <= k < |more| ensures SpendOk(base, more, k) {
      if k < |selected| {
        assert SpendOk(base, selected, k);
        assert more[..k] == selected[..k] && more[..k + 1] == selected[..k + 1];
      } else {
        assert more[..k] == selected && more[..k + 1] == more;
        SumSnoc(selected, tx, Cost(tx.sender));
      }
    }
  }

  lemma {:induction false} SelectIsSelection(base: seq<Tx>, pool: seq<Tx>, selected: seq<Tx>)
    requires Selection(base, pool, selected)
    ensures Selection(base, pool, Select(base, pool, selected))
    decreases MAX_BLOCK_TRANSACTIONS - |selected|
  {
    if |selected| < MAX_BLOCK_TRANSACTIONS {
      var sorted := SortBy(Better, Candidates(base, pool, selected));
      if sorted != [] {
        ChoiceIsBest(base, pool, selected);
        SelectionGrows(base, pool, selected, sorted[0]);
        SelectIsSelection(base, pool, selected + [sorted[0]]);
      }
    }
  }

  /** The loop stops only when the block is full or nothing more is spendable. */
  lemma {:induction false} SelectIsMaximal(base: seq<Tx>, pool: seq<Tx>, selected: seq<Tx>)
    ensures var r := Select(base, pool, selected);
      |r| >= 1000 || forall tx :: tx in pool && tx.sender != "" ==>
        || (exists chosen :: chosen in r && chosen.txid == tx.txid)
        || tx.nonce != MaxNonce(base, tx.sender) + Sent(r, tx.sender) + 1
        || tx.amount + tx.fee > Balance(base, tx.sender) - Spent(r, tx.sender)
    decreases MAX_BLOCK_TRANSACTIONS - |selected|
  {
    if |selected| < MAX_BLOCK_TRANSACTIONS {
      var candidates := Candidates(base, pool, selected);
      var sorted := SortBy(Better, candidates);
      if sorted == [] {
        BetterOrders();
        SortBySorts(Better, candidates);
        SameMembers(sorted, candidates);
        CandidatesAre(base, pool, selected);
      } else {
        SelectIsMaximal(base, pool, selected + [sorted[0]]);
      }
    }
  }

  // -------------------------------------------------------------------------
  // Block building
  // -------------------------------------------------------------------------

  function BlockTime(chain: seq<Block>, now: int): int
    requires chain != []
  {
    Max(now, Last(chain).timestampMs + 1)
  }

  function RewardTx(c: Crypto, miner: string, amount: int, timestampMs: int): Tx {
    var tx := Tx(SYSTEM, miner, amount, 0, 0, timestampMs, CHAIN_ID, None, None, "");
    tx.(txid := c.txidOf(tx))
  }

  function Reward(c: Crypto, miner: string, amount: int, timestampMs: int): seq<Tx> {
    if amount > 0 then [RewardTx(c, miner, amount, timestampMs)] else []
  }

  function Payment(chain: seq<Block>, selected: seq<Tx>): int {
    NextMint(Minted(chain), |chain|) + Sum(selected, Fee())
  }

  /** The block the miner builds from its selection, with the proof-of-work nonce it found. */
  function NextBlock(c: Crypto, chain: seq<Block>, selected: seq<Tx>, miner: string, now: int, nonce: nat): Block
    requires chain != []
  {
    var timestampMs := BlockTime(chain, now);
    var txs := selected + Reward(c, miner, Payment(chain, selected), timestampMs);
    var b := Block(|chain|, timestampMs, txs, c.merkle(txs), Last(chain).hash, ExpectedDifficulty(chain), nonce, "");
    b.(hash := c.blockHash(Header(b)))
  }

  /** No two of these transactions with different contents share a transaction hash. */
  ghost predicate NoCollision(c: Crypto, txs: seq<Tx>) {
    forall x, y :: x in txs && y in txs && c.txidOf(Payload(x)) == c.txidOf(Payload(y)) ==> Payload(x) == Payload(y)
  }

  // ---- Accounts and fees ---------------------------------------------------

  ghost function Accounts(txs: seq<Tx>): (r: seq<string>)
    ensures NoRepeats(r)
  {
    if txs == [] then []
    else
      var init, last := Accounts(txs[..|txs| - 1]), txs[|txs| - 1];
      var withReceiver := Include(init, last.receiver);
      if last.sender == SYSTEM then withReceiver else Include(withReceiver, last.sender)
  }

  lemma {:induction false} AccountsCover(txs: seq<Tx>)
    requires forall tx :: tx in txs ==> tx.receiver != SYSTEM
    ensures AllAccounts(Accounts(txs), txs)
    decreases |txs|
  {
    if txs != [] {
      AccountsCover(txs[..|txs| - 1]);
      assert txs == txs[..|txs| - 1] + [txs[|txs| - 1]];
    }
  }

  /** Fees come out of balances, so a selection's fees never exceed what was minted. */
  lemma FeesWithinMinted(c: Crypto, now: int, chain: seq<Block>, selected: seq<Tx>)
    requires ValidChain(c, now, chain) && SpendsOk(Flat(chain), selected)
    requires forall tx :: tx in selected ==> TxValid(c, tx) && tx.sender != SYSTEM
    ensures 0 <= Sum(selected, Fee()) <= Minted(chain)
  {
    var base := Flat(chain);
    var all := base + selected;
    TxsValid(c, now, chain);
    NeverOverdrawn(c, now, chain);
    StaysSolvent(base, selected);
    AccountsCover(all);
    var accounts := Accounts(all);
    assert all[..|all|] == all;
    SumNonNegative(accounts, a => Balance(all, a));
    TotalIsPaidLessFees(accounts, all);
    SumAppend(base, selected, Paid());
    SumAppend(base, selected, Fee());
    NoPayments(selected);
    PaidLessFeesIsMinted(c, now, chain);
    SumNonNegative(selected, Fee());
  }

  // ---- The mined block passes each rule -------------------------------------

  lemma {:induction false} TimesGrow(c: Crypto, now: int, chain: seq<Block>)
    requires ValidChain(c, now, chain)
    ensures Last(chain).timestampMs >= GENESIS_TIMESTAMP_MS
    decreases |chain|
  {
    if |chain| > 1 { TimesGrow(c, now, chain[..|chain| - 1]); }
  }

  /** Retargeting moves the difficulty by at most one and keeps it in range. */
  lemma DifficultyInRange(c: Crypto, now: int, chain: seq<Block>)
    requires ValidChain(c, now, chain)
    ensures MIN_DIFFICULTY <= ExpectedDifficulty(chain) <= MAX_DIFFICULTY
    ensures Last(chain).difficulty - 1 <= ExpectedDifficulty(chain) <= Last(chain).difficulty + 1
  {
    IndexesCount(c, now, chain);
  }

  /** A later tip never raises the next difficulty. */
  lemma SlowerIsNotHarder(chain: seq<Block>, later: int)
    requires chain != [] && Last(chain).timestampMs <= later
    ensures var slower := chain[|chain| - 1 := Last(chain).(timestampMs := later)];
      ExpectedDifficulty(slower) <= ExpectedDifficulty(chain)
  {
    var slower := chain[|chain| - 1 := Last(chain).(timestampMs := later)];
    assert Last(slower).difficulty == Last(chain).difficulty;
    if |chain| >= ADJUSTMENT_INTERVAL + 1 {
      assert slower[|chain| - ADJUSTMENT_INTERVAL] == chain[|chain| - ADJUSTMENT_INTERVAL];
    }
  }

  /** The reward's timestamp is its own block's, so its identifier is new to the chain and the block. */
  lemma RewardIsNew(c: Crypto, now: int, chain: seq<Block>, selected: seq<Tx>, reward: Tx)
    requires ValidChain(c, now, chain) && reward.timestampMs > Last(chain).timestampMs && reward.sender == SYSTEM
    requires reward.txid == c.txidOf(Payload(reward))
    requires forall tx :: tx in selected ==> TxValid(c, tx) && tx.sender != SYSTEM
    requires NoCollision(c, Flat(chain) + selected + [reward])
    ensures reward.txid !in Txids(Flat(chain) + selected)
  {
    TxsValid(c, now, chain);
    forall tx | tx in Flat(chain) + selected ensures tx.txid != reward.txid {
      assert Payload(tx) != Payload(reward) by {
        assert Payload(tx).timestampMs == tx.timestampMs && Payload(tx).sender == tx.sender;
      }
      assert tx in Flat(chain) + selected + [reward] && reward in Flat(chain) + selected + [reward];
    }
  }

  ghost predicate Unconfirmed(c: Crypto, chain: seq<Block>, pool: seq<Tx>) {
    forall tx :: tx in pool ==> TxValid(c, tx) && tx.sender != SYSTEM && tx.txid !in Txids(Flat(chain))
  }

  lemma {:induction false} DistinctJoin(base: seq<Tx>, txs: seq<Tx>)
    requires DistinctTxids(base) && DistinctTxids(txs) && forall tx :: tx in txs ==> tx.txid !in Txids(base)
    ensures DistinctTxids(base + txs)
  {
    var all := base + txs;
    forall i, j | 0 <= i < j < |all| ensures all[i].txid != all[j].txid {
      if i < |base| <= j {
        assert base[i] in base && base[i].txid in Txids(base);
        assert txs[j - |base|] in txs;
      }
    }
  }

  lemma MinedTxids(c: Crypto, now: int, chain: seq<Block>, selected: seq<Tx>, reward: seq<Tx>, timestampMs: int)
    requires ValidChain(c, now, chain) && Unconfirmed(c, chain, selected) && DistinctTxids(selected)
    requires reward == [] || (|reward| == 1 && reward[0].sender == SYSTEM && reward[0].timestampMs == timestampMs
                              && reward[0].txid == c.txidOf(Payload(reward[0])))
    requires timestampMs > Last(chain).timestampMs
    requires NoCollision(c, Flat(chain) + selected + reward)
    ensures DistinctTxids(Flat(chain) + (selected + reward))
  {
    TxsValid(c, now, chain);
    DistinctJoin(Flat(chain), selected);
    if reward == [] {
      assert selected + reward == selected;
    } else {
      assert reward == [reward[0]];
      RewardIsNew(c, now, chain, selected, reward[0]);
      DistinctSnoc(Flat(chain) + selected, reward[0]);
      assert Flat(chain) + (selected + reward) == Flat(chain) + selected + [reward[0]];
    }
  }

  lemma MinedRewardOk(selected: seq<Tx>, reward: seq<Tx>, due: int)
    requires forall tx :: tx in selected ==> tx.sender != SYSTEM
    requires due > 0 ==> |reward| == 1 && reward[0].sender == SYSTEM && reward[0].amount == due && reward[0].fee == 0
    requires due <= 0 ==> reward == []
    ensures RewardOk(selected + reward, due)
    ensures Sum(selected + reward, Fee()) == Sum(selected, Fee())
  {
    SumAppend(selected, reward, Fee());
    if due > 0 {
      assert reward == [reward[0]];
      assert Sum(reward[..0], Fee()) == 0;
    }
    forall k | 0 <= k < |selected| ensures selected[k].sender != SYSTEM {
      assert selected[k] in selected;
    }
  }

  lemma MinedSpendsOk(base: seq<Tx>, selected: seq<Tx>, reward: seq<Tx>)
    requires SpendsOk(base, selected) && forall tx :: tx in reward ==> tx.sender == SYSTEM
    ensures SpendsOk(base, selected + reward)
  {
    var txs := selected + reward;
    forall k | 0 <= k < |txs| ensures SpendOk(base, txs, k) {
      if k < |selected| {
        assert SpendOk(base, selected, k);
        assert txs[..k] == selected[..k] && txs[..k + 1] == selected[..k + 1];
      } else {
        assert txs[k] in reward;
      }
    }
  }

  lemma RewardIsValid(c: Crypto, miner: string, amount: int, timestampMs: int)
    requires IsAddress(miner) && 0 < amount <= MAX_SUPPLY && timestampMs >= 0
    ensures TxValid(c, RewardTx(c, miner, amount, timestampMs))
  {
    var tx := RewardTx(c, miner, amount, timestampMs);
    assert Payload(tx) == Tx(SYSTEM, miner, amount, 0, 0, timestampMs, CHAIN_ID, None, None, "");
  }

  /** What can still go wrong: the clock behind the tip, a transaction dated after the block, an oversized block. */
  predicate Mineable(c: Crypto, chain: seq<Block>, selected: seq<Tx>, now: int, b: Block)
    requires chain != []
  {
    && Last(chain).timestampMs < now + MAX_FUTURE_MS
    && (forall k :: 0 <= k < |selected| ==> selected[k].timestampMs <= BlockTime(chain, now))
    && c.size(b) <= MAX_BLOCK_BYTES
  }

  lemma MinedTxsOk(c: Crypto, selected: seq<Tx>, reward: seq<Tx>, timestampMs: int)
    requires forall tx :: tx in selected ==> TxValid(c, tx)
    requires forall tx :: tx in reward ==> TxValid(c, tx) && tx.timestampMs == timestampMs
    ensures TxsOk(c, timestampMs, selected + reward) <==>
      forall k :: 0 <= k < |selected| ==> selected[k].timestampMs <= timestampMs
  {
    var txs := selected + reward;
    assert forall k :: 0 <= k < |selected| ==> txs[k] == selected[k] && selected[k] in selected;
    assert forall k :: |selected| <= k < |txs| ==> txs[k] == reward[k - |selected|] && txs[k] in reward;
  }

  /**
   * Main result: from a valid chain and a pool of valid, unconfirmed transactions, the mined block
   * extends it to a valid chain exactly when it is mineable.
   */
  lemma MinedChainValid(c: Crypto, now: int, chain: seq<Block>, pool: seq<Tx>, miner: string, nonce: nat)
    requires ValidChain(c, now, chain) && Unconfirmed(c, chain, pool) && IsAddress(miner)
    requires var selected := Select(Flat(chain), pool, []);
      var b := NextBlock(c, chain, selected, miner, now, nonce);
      MeetsTarget(b.hash, b.difficulty) && NoCollision(c, Flat(chain) + b.transactions)
    ensures var selected := Select(Flat(chain), pool, []);
      var b := NextBlock(c, chain, selected, miner, now, nonce);
      ValidChain(c, now, chain + [b]) <==> Mineable(c, chain, selected, now, b)
  {
    var base := Flat(chain);
    SelectIsSelection(base, pool, []);
    var selected := Select(base, pool, []);
    var b := NextBlock(c, chain, selected, miner, now, nonce);
    ValidSnoc(c, now, chain, b);
    MinedBlockOk(c, now, chain, selected, miner, nonce);
  }

  lemma MinedHeaderOk(c: Crypto, now: int, chain: seq<Block>, selected: seq<Tx>, miner: string, nonce: nat)
    requires ValidChain(c, now, chain) && |selected| <= MAX_BLOCK_TRANSACTIONS
    requires var b := NextBlock(c, chain, selected, miner, now, nonce); MeetsTarget(b.hash, b.difficulty)
    ensures var b := NextBlock(c, chain, selected, miner, now, nonce);
      HeaderOk(c, now, chain, b) <==> Last(chain).timestampMs < now + MAX_FUTURE_MS && c.size(b) <= MAX_BLOCK_BYTES
  {
    var b := NextBlock(c, chain, selected, miner, now, nonce);
    DifficultyInRange(c, now, chain);
    IndexesCount(c, now, chain);
    assert Header(b) == Header(b.(hash := ""));
  }

  lemma MinedTransactionsOk(c: Crypto, now: int, chain: seq<Block>, selected: seq<Tx>, reward: seq<Tx>, miner: string)
    requires ValidChain(c, now, chain) && Unconfirmed(c, chain, selected) && IsAddress(miner)
    requires SpendsOk(Flat(chain), selected) && DistinctTxids(selected)
    requires reward == Reward(c, miner, Payment(chain, selected), BlockTime(chain, now))
    requires NoCollision(c, Flat(chain) + (selected + reward))
    ensures DistinctTxids(Flat(chain) + (selected + reward))
    ensures RewardOk(selected + reward, Payment(chain, selected + reward))
    ensures SpendsOk(Flat(chain), selected + reward)
    ensures TxsOk(c, BlockTime(chain, now), selected + reward) <==>
      forall k :: 0 <= k < |selected| ==> selected[k].timestampMs <= BlockTime(chain, now)
  {
    var base, time, due := Flat(chain), BlockTime(chain, now), Payment(chain, selected);
    FeesWithinMinted(c, now, chain, selected);
    TimesGrow(c, now, chain);
    if due > 0 { RewardIsValid(c, miner, due, time); }
    assert base + (selected + reward) == base + selected + reward;
    MinedTxids(c, now, chain, selected, reward, time);
    MinedRewardOk(selected, reward, due);
    MinedSpendsOk(base, selected, reward);
    MinedTxsOk(c, selected, reward, time);
  }

  lemma MinedBlockOk(c: Crypto, now: int, chain: seq<Block>, selected: seq<Tx>, miner: string, nonce: nat)
    requires ValidChain(c, now, chain) && Unconfirmed(c, chain, selected) && IsAddress(miner)
    requires SpendsOk(Flat(chain), selected) && DistinctTxids(selected) && |selected| <= MAX_BLOCK_TRANSACTIONS
    requires var b := NextBlock(c, chain, selected, miner, now, nonce);
      MeetsTarget(b.hash, b.difficulty) && NoCollision(c, Flat(chain) + b.transactions)
    ensures var b := NextBlock(c, chain, selected, miner, now, nonce);
      BlockOk(c, now, chain, b) <==> Mineable(c, chain, selected, now, b)
  {
    var reward := Reward(c, miner, Payment(chain, selected), BlockTime(chain, now));
    var b := NextBlock(c, chain, selected, miner, now, nonce);
    MinedHeaderOk(c, now, chain, selected, miner, nonce);
    MinedTransactionsOk(c, now, chain, selected, reward, miner);
    IndexesCount(c, now, chain);
    assert Due(chain, b) == Payment(chain, b.transactions);
    BlockOkIs(c, now, chain, b,
              Last(chain).timestampMs < now + MAX_FUTURE_MS && c.size(b) <= MAX_BLOCK_BYTES,
              forall k :: 0 <= k < |selected| ==> selected[k].timestampMs <= BlockTime(chain, now));
  }

  lemma BlockOkIs(c: Crypto, now: int, chain: seq<Block>, b: Block, header: bool, dates: bool)
    requires chain != [] && (HeaderOk(c, now, chain, b) <==> header)
    requires TxsOk(c, b.timestampMs, b.transactions) <==> dates
    requires DistinctTxids(Flat(chain) + b.transactions) && RewardOk(b.transactions, Due(chain, b))
    requires SpendsOk(Flat(chain), b.transactions)
    ensures BlockOk(c, now, chain, b) <==> header && dates
  {
  }
}
