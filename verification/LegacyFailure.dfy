/**
 * Concrete failures: a mined block need not be valid, because the pool admits a transfer
 * dated after the block that then carries it; and a chain replacement can lose a pending
 * transfer that the new chain would still allow.
 */
module LegacyFailure {
  import opened Quorum
  import opened Strings
  import opened Sums
  import opened Sorting
  import opened LegacyLedger
  import opened LegacyMiner
  import opened LegacyBlockchain
  import opened LegacyRuns

  function Miner(): (r: string)
    ensures IsAddress(r)
  {
    var r := "ZYN" + Repeat('0', 40);
    assert r[..3] == "ZYN";
    r
  }

  const START := GENESIS_TIMESTAMP_MS + 1_000_000

  /** A toy instance of the hashes: enough to exhibit one run. */
  function ToyCrypto(): Crypto {
    Crypto((tx: Tx) => ToyTxid(tx), tx => true, key => Some(Miner()), b => Zeros(), txs => "", b => 0)
  }

  function Zeros(): Digest { Repeat('0', 64) }

  function ToyTxid(tx: Tx): Digest {
    if tx.sender != SYSTEM then (if tx.nonce == 1 then Repeat('1', 64) else Repeat('4', 64))
    else if tx.timestampMs == START then Repeat('2', 64)
    else Repeat('3', 64)
  }

  function ToyGenesis(): Block {
    Block(0, GENESIS_TIMESTAMP_MS, [], "", "0", GENESIS_DIFFICULTY, 0, Zeros())
  }

  /** A transfer dated 100 s ahead of the clock, which the pool admits. */
  function AheadTx(): Tx {
    var key := Repeat('0', 128);
    var tx := Tx(Miner(), Miner(), 1, 0, 1, START + 100_000, CHAIN_ID, Some(key), Some(key), "");
    tx.(txid := ToyTxid(tx))
  }

  function ToyChain(): seq<Block> {
    [ToyGenesis(), NextBlock(ToyCrypto(), [ToyGenesis()], [], Miner(), START, 0)]
  }

  lemma ToyChainIsValid()
    ensures ValidChain(ToyCrypto(), START, ToyChain())
    ensures Flat(ToyChain()) == [RewardTx(ToyCrypto(), Miner(), INITIAL_REWARD, START)]
  {
    var c, chain := ToyCrypto(), [ToyGenesis()];
    assert chain[..0] == [];
    assert Flat(chain) == [];
    assert Candidates([], [], []) == [];
    assert Select([], [], []) == [];
    assert Subsidy(1) == INITIAL_REWARD;
    MinedChainValid(c, START, chain, [], Miner(), 0);
    assert ToyChain()[..1] == chain;
    assert ToyChain() == chain + [ToyChain()[1]];
  }

  /** One run where a transaction the pool admits, dated after the block, makes the mined chain invalid. */
  lemma MiningCanFail()
    ensures var c, chain, pool := ToyCrypto(), ToyChain(), [AheadTx()];
      && ValidChain(c, START, chain) && Unconfirmed(c, chain, pool)
      && Admissible(c, Flat(chain), [], AheadTx(), START)
      && !ValidChain(c, START, chain + [NextBlock(c, chain, Select(Flat(chain), pool, []), Miner(), START, 0)])
  {
    var c, chain, pool := ToyCrypto(), ToyChain(), [AheadTx()];
    ToyChainIsValid();
    AheadIsSelected();
    AheadIsUnconfirmed();
    AheadIsAdmitted();
    ToyBlock();
    MinedChainValid(c, START, chain, pool, Miner(), 0);
  }

  /** The first character of a toy identifier. */
  function ToyTag(tx: Tx): char {
    if tx.sender != SYSTEM then (if tx.nonce == 1 then '1' else '4')
    else if tx.timestampMs == START then '2' else '3'
  }

  lemma ToyTagOf(tx: Tx)
    ensures ToyCrypto().txidOf(Payload(tx))[0] == ToyTag(tx)
  {
  }

  lemma ToyNoCollision(reward: Tx, transfer: Tx, next: seq<Tx>)
    requires reward.sender == SYSTEM && reward.timestampMs == START && transfer.sender != SYSTEM && |next| <= 1
    requires forall tx :: tx in next ==> tx.sender == SYSTEM && tx.timestampMs != START
    ensures NoCollision(ToyCrypto(), [reward] + ([transfer] + next))
  {
    var c, all := ToyCrypto(), [reward] + ([transfer] + next);
    forall x, y | x in all && y in all && c.txidOf(Payload(x)) == c.txidOf(Payload(y))
      ensures Payload(x) == Payload(y)
    {
      ToyTagOf(x);
      ToyTagOf(y);
      assert x == y by { ToyTagsDiffer(reward, transfer, next, x, y); }
    }
  }

  lemma ToyTagsDiffer(reward: Tx, transfer: Tx, next: seq<Tx>, x: Tx, y: Tx)
    requires reward.sender == SYSTEM && reward.timestampMs == START && transfer.sender != SYSTEM && |next| <= 1
    requires forall tx :: tx in next ==> tx.sender == SYSTEM && tx.timestampMs != START
    requires x in [reward] + ([transfer] + next) && y in [reward] + ([transfer] + next) && ToyTag(x) == ToyTag(y)
    ensures x == y
  {
    assert forall tx :: tx in next ==> tx == next[0];
  }

  lemma ToyBlock()
    requires Flat(ToyChain()) == [RewardTx(ToyCrypto(), Miner(), INITIAL_REWARD, START)]
    ensures var c := ToyCrypto(); var b := NextBlock(c, ToyChain(), [AheadTx()], Miner(), START, 0);
      && MeetsTarget(b.hash, b.difficulty) && NoCollision(c, Flat(ToyChain()) + b.transactions)
      && !Mineable(c, ToyChain(), [AheadTx()], START, b)
  {
    var c, chain, selected := ToyCrypto(), ToyChain(), [AheadTx()];
    assert Last(chain).timestampMs == START;
    var next := Reward(c, Miner(), Payment(chain, selected), START + 1);
    ToyNoCollision(Flat(chain)[0], AheadTx(), next);
    assert selected[0] == AheadTx();
  }

  lemma AheadIsUnconfirmed()
    requires Flat(ToyChain()) == [RewardTx(ToyCrypto(), Miner(), INITIAL_REWARD, START)]
    ensures Unconfirmed(ToyCrypto(), ToyChain(), [AheadTx()])
  {
    var tx, reward := AheadTx(), RewardTx(ToyCrypto(), Miner(), INITIAL_REWARD, START);
    assert TxValid(ToyCrypto(), tx);
    assert tx.txid[0] == '1' && reward.txid[0] == '2';
  }

  lemma RewardBalance(base: seq<Tx>)
    requires base == [RewardTx(ToyCrypto(), Miner(), INITIAL_REWARD, START)]
    ensures MaxNonce(base, Miner()) == 0 && Balance(base, Miner()) == INITIAL_REWARD
  {
    assert base[..0] == [];
    assert MaxNonce(base[..0], Miner()) == 0 && Sum(base[..0], Delta(Miner())) == 0;
  }

  lemma AheadIsAdmitted()
    requires Flat(ToyChain()) == [RewardTx(ToyCrypto(), Miner(), INITIAL_REWARD, START)]
    ensures Admissible(ToyCrypto(), Flat(ToyChain()), [], AheadTx(), START)
  {
    var base := Flat(ToyChain());
    AheadIsUnconfirmed();
    RewardBalance(base);
    assert base + [] == base;
  }

  lemma AheadIsSelected()
    ensures Select([RewardTx(ToyCrypto(), Miner(), INITIAL_REWARD, START)], [AheadTx()], []) == [AheadTx()]
  {
    var base, tx := [RewardTx(ToyCrypto(), Miner(), INITIAL_REWARD, START)], AheadTx();
    RewardBalance(base);
    assert [tx][..0] == [];
    assert Spendable(base, [], tx);
    assert Candidates(base, [tx], []) == [tx];
    assert SortBy(Better, [tx]) == [tx];
    assert !Spendable(base, [tx], tx);
    assert Candidates(base, [tx], [tx]) == [];
    assert Select(base, [tx], [] + [tx]) == [tx];
  }

  // ---- A lost follower ----------------------------------------------------------

  /** The transfer of the same sender that follows `AheadTx`. */
  function NextTx(): Tx {
    var tx := AheadTx().(nonce := 2, txid := "");
    tx.(txid := ToyTxid(tx))
  }

  lemma NextIsAdmitted(base: seq<Tx>)
    requires base == [RewardTx(ToyCrypto(), Miner(), INITIAL_REWARD, START)]
    ensures Admissible(ToyCrypto(), base, [AheadTx()], NextTx(), START)
  {
    var pool, tx := [AheadTx()], NextTx();
    RewardBalance(base);
    assert (base + pool)[..|base|] == base && pool[..0] == [];
    assert MaxNonce(base + pool, Miner()) == 1;
    assert Spent(pool, Miner()) == 1;
    assert tx.txid[0] == '4' && AheadTx().txid[0] == '1' && base[0].txid[0] == '2';
    assert TxValid(ToyCrypto(), tx);
  }

  /** Offered as a replacement offers them, before the orphan it follows, the pending transfer is lost. */
  lemma RecoveryLosesTheFollower()
    ensures var c, base := ToyCrypto(), Flat(ToyChain());
      && NextTx() !in Readmitted(c, base, [], [NextTx()] + [AheadTx()], START)
      && NextTx() in Readmitted(c, base, [], [AheadTx()] + [NextTx()], START)
  {
    var c, base := ToyCrypto(), Flat(ToyChain());
    ToyChainIsValid();
    AheadIsAdmitted();
    NextIsAdmitted(base);
    FollowerIsLost(c, base, AheadTx(), NextTx(), START);
  }
}
