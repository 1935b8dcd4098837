/**
 * What the rules of the legacy ledger come to, block by block and in numbers: retargeting,
 * subsidies, headers and who signed what.
 */
module LegacyRules {
  import opened Arithmetic
  import opened Quorum
  import opened Sums
  import opened LegacyLedger
  import opened LegacyValidator
  import opened LegacyMiner

  // -------------------------------------------------------------------------
  // Retargeting
  // -------------------------------------------------------------------------

  /** Block `i` is due for a new difficulty: every fifth block, from the tenth on. */
  predicate Retargets(i: nat) {
    i % 5 == 0 && i > 5
  }

  /** The time from the fifth-last block before block `i` to the last one. */
  function Span(chain: seq<Block>, i: nat): int
    requires 5 <= i <= |chain|
  {
    chain[i - 1].timestampMs - chain[i - 5].timestampMs
  }

  /** The difficulty block `i` must have, given the blocks before it. */
  predicate Retargeted(chain: seq<Block>, i: nat, difficulty: int)
    requires 1 <= i <= |chain|
  {
    var before := chain[i - 1].difficulty;
    && (difficulty == before + 1 <==> Retargets(i) && Span(chain, i) < 75_000 && before < 8)
    && (difficulty == before - 1 <==> Retargets(i) && Span(chain, i) > 300_000 && before > 2)
    && before - 1 <= difficulty <= before + 1
  }

  lemma ExpectedIs(chain: seq<Block>, difficulty: int)
    requires chain != [] && 2 <= Last(chain).difficulty <= 8
    ensures difficulty == ExpectedDifficulty(chain) <==> Retargeted(chain, |chain|, difficulty)
  {
  }

  /**
   * Main result: in a valid chain every fifth block from the tenth on is one harder exactly when the five blocks
   * before it span less than 75 seconds and the difficulty was below 8, one easier exactly when they span more
   * than 300 seconds and it was above 2; every other block has the difficulty of the one before.
   */
  lemma RetargetExactly(c: Crypto, now: int, chain: seq<Block>, i: nat)
    requires ValidChain(c, now, chain) && 1 <= i < |chain|
    ensures Retargeted(chain, i, chain[i].difficulty)
  {
    PrefixValid(c, now, chain, i);
    PrefixValid(c, now, chain, i + 1);
    var prefix := chain[..i];
    assert chain[..i + 1][..i] == prefix;
    LastHeader(c, now, chain[..i + 1]);
    IndexesCount(c, now, prefix);
    ExpectedIs(prefix, chain[i].difficulty);
  }

  /** And the miner builds its block at that difficulty. */
  lemma MinedDifficulty(c: Crypto, now: int, chain: seq<Block>, selected: seq<Tx>, miner: string, nonce: nat)
    requires ValidChain(c, now, chain)
    ensures Retargeted(chain, |chain|, NextBlock(c, chain, selected, miner, now, nonce).difficulty)
  {
    IndexesCount(c, now, chain);
    ExpectedIs(chain, ExpectedDifficulty(chain));
  }

  /** What the miner builds: dated now, or just after the tip; the selection and then the payment due, if any. */
  lemma MinedBlockIs(c: Crypto, now: int, chain: seq<Block>, selected: seq<Tx>, miner: string, nonce: nat)
    requires chain != []
    ensures var b := NextBlock(c, chain, selected, miner, now, nonce);
      var due := NextMint(Minted(chain), |chain|) + Sum(selected, Fee());
      && b.index == |chain| && b.previousHash == Last(chain).hash && b.nonce == nonce
      && b.timestampMs == (if now > Last(chain).timestampMs then now else Last(chain).timestampMs + 1)
      && b.merkleRoot == c.merkle(b.transactions) && b.hash == c.blockHash(b.(hash := "", transactions := []))
      && selected <= b.transactions && |b.transactions| == |selected| + (if due > 0 then 1 else 0)
      && (due > 0 ==>
            var reward := b.transactions[|selected|];
            && reward.sender == "SYSTEM" && reward.receiver == miner && reward.amount == due
            && reward.timestampMs == b.timestampMs && reward.txid == c.txidOf(reward.(txid := "")))
  {
    var b := NextBlock(c, chain, selected, miner, now, nonce);
    assert Header(b) == b.(hash := "", transactions := []);
  }

  // -------------------------------------------------------------------------
  // Subsidies
  // -------------------------------------------------------------------------

  lemma {:induction false} ShiftIs(x: nat, n: nat)
    ensures Pow2(n) > 0 && ShiftRight(x, n) == x / Pow2(n)
  {
    if n > 0 {
      ShiftIs(x, n - 1);
      HalfOf(x, Pow2(n - 1));
    }
  }

  lemma HalfOf(x: nat, k: nat)
    requires k > 0
    ensures x / k / 2 == x / (2 * k)
  {
    var q, r := x / k, x % k;
    var h := q / 2;
    assert x == q * k + r;
    assert q == 2 * h + q % 2;
    var rest := (q % 2) * k + r;
    assert x == h * (2 * k) + rest by { assert q * k == 2 * h * k + (q % 2) * k; }
    assert 0 <= rest < 2 * k by { if q % 2 == 0 { assert rest == r; } else { assert rest == k + r; } }
    DivModIs(x, 2 * k, h, rest);
  }

  lemma {:induction false} PowGrows(m: nat, n: nat)
    requires m <= n
    ensures Pow2(m) <= Pow2(n)
    decreases n
  {
    if m < n { PowGrows(m, n - 1); }
  }

  /** The subsidy is 50 coins halved once for every 100,000 blocks, in whole atoms. */
  lemma SubsidyIs(index: nat)
    ensures Pow2(index / 100_000) > 0 && Subsidy(index) == 5_000_000_000 / Pow2(index / 100_000)
  {
    var halvings := index / 100_000;
    ShiftIs(5_000_000_000, halvings);
    if halvings >= 33 {
      RewardBits();
      PowGrows(33, halvings);
      DivModIs(5_000_000_000, Pow2(halvings), 0, 5_000_000_000);
    }
  }

  // -------------------------------------------------------------------------
  // Exactly which chains are valid
  // -------------------------------------------------------------------------

  predicate StartsAtGenesis(c: Crypto, b: Block) {
    && b.index == 0 && b.timestampMs == 1_704_067_200_000 && b.transactions == [] && b.previousHash == "0"
    && b.difficulty == 4 && b.hash == c.blockHash(b.(hash := "", transactions := []))
  }

  /** Block `i` follows the block before it, in time and not too far ahead of the clock. */
  predicate Follows(now: int, chain: seq<Block>, i: nat)
    requires 1 <= i < |chain|
  {
    && chain[i].index == i && chain[i].previousHash == chain[i - 1].hash
    && chain[i - 1].timestampMs < chain[i].timestampMs <= now + 120_000
  }

  /** The hash covers the header, the header commits to the transactions, and the work was done. */
  predicate Sealed(c: Crypto, b: Block) {
    && b.nonce >= 0 && b.hash == c.blockHash(b.(hash := "", transactions := []))
    && b.merkleRoot == c.merkle(b.transactions)
    && b.difficulty <= |b.hash| && (forall j :: 0 <= j < b.difficulty ==> b.hash[j] == '0')
    && |b.transactions| <= 1001 && c.size(b) <= 1_000_000
  }

  /** ZYN and 40 hexadecimal digits. */
  predicate AddressShape(s: string) {
    |s| == 43 && s[..3] == "ZYN" && forall i :: 3 <= i < 43 ==> IsHex(s[i])
  }

  /** A payment by SYSTEM, free and unsigned, or a spend signed with the key of its sender. */
  predicate GoodTx(c: Crypto, tx: Tx) {
    && AddressShape(tx.receiver) && tx.chainId == "zyron-testnet-1" && tx.txid == c.txidOf(tx.(txid := ""))
    && 1 <= tx.amount <= 5_000_000_000_000_000 && 0 <= tx.fee <= 5_000_000_000_000_000
    && tx.timestampMs >= 0 && tx.nonce >= 0
    && if tx.sender == "SYSTEM"
       then tx.fee == 0 && tx.nonce == 0 && tx.publicKey.None? && tx.signature.None?
       else
         && AddressShape(tx.sender) && tx.publicKey.Some? && |tx.publicKey.value| == 128
         && c.addressOf(tx.publicKey.value) == Some(tx.sender)
         && tx.signature.Some? && |tx.signature.value| == 128 && c.verifies(tx.(txid := ""))
  }

  lemma TxIs(c: Crypto, tx: Tx)
    ensures TxValid(c, tx) <==> GoodTx(c, tx)
  {
  }

  /** Each transaction is valid, dated no later than the block, and new; spending is covered; the payment is due. */
  predicate Filled(c: Crypto, chain: seq<Block>, i: nat)
    requires 1 <= i < |chain|
  {
    var base, b := Flat(chain[..i]), chain[i];
    && (forall tx :: tx in b.transactions ==> GoodTx(c, tx) && tx.timestampMs <= b.timestampMs)
    && DistinctTxids(base + b.transactions) && SpendsOk(base, b.transactions)
    && RewardOk(b.transactions, NextMint(Minted(chain[..i]), i) + Sum(b.transactions, Fee()))
  }

  predicate GoodBlock(c: Crypto, now: int, chain: seq<Block>, i: nat)
    requires 1 <= i < |chain|
  {
    Follows(now, chain, i) && Sealed(c, chain[i]) && Retargeted(chain, i, chain[i].difficulty) && Filled(c, chain, i)
  }

  ghost predicate GoodBlocks(c: Crypto, now: int, chain: seq<Block>, n: nat)
    requires n <= |chain|
  {
    forall i :: 1 <= i < n ==> GoodBlock(c, now, chain, i)
  }

  lemma HeaderIs(c: Crypto, now: int, chain: seq<Block>, b: Block)
    requires ValidChain(c, now, chain)
    ensures HeaderOk(c, now, chain, b) <==>
      && Follows(now, chain + [b], |chain|) && Sealed(c, b) && Retargeted(chain, |chain|, b.difficulty)
  {
    IndexesCount(c, now, chain);
    ExpectedIs(chain, b.difficulty);
    DifficultyInRange(c, now, chain);
  }

  lemma BlockIs(c: Crypto, now: int, chain: seq<Block>, b: Block)
    requires ValidChain(c, now, chain)
    ensures BlockOk(c, now, chain, b) <==> GoodBlock(c, now, chain + [b], |chain|)
  {
    HeaderIs(c, now, chain, b);
    RetargetedAlike(chain, chain + [b], |chain|, b.difficulty);
    if b.index == |chain| { FilledIs(c, chain, b); }
  }

  lemma FilledIs(c: Crypto, chain: seq<Block>, b: Block)
    requires chain != [] && b.index == |chain|
    ensures Filled(c, chain + [b], |chain|) <==>
      && TxsOk(c, b.timestampMs, b.transactions) && DistinctTxids(Flat(chain) + b.transactions)
      && RewardOk(b.transactions, Due(chain, b)) && SpendsOk(Flat(chain), b.transactions)
  {
    assert (chain + [b])[..|chain|] == chain && (chain + [b])[|chain|] == b;
    TxsAre(c, b);
  }

  lemma TxsAre(c: Crypto, b: Block)
    ensures TxsOk(c, b.timestampMs, b.transactions) <==>
      forall tx :: tx in b.transactions ==> GoodTx(c, tx) && tx.timestampMs <= b.timestampMs
  {
    forall tx | tx in b.transactions ensures TxValid(c, tx) <==> GoodTx(c, tx) { TxIs(c, tx); }
  }

  lemma RetargetedAlike(chain: seq<Block>, longer: seq<Block>, i: nat, difficulty: int)
    requires 1 <= i <= |chain| && chain <= longer
    ensures Retargeted(chain, i, difficulty) <==> Retargeted(longer, i, difficulty)
  {
  }

  lemma GoodAlike(c: Crypto, now: int, chain: seq<Block>, longer: seq<Block>, i: nat)
    requires 1 <= i < |chain| && chain <= longer
    ensures GoodBlock(c, now, chain, i) <==> GoodBlock(c, now, longer, i)
  {
    assert chain[..i] == longer[..i];
    RetargetedAlike(chain, longer, i, chain[i].difficulty);
  }

  lemma GoodMore(c: Crypto, now: int, prefix: seq<Block>, b: Block)
    requires prefix != []
    ensures GoodBlocks(c, now, prefix + [b], |prefix| + 1) <==>
      GoodBlocks(c, now, prefix, |prefix|) && GoodBlock(c, now, prefix + [b], |prefix|)
  {
    var chain := prefix + [b];
    forall i | 1 <= i < |prefix| ensures GoodBlock(c, now, prefix, i) <==> GoodBlock(c, now, chain, i) {
      GoodAlike(c, now, prefix, chain, i);
    }
  }

  /** Main result: a chain is valid exactly when it starts at genesis and every later block is good. */
  lemma {:induction false} ValidIff(c: Crypto, now: int, chain: seq<Block>)
    ensures ValidChain(c, now, chain) <==>
      chain != [] && StartsAtGenesis(c, chain[0]) && GoodBlocks(c, now, chain, |chain|)
    decreases |chain|
  {
    if |chain| > 1 {
      var prefix, b := chain[..|chain| - 1], Last(chain);
      ValidIff(c, now, prefix);
      assert chain == prefix + [b];
      ValidSnoc(c, now, prefix, b);
      GoodMore(c, now, prefix, b);
      if ValidChain(c, now, prefix) { BlockIs(c, now, prefix, b); }
    } else if |chain| == 1 {
      GenesisIs(c, now, chain);
    }
  }

  lemma GenesisIs(c: Crypto, now: int, chain: seq<Block>)
    requires |chain| == 1
    ensures ValidChain(c, now, chain) <==> StartsAtGenesis(c, chain[0])
  {
  }

  // -------------------------------------------------------------------------
  // Who signed
  // -------------------------------------------------------------------------

  /**
   * Main result: in a valid chain every transaction that spends from an account carries a key whose address is that
   * account and a signature that verifies over everything but the identifier, and its identifier is its hash.
   */
  lemma SpendsAreSigned(c: Crypto, now: int, chain: seq<Block>, tx: Tx)
    requires ValidChain(c, now, chain) && tx in Flat(chain) && tx.sender != "SYSTEM"
    ensures tx.publicKey.Some? && c.addressOf(tx.publicKey.value) == Some(tx.sender)
    ensures tx.signature.Some? && c.verifies(tx.(txid := ""))
    ensures tx.txid == c.txidOf(tx.(txid := "")) && tx.chainId == "zyron-testnet-1"
    ensures tx.amount > 0 && tx.fee >= 0
  {
    TxsValid(c, now, chain);
  }

  /** The only other transactions are the blocks' payments: unsigned, free, and the last of their block. */
  lemma PaymentsAreLast(c: Crypto, now: int, chain: seq<Block>, i: nat, k: nat)
    requires ValidChain(c, now, chain) && 1 <= i < |chain| && k < |chain[i].transactions|
    requires chain[i].transactions[k].sender == "SYSTEM"
    ensures k == |chain[i].transactions| - 1
    ensures var tx := chain[i].transactions[k];
      && tx.fee == 0 && tx.nonce == 0 && tx.publicKey.None? && tx.signature.None?
      && tx.amount == NextMint(Minted(chain[..i]), i) + Sum(chain[i].transactions, Fee())
  {
    FilledAt(c, now, chain, i);
    OnlyPayment(c, chain[i].transactions, NextMint(Minted(chain[..i]), i) + Sum(chain[i].transactions, Fee()), k);
  }

  lemma FilledAt(c: Crypto, now: int, chain: seq<Block>, i: nat)
    requires ValidChain(c, now, chain) && 1 <= i < |chain|
    ensures Filled(c, chain, i)
  {
    ValidIff(c, now, chain);
    assert GoodBlock(c, now, chain, i);
  }

  lemma OnlyPayment(c: Crypto, txs: seq<Tx>, due: int, k: nat)
    requires RewardOk(txs, due) && k < |txs| && GoodTx(c, txs[k]) && txs[k].sender == SYSTEM
    ensures k == |txs| - 1 && txs[k].fee == 0 && txs[k].nonce == 0
    ensures txs[k].publicKey.None? && txs[k].signature.None? && txs[k].amount == due
  {
  }
}
