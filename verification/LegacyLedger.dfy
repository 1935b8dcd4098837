/**
 * The legacy Python ledger: integer-atom (version 3) transactions in version 2
 * blocks after the fixed genesis block. This module says what a valid chain is
 * and proves what validity buys: balances never negative, nonces 1, 2, 3, ...,
 * and conservation of money.
 */
module LegacyLedger {
  import opened Sorting
  import opened Arithmetic
  import opened Constants
  import opened Quorum
  import opened Sums

  const SYSTEM := "SYSTEM"
  const CHAIN_ID := "zyron-testnet-1"
  const INITIAL_REWARD := 50 * 100_000_000
  const INITIAL_REWARD_BITS := 33
  const HALVING_INTERVAL := 100_000
  const GENESIS_TIMESTAMP_MS := 1_704_067_200_000
  const MAX_FUTURE_MS := 120_000
  const MAX_BLOCK_TRANSACTIONS := 1000
  const MAX_BLOCK_BYTES := 1_000_000
  const MIN_DIFFICULTY := 2
  const MAX_DIFFICULTY := 8
  const GENESIS_DIFFICULTY := 4
  const ADJUSTMENT_INTERVAL := 5
  const TARGET_BLOCK_MS := 30_000

  datatype Tx = Tx(sender: string, receiver: string, amount: int, fee: int, nonce: int, timestampMs: int,
                   chainId: string, publicKey: Option<string>, signature: Option<string>, txid: string)

  /** The genesis block's one entry is a string, which every scan skips: its transaction list is empty here. */
  datatype Block = Block(index: int, timestampMs: int, transactions: seq<Tx>, merkleRoot: string,
                         previousHash: string, difficulty: int, nonce: int, hash: string)

  predicate IsHex(c: char) {
    '0' <= c <= '9' || 'a' <= c <= 'f' || 'A' <= c <= 'F'
  }

  predicate IsAddress(s: string) {
    |s| == 43 && s[..3] == "ZYN" && forall i :: 3 <= i < 43 ==> IsHex(s[i])
  }

  predicate IsTxid(s: string) {
    |s| == 64 && forall i :: 0 <= i < 64 ==> IsHex(s[i])
  }

  type Digest = s: string | IsTxid(s) witness seq(64, _ => '0')

  /** Hashing, signatures and serialization: fixed functions the ledger only calls. */
  datatype Crypto = Crypto(
    txidOf: Tx -> Digest,
    verifies: Tx -> bool,
    addressOf: string -> Option<string>,
    blockHash: Block -> Digest,
    merkle: seq<Tx> -> string,
    size: Block -> nat)

  /** A transaction's identifier and signature never cover the identifier itself. */
  function Payload(tx: Tx): Tx { tx.(txid := "") }

  /** A block's hash never covers the hash itself. */
  function Header(b: Block): Block { b.(hash := "", transactions := []) }

  // -------------------------------------------------------------------------
  // Rules
  // -------------------------------------------------------------------------

  function ShiftRight(x: nat, n: nat): (r: nat)
    ensures r <= x
  {
    if n == 0 then x else ShiftRight(x, n - 1) / 2
  }

  function Subsidy(index: nat): (r: int)
    ensures 0 <= r <= INITIAL_REWARD
  {
    var halvings := index / HALVING_INTERVAL;
    if halvings >= INITIAL_REWARD_BITS then 0 else ShiftRight(INITIAL_REWARD, halvings)
  }

  function Pow2(n: nat): nat { if n == 0 then 1 else 2 * Pow2(n - 1) }

  lemma {:induction false} ShiftBound(x: nat, bits: nat, n: nat)
    requires x < Pow2(bits) && n <= bits
    ensures ShiftRight(x, n) < Pow2(bits - n)
    decreases n
  {
    if n > 0 { ShiftBound(x, bits, n - 1); }
  }

  lemma RewardBits()
    ensures INITIAL_REWARD < Pow2(INITIAL_REWARD_BITS)
  {
    assert Pow2(11) == 2048;
    assert Pow2(22) == 2048 * 2048 by { PowAdd(11, 11); }
    assert Pow2(33) == 2048 * 2048 * 2048 by { PowAdd(22, 11); }
  }

  lemma {:induction false} PowAdd(m: nat, n: nat)
    ensures Pow2(m + n) == Pow2(m) * Pow2(n)
    decreases n
  {
    if n > 0 { PowAdd(m, n - 1); }
  }

  /** Every 100,000 blocks the subsidy halves, down to nothing. */
  lemma SubsidyHalves(index: nat)
    ensures Subsidy(index + HALVING_INTERVAL) == Subsidy(index) / 2
    ensures index < HALVING_INTERVAL ==> Subsidy(index) == INITIAL_REWARD
  {
    var halvings := index / HALVING_INTERVAL;
    assert (index + HALVING_INTERVAL) / HALVING_INTERVAL == halvings + 1;
    if halvings + 1 == INITIAL_REWARD_BITS {
      RewardBits();
      ShiftBound(INITIAL_REWARD, INITIAL_REWARD_BITS, halvings);
      assert Pow2(1) == 2;
    }
  }

  function Last(chain: seq<Block>): Block
    requires chain != []
  {
    chain[|chain| - 1]
  }

  function ExpectedDifficulty(chain: seq<Block>): int
    requires chain != []
  {
    var last := Last(chain);
    if |chain| < ADJUSTMENT_INTERVAL + 1 || |chain| % ADJUSTMENT_INTERVAL != 0 then last.difficulty
    else
      var actual := last.timestampMs - chain[|chain| - ADJUSTMENT_INTERVAL].timestampMs;
      var expected := TARGET_BLOCK_MS * ADJUSTMENT_INTERVAL;
      var next := if actual * 2 < expected then last.difficulty + 1
                  else if actual > expected * 2 then last.difficulty - 1 else last.difficulty;
      Max(MIN_DIFFICULTY, Min(next, MAX_DIFFICULTY))
  }

  predicate MeetsTarget(hash: string, difficulty: int) {
    difficulty <= |hash| && forall i :: 0 <= i < difficulty ==> hash[i] == '0'
  }

  /** `Transaction.is_valid` for version 3. */
  predicate WellFormed(c: Crypto, tx: Tx) {
    && tx.chainId == CHAIN_ID
    && 0 < tx.amount <= MAX_SUPPLY && 0 <= tx.fee <= MAX_SUPPLY
    && tx.timestampMs >= 0 && tx.nonce >= 0
    && tx.txid == c.txidOf(Payload(tx))
    && if tx.sender == SYSTEM then
         tx.fee == 0 && tx.nonce == 0 && tx.publicKey.None? && tx.signature.None?
       else
         && tx.publicKey.Some? && |tx.publicKey.value| == 128
         && tx.signature.Some? && |tx.signature.value| == 128
         && c.verifies(Payload(tx))
  }

  /** What a transaction must satisfy on its own, whatever block holds it. */
  predicate TxValid(c: Crypto, tx: Tx) {
    && IsAddress(tx.receiver)
    && WellFormed(c, tx)
    && (tx.sender != SYSTEM ==> IsAddress(tx.sender) && c.addressOf(tx.publicKey.value) == Some(tx.sender))
  }

  function Flat(chain: seq<Block>): seq<Tx> {
    if chain == [] then [] else Flat(chain[..|chain| - 1]) + Last(chain).transactions
  }

  // Weights of one transaction, to be summed over a transaction list.

  function Delta(a: string): Tx -> int {
    (tx: Tx) => (if tx.receiver == a then tx.amount else 0) - (if tx.sender == a then tx.amount + tx.fee else 0)
  }

  function Cost(a: string): Tx -> int {
    (tx: Tx) => if tx.sender == a then tx.amount + tx.fee else 0
  }

  function ByAccount(a: string): Tx -> int {
    (tx: Tx) => if tx.sender == a then 1 else 0
  }

  function Fee(): Tx -> int {
    (tx: Tx) => if tx.sender == SYSTEM then 0 else tx.fee
  }

  function Paid(): Tx -> int {
    (tx: Tx) => if tx.sender == SYSTEM then tx.amount else 0
  }

  function Balance(txs: seq<Tx>, a: string): int { Sum(txs, Delta(a)) }

  function Sent(txs: seq<Tx>, a: string): int { Sum(txs, ByAccount(a)) }

  function Spent(txs: seq<Tx>, a: string): int { Sum(txs, Cost(a)) }

  /** The highest nonce an account has used. */
  function MaxNonce(txs: seq<Tx>, a: string): int {
    if txs == [] then 0
    else
      var last := txs[|txs| - 1];
      var before := MaxNonce(txs[..|txs| - 1], a);
      if last.sender == a then Max(before, last.nonce) else before
  }

  /** The subsidies a chain's blocks may mint: each block's subsidy cut to what the maximum supply leaves. */
  function Minted(chain: seq<Block>): (r: int)
    ensures 0 <= r <= MAX_SUPPLY
  {
    if |chain| <= 1 then 0
    else
      var before := Minted(chain[..|chain| - 1]);
      before + NextMint(before, Last(chain).index)
  }

  function NextMint(minted: int, index: int): (r: int)
    ensures 0 <= r
    ensures minted <= MAX_SUPPLY ==> minted + r <= MAX_SUPPLY
  {
    if index < 0 then 0 else Min(Subsidy(index), Max(MAX_SUPPLY - minted, 0))
  }

  predicate HeaderOk(c: Crypto, now: int, prefix: seq<Block>, b: Block)
    requires prefix != []
  {
    var prev := Last(prefix);
    && b.nonce >= 0
    && b.index == prev.index + 1
    && b.difficulty == ExpectedDifficulty(prefix)
    && prev.difficulty - 1 <= b.difficulty <= prev.difficulty + 1
    && MIN_DIFFICULTY <= b.difficulty <= MAX_DIFFICULTY
    && prev.timestampMs < b.timestampMs <= now + MAX_FUTURE_MS
    && |b.transactions| <= MAX_BLOCK_TRANSACTIONS + 1
    && b.merkleRoot == c.merkle(b.transactions)
    && c.size(b) <= MAX_BLOCK_BYTES
    && b.hash == c.blockHash(Header(b))
    && b.previousHash == prev.hash
    && MeetsTarget(b.hash, b.difficulty)
  }

  predicate TxsOk(c: Crypto, timestampMs: int, txs: seq<Tx>) {
    forall k :: 0 <= k < |txs| ==> TxValid(c, txs[k]) && txs[k].timestampMs <= timestampMs
  }

  predicate DistinctTxids(txs: seq<Tx>) {
    forall i, j :: 0 <= i < j < |txs| ==> txs[i].txid != txs[j].txid
  }

  /** At most one SYSTEM payment, last in the block, for exactly what is due; none when nothing is due. */
  predicate RewardOk(txs: seq<Tx>, due: int) {
    && (forall k :: 0 <= k < |txs| - 1 ==> txs[k].sender != SYSTEM)
    && (due > 0 ==> txs != [] && txs[|txs| - 1].sender == SYSTEM && txs[|txs| - 1].amount == due)
    && (due <= 0 && txs != [] ==> txs[|txs| - 1].sender != SYSTEM)
  }

  predicate SpendOk(base: seq<Tx>, txs: seq<Tx>, k: nat)
    requires k < |txs|
  {
    var a := txs[k].sender;
    a != SYSTEM ==>
      && txs[k].nonce == MaxNonce(base, a) + Sent(txs[..k], a) + 1
      && Spent(txs[..k + 1], a) <= Balance(base, a)
  }

  /** Nonces run on from the chain's, and what a sender spends in the block was theirs before it. */
  predicate SpendsOk(base: seq<Tx>, txs: seq<Tx>) {
    forall k :: 0 <= k < |txs| ==> SpendOk(base, txs, k)
  }

  function Due(prefix: seq<Block>, b: Block): int {
    NextMint(Minted(prefix), b.index) + Sum(b.transactions, Fee())
  }

  predicate BlockOk(c: Crypto, now: int, prefix: seq<Block>, b: Block)
    requires prefix != []
  {
    && HeaderOk(c, now, prefix, b)
    && TxsOk(c, b.timestampMs, b.transactions)
    && DistinctTxids(Flat(prefix) + b.transactions)
    && RewardOk(b.transactions, Due(prefix, b))
    && SpendsOk(Flat(prefix), b.transactions)
  }

  predicate GenesisOk(c: Crypto, b: Block) {
    && b.index == 0 && b.timestampMs == GENESIS_TIMESTAMP_MS && b.transactions == []
    && b.previousHash == "0" && b.difficulty == GENESIS_DIFFICULTY && b.hash == c.blockHash(Header(b))
  }

  predicate ValidChain(c: Crypto, now: int, chain: seq<Block>) {
    && chain != []
    && if |chain| == 1 then GenesisOk(c, chain[0])
       else
         var prefix := chain[..|chain| - 1];
         ValidChain(c, now, prefix) && BlockOk(c, now, prefix, Last(chain))
  }

  // -------------------------------------------------------------------------
  // What every valid chain satisfies
  // -------------------------------------------------------------------------

  lemma {:induction false} IndexesCount(c: Crypto, now: int, chain: seq<Block>)
    requires ValidChain(c, now, chain)
    ensures forall i :: 0 <= i < |chain| ==> chain[i].index == i
    ensures MIN_DIFFICULTY <= Last(chain).difficulty <= MAX_DIFFICULTY
    decreases |chain|
  {
    if |chain| > 1 {
      var prefix := chain[..|chain| - 1];
      IndexesCount(c, now, prefix);
      LastHeader(c, now, chain);
      forall i | 0 <= i < |chain| ensures chain[i].index == i {
        assert i < |prefix| ==> chain[i] == prefix[i];
      }
    }
  }

  lemma LastHeader(c: Crypto, now: int, chain: seq<Block>)
    requires ValidChain(c, now, chain) && |chain| > 1
    ensures HeaderOk(c, now, chain[..|chain| - 1], Last(chain))
  {
  }

  lemma {:induction false} PrefixValid(c: Crypto, now: int, chain: seq<Block>, n: nat)
    requires ValidChain(c, now, chain) && 1 <= n <= |chain|
    ensures ValidChain(c, now, chain[..n])
    decreases |chain|
  {
    if n == |chain| {
      assert chain[..n] == chain;
    } else {
      PrefixValid(c, now, chain[..|chain| - 1], n);
      assert chain[..|chain| - 1][..n] == chain[..n];
    }
  }

  /** A chain that was valid stays valid: only the future-time rule reads the clock. */
  lemma {:induction false} StaysValid(c: Crypto, now: int, later: int, chain: seq<Block>)
    requires ValidChain(c, now, chain) && now <= later
    ensures ValidChain(c, later, chain)
    decreases |chain|
  {
    if |chain| > 1 { StaysValid(c, now, later, chain[..|chain| - 1]); }
  }

  lemma {:induction false} TxsValid(c: Crypto, now: int, chain: seq<Block>)
    requires ValidChain(c, now, chain)
    ensures forall tx :: tx in Flat(chain) ==> TxValid(c, tx) && tx.timestampMs <= Last(chain).timestampMs
    ensures DistinctTxids(Flat(chain))
    decreases |chain|
  {
    if |chain| > 1 {
      TxsValid(c, now, chain[..|chain| - 1]);
    } else {
      assert chain[..0] == [];
      assert Flat(chain) == [];
    }
  }

  // ---- Nonces --------------------------------------------------------------

  /** Every sender's nonces are 1, 2, 3, ... in chain order. */
  ghost predicate NoncesRun(txs: seq<Tx>) {
    forall k :: 0 <= k < |txs| && txs[k].sender != SYSTEM ==>
      txs[k].nonce == Sent(txs[..k], txs[k].sender) + 1
  }

  lemma SentSnoc(txs: seq<Tx>, a: string)
    requires txs != []
    ensures Sent(txs, a) == Sent(txs[..|txs| - 1], a) + (if txs[|txs| - 1].sender == a then 1 else 0)
  {
  }

  lemma {:induction false} MaxNonceIsCount(txs: seq<Tx>, a: string)
    requires NoncesRun(txs) && a != SYSTEM
    ensures MaxNonce(txs, a) == Sent(txs, a) >= 0
    decreases |txs|
  {
    if txs != [] {
      var init, n := txs[..|txs| - 1], |txs| - 1;
      assert NoncesRun(init) by {
        forall k | 0 <= k < |init| && init[k].sender != SYSTEM
          ensures init[k].nonce == Sent(init[..k], init[k].sender) + 1
        {
          assert init[..k] == txs[..k];
        }
      }
      MaxNonceIsCount(init, a);
      SentSnoc(txs, a);
      assert txs[n].sender == a ==> txs[n].nonce == Sent(txs[..n], a) + 1;
    }
  }

  lemma NoncesRunOn(base: seq<Tx>, txs: seq<Tx>)
    requires NoncesRun(base) && SpendsOk(base, txs)
    ensures NoncesRun(base + txs)
  {
    var all := base + txs;
    forall k | 0 <= k < |all| && all[k].sender != SYSTEM
      ensures all[k].nonce == Sent(all[..k], all[k].sender) + 1
    {
      if k < |base| {
        assert all[..k] == base[..k];
      } else {
        var j, a := k - |base|, all[k].sender;
        assert all[..k] == base + txs[..j];
        SumAppend(base, txs[..j], ByAccount(a));
        MaxNonceIsCount(base, a);
        assert SpendOk(base, txs, j);
      }
    }
  }

  /** Main result: each sender's nonces run 1, 2, 3, ... over the whole chain. */
  lemma {:induction false} NoncesAreConsecutive(c: Crypto, now: int, chain: seq<Block>)
    requires ValidChain(c, now, chain)
    ensures NoncesRun(Flat(chain))
    decreases |chain|
  {
    if |chain| == 1 {
      assert chain[..0] == [];
      assert Flat(chain) == [];
    } else {
      NoncesAreConsecutive(c, now, chain[..|chain| - 1]);
      NoncesRunOn(Flat(chain[..|chain| - 1]), Last(chain).transactions);
    }
  }

  // ---- Balances ------------------------------------------------------------

  /** No account is ever overdrawn, not even between two transactions of one block. */
  ghost predicate Solvent(txs: seq<Tx>) {
    forall n: nat, a :: n <= |txs| && a != SYSTEM ==> Balance(txs[..n], a) >= 0
  }

  lemma {:induction false} SpentWithin(base: seq<Tx>, txs: seq<Tx>, a: string)
    requires SpendsOk(base, txs) && a != SYSTEM && Balance(base, a) >= 0
    ensures Spent(txs, a) <= Balance(base, a)
    decreases |txs|
  {
    if txs != [] {
      var n := |txs| - 1;
      assert SpendOk(base, txs, n);
      assert txs[..n + 1] == txs;
      if txs[n].sender != a {
        assert SpendsOk(base, txs[..n]) by { SpendsPrefix(base, txs, n); }
        SpentWithin(base, txs[..n], a);
      }
    }
  }

  lemma SpendsPrefix(base: seq<Tx>, txs: seq<Tx>, n: nat)
    requires SpendsOk(base, txs) && n <= |txs|
    ensures SpendsOk(base, txs[..n])
  {
    forall k | 0 <= k < n ensures SpendOk(base, txs[..n], k) {
      assert SpendOk(base, txs, k);
      assert txs[..n][..k] == txs[..k] && txs[..n][..k + 1] == txs[..k + 1];
    }
  }

  lemma {:induction false} BalanceCoversSpending(txs: seq<Tx>, a: string)
    requires forall tx :: tx in txs ==> tx.amount >= 0
    ensures Balance(txs, a) >= -Spent(txs, a)
    decreases |txs|
  {
    if txs != [] { BalanceCoversSpending(txs[..|txs| - 1], a); }
  }

  lemma StaysSolvent(base: seq<Tx>, txs: seq<Tx>)
    requires Solvent(base) && SpendsOk(base, txs) && forall tx :: tx in txs ==> tx.amount >= 0
    ensures Solvent(base + txs)
  {
    var all := base + txs;
    forall n: nat, a | n <= |all| && a != SYSTEM ensures Balance(all[..n], a) >= 0 {
      assert base[..|base|] == base;
      if n <= |base| {
        assert all[..n] == base[..n];
      } else {
        var part := txs[..n - |base|];
        assert all[..n] == base + part;
        SumAppend(base, part, Delta(a));
        SpendsPrefix(base, txs, n - |base|);
        SpentWithin(base, part, a);
        BalanceCoversSpending(part, a);
      }
    }
  }

  /** Main result: balances are non-negative after every transaction of a valid chain. */
  lemma {:induction false} NeverOverdrawn(c: Crypto, now: int, chain: seq<Block>)
    requires ValidChain(c, now, chain)
    ensures Solvent(Flat(chain))
    decreases |chain|
  {
    if |chain| == 1 {
      assert chain[..0] == [];
      assert Flat(chain) == [];
    } else {
      NeverOverdrawn(c, now, chain[..|chain| - 1]);
      StaysSolvent(Flat(chain[..|chain| - 1]), Last(chain).transactions);
    }
  }

  // ---- Conservation --------------------------------------------------------

  function Total(accounts: seq<string>, txs: seq<Tx>): int {
    Sum(accounts, a => Balance(txs, a))
  }

  /** A list of accounts holding every party but SYSTEM, each once. */
  ghost predicate AllAccounts(accounts: seq<string>, txs: seq<Tx>) {
    && NoRepeats(accounts)
    && SYSTEM !in accounts
    && (forall tx :: tx in txs ==> tx.receiver in accounts && (tx.sender != SYSTEM ==> tx.sender in accounts))
  }

  function One(a: string): string -> int { b => if a == b then 1 else 0 }

  lemma {:induction false} CountOnce(accounts: seq<string>, a: string)
    requires NoRepeats(accounts)
    ensures Sum(accounts, One(a)) == if a in accounts then 1 else 0
    decreases |accounts|
  {
    if accounts != [] {
      var init, last := accounts[..|accounts| - 1], accounts[|accounts| - 1];
      CountOnce(init, a);
      assert accounts == init + [last];
    }
  }

  /** One transaction moves the total by what each listed party gains or loses. */
  lemma {:induction false} TotalStep(accounts: seq<string>, txs: seq<Tx>, tx: Tx)
    ensures Total(accounts, txs + [tx]) == Total(accounts, txs)
      + tx.amount * Sum(accounts, One(tx.receiver)) - (tx.amount + tx.fee) * Sum(accounts, One(tx.sender))
    decreases |accounts|
  {
    if accounts != [] {
      var init, a := accounts[..|accounts| - 1], accounts[|accounts| - 1];
      TotalStep(init, txs, tx);
      SumSnoc(txs, tx, Delta(a));
      Expand(tx.amount, Sum(init, One(tx.receiver)), One(tx.receiver)(a));
      Expand(tx.amount + tx.fee, Sum(init, One(tx.sender)), One(tx.sender)(a));
    }
  }

  lemma Expand(x: int, s: int, d: int)
    requires d == 0 || d == 1
    ensures x * (s + d) == x * s + (if d == 1 then x else 0)
  {
  }

  /** What the accounts hold together is what SYSTEM paid in less the fees burned out of transfers. */
  lemma {:induction false} TotalIsPaidLessFees(accounts: seq<string>, txs: seq<Tx>)
    requires AllAccounts(accounts, txs)
    ensures Total(accounts, txs) == Sum(txs, Paid()) - Sum(txs, Fee())
    decreases |txs|
  {
    if txs == [] {
      EmptyTotal(accounts);
    } else {
      var init, last := txs[..|txs| - 1], txs[|txs| - 1];
      assert txs == init + [last];
      TotalIsPaidLessFees(accounts, init);
      TotalStep(accounts, init, last);
      CountOnce(accounts, last.receiver);
      CountOnce(accounts, last.sender);
    }
  }

  lemma {:induction false} EmptyTotal(accounts: seq<string>)
    ensures Total(accounts, []) == 0
    decreases |accounts|
  {
    if accounts != [] { EmptyTotal(accounts[..|accounts| - 1]); }
  }

  /** A block's payment is its fees plus what it mints. */
  lemma BlockPays(txs: seq<Tx>, due: int)
    requires RewardOk(txs, due) && due >= 0
    ensures Sum(txs, Paid()) == due
  {
    if txs != [] {
      NoPayments(txs[..|txs| - 1]);
    }
  }

  lemma {:induction false} NoPayments(txs: seq<Tx>)
    requires forall k :: 0 <= k < |txs| ==> txs[k].sender != SYSTEM
    ensures Sum(txs, Paid()) == 0
    decreases |txs|
  {
    if txs != [] { NoPayments(txs[..|txs| - 1]); }
  }

  lemma FeesNonNegative(c: Crypto, timestampMs: int, txs: seq<Tx>)
    requires TxsOk(c, timestampMs, txs)
    ensures Sum(txs, Fee()) >= 0
  {
    SumNonNegative(txs, Fee());
  }

  lemma {:induction false} PaidLessFeesIsMinted(c: Crypto, now: int, chain: seq<Block>)
    requires ValidChain(c, now, chain)
    ensures Sum(Flat(chain), Paid()) - Sum(Flat(chain), Fee()) == Minted(chain)
    decreases |chain|
  {
    if |chain| == 1 {
      assert chain[..0] == [];
      assert Flat(chain) == [];
    } else {
      var prefix, b := chain[..|chain| - 1], Last(chain);
      PaidLessFeesIsMinted(c, now, prefix);
      SumAppend(Flat(prefix), b.transactions, Paid());
      SumAppend(Flat(prefix), b.transactions, Fee());
      FeesNonNegative(c, b.timestampMs, b.transactions);
      BlockPays(b.transactions, Due(prefix, b));
    }
  }

  /** Main result: the accounts of a valid chain hold exactly the minted subsidies, at most the maximum supply. */
  lemma Conservation(c: Crypto, now: int, chain: seq<Block>, accounts: seq<string>)
    requires ValidChain(c, now, chain) && AllAccounts(accounts, Flat(chain))
    ensures Total(accounts, Flat(chain)) == Minted(chain) <= MAX_SUPPLY
  {
    TotalIsPaidLessFees(accounts, Flat(chain));
    PaidLessFeesIsMinted(c, now, chain);
  }

  /** No single account holds more than was minted. */
  lemma {:induction false} ShareOfTotal(accounts: seq<string>, txs: seq<Tx>, a: string)
    requires a in accounts && forall b :: b in accounts ==> Balance(txs, b) >= 0
    ensures Balance(txs, a) <= Total(accounts, txs)
    decreases |accounts|
  {
    var init, last := accounts[..|accounts| - 1], accounts[|accounts| - 1];
    assert accounts == init + [last];
    SumNonNegative(init, b => Balance(txs, b));
    if a in init { ShareOfTotal(init, txs, a); }
  }
}
