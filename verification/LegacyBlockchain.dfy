/**
 * The legacy `Blockchain` object: pool admission, selection, mining and chain
 * replacement, and what every one of them keeps.
 */
module LegacyBlockchain {
  import opened Arithmetic
  import opened Constants
  import opened Quorum
  import opened Sums
  import opened Sorting
  import opened LegacyLedger
  import opened LegacyValidator
  import opened LegacyMiner
  import opened LegacyRules

  const MAX_MEMPOOL_SIZE := 5000
  const MEMPOOL_TTL_MS := 3_600_000
  const MAX_TX_FUTURE_MS := 120_000

  // -------------------------------------------------------------------------
  // The pool as a value
  // -------------------------------------------------------------------------

  function Keep(pool: seq<Tx>, p: Tx -> bool): seq<Tx> {
    if pool == [] then []
    else
      var init, last := Keep(pool[..|pool| - 1], p), pool[|pool| - 1];
      if p(last) then init + [last] else init
  }

  function Unexpired(now: int): Tx -> bool {
    (tx: Tx) => tx.sender != SYSTEM && now - tx.timestampMs <= MEMPOOL_TTL_MS
  }

  function NotIn(txids: set<string>): Tx -> bool {
    (tx: Tx) => tx.txid !in txids
  }

  /** A transfer that the confirmed transactions no longer hold. */
  function Orphaned(txids: set<string>): Tx -> bool {
    (tx: Tx) => tx.sender != SYSTEM && tx.txid !in txids
  }

  /** The pool after the size limit: unexpired, best first, cut to the maximum. */
  function Limited(pool: seq<Tx>, now: int): seq<Tx> {
    var sorted := SortBy(Better, Keep(pool, Unexpired(now)));
    if |sorted| <= MAX_MEMPOOL_SIZE then sorted else sorted[..MAX_MEMPOOL_SIZE]
  }

  /** All pending spending of an account is covered by its confirmed balance. */
  ghost predicate Affordable(base: seq<Tx>, pool: seq<Tx>) {
    forall a :: a != SYSTEM ==> Spent(pool, a) <= Balance(base, a)
  }

  ghost predicate PoolOk(c: Crypto, chain: seq<Block>, pool: seq<Tx>) {
    Unconfirmed(c, chain, pool) && DistinctTxids(pool) && Affordable(Flat(chain), pool)
  }

  lemma {:induction false} KeepIs(pool: seq<Tx>, p: Tx -> bool)
    ensures forall tx :: tx in Keep(pool, p) <==> tx in pool && p(tx)
    ensures DistinctTxids(pool) ==> DistinctTxids(Keep(pool, p))
    decreases |pool|
  {
    if pool != [] {
      var init, last := pool[..|pool| - 1], pool[|pool| - 1];
      KeepIs(init, p);
      assert pool == init + [last];
      DistinctSnoc(init, last);
      DistinctSnoc(Keep(init, p), last);
    }
  }

  lemma {:induction false} AtMostOnce(txs: seq<Tx>, tx: Tx)
    requires DistinctTxids(txs)
    ensures multiset(txs)[tx] <= 1
    decreases |txs|
  {
    if txs != [] {
      var init, last := txs[..|txs| - 1], txs[|txs| - 1];
      AtMostOnce(init, tx);
      assert txs == init + [last];
      DistinctSnoc(init, last);
    }
  }

  lemma PermutedDistinct(s: seq<Tx>, t: seq<Tx>)
    requires multiset(s) == multiset(t) && DistinctTxids(s)
    ensures DistinctTxids(t)
  {
    SameMembers(s, t);
    forall i, j | 0 <= i < j < |t| ensures t[i].txid != t[j].txid {
      AtMostOnce(s, t[i]);
      CountedTwice(t, i, j);
      assert t[i] in s && t[j] in s;
      var k :| 0 <= k < |s| && s[k] == t[i];
      var l :| 0 <= l < |s| && s[l] == t[j];
      assert s[k].txid != s[l].txid;
    }
  }

  lemma {:induction false} CostsNonNegative(c: Crypto, pool: seq<Tx>, a: string)
    requires forall tx :: tx in pool ==> TxValid(c, tx)
    ensures forall tx :: tx in pool ==> Cost(a)(tx) >= 0
  {
  }

  /** Dropping pool transactions keeps the pool sound. */
  lemma PoolShrinks(c: Crypto, chain: seq<Block>, pool: seq<Tx>, fewer: seq<Tx>)
    requires PoolOk(c, chain, pool) && DistinctTxids(fewer) && forall tx :: tx in fewer ==> tx in pool
    ensures PoolOk(c, chain, fewer)
  {
    forall a | a != SYSTEM ensures Spent(fewer, a) <= Balance(Flat(chain), a) {
      CostsNonNegative(c, pool, a);
      SumOfSome(fewer, pool, Cost(a));
    }
  }

  lemma KeepKeeps(c: Crypto, chain: seq<Block>, pool: seq<Tx>, p: Tx -> bool)
    requires PoolOk(c, chain, pool)
    ensures PoolOk(c, chain, Keep(pool, p))
  {
    KeepIs(pool, p);
    PoolShrinks(c, chain, pool, Keep(pool, p));
  }

  lemma LimitKeeps(c: Crypto, chain: seq<Block>, pool: seq<Tx>, now: int)
    requires PoolOk(c, chain, pool)
    ensures PoolOk(c, chain, Limited(pool, now)) && |Limited(pool, now)| <= MAX_MEMPOOL_SIZE
    ensures forall tx :: tx in Limited(pool, now) ==> tx in pool
  {
    var kept := Keep(pool, Unexpired(now));
    KeepIs(pool, Unexpired(now));
    BetterOrders();
    SortBySorts(Better, kept);
    SameMembers(SortBy(Better, kept), kept);
    PermutedDistinct(kept, SortBy(Better, kept));
    PoolShrinks(c, chain, pool, Limited(pool, now));
  }

  lemma PrefixIsBest(sorted: seq<Tx>, n: nat, x: Tx, y: Tx)
    requires Sorted(Better, sorted) && n <= |sorted| && x in sorted[..n] && y in sorted && y !in sorted[..n]
    ensures !Better(y, x)
  {
    var i :| 0 <= i < n && sorted[..n][i] == x;
    var j :| 0 <= j < |sorted| && sorted[j] == y;
    assert j >= n;
  }

  lemma LimitedSorts(pool: seq<Tx>, now: int) returns (sorted: seq<Tx>, n: nat)
    ensures Sorted(Better, sorted) && n <= 5000 && n <= |sorted| && (n < |sorted| ==> n == 5000)
    ensures Limited(pool, now) == sorted[..n]
    ensures forall tx :: tx in sorted <==> tx in pool && tx.sender != "SYSTEM" && tx.timestampMs >= now - 3_600_000
  {
    var kept := Keep(pool, Unexpired(now));
    sorted := SortBy(Better, kept);
    n := if |sorted| <= 5000 then |sorted| else 5000;
    KeepIs(pool, Unexpired(now));
    BetterOrders();
    SortBySorts(Better, kept);
    SameMembers(sorted, kept);
    assert |sorted| <= 5000 ==> sorted[..n] == sorted;
  }

  /** What stays is no older than an hour, at most 5000, and no worse than anything left out for want of room. */
  lemma LimitedIs(pool: seq<Tx>, now: int, x: Tx, y: Tx)
    requires x in Limited(pool, now)
    ensures x in pool && x.sender != "SYSTEM" && x.timestampMs >= now - 3_600_000 && |Limited(pool, now)| <= 5000
    ensures y in pool && y !in Limited(pool, now) ==>
      || y.sender == "SYSTEM" || y.timestampMs < now - 3_600_000
      || (|Limited(pool, now)| == 5000 && (y.fee < x.fee || (y.fee == x.fee && y.timestampMs <= x.timestampMs)))
  {
    var sorted, n := LimitedSorts(pool, now);
    assert forall tx :: tx in sorted[..n] ==> tx in sorted;
    if y in sorted && y !in sorted[..n] {
      assert n < |sorted|;
      PrefixIsBest(sorted, n, x, y);
    }
  }

  ghost predicate Admissible(c: Crypto, base: seq<Tx>, pool: seq<Tx>, tx: Tx, now: int) {
    && tx.sender != SYSTEM
    && TxValid(c, tx)
    && now - MEMPOOL_TTL_MS <= tx.timestampMs <= now + MAX_TX_FUTURE_MS
    && tx.txid !in Txids(base) && tx.txid !in Txids(pool)
    && !(|pool| >= MAX_MEMPOOL_SIZE && forall x :: x in pool ==> tx.fee <= x.fee)
    && tx.nonce == MaxNonce(base + pool, tx.sender) + 1
    && Balance(base, tx.sender) - Spent(pool, tx.sender) >= tx.amount + tx.fee
  }

  /** Exactly which transactions the pool takes, in numbers. */
  lemma AdmissibleIff(c: Crypto, base: seq<Tx>, pool: seq<Tx>, tx: Tx, now: int)
    ensures Admissible(c, base, pool, tx, now) <==>
      && tx.sender != "SYSTEM" && GoodTx(c, tx)
      && now - 3_600_000 <= tx.timestampMs <= now + 120_000
      && (forall x :: x in base + pool ==> x.txid != tx.txid)
      && (|pool| >= 5000 ==> exists x :: x in pool && x.fee < tx.fee)
      && tx.nonce == MaxNonce(base + pool, tx.sender) + 1
      && tx.amount + tx.fee <= Balance(base, tx.sender) - Spent(pool, tx.sender)
  {
    TxIs(c, tx);
    assert forall x :: x in base + pool <==> x in base || x in pool;
  }

  /** The pool after one offer: expired entries leave, an admissible transaction enters and the limit is enforced. */
  ghost function Offered(c: Crypto, base: seq<Tx>, pool: seq<Tx>, tx: Tx, now: int): seq<Tx> {
    var kept := Keep(pool, Unexpired(now));
    if Admissible(c, base, kept, tx, now) then Limited(kept + [tx], now) else kept
  }

  /** The pool after offering the candidates in turn. */
  ghost function Readmitted(c: Crypto, base: seq<Tx>, pool: seq<Tx>, candidates: seq<Tx>, now: int): seq<Tx> {
    if candidates == [] then pool
    else
      var n := |candidates| - 1;
      Offered(c, base, Readmitted(c, base, pool, candidates[..n], now), candidates[n], now)
  }

  lemma ReadmittedMore(c: Crypto, base: seq<Tx>, pool: seq<Tx>, candidates: seq<Tx>, i: nat, now: int, before: seq<Tx>)
    requires i < |candidates| && before == Readmitted(c, base, pool, candidates[..i], now)
    ensures Offered(c, base, before, candidates[i], now) == Readmitted(c, base, pool, candidates[..i + 1], now)
  {
    assert candidates[..i + 1][..i] == candidates[..i];
  }

  lemma LimitedFrom(pool: seq<Tx>, now: int)
    ensures forall tx :: tx in Limited(pool, now) ==> tx in pool
  {
    var kept := Keep(pool, Unexpired(now));
    KeepIs(pool, Unexpired(now));
    BetterOrders();
    SortBySorts(Better, kept);
    SameMembers(SortBy(Better, kept), kept);
  }

  lemma OfferedFrom(c: Crypto, base: seq<Tx>, pool: seq<Tx>, tx: Tx, now: int)
    ensures forall x :: x in Offered(c, base, pool, tx, now) ==> x in pool || x == tx
  {
    var kept := Keep(pool, Unexpired(now));
    KeepIs(pool, Unexpired(now));
    LimitedFrom(kept + [tx], now);
  }

  lemma {:induction false} ReadmittedFrom(c: Crypto, base: seq<Tx>, candidates: seq<Tx>, now: int)
    ensures forall x :: x in Readmitted(c, base, [], candidates, now) ==> x in candidates
  {
    if candidates != [] {
      var n := |candidates| - 1;
      ReadmittedFrom(c, base, candidates[..n], now);
      OfferedFrom(c, base, Readmitted(c, base, [], candidates[..n], now), candidates[n], now);
    }
  }

  lemma AdmissionKeeps(c: Crypto, chain: seq<Block>, pool: seq<Tx>, tx: Tx, now: int)
    requires PoolOk(c, chain, pool) && Admissible(c, Flat(chain), pool, tx, now)
    ensures PoolOk(c, chain, pool + [tx])
  {
    DistinctSnoc(pool, tx);
    forall a | a != SYSTEM ensures Spent(pool + [tx], a) <= Balance(Flat(chain), a) {
      SumSnoc(pool, tx, Cost(a));
    }
  }

  /** Mining moves the selection from the pool to the chain; what stays pending is still affordable. */
  lemma MiningKeeps(c: Crypto, now: int, chain: seq<Block>, pool: seq<Tx>, miner: string, nonce: nat)
    requires ValidChain(c, now, chain) && PoolOk(c, chain, pool)
    requires var b := NextBlock(c, chain, Select(Flat(chain), pool, []), miner, now, nonce);
      NoCollision(c, Flat(chain) + pool + b.transactions)
    ensures var selected := Select(Flat(chain), pool, []);
      var b := NextBlock(c, chain, selected, miner, now, nonce);
      PoolOk(c, chain + [b], Keep(pool, NotIn(Txids(selected))))
  {
    var base, selected := Flat(chain), Select(Flat(chain), pool, []);
    var b := NextBlock(c, chain, selected, miner, now, nonce);
    var left := Keep(pool, NotIn(Txids(selected)));
    assert (chain + [b])[..|chain|] == chain;
    assert Flat(chain + [b]) == base + b.transactions;
    SelectIsSelection(base, pool, []);
    KeepIs(pool, NotIn(Txids(selected)));
    forall tx | tx in left ensures tx.txid !in Txids(base + b.transactions) {
      assert tx in pool;
      forall x | x in b.transactions ensures x.txid != tx.txid {
        if x in selected {
          assert x.txid in Txids(selected);
        } else {
          var all := base + pool + b.transactions;
          assert x in all && tx in all && Payload(x).sender != Payload(tx).sender;
          assert x.txid == c.txidOf(Payload(x)) && tx.txid == c.txidOf(Payload(tx));
        }
      }
    }
    forall a | a != SYSTEM ensures Spent(left, a) <= Balance(base + b.transactions, a) {
      LeftIsAffordable(c, base, pool, selected, left, b.transactions[|selected|..], a);
      assert b.transactions == selected + b.transactions[|selected|..];
    }
  }

  lemma LeftIsAffordable(c: Crypto, base: seq<Tx>, pool: seq<Tx>, selected: seq<Tx>, left: seq<Tx>, rest: seq<Tx>,
                         a: string)
    requires forall tx :: tx in pool ==> TxValid(c, tx)
    requires DistinctTxids(selected) && DistinctTxids(left) && a != SYSTEM
    requires forall tx :: tx in selected ==> tx in pool
    requires forall tx :: tx in left ==> tx in pool && tx.txid !in Txids(selected)
    requires forall tx :: tx in rest ==> tx.sender == SYSTEM && tx.amount >= 0
    requires Spent(pool, a) <= Balance(base, a)
    ensures Spent(left, a) <= Balance(base + (selected + rest), a)
  {
    DistinctJoin(selected, left);
    CostsNonNegative(c, pool, a);
    SumOfSome(selected + left, pool, Cost(a));
    SumAppend(selected, left, Cost(a));
    SumAppend(base, selected + rest, Delta(a));
    BalanceCoversSpending(selected + rest, a);
    SumAppend(selected, rest, Cost(a));
    NoSpending(rest, a);
  }

  lemma {:induction false} NoSpending(txs: seq<Tx>, a: string)
    requires a != SYSTEM && forall tx :: tx in txs ==> tx.sender == SYSTEM
    ensures Spent(txs, a) == 0
    decreases |txs|
  {
    if txs != [] { NoSpending(txs[..|txs| - 1], a); }
  }

  // -------------------------------------------------------------------------
  // Cumulative work
  // -------------------------------------------------------------------------

  function Pow16(n: nat): nat {
    if n == 0 then 1 else 16 * Pow16(n - 1)
  }

  function WorkOf(): Block -> int {
    (b: Block) => if b.difficulty < 0 then 0 else Pow16(b.difficulty)
  }

  /** A block's work doubles with every bit of its target: four bits for each zero digit of the hash. */
  lemma {:induction false} WorkIs(n: nat)
    ensures Pow16(n) == Pow2(4 * n)
  {
    if n > 0 {
      WorkIs(n - 1);
      assert Pow2(4 * n) == 2 * Pow2(4 * n - 1) && Pow2(4 * n - 1) == 2 * Pow2(4 * n - 2);
      assert Pow2(4 * n - 2) == 2 * Pow2(4 * n - 3) && Pow2(4 * n - 3) == 2 * Pow2(4 * (n - 1));
    }
  }

  method GetChainWork(chain: seq<Block>) returns (work: int)
    ensures work == Sum(chain, WorkOf())
  {
    work := 0;
    for i := 0 to |chain|
      invariant work == Sum(chain[..i], WorkOf())
    {
      assert chain[..i + 1][..i] == chain[..i];
      work := work + WorkOf()(chain[i]);
    }
    assert chain[..|chain|] == chain;
  }

  // -------------------------------------------------------------------------
  // The object
  // -------------------------------------------------------------------------

  class Blockchain {
    const c: Crypto
    var chain: seq<Block>
    var pending: seq<Tx>
    var difficulty: int

    constructor (c: Crypto, genesis: Block)
      requires GenesisOk(c, genesis)
      ensures this.c == c && forall now :: Valid(now)
    {
      this.c := c;
      chain, pending, difficulty := [genesis], [], GENESIS_DIFFICULTY;
      new;
      assert chain[..0] == [];
      assert Flat(chain) == [];
    }

    ghost predicate Valid(now: int)
      reads this
    {
      ValidChain(c, now, chain) && PoolOk(c, chain, pending)
    }

    method CleanupMempool(now: int)
      modifies this`pending
      ensures pending == Keep(old(pending), Unexpired(now))
      ensures PoolOk(c, chain, old(pending)) ==> PoolOk(c, chain, pending)
    {
      var cleaned: seq<Tx> := [];
      for i := 0 to |pending|
        invariant cleaned == Keep(pending[..i], Unexpired(now))
      {
        assert pending[..i + 1][..i] == pending[..i];
        if pending[i].sender == SYSTEM { continue; }
        if now - pending[i].timestampMs <= MEMPOOL_TTL_MS { cleaned := cleaned + [pending[i]]; }
      }
      assert pending[..|pending|] == pending;
      if PoolOk(c, chain, pending) { KeepKeeps(c, chain, pending, Unexpired(now)); }
      pending := cleaned;
    }

    method EnforceMempoolLimit(now: int)
      modifies this`pending
      ensures pending == Limited(old(pending), now)
      ensures PoolOk(c, chain, old(pending)) ==> PoolOk(c, chain, pending)
    {
      if PoolOk(c, chain, pending) { LimitKeeps(c, chain, pending, now); }
      CleanupMempool(now);
      pending := SortBy(Better, pending);
      if |pending| > MAX_MEMPOOL_SIZE { pending := pending[..MAX_MEMPOOL_SIZE]; }
    }

    method FindCandidates(selected: seq<Tx>, taken: set<string>, nonces: map<string, int>, spent: map<string, int>)
      returns (candidates: seq<Tx>)
      requires taken == Txids(selected) && Tracks(Flat(chain), selected, nonces, spent)
      requires forall tx :: tx in pending ==> tx.sender != SYSTEM
      ensures candidates == Candidates(Flat(chain), pending, selected)
    {
      candidates := [];
      for i := 0 to |pending|
        invariant candidates == Candidates(Flat(chain), pending[..i], selected)
      {
        var tx := pending[i];
        assert pending[..i + 1][..i] == pending[..i];
        if tx.txid in taken || tx.sender == "" { continue; }
        var confirmed := GetConfirmedNonce(chain, tx.sender);
        if tx.nonce != Get(nonces, tx.sender, confirmed) + 1 { continue; }
        var balance := GetBalanceAtoms(chain, tx.sender);
        if balance - Get(spent, tx.sender, 0) < tx.amount + tx.fee { continue; }
        candidates := candidates + [tx];
      }
      assert pending[..|pending|] == pending;
    }

    method StartingNonces() returns (nonces: map<string, int>, spent: map<string, int>)
      ensures Tracks(Flat(chain), [], nonces, spent)
    {
      nonces, spent := map[], map[];
      for i := 0 to |pending|
        invariant Tracks(Flat(chain), [], nonces, spent)
      {
        var a := pending[i].sender;
        if a != "" && a !in nonces {
          var confirmed := GetConfirmedNonce(chain, a);
          nonces, spent := nonces[a := confirmed], spent[a := 0];
        }
      }
    }

    method GetSortedPendingTransactions(now: int) returns (selected: seq<Tx>)
      modifies this`pending
      ensures pending == Keep(old(pending), Unexpired(now))
      ensures PoolOk(c, chain, old(pending)) ==> PoolOk(c, chain, pending)
      ensures selected == Select(Flat(chain), pending, [])
    {
      KeepIs(pending, Unexpired(now));
      CleanupMempool(now);
      ghost var base := Flat(chain);
      var nonces, spent := StartingNonces();
      var taken: set<string> := {};
      selected := [];
      while |selected| < MAX_BLOCK_TRANSACTIONS
        invariant pending == Keep(old(pending), Unexpired(now))
        invariant taken == Txids(selected) && Tracks(base, selected, nonces, spent)
        invariant Select(base, pending, []) == Select(base, pending, selected)
      {
        var candidates := FindCandidates(selected, taken, nonces, spent);
        candidates := SortBy(Better, candidates);
        if candidates == [] { break; }
        ChoiceIsBest(base, pending, selected);
        var tx := candidates[0];
        TrackStep(base, selected, tx, nonces, spent);
        DistinctSnoc(selected, tx);
        selected := selected + [tx];
        taken := taken + {tx.txid};
        nonces := nonces[tx.sender := tx.nonce];
        spent := spent[tx.sender := Get(spent, tx.sender, 0) + (tx.amount + tx.fee)];
      }
    }

    method TotalFees(txs: seq<Tx>) returns (fees: int)
      requires forall tx :: tx in txs ==> tx.sender != SYSTEM
      ensures fees == Sum(txs, Fee())
    {
      fees := 0;
      for i := 0 to |txs|
        invariant fees == Sum(txs[..i], Fee())
      {
        assert txs[..i + 1][..i] == txs[..i];
        assert txs[i] in txs;
        fees := fees + txs[i].fee;
      }
      assert txs[..|txs|] == txs;
    }

    /**
     * Mines one block with a found proof-of-work nonce. The chain stays valid exactly when the block
     * is mineable; the pool stays sound either way.
     */
    method MinePendingTransactions(miner: string, now: int, nonce: nat) returns (mined: bool)
      requires Valid(now)
      modifies this
      ensures mined == IsAddress(miner)
      ensures !mined ==> chain == old(chain) && pending == old(pending)
      ensures var pool := Keep(old(pending), Unexpired(now));
        var selected := Select(Flat(old(chain)), pool, []);
        var b := NextBlock(c, old(chain), selected, miner, now, nonce);
        mined ==>
          && chain == old(chain) + [b] && difficulty == b.difficulty
          && pending == Limited(Keep(pool, NotIn(Txids(selected))), now)
          && (NoCollision(c, Flat(old(chain)) + pool + b.transactions) ==>
                && PoolOk(c, chain, pending)
                && (MeetsTarget(b.hash, b.difficulty) ==>
                      (Valid(now) <==> Mineable(c, old(chain), selected, now, b))))
    {
      if !IsAddress(miner) { return false; }
      var selected := GetSortedPendingTransactions(now);
      ghost var pool := pending;
      SelectIsSelection(Flat(chain), pool, []);
      var b := BuildBlock(selected, miner, now, nonce);
      MinedSound(c, now, chain, pool, selected, b, miner, nonce);
      difficulty := b.difficulty;
      chain := chain + [b];
      pending := Drop(pending, Txids(selected));
      EnforceMempoolLimit(now);
      mined := true;
    }

    /** The subsidy cut to the remaining supply, as the miner reads both from the chain. */
    method RewardAtoms(now: int) returns (reward: int)
      requires ValidChain(c, now, chain)
      ensures reward == NextMint(Minted(chain), |chain|)
    {
      var supply := GetTotalSupplyAtoms(c, now, chain);
      var remaining := Max(MAX_SUPPLY - supply, 0);
      reward := Subsidy(|chain|);
      if remaining <= 0 { reward := 0; }
      if reward > remaining { reward := remaining; }
    }

    method BuildBlock(selected: seq<Tx>, miner: string, now: int, nonce: nat) returns (b: Block)
      requires ValidChain(c, now, chain) && forall tx :: tx in selected ==> tx.sender != SYSTEM
      ensures b == NextBlock(c, chain, selected, miner, now, nonce)
    {
      var reward := RewardAtoms(now);
      var fees := TotalFees(selected);
      var time := BlockTime(chain, now);
      var txs := selected;
      if reward + fees > 0 { txs := txs + [RewardTx(c, miner, reward + fees, time)]; }
      assert txs == selected + Reward(c, miner, Payment(chain, selected), time);
      b := Block(|chain|, time, txs, c.merkle(txs), Last(chain).hash, ExpectedDifficulty(chain), nonce, "");
      b := b.(hash := c.blockHash(Header(b)));
    }

    static method Drop(pool: seq<Tx>, txids: set<string>) returns (left: seq<Tx>)
      ensures left == Keep(pool, NotIn(txids))
    {
      left := [];
      for i := 0 to |pool|
        invariant left == Keep(pool[..i], NotIn(txids))
      {
        assert pool[..i + 1][..i] == pool[..i];
        if pool[i].txid !in txids { left := left + [pool[i]]; }
      }
      assert pool[..|pool|] == pool;
    }

    static method Orphans(txs: seq<Tx>, confirmed: set<string>) returns (orphans: seq<Tx>)
      ensures orphans == Keep(txs, Orphaned(confirmed))
    {
      orphans := [];
      for i := 0 to |txs|
        invariant orphans == Keep(txs[..i], Orphaned(confirmed))
      {
        assert txs[..i + 1][..i] == txs[..i];
        if txs[i].sender != SYSTEM && txs[i].txid !in confirmed { orphans := orphans + [txs[i]]; }
      }
      assert txs[..|txs|] == txs;
    }

    method AddTransaction(tx: Tx, now: int) returns (accepted: bool)
      requires PoolOk(c, chain, pending)
      modifies this`pending
      ensures PoolOk(c, chain, pending)
      ensures var pool := Keep(old(pending), Unexpired(now));
        && (accepted <==> Admissible(c, Flat(chain), pool, tx, now))
        && pending == if accepted then Limited(pool + [tx], now) else pool
    {
      CleanupMempool(now);
      accepted := AdmissionChecks(tx, now);
      if !accepted { return; }
      AdmissionKeeps(c, chain, pending, tx, now);
      pending := pending + [tx];
      EnforceMempoolLimit(now);
    }

    method AdmissionChecks(tx: Tx, now: int) returns (ok: bool)
      ensures ok <==> Admissible(c, Flat(chain), pending, tx, now)
    {
      if tx.sender == SYSTEM || !WellFormed(c, tx) { return false; }
      if tx.timestampMs > now + MAX_TX_FUTURE_MS || now - tx.timestampMs > MEMPOOL_TTL_MS { return false; }
      if c.addressOf(tx.publicKey.value) != Some(tx.sender) { return false; }
      if tx.txid in Txids(Flat(chain)) || tx.txid in Txids(pending) { return false; }
      if !IsAddress(tx.sender) || !IsAddress(tx.receiver) { return false; }
      if |pending| >= MAX_MEMPOOL_SIZE && forall x :: x in pending ==> tx.fee <= x.fee { return false; }
      ok := NextInLine(tx);
    }

    /** Whether the nonce follows everything confirmed and pending and the balance covers it on top. */
    method NextInLine(tx: Tx) returns (ok: bool)
      ensures ok <==>
        && tx.nonce == MaxNonce(Flat(chain) + pending, tx.sender) + 1
        && Balance(Flat(chain), tx.sender) - Spent(pending, tx.sender) >= tx.amount + tx.fee
    {
      var nonce := GetConfirmedNonce(chain, tx.sender);
      nonce := NonceOver(Flat(chain), pending, tx.sender, nonce);
      var balance := GetBalanceAtoms(chain, tx.sender);
      var spent := PendingSpent(tx.sender);
      ok := tx.nonce == nonce + 1 && balance - spent >= tx.amount + tx.fee;
    }

    method PendingSpent(a: string) returns (atoms: int)
      ensures atoms == Spent(pending, a)
    {
      atoms := 0;
      for i := 0 to |pending|
        invariant atoms == Spent(pending[..i], a)
      {
        assert pending[..i + 1][..i] == pending[..i];
        if pending[i].sender == a { atoms := atoms + (pending[i].amount + pending[i].fee); }
      }
      assert pending[..|pending|] == pending;
    }

    /**
     * Adopts exactly the valid chains with more work; the rebuilt pool is sound and comes from the old one
     * and the orphans.
     */
    method ReplaceChain(newChain: seq<Block>, now: int) returns (replaced: bool)
      requires Valid(now)
      modifies this
      ensures Valid(now)
      ensures replaced <==> ValidChain(c, now, newChain) && Sum(newChain, WorkOf()) > Sum(old(chain), WorkOf())
      ensures !replaced ==> chain == old(chain) && pending == old(pending)
      ensures replaced ==>
        && chain == newChain
        && pending == Readmitted(c, Flat(newChain), [],
          old(pending) + Keep(Flat(old(chain)), Orphaned(Txids(Flat(newChain)))), now)
      ensures forall tx :: tx in pending ==> tx in old(pending) || tx in Flat(old(chain))
    {
      var valid := IsValidChain(c, now, newChain);
      if !valid { return false; }
      var work := GetChainWork(chain);
      var incoming := GetChainWork(newChain);
      if incoming <= work { return false; }
      var confirmed := Txids(Flat(newChain));
      var orphaned := Orphans(Flat(chain), confirmed);
      KeepIs(Flat(chain), Orphaned(confirmed));
      var recovery := pending + orphaned;
      chain, pending := newChain, [];
      difficulty := Last(newChain).difficulty;
      NeverOverdrawn(c, now, newChain);
      assert Flat(newChain)[..|Flat(newChain)|] == Flat(newChain);
      Recover(recovery, now);
      ReadmittedFrom(c, Flat(chain), recovery, now);
      replaced := true;
    }

    /** Re-admits each candidate in turn. */
    method Recover(recovery: seq<Tx>, now: int)
      requires PoolOk(c, chain, pending)
      modifies this`pending
      ensures PoolOk(c, chain, pending)
      ensures pending == Readmitted(c, Flat(chain), old(pending), recovery, now)
    {
      for i := 0 to |recovery|
        invariant PoolOk(c, chain, pending)
        invariant pending == Readmitted(c, Flat(chain), old(pending), recovery[..i], now)
      {
        ghost var before := pending;
        var _ := AddTransaction(recovery[i], now);
        ReadmittedMore(c, Flat(chain), old(pending), recovery, i, now, before);
      }
      assert recovery[..|recovery|] == recovery;
    }
  }

  lemma MinedSound(c: Crypto, now: int, chain: seq<Block>, pool: seq<Tx>, selected: seq<Tx>, b: Block, miner: string,
                   nonce: nat)
    requires ValidChain(c, now, chain) && PoolOk(c, chain, pool) && IsAddress(miner)
    requires selected == Select(Flat(chain), pool, []) && b == NextBlock(c, chain, selected, miner, now, nonce)
    ensures NoCollision(c, Flat(chain) + pool + b.transactions) ==>
      && PoolOk(c, chain + [b], Keep(pool, NotIn(Txids(selected))))
      && (MeetsTarget(b.hash, b.difficulty) ==>
            (ValidChain(c, now, chain + [b]) <==> Mineable(c, chain, selected, now, b)))
  {
    if NoCollision(c, Flat(chain) + pool + b.transactions) {
      MiningKeeps(c, now, chain, pool, miner, nonce);
      assert forall tx :: tx in Flat(chain) + b.transactions ==> tx in Flat(chain) + pool + b.transactions;
      if MeetsTarget(b.hash, b.difficulty) { MinedChainValid(c, now, chain, pool, miner, nonce); }
    }
  }
}
