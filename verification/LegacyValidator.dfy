/** The legacy ledger's scans and its chain validator, loop by loop, proved against `LegacyLedger`. */
module LegacyValidator {
  import opened Sorting
  import opened Arithmetic
  import opened Constants
  import opened Sums
  import opened LegacyLedger

  // -------------------------------------------------------------------------
  // Scans of the chain
  // -------------------------------------------------------------------------

  /** How many leading blocks have an index below `index`: where the "before block" scans stop. */
  function Before(chain: seq<Block>, index: int): (n: nat)
    ensures n <= |chain|
  {
    if chain == [] || chain[0].index >= index then 0 else 1 + Before(chain[1..], index)
  }

  lemma {:induction false} BeforeStops(chain: seq<Block>, index: int, n: nat)
    requires n <= |chain| && (forall i :: 0 <= i < n ==> chain[i].index < index)
    requires n < |chain| ==> chain[n].index >= index
    ensures Before(chain, index) == n
    decreases n
  {
    if n > 0 { BeforeStops(chain[1..], index, n - 1); }
  }

  lemma FlatNext(chain: seq<Block>, i: nat)
    requires i < |chain|
    ensures Flat(chain[..i + 1]) == Flat(chain[..i]) + chain[i].transactions
  {
    assert chain[..i + 1][..i] == chain[..i];
  }

  lemma MaxNonceSnoc(txs: seq<Tx>, tx: Tx, a: string)
    ensures MaxNonce(txs + [tx], a) == if tx.sender == a then Max(MaxNonce(txs, a), tx.nonce) else MaxNonce(txs, a)
  {
    assert (txs + [tx])[..|txs|] == txs;
  }

  method NonceOver(base: seq<Tx>, txs: seq<Tx>, a: string, start: int) returns (nonce: int)
    requires start == MaxNonce(base, a)
    ensures nonce == MaxNonce(base + txs, a)
  {
    nonce := start;
    assert base + txs[..0] == base;
    for k := 0 to |txs|
      invariant nonce == MaxNonce(base + txs[..k], a)
    {
      assert base + txs[..k + 1] == (base + txs[..k]) + [txs[k]];
      MaxNonceSnoc(base + txs[..k], txs[k], a);
      if txs[k].sender == a { nonce := Max(nonce, txs[k].nonce); }
    }
    assert txs[..|txs|] == txs;
  }

  method GetNonceBeforeBlock(chain: seq<Block>, a: string, index: int) returns (nonce: int)
    ensures nonce == MaxNonce(Flat(chain[..Before(chain, index)]), a)
  {
    nonce := 0;
    var i := 0;
    while i < |chain| && chain[i].index < index
      invariant 0 <= i <= |chain| && (forall j :: 0 <= j < i ==> chain[j].index < index)
      invariant nonce == MaxNonce(Flat(chain[..i]), a)
    {
      FlatNext(chain, i);
      nonce := NonceOver(Flat(chain[..i]), chain[i].transactions, a, nonce);
      i := i + 1;
    }
    BeforeStops(chain, index, i);
  }

  method BalanceOver(base: seq<Tx>, txs: seq<Tx>, a: string, start: int) returns (atoms: int)
    requires start == Balance(base, a)
    ensures atoms == Balance(base + txs, a)
  {
    atoms := start;
    assert base + txs[..0] == base;
    for k := 0 to |txs|
      invariant atoms == Balance(base + txs[..k], a)
    {
      assert base + txs[..k + 1] == (base + txs[..k]) + [txs[k]];
      SumSnoc(base + txs[..k], txs[k], Delta(a));
      if txs[k].sender == a {
        atoms := atoms - txs[k].amount;
        atoms := atoms - txs[k].fee;
      }
      if txs[k].receiver == a { atoms := atoms + txs[k].amount; }
    }
    assert txs[..|txs|] == txs;
  }

  method GetBalanceAtomsBeforeBlock(chain: seq<Block>, a: string, index: int) returns (atoms: int)
    ensures atoms == Balance(Flat(chain[..Before(chain, index)]), a)
  {
    atoms := 0;
    var i := 0;
    while i < |chain| && chain[i].index < index
      invariant 0 <= i <= |chain| && (forall j :: 0 <= j < i ==> chain[j].index < index)
      invariant atoms == Balance(Flat(chain[..i]), a)
    {
      FlatNext(chain, i);
      atoms := BalanceOver(Flat(chain[..i]), chain[i].transactions, a, atoms);
      i := i + 1;
    }
    BeforeStops(chain, index, i);
  }

  method GetBalanceAtoms(chain: seq<Block>, a: string) returns (atoms: int)
    ensures atoms == Balance(Flat(chain), a)
  {
    atoms := 0;
    for i := 0 to |chain|
      invariant atoms == Balance(Flat(chain[..i]), a)
    {
      FlatNext(chain, i);
      atoms := BalanceOver(Flat(chain[..i]), chain[i].transactions, a, atoms);
    }
    assert chain[..|chain|] == chain;
  }

  method GetConfirmedNonce(chain: seq<Block>, a: string) returns (nonce: int)
    ensures nonce == MaxNonce(Flat(chain), a)
  {
    nonce := 0;
    for i := 0 to |chain|
      invariant nonce == MaxNonce(Flat(chain[..i]), a)
    {
      FlatNext(chain, i);
      nonce := NonceOver(Flat(chain[..i]), chain[i].transactions, a, nonce);
    }
    assert chain[..|chain|] == chain;
  }

  // -------------------------------------------------------------------------
  // Total supply
  // -------------------------------------------------------------------------

  /** What a block's SYSTEM payments exceed its fees by. */
  function Excess(): Block -> int {
    (b: Block) => Max(Sum(b.transactions, Paid()) - Sum(b.transactions, Fee()), 0)
  }

  method BlockExcess(b: Block) returns (excess: int)
    ensures excess == Excess()(b)
  {
    var fees, system := 0, 0;
    for k := 0 to |b.transactions|
      invariant system == Sum(b.transactions[..k], Paid()) && fees == Sum(b.transactions[..k], Fee())
    {
      var tx := b.transactions[k];
      assert b.transactions[..k + 1] == b.transactions[..k] + [tx];
      if tx.sender == SYSTEM { system := system + tx.amount; } else { fees := fees + tx.fee; }
    }
    assert b.transactions[..|b.transactions|] == b.transactions;
    excess := Max(system - fees, 0);
  }

  lemma {:induction false} ExcessIsMinted(c: Crypto, now: int, chain: seq<Block>)
    requires ValidChain(c, now, chain)
    ensures Sum(chain[1..], Excess()) == Minted(chain)
    decreases |chain|
  {
    if |chain| > 1 {
      var prefix := chain[..|chain| - 1];
      PrefixValid(c, now, chain, |chain| - 1);
      ExcessIsMinted(c, now, prefix);
      LastExcess(c, now, chain);
      ExcessSnoc(chain);
    }
  }

  lemma ExcessSnoc(chain: seq<Block>)
    requires |chain| > 1
    ensures Sum(chain[1..], Excess()) == Sum(chain[..|chain| - 1][1..], Excess()) + Excess()(Last(chain))
  {
    var prefix := chain[..|chain| - 1];
    assert chain[1..] == prefix[1..] + [Last(chain)];
    SumSnoc(prefix[1..], Last(chain), Excess());
  }

  lemma LastExcess(c: Crypto, now: int, chain: seq<Block>)
    requires ValidChain(c, now, chain) && |chain| > 1
    ensures var prefix := chain[..|chain| - 1]; Excess()(Last(chain)) == NextMint(Minted(prefix), Last(chain).index)
  {
    var prefix, b := chain[..|chain| - 1], Last(chain);
    FeesNonNegative(c, b.timestampMs, b.transactions);
    BlockPays(b.transactions, Due(prefix, b));
  }

  /** On a valid chain the reported supply is exactly what was minted, hence what all accounts hold. */
  method GetTotalSupplyAtoms(c: Crypto, now: int, chain: seq<Block>) returns (total: int)
    requires chain != []
    ensures total == Min(Sum(chain[1..], Excess()), MAX_SUPPLY)
    ensures ValidChain(c, now, chain) ==>
      && total == Minted(chain)
      && forall accounts :: AllAccounts(accounts, Flat(chain)) ==> Total(accounts, Flat(chain)) == total
  {
    total := 0;
    for i := 1 to |chain|
      invariant total == Sum(chain[1..i], Excess())
    {
      var excess := BlockExcess(chain[i]);
      assert chain[1..i + 1] == chain[1..i] + [chain[i]];
      total := total + excess;
    }
    assert chain[1..|chain|] == chain[1..];
    total := Min(total, MAX_SUPPLY);
    if ValidChain(c, now, chain) {
      ExcessIsMinted(c, now, chain);
      forall accounts | AllAccounts(accounts, Flat(chain)) ensures Total(accounts, Flat(chain)) == total {
        Conservation(c, now, chain, accounts);
      }
    }
  }

  // -------------------------------------------------------------------------
  // The validator
  // -------------------------------------------------------------------------

  function Txids(txs: seq<Tx>): set<string> {
    set tx | tx in txs :: tx.txid
  }

  lemma DistinctSnoc(txs: seq<Tx>, tx: Tx)
    ensures DistinctTxids(txs + [tx]) <==> DistinctTxids(txs) && tx.txid !in Txids(txs)
    ensures Txids(txs + [tx]) == Txids(txs) + {tx.txid}
  {
    var all := txs + [tx];
    if DistinctTxids(all) {
      assert DistinctTxids(txs) by {
        forall i, j | 0 <= i < j < |txs| ensures txs[i].txid != txs[j].txid {
          assert all[i] == txs[i] && all[j] == txs[j];
        }
      }
      forall x | x in txs ensures x.txid != tx.txid {
        var i :| 0 <= i < |txs| && txs[i] == x;
        assert all[i] == x && all[|txs|] == tx;
      }
    }
    assert forall x :: x in all <==> x in txs || x == tx;
  }

  lemma DistinctPrefix(txs: seq<Tx>, n: nat)
    requires n <= |txs|
    ensures DistinctTxids(txs) ==> DistinctTxids(txs[..n])
  {
  }

  function Systems(txs: seq<Tx>): seq<Tx> {
    if txs == [] then []
    else
      var init, last := Systems(txs[..|txs| - 1]), txs[|txs| - 1];
      if last.sender == SYSTEM then init + [last] else init
  }

  lemma TxStep(txs: seq<Tx>, k: nat)
    requires k < |txs|
    ensures Systems(txs[..k + 1]) == if txs[k].sender == SYSTEM then Systems(txs[..k]) + [txs[k]] else Systems(txs[..k])
    ensures Sum(txs[..k + 1], Fee()) == Sum(txs[..k], Fee()) + (if txs[k].sender == SYSTEM then 0 else txs[k].fee)
  {
    assert txs[..k + 1][..k] == txs[..k];
  }

  method CheckTransactions(c: Crypto, b: Block, base: seq<Tx>, seen: set<string>)
    returns (ok: bool, nowSeen: set<string>, systems: seq<Tx>, fees: int)
    requires DistinctTxids(base) && seen == Txids(base)
    ensures ok <==> TxsOk(c, b.timestampMs, b.transactions) && DistinctTxids(base + b.transactions)
    ensures ok ==> nowSeen == Txids(base + b.transactions)
    ensures ok ==> systems == Systems(b.transactions) && fees == Sum(b.transactions, Fee())
  {
    var txs := b.transactions;
    nowSeen, systems, fees, ok := seen, [], 0, false;
    assert base + txs[..0] == base;
    assert txs[..0] == [];
    for k := 0 to |txs|
      invariant Scanned(c, b.timestampMs, base, txs[..k], nowSeen)
      invariant systems == Systems(txs[..k]) && fees == Sum(txs[..k], Fee())
    {
      TxStep(txs, k);
      ScanStep(c, b.timestampMs, base, txs, k, nowSeen);
      var tx := txs[k];
      if tx.txid in nowSeen { return; }
      nowSeen := nowSeen + {tx.txid};
      if !TxValid(c, tx) || tx.timestampMs > b.timestampMs { return; }
      if tx.sender == SYSTEM {
        systems := systems + [tx];
      } else {
        fees := fees + tx.fee;
      }
    }
    assert txs[..|txs|] == txs;
    ok := true;
  }

  /** What the scan has established about a prefix of the block. */
  ghost predicate Scanned(c: Crypto, timestampMs: int, base: seq<Tx>, part: seq<Tx>, seen: set<string>) {
    TxsOk(c, timestampMs, part) && DistinctTxids(base + part) && seen == Txids(base + part)
  }

  /** The next transaction either extends the scan or spoils the whole list. */
  lemma ScanStep(c: Crypto, timestampMs: int, base: seq<Tx>, txs: seq<Tx>, k: nat, seen: set<string>)
    requires k < |txs| && Scanned(c, timestampMs, base, txs[..k], seen)
    ensures var fits := txs[k].txid !in seen && TxValid(c, txs[k]) && txs[k].timestampMs <= timestampMs;
      if fits then Scanned(c, timestampMs, base, txs[..k + 1], seen + {txs[k].txid})
      else !(TxsOk(c, timestampMs, txs) && DistinctTxids(base + txs))
  {
    var part := base + txs[..k];
    assert base + txs[..k + 1] == part + [txs[k]] == (base + txs)[..|base| + k + 1];
    DistinctSnoc(part, txs[k]);
    DistinctPrefix(base + txs, |base| + k + 1);
  }

  lemma {:induction false} SystemsAre(txs: seq<Tx>)
    ensures Systems(txs) == [] <==> forall k :: 0 <= k < |txs| ==> txs[k].sender != SYSTEM
    decreases |txs|
  {
    if txs != [] { SystemsAre(txs[..|txs| - 1]); }
  }

  /** Counting the SYSTEM transactions and looking at the last one decides the reward rule. */
  method CheckReward(txs: seq<Tx>, systems: seq<Tx>, due: int) returns (ok: bool)
    requires systems == Systems(txs)
    ensures ok <==> RewardOk(txs, due)
  {
    SystemsAre(txs);
    if txs != [] { SystemsAre(txs[..|txs| - 1]); }
    if |systems| > 1 { return false; }
    if systems != [] && txs[|txs| - 1].sender != SYSTEM { return false; }
    if due > 0 {
      if |systems| != 1 { return false; }
      if systems[0].amount != due { return false; }
    } else if systems != [] {
      return false;
    }
    ok := true;
  }

  function Get(m: map<string, int>, a: string, default: int): int {
    if a in m then m[a] else default
  }

  /** The per-block maps hold, for every sender met, its last nonce and its spending so far. */
  ghost predicate Tracks(base: seq<Tx>, part: seq<Tx>, nonces: map<string, int>, spent: map<string, int>) {
    forall a :: a != SYSTEM ==>
      && Get(nonces, a, MaxNonce(base, a)) == MaxNonce(base, a) + Sent(part, a)
      && Get(spent, a, 0) == Spent(part, a)
  }

  method CheckSpends(chain: seq<Block>, i: nat) returns (ok: bool)
    requires i < |chain| && forall j :: 0 <= j <= i ==> chain[j].index == j
    ensures ok <==> SpendsOk(Flat(chain[..i]), chain[i].transactions)
  {
    var b := chain[i];
    var txs := b.transactions;
    ghost var base := Flat(chain[..i]);
    BeforeStops(chain, b.index, i);
    var nonces: map<string, int>, spent: map<string, int> := map[], map[];
    for k := 0 to |txs|
      invariant forall j :: 0 <= j < k ==> SpendOk(base, txs, j)
      invariant Tracks(base, txs[..k], nonces, spent)
    {
      var tx := txs[k];
      assert txs[..k + 1] == txs[..k] + [tx];
      TrackStep(base, txs[..k], tx, nonces, spent);
      if tx.sender != SYSTEM {
        var before := GetNonceBeforeBlock(chain, tx.sender, b.index);
        var previous := Get(nonces, tx.sender, before);
        if tx.nonce != previous + 1 {
          assert !SpendOk(base, txs, k);
          return false;
        }
        var cost := tx.amount + tx.fee;
        var balance := GetBalanceAtomsBeforeBlock(chain, tx.sender, b.index);
        if Get(spent, tx.sender, 0) + cost > balance {
          assert !SpendOk(base, txs, k);
          return false;
        }
        spent := spent[tx.sender := Get(spent, tx.sender, 0) + cost];
        nonces := nonces[tx.sender := tx.nonce];
      }
    }
    ok := true;
  }

  lemma TrackStep(base: seq<Tx>, part: seq<Tx>, tx: Tx, nonces: map<string, int>, spent: map<string, int>)
    requires Tracks(base, part, nonces, spent)
    ensures Spent(part + [tx], tx.sender) == Spent(part, tx.sender) + tx.amount + tx.fee
    ensures tx.sender == SYSTEM ==> Tracks(base, part + [tx], nonces, spent)
    ensures tx.sender != SYSTEM && tx.nonce == MaxNonce(base, tx.sender) + Sent(part, tx.sender) + 1 ==>
      Tracks(base, part + [tx], nonces[tx.sender := tx.nonce],
             spent[tx.sender := Get(spent, tx.sender, 0) + (tx.amount + tx.fee)])
  {
    forall a ensures Sent(part + [tx], a) == Sent(part, a) + (if tx.sender == a then 1 else 0)
      && Spent(part + [tx], a) == Spent(part, a) + (if tx.sender == a then tx.amount + tx.fee else 0)
    {
      SumSnoc(part, tx, ByAccount(a));
      SumSnoc(part, tx, Cost(a));
    }
  }

  lemma ValidSnoc(c: Crypto, now: int, prefix: seq<Block>, b: Block)
    requires prefix != []
    ensures ValidChain(c, now, prefix + [b]) <==> ValidChain(c, now, prefix) && BlockOk(c, now, prefix, b)
  {
    assert (prefix + [b])[..|prefix|] == prefix;
  }

  lemma ValidNext(c: Crypto, now: int, chain: seq<Block>, i: nat)
    requires 1 <= i < |chain|
    ensures ValidChain(c, now, chain[..i + 1]) <==>
      ValidChain(c, now, chain[..i]) && BlockOk(c, now, chain[..i], chain[i])
  {
    assert chain[..i + 1] == chain[..i] + [chain[i]];
    ValidSnoc(c, now, chain[..i], chain[i]);
  }

  lemma ValidAt(c: Crypto, now: int, chain: seq<Block>, i: nat)
    requires 1 <= i < |chain|
    ensures ValidChain(c, now, chain) ==> ValidChain(c, now, chain[..i + 1])
  {
    var n := i + 1;
    if ValidChain(c, now, chain) { PrefixValid(c, now, chain, n); }
  }

  /** One block against the validated prefix. */
  method CheckBlock(c: Crypto, now: int, chain: seq<Block>, i: nat, minted: int, seen: set<string>)
    returns (ok: bool, nowSeen: set<string>)
    requires 1 <= i < |chain| && ValidChain(c, now, chain[..i])
    requires minted == Minted(chain[..i]) && seen == Txids(Flat(chain[..i]))
    ensures ok <==> BlockOk(c, now, chain[..i], chain[i])
    ensures ok ==> nowSeen == Txids(Flat(chain[..i + 1]))
  {
    nowSeen, ok := seen, false;
    if !HeaderOk(c, now, chain[..i], chain[i]) { return; }
    IndexesCount(c, now, chain[..i]);
    assert forall j :: 0 <= j < i ==> chain[j] == chain[..i][j];
    TxsValid(c, now, chain[..i]);
    FlatNext(chain, i);
    ok, nowSeen := CheckBody(c, chain, i, minted, seen);
  }

  /** The transaction rules of one block. */
  method CheckBody(c: Crypto, chain: seq<Block>, i: nat, minted: int, seen: set<string>)
    returns (ok: bool, nowSeen: set<string>)
    requires i < |chain| && (forall j :: 0 <= j <= i ==> chain[j].index == j)
    requires minted == Minted(chain[..i]) && seen == Txids(Flat(chain[..i])) && DistinctTxids(Flat(chain[..i]))
    ensures var b, base := chain[i], Flat(chain[..i]);
      ok <==> TxsOk(c, b.timestampMs, b.transactions) && DistinctTxids(base + b.transactions)
              && RewardOk(b.transactions, Due(chain[..i], b)) && SpendsOk(base, b.transactions)
    ensures ok ==> nowSeen == Txids(Flat(chain[..i]) + chain[i].transactions)
  {
    var b := chain[i];
    var systems, fees;
    ok, nowSeen, systems, fees := CheckTransactions(c, b, Flat(chain[..i]), seen);
    if !ok { return; }
    var mint := Min(Subsidy(b.index), Max(MAX_SUPPLY - minted, 0));
    ok := CheckReward(b.transactions, systems, mint + fees);
    if !ok { return; }
    ok := CheckSpends(chain, i);
  }

  method IsValidChain(c: Crypto, now: int, chain: seq<Block>) returns (ok: bool)
    ensures ok <==> ValidChain(c, now, chain)
  {
    if chain == [] { return false; }
    if !GenesisOk(c, chain[0]) {
      GenesisFirst(c, now, chain);
      return false;
    }
    assert chain[..1][..0] == [];
    var minted, seen: set<string> := 0, {};
    for i := 1 to |chain|
      invariant ValidChain(c, now, chain[..i])
      invariant minted == Minted(chain[..i]) && seen == Txids(Flat(chain[..i]))
    {
      ValidAt(c, now, chain, i);
      ValidNext(c, now, chain, i);
      ok, seen := CheckBlock(c, now, chain, i, minted, seen);
      if !ok { return; }
      assert chain[..i + 1][..i] == chain[..i];
      minted := minted + NextMint(minted, chain[i].index);
    }
    assert chain[..|chain|] == chain;
    ok := true;
  }

  lemma GenesisFirst(c: Crypto, now: int, chain: seq<Block>)
    requires chain != []
    ensures ValidChain(c, now, chain) ==> GenesisOk(c, chain[0])
  {
    if ValidChain(c, now, chain) { PrefixValid(c, now, chain, 1); }
  }

  // -------------------------------------------------------------------------
  // All addresses
  // -------------------------------------------------------------------------

  /** The address list of a valid chain covers every account, so its balances sum to the supply. */
  method GetAllAddresses(c: Crypto, now: int, chain: seq<Block>) returns (addresses: seq<string>)
    requires ValidChain(c, now, chain)
    ensures AllAccounts(addresses, Flat(chain))
    ensures Total(addresses, Flat(chain)) == Minted(chain)
    ensures forall a :: a in addresses ==> 0 <= Balance(Flat(chain), a) <= Minted(chain)
  {
    addresses := [];
    var txs := Flat(chain);
    TxsValid(c, now, chain);
    for k := 0 to |txs|
      invariant AllAccounts(addresses, txs[..k])
    {
      var tx := txs[k];
      assert tx in txs;
      if tx.sender != SYSTEM && IsAddress(tx.sender) { addresses := Include(addresses, tx.sender); }
      if IsAddress(tx.receiver) { addresses := Include(addresses, tx.receiver); }
    }
    assert txs[..|txs|] == txs;
    Conservation(c, now, chain, addresses);
    NeverOverdrawn(c, now, chain);
    forall a | a in addresses ensures 0 <= Balance(txs, a) <= Minted(chain) {
      ShareOfTotal(addresses, txs, a);
    }
  }

  function Include(s: seq<string>, a: string): (r: seq<string>)
    requires NoRepeats(s)
    ensures NoRepeats(r) && forall x :: x in r <==> x in s || x == a
  {
    if a in s then s else s + [a]
  }
}
