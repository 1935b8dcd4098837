/**
 * The legacy node over a whole sequence of calls at growing times, and which transactions
 * survive a chain replacement.
 */
module LegacyRuns {
  import opened Sums
  import opened Sorting
  import opened LegacyLedger
  import opened LegacyValidator
  import opened LegacyMiner
  import opened LegacyBlockchain

  datatype Node = Node(chain: seq<Block>, pool: seq<Tx>)

  datatype Request = Offer(tx: Tx) | Mine(miner: string, nonce: nat) | Replace(newChain: seq<Block>)

  /** A request and the node's clock when it arrives. */
  datatype Call = Call(request: Request, now: int)

  ghost predicate Sound(c: Crypto, now: int, s: Node) {
    ValidChain(c, now, s.chain) && PoolOk(c, s.chain, s.pool)
  }

  /** What the node would mine now. */
  function MinedBlock(c: Crypto, s: Node, miner: string, now: int, nonce: nat): Block
    requires s.chain != []
  {
    NextBlock(c, s.chain, Select(Flat(s.chain), Keep(s.pool, Unexpired(now)), []), miner, now, nonce)
  }

  ghost function After(c: Crypto, s: Node, call: Call): Node
    requires s.chain != []
  {
    match call.request
    case Offer(tx) => Node(s.chain, Offered(c, Flat(s.chain), s.pool, tx, call.now))
    case Mine(miner, nonce) =>
      if !IsAddress(miner) then s
      else
        var pool := Keep(s.pool, Unexpired(call.now));
        var selected := Select(Flat(s.chain), pool, []);
        Node(s.chain + [MinedBlock(c, s, miner, call.now, nonce)],
             Limited(Keep(pool, NotIn(Txids(selected))), call.now))
    case Replace(newChain) =>
      if ValidChain(c, call.now, newChain) && Sum(newChain, WorkOf()) > Sum(s.chain, WorkOf()) then
        var candidates := s.pool + Keep(Flat(s.chain), Orphaned(Txids(Flat(newChain))));
        Node(newChain, Readmitted(c, Flat(newChain), [], candidates, call.now))
      else s
  }

  /** The node object does what `After` says. */
  method Perform(b: Blockchain, call: Call)
    requires b.Valid(call.now)
    modifies b
    ensures Node(b.chain, b.pending) == After(b.c, old(Node(b.chain, b.pending)), call)
  {
    match call.request
    case Offer(tx) => var _ := b.AddTransaction(tx, call.now);
    case Mine(miner, nonce) => var _ := b.MinePendingTransactions(miner, call.now, nonce);
    case Replace(newChain) => var _ := b.ReplaceChain(newChain, call.now);
  }

  // -------------------------------------------------------------------------
  // What every call keeps
  // -------------------------------------------------------------------------

  lemma OfferKeeps(c: Crypto, chain: seq<Block>, pool: seq<Tx>, tx: Tx, now: int)
    requires PoolOk(c, chain, pool)
    ensures PoolOk(c, chain, Offered(c, Flat(chain), pool, tx, now))
  {
    var kept := Keep(pool, Unexpired(now));
    KeepKeeps(c, chain, pool, Unexpired(now));
    if Admissible(c, Flat(chain), kept, tx, now) {
      AdmissionKeeps(c, chain, kept, tx, now);
      LimitKeeps(c, chain, kept + [tx], now);
    }
  }

  lemma {:induction false} RecoveryKeeps(c: Crypto, now: int, chain: seq<Block>, candidates: seq<Tx>)
    requires ValidChain(c, now, chain)
    ensures PoolOk(c, chain, Readmitted(c, Flat(chain), [], candidates, now))
    decreases |candidates|
  {
    if candidates == [] {
      NeverOverdrawn(c, now, chain);
      assert Flat(chain)[..|Flat(chain)|] == Flat(chain);
    } else {
      var n := |candidates| - 1;
      RecoveryKeeps(c, now, chain, candidates[..n]);
      OfferKeeps(c, chain, Readmitted(c, Flat(chain), [], candidates[..n], now), candidates[n], now);
    }
  }

  /** Proof of work was found and no two transactions in play share an identifier. */
  ghost predicate Found(c: Crypto, s: Node, call: Call)
    requires s.chain != []
  {
    call.request.Mine? && IsAddress(call.request.miner) ==>
      var b := MinedBlock(c, s, call.request.miner, call.now, call.request.nonce);
      && MeetsTarget(b.hash, b.difficulty)
      && NoCollision(c, Flat(s.chain) + Keep(s.pool, Unexpired(call.now)) + b.transactions)
  }

  /** If the call mines, the block it appends is one the validator accepts. */
  ghost predicate MinesValidly(c: Crypto, s: Node, call: Call)
    requires s.chain != []
  {
    call.request.Mine? && IsAddress(call.request.miner) ==>
      Mineable(c, s.chain, Select(Flat(s.chain), Keep(s.pool, Unexpired(call.now)), []), call.now,
        MinedBlock(c, s, call.request.miner, call.now, call.request.nonce))
  }

  lemma MineKeeps(c: Crypto, s: Node, miner: string, now: int, nonce: nat)
    requires Sound(c, now, s) && IsAddress(miner) && Found(c, s, Call(Mine(miner, nonce), now))
    ensures PoolOk(c, After(c, s, Call(Mine(miner, nonce), now)).chain, After(c, s, Call(Mine(miner, nonce), now)).pool)
    ensures ValidChain(c, now, After(c, s, Call(Mine(miner, nonce), now)).chain) <==>
      MinesValidly(c, s, Call(Mine(miner, nonce), now))
  {
    var pool := Keep(s.pool, Unexpired(now));
    var selected := Select(Flat(s.chain), pool, []);
    var b := MinedBlock(c, s, miner, now, nonce);
    KeepKeeps(c, s.chain, s.pool, Unexpired(now));
    MinedSound(c, now, s.chain, pool, selected, b, miner, nonce);
    LimitKeeps(c, s.chain + [b], Keep(pool, NotIn(Txids(selected))), now);
  }

  /** A call keeps the node sound exactly when it does not mine a block the validator refuses. */
  lemma CallKeepsSound(c: Crypto, s: Node, call: Call)
    requires Sound(c, call.now, s) && Found(c, s, call)
    ensures Sound(c, call.now, After(c, s, call)) <==> MinesValidly(c, s, call)
  {
    match call.request
    case Offer(tx) => OfferKeeps(c, s.chain, s.pool, tx, call.now);
    case Mine(miner, nonce) => if IsAddress(miner) { MineKeeps(c, s, miner, call.now, nonce); }
    case Replace(newChain) =>
      if After(c, s, call) != s {
        RecoveryKeeps(c, call.now, newChain, s.pool + Keep(Flat(s.chain), Orphaned(Txids(Flat(newChain)))));
      }
  }

  /** The states of the calls, one more than the calls. */
  ghost predicate IsCallRun(c: Crypto, states: seq<Node>, calls: seq<Call>) {
    && |states| == |calls| + 1
    && (forall i :: 0 <= i < |states| ==> states[i].chain != [])
    && forall i :: 0 <= i < |calls| ==> states[i + 1] == After(c, states[i], calls[i])
  }

  ghost predicate GrowingTimes(start: int, calls: seq<Call>) {
    && (calls != [] ==> start <= calls[0].now)
    && forall i :: 0 < i < |calls| ==> calls[i - 1].now <= calls[i].now
  }

  /** The clock after the first `i` calls. */
  function Clock(start: int, calls: seq<Call>, i: nat): int
    requires i <= |calls|
  {
    if i == 0 then start else calls[i - 1].now
  }

  /** Main result: over any calls at growing times the node stays sound as long as no mined block is refused. */
  lemma {:induction false} RunStaysSound(c: Crypto, start: int, states: seq<Node>, calls: seq<Call>, i: nat)
    requires IsCallRun(c, states, calls) && Sound(c, start, states[0]) && GrowingTimes(start, calls) && i <= |calls|
    requires forall j :: 0 <= j < i ==> Found(c, states[j], calls[j]) && MinesValidly(c, states[j], calls[j])
    ensures Sound(c, Clock(start, calls, i), states[i])
  {
    if i > 0 {
      RunStaysSound(c, start, states, calls, i - 1);
      StaysValid(c, Clock(start, calls, i - 1), calls[i - 1].now, states[i - 1].chain);
      CallKeepsSound(c, states[i - 1], calls[i - 1]);
    }
  }

  /** No call lowers the work of the chain. */
  lemma WorkNeverFalls(c: Crypto, s: Node, call: Call)
    requires s.chain != []
    ensures Sum(s.chain, WorkOf()) <= Sum(After(c, s, call).chain, WorkOf())
  {
    if call.request.Mine? && IsAddress(call.request.miner) {
      SumSnoc(s.chain, MinedBlock(c, s, call.request.miner, call.now, call.request.nonce), WorkOf());
    }
  }

  // -------------------------------------------------------------------------
  // Which transactions survive a replacement
  // -------------------------------------------------------------------------

  /** Candidate `i` is admissible when its turn comes. */
  ghost predicate AdmittedAt(c: Crypto, base: seq<Tx>, candidates: seq<Tx>, now: int, i: nat)
    requires i < |candidates|
  {
    Admissible(c, base, Readmitted(c, base, [], candidates[..i], now), candidates[i], now)
  }

  ghost predicate Admitted(c: Crypto, base: seq<Tx>, candidates: seq<Tx>, now: int, tx: Tx) {
    exists i :: 0 <= i < |candidates| && candidates[i] == tx && AdmittedAt(c, base, candidates, now, i)
  }

  lemma {:induction false} KeepAll(pool: seq<Tx>, p: Tx -> bool)
    requires forall tx :: tx in pool ==> p(tx)
    ensures Keep(pool, p) == pool
    decreases |pool|
  {
    if pool != [] { KeepAll(pool[..|pool| - 1], p); }
  }

  /** Below the size limit an admitted transaction joins the pool and nothing leaves. */
  lemma RoomyOffer(c: Crypto, base: seq<Tx>, pool: seq<Tx>, tx: Tx, now: int)
    requires (forall x :: x in pool ==> Unexpired(now)(x)) && |pool| < MAX_MEMPOOL_SIZE
    ensures var after := Offered(c, base, pool, tx, now);
      && (forall x :: x in after <==> x in pool || (x == tx && Admissible(c, base, pool, tx, now)))
      && (forall x :: x in after ==> Unexpired(now)(x)) && |after| <= |pool| + 1
  {
    KeepAll(pool, Unexpired(now));
    if Admissible(c, base, pool, tx, now) {
      var more := pool + [tx];
      KeepAll(more, Unexpired(now));
      BetterOrders();
      SortBySorts(Better, more);
      SameMembers(SortBy(Better, more), more);
    }
  }

  /** Main result: while the pool has room for all, the survivors are exactly those admissible at their turn. */
  lemma {:induction false} SurvivesIff(c: Crypto, base: seq<Tx>, candidates: seq<Tx>, now: int)
    requires |candidates| <= MAX_MEMPOOL_SIZE
    ensures forall tx :: tx in Readmitted(c, base, [], candidates, now) <==> Admitted(c, base, candidates, now, tx)
    ensures forall tx :: tx in Readmitted(c, base, [], candidates, now) ==> Unexpired(now)(tx)
    ensures |Readmitted(c, base, [], candidates, now)| <= |candidates|
    decreases |candidates|
  {
    if candidates != [] {
      var n := |candidates| - 1;
      var pool := Readmitted(c, base, [], candidates[..n], now);
      SurvivesIff(c, base, candidates[..n], now);
      RoomyOffer(c, base, pool, candidates[n], now);
      forall tx ensures tx in Readmitted(c, base, [], candidates, now) <==> Admitted(c, base, candidates, now, tx) {
        AdmittedSplit(c, base, candidates, now, n, tx);
      }
    }
  }

  lemma SameTurn(c: Crypto, base: seq<Tx>, candidates: seq<Tx>, now: int, n: nat, i: nat)
    requires i < n <= |candidates|
    ensures candidates[..n][i] == candidates[i]
    ensures AdmittedAt(c, base, candidates[..n], now, i) == AdmittedAt(c, base, candidates, now, i)
  {
    assert candidates[..n][..i] == candidates[..i];
  }

  lemma AdmittedBefore(c: Crypto, base: seq<Tx>, candidates: seq<Tx>, now: int, n: nat, tx: Tx)
    requires n <= |candidates| && Admitted(c, base, candidates[..n], now, tx)
    ensures Admitted(c, base, candidates, now, tx)
  {
    var i :| 0 <= i < |candidates[..n]| && candidates[..n][i] == tx && AdmittedAt(c, base, candidates[..n], now, i);
    SameTurn(c, base, candidates, now, n, i);
  }

  lemma AdmittedLast(c: Crypto, base: seq<Tx>, candidates: seq<Tx>, now: int, n: nat, tx: Tx) returns (i: nat)
    requires |candidates| == n + 1 && Admitted(c, base, candidates, now, tx)
    ensures i <= n && candidates[i] == tx && AdmittedAt(c, base, candidates, now, i)
    ensures i < n ==> Admitted(c, base, candidates[..n], now, tx)
  {
    i :| 0 <= i < |candidates| && candidates[i] == tx && AdmittedAt(c, base, candidates, now, i);
    if i < n {
      SameTurn(c, base, candidates, now, n, i);
      assert i < |candidates[..n]|;
    }
  }

  lemma AdmittedSplit(c: Crypto, base: seq<Tx>, candidates: seq<Tx>, now: int, n: nat, tx: Tx)
    requires |candidates| == n + 1
    ensures Admitted(c, base, candidates, now, tx) <==>
      Admitted(c, base, candidates[..n], now, tx) || (tx == candidates[n] && AdmittedAt(c, base, candidates, now, n))
  {
    if Admitted(c, base, candidates[..n], now, tx) {
      AdmittedBefore(c, base, candidates, now, n, tx);
    } else if Admitted(c, base, candidates, now, tx) {
      var i := AdmittedLast(c, base, candidates, now, n, tx);
    }
  }

  /** Whatever the room, an offer lets in nothing but an admissible transaction. */
  lemma AnyOffer(c: Crypto, base: seq<Tx>, pool: seq<Tx>, tx: Tx, now: int)
    requires forall x :: x in pool ==> Unexpired(now)(x)
    ensures forall x :: x in Offered(c, base, pool, tx, now) ==>
      (x in pool || (x == tx && Admissible(c, base, pool, tx, now))) && Unexpired(now)(x)
  {
    KeepAll(pool, Unexpired(now));
    LimitedFrom(pool + [tx], now);
  }

  /** However many candidates there are, every survivor was admissible at its turn. */
  lemma {:induction false} SurvivorsWereAdmitted(c: Crypto, base: seq<Tx>, candidates: seq<Tx>, now: int)
    ensures forall tx :: tx in Readmitted(c, base, [], candidates, now) ==>
      Admitted(c, base, candidates, now, tx) && Unexpired(now)(tx)
    decreases |candidates|
  {
    if candidates != [] {
      var n := |candidates| - 1;
      SurvivorsWereAdmitted(c, base, candidates[..n], now);
      AnyOffer(c, base, Readmitted(c, base, [], candidates[..n], now), candidates[n], now);
      forall tx | tx in Readmitted(c, base, [], candidates, now) ensures Admitted(c, base, candidates, now, tx) {
        AdmittedSplit(c, base, candidates, now, n, tx);
      }
    }
  }

  /**
   * The order of recovery matters: the old pool is offered before the orphans, so a pending transaction
   * that follows an orphaned one of its sender is lost, although both would fit the other way round.
   */
  lemma FollowerIsLost(c: Crypto, base: seq<Tx>, orphan: Tx, follower: Tx, now: int)
    requires orphan.sender == follower.sender
    requires Admissible(c, base, [], orphan, now) && Admissible(c, base, [orphan], follower, now)
    ensures follower !in Readmitted(c, base, [], [follower] + [orphan], now)
    ensures follower in Readmitted(c, base, [], [orphan] + [follower], now)
    ensures orphan in Readmitted(c, base, [], [follower] + [orphan], now)
    ensures orphan in Readmitted(c, base, [], [orphan] + [follower], now)
  {
    FollowerNonce(base, orphan, follower);
    var lost, kept := [follower] + [orphan], [orphan] + [follower];
    assert lost[..0] == [] && lost[..1] == [follower] && kept[..0] == [] && kept[..1] == [orphan];
    assert [follower][..0] == [] && [orphan][..0] == [];
    RoomyOffer(c, base, [], follower, now);
    RoomyOffer(c, base, [], orphan, now);
    assert Readmitted(c, base, [], [follower], now) == [];
    OneOffer(c, base, orphan, now);
    RoomyOffer(c, base, [orphan], follower, now);
  }

  lemma OneOffer(c: Crypto, base: seq<Tx>, tx: Tx, now: int)
    requires Admissible(c, base, [], tx, now)
    ensures Readmitted(c, base, [], [tx], now) == [tx]
  {
    assert [tx][..0] == [];
    KeepAll([tx], Unexpired(now));
    assert [] + [tx] == [tx];
    assert SortBy(Better, [tx]) == [tx];
  }

  lemma FollowerNonce(base: seq<Tx>, orphan: Tx, follower: Tx)
    requires orphan.sender == follower.sender && orphan.nonce == MaxNonce(base + [], orphan.sender) + 1
    requires follower.nonce == MaxNonce(base + [orphan], follower.sender) + 1
    ensures follower.nonce != MaxNonce(base + [], follower.sender) + 1
  {
    assert base + [] == base && (base + [orphan])[..|base|] == base;
  }
}
