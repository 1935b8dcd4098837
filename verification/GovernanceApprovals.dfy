/**
 * Who decides: every entry of every governance schedule was approved by more than two thirds
 * of the validators in force when it was recorded, and exactly the transactions approved that
 * way are accepted (l1/src/chain.ts).
 */
module GovernanceApprovals {
  import opened Quorum
  import opened ChainTypes
  import opened Governance
  import opened BlockBuilding
  import opened GovernanceRuns

  // -------------------------------------------------------------------------
  // Exactly which governance transactions are authorized
  // -------------------------------------------------------------------------

  /** The keys that approve. */
  ghost function Approvers(tx: Tx): set<PublicKey> {
    set a | a in tx.approvals :: a.publicKey
  }

  /** A validator sent it, and more than two thirds of the validators approve it, each once and verified. */
  ghost predicate Carried(tx: Tx, validators: seq<Validator>) {
    && (exists v :: v in validators && v.address == tx.sender)
    && (forall a :: a in tx.approvals ==> a.verified && Validator(a.validator, a.publicKey) in validators)
    && |Approvers(tx)| == |tx.approvals|
    && 3 * |Approvers(tx)| > 2 * |validators|
  }

  function Approving(approvals: seq<Approval>): (members: seq<Validator>)
    ensures |members| == |approvals|
    ensures forall i :: 0 <= i < |members| ==> members[i] == Validator(approvals[i].validator, approvals[i].publicKey)
  {
    seq(|approvals|, i requires 0 <= i < |approvals| => Validator(approvals[i].validator, approvals[i].publicKey))
  }

  lemma ApproverCount(tx: Tx, vs: seq<Validator>)
    requires DistinctValidators(vs)
    requires forall a :: a in tx.approvals ==> Validator(a.validator, a.publicKey) in vs
    ensures |Approvers(tx)| <= |tx.approvals|
    ensures |Approvers(tx)| == |tx.approvals| <==>
      forall i, j :: 0 <= i < j < |tx.approvals| ==> tx.approvals[i].validator != tx.approvals[j].validator
  {
    var members := Approving(tx.approvals);
    forall v | v in members ensures v in vs {
      var i :| 0 <= i < |members| && members[i] == v;
      assert tx.approvals[i] in tx.approvals;
    }
    MemberCount(members, vs);
    assert Keys(members) == Approvers(tx) by {
      forall a | a in tx.approvals ensures a.publicKey in Keys(members) {
        var i :| 0 <= i < |members| && tx.approvals[i] == a;
        assert members[i] in members;
      }
    }
    assert forall i :: 0 <= i < |members| ==> members[i].address == tx.approvals[i].validator;
  }

  lemma {:induction false} SenderIsListed(vs: seq<Validator>, a: Address)
    ensures a in MemberMap(vs) <==> exists v :: v in vs && v.address == a
  {
    if vs != [] {
      var n := |vs| - 1;
      SenderIsListed(vs[..n], a);
      assert vs == vs[..n] + [vs[n]];
    }
  }

  lemma ApprovedIff(tx: Tx, vs: seq<Validator>)
    requires DistinctValidators(vs)
    ensures Approved(tx, vs) <==> Carried(tx, vs)
  {
    SenderIsListed(vs, tx.sender);
    forall a | a in tx.approvals
      ensures IsMember(vs, a.validator, a.publicKey) <==> Validator(a.validator, a.publicKey) in vs
    {
      MemberIff(vs, a.validator, a.publicKey);
    }
    if forall a :: a in tx.approvals ==> Validator(a.validator, a.publicKey) in vs {
      ApproverCount(tx, vs);
    }
  }

  /** What every transaction of a block needs: this chain, its own signature, the version of the protocol in force. */
  predicate ForThisBlock(env: Env, tx: Tx) {
    && tx.chainId == env.genesis.chainId && env.signatureOk(tx)
    && tx.version == if env.protocolVersion >= 3 then 2 else 1
  }

  lemma ValidatorUpdateIff(env: Env, cur: Cursors, tx: Tx)
    requires DistinctValidators(env.currentValidators) && tx.kind.ValidatorUpdate?
    ensures TxOk(env, cur, tx) <==>
      var height, validators := tx.kind.activationHeight, tx.kind.validators;
      && ForThisBlock(env, tx) && Carried(tx, env.currentValidators)
      && height >= env.height + 100 && height > cur.lastActivation
      && env.genesis.minimumValidators <= |validators| && 1 <= |validators| <= 100 && DistinctValidators(validators)
      && env.proofsOk(tx, cur.lastValidators)
  {
    ApprovedIff(tx, env.currentValidators);
  }

  lemma ProtocolUpgradeIff(env: Env, cur: Cursors, tx: Tx)
    requires DistinctValidators(env.currentValidators) && tx.kind.ProtocolUpgrade?
    ensures TxOk(env, cur, tx) <==>
      var height, version := tx.kind.activationHeight, tx.kind.protocolVersion;
      && ForThisBlock(env, tx) && Carried(tx, env.currentValidators)
      && height >= env.height + 100 && height > cur.lastProtocolActivation
      && 1 <= version <= 65_535 && (cur.lastProtocolVersion >= 6 ==> version >= cur.lastProtocolVersion)
  {
    ApprovedIff(tx, env.currentValidators);
  }

  lemma OracleGovernanceIff(env: Env, cur: Cursors, tx: Tx)
    requires DistinctValidators(env.currentValidators) && tx.kind.OracleGovernance?
    ensures TxOk(env, cur, tx) <==>
      var height, keys := tx.kind.activationHeight, tx.kind.publicKeys;
      && ForThisBlock(env, tx) && Carried(tx, env.currentValidators)
      && height >= env.height + 100 && height > cur.lastOracle
      && (tx.kind.action.Pause? ==> !cur.paused && keys == [])
      && (tx.kind.action.Resume? ==> cur.paused && keys == [])
      && (tx.kind.action.Revoke? ==>
            1 <= |keys| <= 100 && |set k | k in keys| == |keys| && forall k :: k in keys ==>
              k in env.genesis.oracles - cur.revoked)
  {
    ApprovedIff(tx, env.currentValidators);
    KeyList(tx.kind.publicKeys);
  }

  lemma {:induction false} KeyList(keys: seq<PublicKey>)
    ensures |set k | k in keys| <= |keys|
    ensures |set k | k in keys| == |keys| <==> forall i, j :: 0 <= i < j < |keys| ==> keys[i] != keys[j]
    decreases |keys|
  {
    if keys != [] {
      var n := |keys| - 1;
      KeyList(keys[..n]);
      assert keys == keys[..n] + [keys[n]];
      assert (set k | k in keys) == (set k | k in keys[..n]) + {keys[n]};
    }
  }

  lemma OtherKindsIff(env: Env, cur: Cursors, tx: Tx)
    requires tx.kind.Transfer? || tx.kind.ActivitySettlement?
    ensures TxOk(env, cur, tx) <==> ForThisBlock(env, tx) && (tx.kind.ActivitySettlement? ==> env.settlementOk(tx))
  {
  }

  // -------------------------------------------------------------------------
  // Exactly which lists validate
  // -------------------------------------------------------------------------

  function CursorsAfter(cur: Cursors, txs: seq<Tx>): Cursors {
    if txs == [] then cur else AdvanceCursors(CursorsAfter(cur, txs[..|txs| - 1]), txs[|txs| - 1])
  }

  function LedgerAfter<S>(apply: Applier<S>, st: S, txs: seq<Tx>): Option<S> {
    if txs == [] then Some(st)
    else match LedgerAfter(apply, st, txs[..|txs| - 1])
      case None => None
      case Some(before) => apply(before, txs[|txs| - 1])
  }

  ghost predicate DistinctIds(txs: seq<Tx>) {
    forall i, j :: 0 <= i < j < |txs| ==> txs[i].txid != txs[j].txid
  }

  /** A list validates exactly when identifiers are distinct, each transaction is authorized and the ledger agrees. */
  lemma {:induction false} ValidatesIff<S>(env: Env, apply: Applier<S>, st: S, cur: Cursors, txs: seq<Tx>)
    ensures ValidateTxs(env, apply, st, cur, {}, txs).Some? <==>
      && DistinctIds(txs) && LedgerAfter(apply, st, txs).Some?
      && forall i :: 0 <= i < |txs| ==> TxOk(env, CursorsAfter(cur, txs[..i]), txs[i])
    ensures ValidateTxs(env, apply, st, cur, {}, txs).Some? ==>
      ValidateTxs(env, apply, st, cur, {}, txs).value == (LedgerAfter(apply, st, txs).value, CursorsAfter(cur, txs))
    decreases |txs|
  {
    if txs != [] {
      var n := |txs| - 1;
      var init, last := txs[..n], txs[n];
      ValidatesIff(env, apply, st, cur, init);
      assert txs == init + [last];
      ValidateSnoc(env, apply, st, cur, {}, init, last);
      assert {} + Txids(init) == Txids(init);
      DistinctIdsMore(init, last);
      AuthorizedMore(env, cur, init, last);
      if ValidateTxs(env, apply, st, cur, {}, init).Some? {
        OneValid(env, apply, LedgerAfter(apply, st, init).value, CursorsAfter(cur, init), Txids(init), last);
      }
    }
  }

  lemma DistinctIdsMore(init: seq<Tx>, last: Tx)
    ensures DistinctIds(init + [last]) <==> DistinctIds(init) && last.txid !in Txids(init)
  {
    var txs := init + [last];
    if DistinctIds(txs) {
      forall i, j | 0 <= i < j < |init| ensures init[i].txid != init[j].txid { assert txs[i].txid != txs[j].txid; }
      forall tx | tx in init ensures tx.txid != last.txid {
        var i :| 0 <= i < |init| && init[i] == tx;
        assert txs[i].txid != txs[|init|].txid;
      }
    }
    if DistinctIds(init) && last.txid !in Txids(init) {
      forall i, j | 0 <= i < j < |txs| ensures txs[i].txid != txs[j].txid {
        assert init[i] in init;
      }
    }
  }

  /** The next block is taken exactly when its version is supported and its list validates as above. */
  lemma AcceptIff<S>(g: Genesis, cs: ChainState<S>, b: BlockInput<S>)
    ensures Accept(g, cs, b).Some? <==>
      && ProtocolVersionAt(cs.schedules, cs.height + 1) in {1, 2, 3, 5, 6}
      && DistinctIds(b.txs) && LedgerAfter(b.apply, cs.ledger, b.txs).Some?
      && var env, cursors := EnvAt(g, cs.schedules, cs.height + 1, b), InitialCursors(cs.schedules);
         forall i :: 0 <= i < |b.txs| ==> TxOk(env, CursorsAfter(cursors, b.txs[..i]), b.txs[i])
    ensures Accept(g, cs, b).Some? ==>
      Accept(g, cs, b).value ==
        ChainState(cs.height + 1, Record(cs.schedules, b.txs), LedgerAfter(b.apply, cs.ledger, b.txs).value)
  {
    ValidatesIff(EnvAt(g, cs.schedules, cs.height + 1, b), b.apply, cs.ledger, InitialCursors(cs.schedules), b.txs);
  }

  lemma AuthorizedMore(env: Env, cur: Cursors, init: seq<Tx>, last: Tx)
    ensures var txs := init + [last];
      (forall i :: 0 <= i < |txs| ==> TxOk(env, CursorsAfter(cur, txs[..i]), txs[i])) <==>
        && (forall i :: 0 <= i < |init| ==> TxOk(env, CursorsAfter(cur, init[..i]), init[i]))
        && TxOk(env, CursorsAfter(cur, init), last)
  {
    var txs := init + [last];
    assert forall i :: 0 <= i <= |init| ==> txs[..i] == init[..i];
    assert init[..|init|] == init && txs[|init|] == last;
    assert forall i :: 0 <= i < |init| ==> txs[i] == init[i];
  }

  // -------------------------------------------------------------------------
  // Every schedule entry was carried
  // -------------------------------------------------------------------------

  type Judge<!V> = (Option<V>, Entry<V>) -> bool

  /** The value an entry of a schedule replaces. */
  function Before<V>(entries: seq<Entry<V>>, k: nat): Option<V>
    requires k < |entries|
  {
    if k == 0 then None else Some(entries[k - 1].value)
  }

  /** `t` is `s` and then entries that all pass. */
  ghost predicate NewPass<V>(s: seq<Entry<V>>, t: seq<Entry<V>>, ok: Judge<V>) {
    s <= t && forall k :: |s| <= k < |t| ==> Passes(t, k, ok)
  }

  ghost predicate Passes<V>(t: seq<Entry<V>>, k: nat, ok: Judge<V>)
    requires k < |t|
  {
    ok(Before(t, k), t[k])
  }

  lemma PassOne<V>(s: seq<Entry<V>>, e: Entry<V>, ok: Judge<V>)
    requires ok(if s == [] then None else Some(s[|s| - 1].value), e)
    ensures NewPass(s, s + [e], ok)
  {
  }

  lemma PassBoth<V>(s: seq<Entry<V>>, t: seq<Entry<V>>, u: seq<Entry<V>>, ok: Judge<V>, ok': Judge<V>, all: Judge<V>)
    requires NewPass(s, t, ok) && NewPass(t, u, ok')
    requires forall p, e :: ok(p, e) || ok'(p, e) ==> all(p, e)
    ensures NewPass(s, u, all)
  {
    forall k | |s| <= k < |u| ensures Passes(u, k, all) {
      if k < |t| {
        assert Passes(t, k, ok);
        assert Before(u, k) == Before(t, k) && u[k] == t[k];
      } else {
        assert Passes(u, k, ok');
      }
    }
  }

  /** The transaction that writes an entry of the validator schedule in place of `prev`. */
  ghost predicate WritesValidators(env: Env, tx: Tx, prev: Option<seq<Validator>>, e: Entry<seq<Validator>>) {
    tx.kind == ValidatorUpdate(e.height, e.value) && prev.Some? && env.proofsOk(tx, prev.value)
  }

  ghost predicate WritesProtocol(tx: Tx, prev: Option<nat>, e: Entry<nat>) {
    tx.kind == ProtocolUpgrade(e.height, e.value) && prev.Some? && (prev.value >= 6 ==> e.value >= prev.value)
  }

  ghost predicate WritesOracle(tx: Tx, e: Entry<OracleEntry>) {
    tx.kind == OracleGovernance(e.height, e.value.action, e.value.publicKeys)
  }

  /** For this block, carried by the validators in force, and at least 100 blocks ahead. */
  ghost predicate Decided(env: Env, tx: Tx, height: nat) {
    Carried(tx, env.currentValidators) && ForThisBlock(env, tx) && height >= env.height + 100
  }

  /** A block as it was checked: what it was checked against, and its transactions. */
  datatype Checked = Checked(env: Env, txs: seq<Tx>)

  /** `tx`, of some block of the history, was decided there for `height`. */
  ghost predicate DecidedIn(history: seq<Checked>, i: int, tx: Tx, height: nat) {
    0 <= i < |history| && tx in history[i].txs && Decided(history[i].env, tx, height)
  }

  ghost function ValidatorJudge(history: seq<Checked>): Judge<seq<Validator>> {
    (prev, e: Entry<seq<Validator>>) =>
      exists i, tx :: DecidedIn(history, i, tx, e.height) && WritesValidators(history[i].env, tx, prev, e)
  }

  ghost function ProtocolJudge(history: seq<Checked>): Judge<nat> {
    (prev, e: Entry<nat>) => exists i, tx :: DecidedIn(history, i, tx, e.height) && WritesProtocol(tx, prev, e)
  }

  ghost function OracleJudge(history: seq<Checked>): Judge<OracleEntry> {
    (prev, e: Entry<OracleEntry>) => exists i, tx :: DecidedIn(history, i, tx, e.height) && WritesOracle(tx, e)
  }

  /** Every entry that `t` has and `s` lacks was decided in the history. */
  ghost predicate NewCarried(history: seq<Checked>, s: Schedules, t: Schedules) {
    && NewPass(s.validators, t.validators, ValidatorJudge(history))
    && NewPass(s.protocol, t.protocol, ProtocolJudge(history))
    && NewPass(s.oracle, t.oracle, OracleJudge(history))
  }

  /** What was decided in one history was decided in one that holds it. */
  ghost predicate Within(a: seq<Checked>, all: seq<Checked>) {
    forall i, tx, h :: DecidedIn(a, i, tx, h) ==> exists j :: DecidedIn(all, j, tx, h) && all[j].env == a[i].env
  }

  lemma ValidatorsWithin(a: seq<Checked>, all: seq<Checked>)
    requires Within(a, all)
    ensures forall prev, e :: ValidatorJudge(a)(prev, e) ==> ValidatorJudge(all)(prev, e)
  {
    forall prev, e | ValidatorJudge(a)(prev, e) ensures ValidatorJudge(all)(prev, e) {
      var i, tx :| DecidedIn(a, i, tx, e.height) && WritesValidators(a[i].env, tx, prev, e);
      var j :| DecidedIn(all, j, tx, e.height) && all[j].env == a[i].env;
    }
  }

  lemma OthersWithin(a: seq<Checked>, all: seq<Checked>)
    requires Within(a, all)
    ensures forall prev, e :: ProtocolJudge(a)(prev, e) ==> ProtocolJudge(all)(prev, e)
    ensures forall prev, e :: OracleJudge(a)(prev, e) ==> OracleJudge(all)(prev, e)
  {
    forall prev, e | ProtocolJudge(a)(prev, e) ensures ProtocolJudge(all)(prev, e) {
      var i, tx :| DecidedIn(a, i, tx, e.height) && WritesProtocol(tx, prev, e);
    }
    forall prev, e | OracleJudge(a)(prev, e) ensures OracleJudge(all)(prev, e) {
      var i, tx :| DecidedIn(a, i, tx, e.height) && WritesOracle(tx, e);
    }
  }

  lemma BothCarried(a: seq<Checked>, b: seq<Checked>, all: seq<Checked>, s: Schedules, t: Schedules, u: Schedules)
    requires NewCarried(a, s, t) && NewCarried(b, t, u) && Within(a, all) && Within(b, all)
    ensures NewCarried(all, s, u)
  {
    ValidatorsWithin(a, all);
    ValidatorsWithin(b, all);
    OthersWithin(a, all);
    OthersWithin(b, all);
    PassBoth(s.validators, t.validators, u.validators, ValidatorJudge(a), ValidatorJudge(b), ValidatorJudge(all));
    PassBoth(s.protocol, t.protocol, u.protocol, ProtocolJudge(a), ProtocolJudge(b), ProtocolJudge(all));
    PassBoth(s.oracle, t.oracle, u.oracle, OracleJudge(a), OracleJudge(b), OracleJudge(all));
  }

  lemma UpdateCarried(env: Env, cur: Cursors, s: Schedules, tx: Tx)
    requires GoodSchedules(env.genesis, s) && Describes(cur, s) && TxOk(env, cur, tx) && tx.kind.ValidatorUpdate?
    requires DistinctValidators(env.currentValidators)
    ensures NewCarried([Checked(env, [tx])], s, RecordTx(s, tx))
  {
    var e := Entry(tx.kind.activationHeight, tx.kind.validators);
    ValidatorUpdateIff(env, cur, tx);
    ValidatorEntryKeeps(env.genesis, s.validators, e.height, e.value);
    assert DecidedIn([Checked(env, [tx])], 0, tx, e.height) && WritesValidators(env, tx, Some(cur.lastValidators), e);
    PassOne(s.validators, e, ValidatorJudge([Checked(env, [tx])]));
  }

  lemma UpgradeCarried(env: Env, cur: Cursors, s: Schedules, tx: Tx)
    requires GoodSchedules(env.genesis, s) && Describes(cur, s) && TxOk(env, cur, tx) && tx.kind.ProtocolUpgrade?
    requires DistinctValidators(env.currentValidators)
    ensures NewCarried([Checked(env, [tx])], s, RecordTx(s, tx))
  {
    var e := Entry(tx.kind.activationHeight, tx.kind.protocolVersion);
    ProtocolUpgradeIff(env, cur, tx);
    ProtocolEntryKeeps(s.protocol, e.height, e.value);
    assert DecidedIn([Checked(env, [tx])], 0, tx, e.height) && WritesProtocol(tx, Some(cur.lastProtocolVersion), e);
    PassOne(s.protocol, e, ProtocolJudge([Checked(env, [tx])]));
  }

  lemma OracleCarried(env: Env, cur: Cursors, s: Schedules, tx: Tx)
    requires GoodSchedules(env.genesis, s) && Describes(cur, s) && TxOk(env, cur, tx) && tx.kind.OracleGovernance?
    requires DistinctValidators(env.currentValidators)
    ensures NewCarried([Checked(env, [tx])], s, RecordTx(s, tx))
  {
    var e := Entry(tx.kind.activationHeight, OracleEntry(tx.kind.action, tx.kind.publicKeys));
    OracleGovernanceIff(env, cur, tx);
    OracleEntryKeeps(env.genesis, s.oracle, e.height, e.value);
    assert DecidedIn([Checked(env, [tx])], 0, tx, e.height) && WritesOracle(tx, e);
    PassOne(s.oracle, e, OracleJudge([Checked(env, [tx])]));
  }

  lemma OneCarried(env: Env, cur: Cursors, s: Schedules, tx: Tx)
    requires GoodSchedules(env.genesis, s) && Describes(cur, s) && TxOk(env, cur, tx)
    requires DistinctValidators(env.currentValidators)
    ensures NewCarried([Checked(env, [tx])], s, RecordTx(s, tx))
  {
    match tx.kind
    case ValidatorUpdate(_, _) => UpdateCarried(env, cur, s, tx);
    case ProtocolUpgrade(_, _) => UpgradeCarried(env, cur, s, tx);
    case OracleGovernance(_, _, _) => OracleCarried(env, cur, s, tx);
    case _ =>
  }

  lemma {:induction false} TxsCarried<S>(
    env: Env, apply: Applier<S>, st: S, cur: Cursors, seen: set<string>, s: Schedules, txs: seq<Tx>)
    requires GoodSchedules(env.genesis, s) && Describes(cur, s) && ValidateTxs(env, apply, st, cur, seen, txs).Some?
    requires DistinctValidators(env.currentValidators)
    ensures NewCarried([Checked(env, txs)], s, Record(s, txs))
    decreases |txs|
  {
    if txs != [] {
      var tx, rest := txs[0], txs[1..];
      OneCarried(env, cur, s, tx);
      RecordTxKeeps(env, cur, s, tx);
      var t := RecordTx(s, tx);
      TxsCarried(env, apply, apply(st, tx).value, AdvanceCursors(cur, tx), seen + {tx.txid}, t, rest);
      SameBlock(env, [tx], txs);
      SameBlock(env, rest, txs);
      BothCarried([Checked(env, [tx])], [Checked(env, rest)], [Checked(env, txs)], s, t, Record(s, txs));
    }
  }

  lemma SameBlock(env: Env, some: seq<Tx>, txs: seq<Tx>)
    requires forall tx :: tx in some ==> tx in txs
    ensures Within([Checked(env, some)], [Checked(env, txs)])
  {
    forall i, tx, h | DecidedIn([Checked(env, some)], i, tx, h)
      ensures DecidedIn([Checked(env, txs)], i, tx, h)
    {
    }
  }

  // ---- Over runs ---------------------------------------------------------------

  /** The blocks of a run, each as it was checked. */
  ghost function History<S>(g: Genesis, cs: ChainState<S>, blocks: seq<BlockInput<S>>): (history: seq<Checked>)
    requires AcceptAll(g, cs, blocks).Some?
    ensures |history| == |blocks|
    decreases |blocks|
  {
    if blocks == [] then []
    else [Checked(EnvAt(g, cs.schedules, cs.height + 1, blocks[0]), blocks[0].txs)]
         + History(g, Accept(g, cs, blocks[0]).value, blocks[1..])
  }

  /** The chain before block `i`. */
  function StateBefore<S>(g: Genesis, cs: ChainState<S>, blocks: seq<BlockInput<S>>, i: nat): ChainState<S>
    requires AcceptAll(g, cs, blocks).Some? && i <= |blocks|
    decreases i
  {
    if i == 0 then cs else StateBefore(g, Accept(g, cs, blocks[0]).value, blocks[1..], i - 1)
  }

  lemma {:induction false} StateBeforeIs<S>(g: Genesis, cs: ChainState<S>, blocks: seq<BlockInput<S>>, i: nat)
    requires AcceptAll(g, cs, blocks).Some? && i <= |blocks|
    ensures AcceptAll(g, cs, blocks[..i]) == Some(StateBefore(g, cs, blocks, i))
    decreases i
  {
    if i > 0 {
      StateBeforeIs(g, Accept(g, cs, blocks[0]).value, blocks[1..], i - 1);
      assert blocks[..i][1..] == blocks[1..][..i - 1];
    }
  }

  lemma {:induction false} CheckedBefore<S>(g: Genesis, cs: ChainState<S>, blocks: seq<BlockInput<S>>, i: nat)
    requires AcceptAll(g, cs, blocks).Some? && i < |blocks|
    ensures var before := StateBefore(g, cs, blocks, i);
      && before.height == cs.height + i
      && History(g, cs, blocks)[i] == Checked(EnvAt(g, before.schedules, before.height + 1, blocks[i]), blocks[i].txs)
    decreases i
  {
    if i > 0 {
      var next := Accept(g, cs, blocks[0]).value;
      CheckedBefore(g, next, blocks[1..], i - 1);
      LaterInHistory(g, cs, blocks, i, next);
    }
  }

  lemma LaterInHistory<S>(
    g: Genesis, cs: ChainState<S>, blocks: seq<BlockInput<S>>, i: nat, next: ChainState<S>)
    requires AcceptAll(g, cs, blocks).Some? && 0 < i < |blocks| && Accept(g, cs, blocks[0]) == Some(next)
    ensures History(g, cs, blocks)[i] == History(g, next, blocks[1..])[i - 1]
  {
  }

  /** Block `i` was checked, at its height, against the validators then in force. */
  lemma HistoryIs<S>(g: Genesis, cs: ChainState<S>, blocks: seq<BlockInput<S>>, i: nat)
    requires AcceptAll(g, cs, blocks).Some? && i < |blocks|
    ensures AcceptAll(g, cs, blocks[..i]).Some?
    ensures var before, checked := AcceptAll(g, cs, blocks[..i]).value, History(g, cs, blocks)[i];
      && checked.txs == blocks[i].txs && checked.env.height == cs.height + i + 1
      && checked.env.currentValidators == ValidatorsAt(g, before.schedules, cs.height + i + 1)
  {
    StateBeforeIs(g, cs, blocks, i);
    CheckedBefore(g, cs, blocks, i);
  }

  lemma InForceDistinct(g: Genesis, s: Schedules, h: nat)
    requires GoodSchedules(g, s)
    ensures DistinctValidators(ValidatorsAt(g, s, h))
  {
    var i := InForceIndex(s.validators, h);
  }

  lemma BlockCarried<S>(g: Genesis, cs: ChainState<S>, b: BlockInput<S>)
    requires GoodSchedules(g, cs.schedules) && Accept(g, cs, b).Some?
    ensures var env := EnvAt(g, cs.schedules, cs.height + 1, b);
            NewCarried([Checked(env, b.txs)], cs.schedules, Accept(g, cs, b).value.schedules)
  {
    var env := EnvAt(g, cs.schedules, cs.height + 1, b);
    InForceDistinct(g, cs.schedules, cs.height + 1);
    InitialCursorsDescribe(g, cs.schedules);
    TxsCarried(env, b.apply, cs.ledger, InitialCursors(cs.schedules), {}, cs.schedules, b.txs);
  }

  lemma WithinConcat(a: seq<Checked>, b: seq<Checked>)
    ensures Within(a, a + b) && Within(b, a + b)
  {
    forall i, tx, h | DecidedIn(a, i, tx, h) ensures DecidedIn(a + b, i, tx, h) && (a + b)[i] == a[i] {
    }
    forall i, tx, h | DecidedIn(b, i, tx, h)
      ensures DecidedIn(a + b, |a| + i, tx, h) && (a + b)[|a| + i] == b[i]
    {
    }
  }

  /**
   * Main result: over every run of accepted blocks, every entry the three schedules gain was written by a
   * transaction of one of the blocks, sent by a validator in force at that block's height and approved,
   * verifiably and one by one, by more than two thirds of those validators, at least 100 blocks ahead. A
   * validator entry moreover carried possession proofs against the set it replaces.
   */
  lemma {:induction false} EveryEntryCarried<S>(g: Genesis, cs: ChainState<S>, blocks: seq<BlockInput<S>>)
    requires GoodSchedules(g, cs.schedules) && AcceptAll(g, cs, blocks).Some?
    ensures NewCarried(History(g, cs, blocks), cs.schedules, AcceptAll(g, cs, blocks).value.schedules)
    decreases |blocks|
  {
    if blocks != [] {
      var b, rest := blocks[0], blocks[1..];
      var mid := Accept(g, cs, b).value;
      BlockCarried(g, cs, b);
      AcceptKeeps(g, cs, b);
      EveryEntryCarried(g, mid, rest);
      var first := [Checked(EnvAt(g, cs.schedules, cs.height + 1, b), b.txs)];
      WithinConcat(first, History(g, mid, rest));
      BothCarried(first, History(g, mid, rest), History(g, cs, blocks), cs.schedules, mid.schedules,
                  AcceptAll(g, cs, blocks).value.schedules);
    }
  }

  /** With fewer than a third faulty, an honest validator approved it. */
  lemma HonestApproval(tx: Tx, validators: seq<Validator>, honest: set<PublicKey>) returns (a: Approval)
    requires Carried(tx, validators) && DistinctValidators(validators) && 3 * |Keys(validators) - honest| < |validators|
    ensures a in tx.approvals && a.verified && a.publicKey in honest
    ensures Validator(a.validator, a.publicKey) in validators
  {
    var faulty := Keys(validators) - honest;
    assert Approvers(tx) <= Keys(validators);
    if Approvers(tx) <= faulty { SubsetCardinality(Approvers(tx), faulty); }
    var key :| key in Approvers(tx) && key !in faulty;
    a :| a in tx.approvals && a.publicKey == key;
  }

  lemma {:induction false} InForceInRun<S>(g: Genesis, cs: ChainState<S>, blocks: seq<BlockInput<S>>, i: nat)
    requires GoodSchedules(g, cs.schedules) && AcceptAll(g, cs, blocks).Some? && i < |blocks|
    ensures DistinctValidators(History(g, cs, blocks)[i].env.currentValidators)
    decreases i
  {
    if i == 0 {
      InForceDistinct(g, cs.schedules, cs.height + 1);
    } else {
      var next := Accept(g, cs, blocks[0]).value;
      AcceptKeeps(g, cs, blocks[0]);
      InForceInRun(g, next, blocks[1..], i - 1);
      LaterInHistory(g, cs, blocks, i, next);
    }
  }

  /** In a run where fewer than a third of the set in force is faulty, an honest member of it approved each decision. */
  lemma HonestBehindEveryDecision<S>(
    g: Genesis, cs: ChainState<S>, blocks: seq<BlockInput<S>>, honest: set<PublicKey>, i: nat, tx: Tx, height: nat)
    returns (a: Approval)
    requires GoodSchedules(g, cs.schedules) && AcceptAll(g, cs, blocks).Some?
    requires DecidedIn(History(g, cs, blocks), i, tx, height)
    requires var inForce := History(g, cs, blocks)[i].env.currentValidators;
      3 * |Keys(inForce) - honest| < |inForce|
    ensures a in tx.approvals && a.verified && a.publicKey in honest
    ensures Validator(a.validator, a.publicKey) in History(g, cs, blocks)[i].env.currentValidators
  {
    InForceInRun(g, cs, blocks, i);
    a := HonestApproval(tx, History(g, cs, blocks)[i].env.currentValidators, honest);
  }
}
