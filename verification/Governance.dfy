/** Governance rules inside one block and the schedules they write (l1/src/chain.ts). */
module Governance {
  import opened Constants
  import opened Quorum
  import opened ChainTypes

  const MIN_UPDATE_DELAY: nat := 100
  const MAX_REVOKED_KEYS: nat := 100

  datatype Entry<V> = Entry(height: nat, value: V)

  datatype OracleEntry = OracleEntry(action: OracleAction, publicKeys: seq<PublicKey>)

  /** The three schedules, in the order their entries were set. */
  datatype Schedules = Schedules(
    validators: seq<Entry<seq<Validator>>>, protocol: seq<Entry<nat>>, oracle: seq<Entry<OracleEntry>>)

  datatype Genesis = Genesis(chainId: string, validators: seq<Validator>, minimumValidators: nat,
                             oracles: set<PublicKey>)

  /**
   * What one block is checked against. `proofsOk`: the possession proofs of an update
   * that replaces the given set; `settlementOk`: oracle authorization and epoch window;
   * `signatureOk`: the rest of the transaction shape, txid and signature.
   */
  datatype Env = Env(
    genesis: Genesis, height: nat, currentValidators: seq<Validator>, protocolVersion: nat,
    proofsOk: (Tx, seq<Validator>) -> bool, settlementOk: Tx -> bool, signatureOk: Tx -> bool)

  /** The working cursors of selection and validation. */
  datatype Cursors = Cursors(
    lastActivation: nat, lastValidators: seq<Validator>,
    lastProtocolActivation: nat, lastProtocolVersion: nat,
    lastOracle: nat, revoked: set<PublicKey>, paused: bool)

  // -------------------------------------------------------------------------
  // Authorization of one transaction
  // -------------------------------------------------------------------------

  /** An active initiator and a quorum of verified approvals by distinct current validators. */
  predicate Approved(tx: Tx, current: seq<Validator>) {
    && tx.sender in MemberMap(current)
    && (forall i, j :: 0 <= i < j < |tx.approvals| ==> tx.approvals[i].validator != tx.approvals[j].validator)
    && (forall a :: a in tx.approvals ==> IsMember(current, a.validator, a.publicKey) && a.verified)
    && |tx.approvals| >= QuorumSize(|current|)
  }

  predicate RevokeKeysOk(keys: seq<PublicKey>, registered: set<PublicKey>, revoked: set<PublicKey>) {
    && 0 < |keys| <= MAX_REVOKED_KEYS
    && (forall i, j :: 0 <= i < j < |keys| ==> keys[i] != keys[j])
    && (forall k :: k in keys ==> k in registered && k !in revoked)
  }

  predicate OracleActionOk(action: OracleAction, keys: seq<PublicKey>, registered: set<PublicKey>,
                           revoked: set<PublicKey>, paused: bool)
  {
    match action
    case Pause => !paused && keys == []
    case Resume => paused && keys == []
    case Revoke => RevokeKeysOk(keys, registered, revoked)
  }

  predicate IsDowngrade(scheduled: nat, next: nat) {
    scheduled >= CONSENSUS_V6 && next < scheduled
  }

  predicate GovernanceOk(env: Env, cur: Cursors, tx: Tx) {
    match tx.kind
    case Transfer => true
    case ActivitySettlement(_) => env.settlementOk(tx)
    case ValidatorUpdate(activation, validators) =>
      && env.genesis.minimumValidators <= |validators| <= 100
      && activation >= env.height + MIN_UPDATE_DELAY && activation > cur.lastActivation
      && Approved(tx, env.currentValidators) && env.proofsOk(tx, cur.lastValidators)
    case OracleGovernance(activation, action, keys) =>
      && activation >= env.height + MIN_UPDATE_DELAY && activation > cur.lastOracle
      && OracleActionOk(action, keys, env.genesis.oracles, cur.revoked, cur.paused)
      && Approved(tx, env.currentValidators)
    case ProtocolUpgrade(activation, version) =>
      && activation >= env.height + MIN_UPDATE_DELAY && activation > cur.lastProtocolActivation
      && !IsDowngrade(cur.lastProtocolVersion, version)
      && Approved(tx, env.currentValidators)
  }

  /** The part of the transaction shape that governance relies on. */
  predicate ShapeOk(env: Env, tx: Tx) {
    && env.signatureOk(tx) && (tx.version == 1 || tx.version == 2)
    && match tx.kind {
         case ValidatorUpdate(activation, validators) =>
           activation >= 1 && 0 < |validators| <= 100 && DistinctValidators(validators)
         case ProtocolUpgrade(activation, version) => activation >= 1 && 1 <= version <= 65_535
         case OracleGovernance(activation, _, keys) => activation >= 1 && |keys| <= MAX_REVOKED_KEYS
         case _ => true
       }
  }

  predicate TxOk(env: Env, cur: Cursors, tx: Tx) {
    && tx.chainId == env.genesis.chainId && ShapeOk(env, tx)
    && tx.version == (if env.protocolVersion >= 3 then 2 else 1)
    && GovernanceOk(env, cur, tx)
  }

  function AdvanceCursors(cur: Cursors, tx: Tx): Cursors {
    match tx.kind
    case ValidatorUpdate(activation, validators) => cur.(lastActivation := activation, lastValidators := validators)
    case OracleGovernance(activation, action, keys) =>
      cur.(lastOracle := activation,
           paused := if action.Pause? then true else if action.Resume? then false else cur.paused,
           revoked := if action.Revoke? then cur.revoked + (set k | k in keys) else cur.revoked)
    case ProtocolUpgrade(activation, version) =>
      cur.(lastProtocolActivation := activation, lastProtocolVersion := version)
    case _ => cur
  }

  // -------------------------------------------------------------------------
  // Schedules
  // -------------------------------------------------------------------------

  /** `Map.set`: a known height keeps its place, a new one goes to the end. */
  function SetEntry<V>(entries: seq<Entry<V>>, height: nat, value: V): seq<Entry<V>> {
    if entries == [] then [Entry(height, value)]
    else if entries[0].height == height then [Entry(height, value)] + entries[1..]
    else [entries[0]] + SetEntry(entries[1..], height, value)
  }

  function MaxHeight<V>(entries: seq<Entry<V>>): nat {
    if entries == [] then 0
    else var m := MaxHeight(entries[1..]); if entries[0].height > m then entries[0].height else m
  }

  ghost predicate Increasing<V>(entries: seq<Entry<V>>) {
    forall i, j :: 0 <= i < j < |entries| ==> entries[i].height < entries[j].height
  }

  /** The entry with the greatest height up to h, in a schedule in increasing order. */
  function InForce<V>(entries: seq<Entry<V>>, h: nat): Option<V> {
    if entries == [] then None
    else if entries[|entries| - 1].height <= h then Some(entries[|entries| - 1].value)
    else InForce(entries[..|entries| - 1], h)
  }

  /** Entry of the greatest height (the last scheduled one). */
  function ValueAtMax<V>(entries: seq<Entry<V>>, default: V): V {
    if entries == [] then default else entries[|entries| - 1].value
  }

  function Paused(oracle: seq<Entry<OracleEntry>>): bool {
    if oracle == [] then false
    else match oracle[|oracle| - 1].value.action
      case Pause => true
      case Resume => false
      case Revoke => Paused(oracle[..|oracle| - 1])
  }

  function Revoked(oracle: seq<Entry<OracleEntry>>): set<PublicKey> {
    if oracle == [] then {}
    else
      var last := oracle[|oracle| - 1].value;
      Revoked(oracle[..|oracle| - 1]) + (if last.action.Revoke? then set k | k in last.publicKeys else {})
  }

  /** The entries in force at h: those up to h of a schedule in increasing order. */
  function UpTo<V>(entries: seq<Entry<V>>, h: nat): seq<Entry<V>> {
    if entries == [] || entries[|entries| - 1].height <= h then entries else UpTo(entries[..|entries| - 1], h)
  }

  datatype OracleControl = OracleControl(paused: bool, revoked: set<PublicKey>)

  function OracleControlAt(oracle: seq<Entry<OracleEntry>>, h: nat): OracleControl {
    OracleControl(Paused(UpTo(oracle, h)), Revoked(UpTo(oracle, h)))
  }

  function RecordTx(s: Schedules, tx: Tx): Schedules {
    match tx.kind
    case ValidatorUpdate(activation, validators) => s.(validators := SetEntry(s.validators, activation, validators))
    case OracleGovernance(activation, action, keys) =>
      s.(oracle := SetEntry(s.oracle, activation, OracleEntry(action, keys)))
    case ProtocolUpgrade(activation, version) => s.(protocol := SetEntry(s.protocol, activation, version))
    case _ => s
  }

  function Record(s: Schedules, txs: seq<Tx>): Schedules
    decreases |txs|
  {
    if txs == [] then s else Record(RecordTx(s, txs[0]), txs[1..])
  }

  function InitialCursors(s: Schedules): Cursors {
    Cursors(MaxHeight(s.validators), ValueAtMax(s.validators, []),
            MaxHeight(s.protocol), ValueAtMax(s.protocol, 1),
            MaxHeight(s.oracle), Revoked(s.oracle), Paused(s.oracle))
  }

  // -------------------------------------------------------------------------
  // What recording keeps
  // -------------------------------------------------------------------------

  lemma {:induction false} MaxOfIncreasing<V>(entries: seq<Entry<V>>)
    requires Increasing(entries)
    ensures entries != [] ==> MaxHeight(entries) == entries[|entries| - 1].height
  {
    if |entries| > 1 { MaxOfIncreasing(entries[1..]); }
  }

  lemma {:induction false} SetAppends<V>(entries: seq<Entry<V>>, height: nat, value: V)
    requires Increasing(entries) && (entries != [] ==> entries[|entries| - 1].height < height)
    ensures SetEntry(entries, height, value) == entries + [Entry(height, value)]
    ensures Increasing(entries + [Entry(height, value)])
  {
    if entries != [] {
      SetAppends(entries[1..], height, value);
      assert entries == [entries[0]] + entries[1..];
      if |entries| > 1 { assert entries[0].height < entries[|entries| - 1].height; }
      assert SetEntry(entries, height, value) == [entries[0]] + (entries[1..] + [Entry(height, value)]);
    }
  }

  ghost predicate GoodValidatorSchedule(g: Genesis, vs: seq<Entry<seq<Validator>>>) {
    && Increasing(vs) && vs != [] && vs[0] == Entry(0, g.validators)
    && forall e :: e in vs ==> g.minimumValidators <= |e.value| <= 100 && e.value != [] && DistinctValidators(e.value)
  }

  ghost predicate GoodProtocolSchedule(ps: seq<Entry<nat>>) {
    && Increasing(ps) && ps != [] && ps[0] == Entry(0, 1)
    && (forall e :: e in ps ==> 1 <= e.value <= 65_535)
    && (forall i, j :: 0 <= i < j < |ps| ==> !IsDowngrade(ps[i].value, ps[j].value))
  }

  ghost predicate GoodOracleSchedule(g: Genesis, os: seq<Entry<OracleEntry>>) {
    Increasing(os) && (os != [] ==> os[0].height >= 1) && OracleHistoryOk(g, os)
  }

  /** The schedules a run can reach. */
  ghost predicate GoodSchedules(g: Genesis, s: Schedules) {
    GoodValidatorSchedule(g, s.validators) && GoodProtocolSchedule(s.protocol) && GoodOracleSchedule(g, s.oracle)
  }

  ghost predicate OracleHistoryOk(g: Genesis, oracle: seq<Entry<OracleEntry>>) {
    if oracle == [] then true
    else
      var init, last := oracle[..|oracle| - 1], oracle[|oracle| - 1].value;
      OracleHistoryOk(g, init) && OracleActionOk(last.action, last.publicKeys, g.oracles, Revoked(init), Paused(init))
  }

  ghost predicate GoodGenesis(g: Genesis) {
    && 1 <= g.minimumValidators <= |g.validators| <= 100 && DistinctValidators(g.validators)
  }

  /** The working cursors always describe the schedules recorded so far. */
  ghost predicate Describes(cur: Cursors, s: Schedules) {
    && s.validators != [] && s.protocol != []
    && cur.lastActivation == s.validators[|s.validators| - 1].height
    && cur.lastValidators == s.validators[|s.validators| - 1].value
    && cur.lastProtocolActivation == s.protocol[|s.protocol| - 1].height
    && cur.lastProtocolVersion == s.protocol[|s.protocol| - 1].value
    && cur.lastOracle == (if s.oracle == [] then 0 else s.oracle[|s.oracle| - 1].height)
    && cur.revoked == Revoked(s.oracle) && cur.paused == Paused(s.oracle)
  }

  lemma InitialCursorsDescribe(g: Genesis, s: Schedules)
    requires GoodSchedules(g, s)
    ensures Describes(InitialCursors(s), s)
  {
    MaxOfIncreasing(s.validators);
    MaxOfIncreasing(s.protocol);
    MaxOfIncreasing(s.oracle);
  }

  lemma NoDowngradeChain(protocol: seq<Entry<nat>>, version: nat)
    requires protocol != []
    requires forall i, j :: 0 <= i < j < |protocol| ==> !IsDowngrade(protocol[i].value, protocol[j].value)
    requires !IsDowngrade(protocol[|protocol| - 1].value, version)
    ensures forall i :: 0 <= i < |protocol| ==> !IsDowngrade(protocol[i].value, version)
  {
    forall i | 0 <= i < |protocol| ensures !IsDowngrade(protocol[i].value, version) {
      if i < |protocol| - 1 {
        assert !IsDowngrade(protocol[i].value, protocol[|protocol| - 1].value);
      }
    }
  }

  lemma ValidatorEntryKeeps(g: Genesis, vs: seq<Entry<seq<Validator>>>, activation: nat, validators: seq<Validator>)
    requires GoodValidatorSchedule(g, vs) && activation > vs[|vs| - 1].height
    requires g.minimumValidators <= |validators| <= 100 && validators != [] && DistinctValidators(validators)
    ensures SetEntry(vs, activation, validators) == vs + [Entry(activation, validators)]
    ensures GoodValidatorSchedule(g, vs + [Entry(activation, validators)])
  {
    SetAppends(vs, activation, validators);
  }

  lemma ProtocolEntryKeeps(ps: seq<Entry<nat>>, activation: nat, version: nat)
    requires GoodProtocolSchedule(ps) && activation > ps[|ps| - 1].height
    requires 1 <= version <= 65_535 && !IsDowngrade(ps[|ps| - 1].value, version)
    ensures SetEntry(ps, activation, version) == ps + [Entry(activation, version)]
    ensures GoodProtocolSchedule(ps + [Entry(activation, version)])
  {
    SetAppends(ps, activation, version);
    NoDowngradeChain(ps, version);
  }

  lemma OracleEntryKeeps(g: Genesis, os: seq<Entry<OracleEntry>>, activation: nat, entry: OracleEntry)
    requires GoodOracleSchedule(g, os) && activation >= 1 && (os != [] ==> activation > os[|os| - 1].height)
    requires OracleActionOk(entry.action, entry.publicKeys, g.oracles, Revoked(os), Paused(os))
    ensures SetEntry(os, activation, entry) == os + [Entry(activation, entry)]
    ensures GoodOracleSchedule(g, os + [Entry(activation, entry)])
    ensures Revoked(os + [Entry(activation, entry)]) ==
      Revoked(os) + (if entry.action.Revoke? then set k | k in entry.publicKeys else {})
    ensures Paused(os + [Entry(activation, entry)]) ==
      (if entry.action.Pause? then true else if entry.action.Resume? then false else Paused(os))
  {
    SetAppends(os, activation, entry);
    var os' := os + [Entry(activation, entry)];
    assert os'[..|os'| - 1] == os;
  }

  ghost predicate Recorded(env: Env, cur: Cursors, s: Schedules, tx: Tx) {
    && GoodSchedules(env.genesis, RecordTx(s, tx)) && Describes(AdvanceCursors(cur, tx), RecordTx(s, tx))
    && AppendsAll(s, RecordTx(s, tx), env.height + MIN_UPDATE_DELAY)
  }

  lemma RecordValidatorUpdate(env: Env, cur: Cursors, s: Schedules, tx: Tx)
    requires GoodSchedules(env.genesis, s) && Describes(cur, s) && TxOk(env, cur, tx) && tx.kind.ValidatorUpdate?
    ensures Recorded(env, cur, s, tx)
  {
    ValidatorEntryKeeps(env.genesis, s.validators, tx.kind.activationHeight, tx.kind.validators);
  }

  lemma RecordProtocolUpgrade(env: Env, cur: Cursors, s: Schedules, tx: Tx)
    requires GoodSchedules(env.genesis, s) && Describes(cur, s) && TxOk(env, cur, tx) && tx.kind.ProtocolUpgrade?
    ensures Recorded(env, cur, s, tx)
  {
    ProtocolEntryKeeps(s.protocol, tx.kind.activationHeight, tx.kind.protocolVersion);
  }

  lemma RecordOracleGovernance(env: Env, cur: Cursors, s: Schedules, tx: Tx)
    requires GoodSchedules(env.genesis, s) && Describes(cur, s) && TxOk(env, cur, tx) && tx.kind.OracleGovernance?
    ensures Recorded(env, cur, s, tx)
  {
    var entry := OracleEntry(tx.kind.action, tx.kind.publicKeys);
    OracleEntryKeeps(env.genesis, s.oracle, tx.kind.activationHeight, entry);
    OracleAppended(env.genesis, cur, s, tx, s.(oracle := s.oracle + [Entry(tx.kind.activationHeight, entry)]));
  }

  /** The other schedules and what the cursors say of them stay. */
  lemma OracleAppended(g: Genesis, cur: Cursors, s: Schedules, tx: Tx, t: Schedules)
    requires GoodSchedules(g, s) && Describes(cur, s) && tx.kind.OracleGovernance?
    requires var entry := OracleEntry(tx.kind.action, tx.kind.publicKeys);
      t == s.(oracle := s.oracle + [Entry(tx.kind.activationHeight, entry)])
    requires GoodOracleSchedule(g, t.oracle)
    requires Revoked(t.oracle) ==
      Revoked(s.oracle) + (if tx.kind.action.Revoke? then set k | k in tx.kind.publicKeys else {})
    requires Paused(t.oracle) ==
      (if tx.kind.action.Pause? then true else if tx.kind.action.Resume? then false else Paused(s.oracle))
    ensures GoodSchedules(g, t) && Describes(AdvanceCursors(cur, tx), t)
  {
  }

  /** One accepted transaction appends at most one entry, at least 100 blocks ahead. */
  lemma RecordTxKeeps(env: Env, cur: Cursors, s: Schedules, tx: Tx)
    requires GoodSchedules(env.genesis, s) && Describes(cur, s) && TxOk(env, cur, tx)
    ensures Recorded(env, cur, s, tx)
  {
    match tx.kind
    case ValidatorUpdate(_, _) => RecordValidatorUpdate(env, cur, s, tx);
    case ProtocolUpgrade(_, _) => RecordProtocolUpgrade(env, cur, s, tx);
    case OracleGovernance(_, _, _) => RecordOracleGovernance(env, cur, s, tx);
    case _ =>
  }

  ghost predicate AppendsAll(s: Schedules, t: Schedules, bound: nat) {
    Appends(s.validators, t.validators, bound) && Appends(s.protocol, t.protocol, bound)
    && Appends(s.oracle, t.oracle, bound)
  }

  /** `t` is `s` and then entries at heights of at least `bound`. */
  ghost predicate Appends<V>(s: seq<Entry<V>>, t: seq<Entry<V>>, bound: nat) {
    s <= t && forall i :: |s| <= i < |t| ==> t[i].height >= bound
  }

  lemma {:induction false} AppendsKeepInForce<V>(s: seq<Entry<V>>, t: seq<Entry<V>>, bound: nat, h: nat)
    requires Appends(s, t, bound) && h < bound
    ensures InForce(t, h) == InForce(s, h) && UpTo(t, h) == UpTo(s, h)
    decreases |t|
  {
    if |t| > |s| {
      AppendsKeepInForce(s, t[..|t| - 1], bound, h);
    } else {
      assert s == t;
    }
  }
}
