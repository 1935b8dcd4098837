/**
 * Governance over whole runs: the chain object, its snapshots and what later blocks cannot change
 * (l1/src/chain.ts).
 */
module GovernanceRuns {
  import opened Constants
  import opened Quorum
  import opened ChainTypes
  import opened Sorting
  import opened Governance
  import opened BlockBuilding

  const SUPPORTED_PROTOCOL_VERSIONS: set<nat> := {1, 2, 3, 5, 6}

  /** A block's transactions and the checks that depend on its timestamp, producer and signatures. */
  datatype BlockInput<!S> = BlockInput(
    txs: seq<Tx>, proofsOk: (Tx, seq<Validator>) -> bool, settlementOk: Tx -> bool, signatureOk: Tx -> bool,
    apply: Applier<S>)

  datatype ChainState<S> = ChainState(height: nat, schedules: Schedules, ledger: S)

  function GenesisSchedules(g: Genesis): Schedules {
    Schedules([Entry(0, g.validators)], [Entry(0, 1)], [])
  }

  function ValidatorsAt(g: Genesis, s: Schedules, h: nat): seq<Validator> {
    match InForce(s.validators, h) case Some(v) => v case None => g.validators
  }

  function ProtocolVersionAt(s: Schedules, h: nat): nat {
    match InForce(s.protocol, h) case Some(v) => v case None => 1
  }

  function EnvAt<S>(g: Genesis, s: Schedules, height: nat, b: BlockInput<S>): Env {
    Env(g, height, ValidatorsAt(g, s, height), ProtocolVersionAt(s, height), b.proofsOk, b.settlementOk, b.signatureOk)
  }

  /** Accepting the next block; None where the source throws. */
  function Accept<S>(g: Genesis, cs: ChainState<S>, b: BlockInput<S>): Option<ChainState<S>> {
    var env := EnvAt(g, cs.schedules, cs.height + 1, b);
    if env.protocolVersion !in SUPPORTED_PROTOCOL_VERSIONS then None
    else match ValidateTxs(env, b.apply, cs.ledger, InitialCursors(cs.schedules), {}, b.txs)
      case None => None
      case Some((ledger, _)) => Some(ChainState(cs.height + 1, Record(cs.schedules, b.txs), ledger))
  }

  function AcceptAll<S>(g: Genesis, cs: ChainState<S>, blocks: seq<BlockInput<S>>): Option<ChainState<S>>
    decreases |blocks|
  {
    if blocks == [] then Some(cs)
    else match Accept(g, cs, blocks[0])
      case None => None
      case Some(next) => AcceptAll(g, next, blocks[1..])
  }

  /** A run of blocks is its beginning and then the rest from there. */
  lemma {:induction false} AcceptAllConcat<S>(g: Genesis, cs: ChainState<S>, a: seq<BlockInput<S>>,
      b: seq<BlockInput<S>>)
    ensures AcceptAll(g, cs, a + b) ==
      match AcceptAll(g, cs, a) case None => None case Some(mid) => AcceptAll(g, mid, b)
    decreases |a|
  {
    if a == [] {
      assert a + b == b;
    } else {
      assert (a + b)[0] == a[0] && (a + b)[1..] == a[1..] + b;
      if Accept(g, cs, a[0]).Some? { AcceptAllConcat(g, Accept(g, cs, a[0]).value, a[1..], b); }
    }
  }

  // -------------------------------------------------------------------------
  // One block
  // -------------------------------------------------------------------------

  lemma AppendsTransitive(s: Schedules, t: Schedules, u: Schedules, bound: nat)
    requires AppendsAll(s, t, bound) && AppendsAll(t, u, bound)
    ensures AppendsAll(s, u, bound)
  {
  }

  lemma {:induction false} RecordKeeps<S>(env: Env, apply: Applier<S>, st: S, cur: Cursors, seen: set<string>,
                                          s: Schedules, txs: seq<Tx>)
    requires GoodSchedules(env.genesis, s) && Describes(cur, s) && ValidateTxs(env, apply, st, cur, seen, txs).Some?
    ensures GoodSchedules(env.genesis, Record(s, txs)) && AppendsAll(s, Record(s, txs), env.height + MIN_UPDATE_DELAY)
    ensures Describes(ValidateTxs(env, apply, st, cur, seen, txs).value.1, Record(s, txs))
    decreases |txs|
  {
    if txs != [] {
      RecordTxKeeps(env, cur, s, txs[0]);
      var s' := RecordTx(s, txs[0]);
      RecordKeeps(env, apply, apply(st, txs[0]).value, AdvanceCursors(cur, txs[0]), seen + {txs[0].txid}, s', txs[1..]);
      AppendsTransitive(s, s', Record(s', txs[1..]), env.height + MIN_UPDATE_DELAY);
    }
  }

  lemma AcceptKeeps<S>(g: Genesis, cs: ChainState<S>, b: BlockInput<S>)
    requires GoodSchedules(g, cs.schedules) && Accept(g, cs, b).Some?
    ensures var next := Accept(g, cs, b).value;
      && GoodSchedules(g, next.schedules) && next.height == cs.height + 1
      && AppendsAll(cs.schedules, next.schedules, next.height + MIN_UPDATE_DELAY)
  {
    InitialCursorsDescribe(g, cs.schedules);
    RecordKeeps(EnvAt(g, cs.schedules, cs.height + 1, b), b.apply, cs.ledger, InitialCursors(cs.schedules), {},
      cs.schedules, b.txs);
  }

  // -------------------------------------------------------------------------
  // Whole runs
  // -------------------------------------------------------------------------

  lemma {:induction false} RunKeeps<S>(g: Genesis, cs: ChainState<S>, blocks: seq<BlockInput<S>>)
    requires GoodSchedules(g, cs.schedules) && AcceptAll(g, cs, blocks).Some?
    ensures var end := AcceptAll(g, cs, blocks).value;
      && GoodSchedules(g, end.schedules) && end.height == cs.height + |blocks|
      && AppendsAll(cs.schedules, end.schedules, cs.height + 1 + MIN_UPDATE_DELAY)
    decreases |blocks|
  {
    if blocks != [] {
      AcceptKeeps(g, cs, blocks[0]);
      var next := Accept(g, cs, blocks[0]).value;
      RunKeeps(g, next, blocks[1..]);
      AppendsTransitive(cs.schedules, next.schedules, AcceptAll(g, cs, blocks).value.schedules,
        cs.height + 1 + MIN_UPDATE_DELAY);
    }
  }

  /** From genesis, every accepted run ends in schedules of the checkpoint form. */
  lemma ReachableSchedulesGood<S>(g: Genesis, ledger: S, blocks: seq<BlockInput<S>>)
    requires GoodGenesis(g) && AcceptAll(g, ChainState(0, GenesisSchedules(g), ledger), blocks).Some?
    ensures GoodSchedules(g, AcceptAll(g, ChainState(0, GenesisSchedules(g), ledger), blocks).value.schedules)
  {
    RunKeeps(g, ChainState(0, GenesisSchedules(g), ledger), blocks);
  }

  /**
   * No continuation of a run changes the validators, the protocol version or the oracle
   * pause/revoke status at a height within 100 blocks of the next one.
   */
  lemma NearFutureIsFixed<S>(g: Genesis, cs: ChainState<S>, blocks: seq<BlockInput<S>>, h: nat)
    requires GoodSchedules(g, cs.schedules) && AcceptAll(g, cs, blocks).Some? && h < cs.height + 1 + MIN_UPDATE_DELAY
    ensures var end := AcceptAll(g, cs, blocks).value.schedules;
      && ValidatorsAt(g, end, h) == ValidatorsAt(g, cs.schedules, h)
      && ProtocolVersionAt(end, h) == ProtocolVersionAt(cs.schedules, h)
      && OracleControlAt(end.oracle, h) == OracleControlAt(cs.schedules.oracle, h)
  {
    RunKeeps(g, cs, blocks);
    var end := AcceptAll(g, cs, blocks).value.schedules;
    var bound := cs.height + 1 + MIN_UPDATE_DELAY;
    AppendsKeepInForce(cs.schedules.validators, end.validators, bound, h);
    AppendsKeepInForce(cs.schedules.protocol, end.protocol, bound, h);
    AppendsKeepInForce(cs.schedules.oracle, end.oracle, bound, h);
  }

  /** Where the entry in force at h sits. */
  lemma {:induction false} InForceIndex<V>(entries: seq<Entry<V>>, h: nat) returns (i: nat)
    requires Increasing(entries) && entries != [] && entries[0].height <= h
    ensures i < |entries| && InForce(entries, h) == Some(entries[i].value)
    ensures entries[i].height <= h && forall j :: i < j < |entries| ==> entries[j].height > h
  {
    if entries[|entries| - 1].height <= h {
      i := |entries| - 1;
    } else {
      i := InForceIndex(entries[..|entries| - 1], h);
    }
  }

  /** The entries up to h of a schedule in increasing order are a prefix of it. */
  lemma {:induction false} UpToIs<V>(entries: seq<Entry<V>>, h: nat) returns (n: nat)
    requires Increasing(entries)
    ensures n <= |entries| && UpTo(entries, h) == entries[..n]
    ensures forall i :: 0 <= i < |entries| ==> (i < n <==> entries[i].height <= h)
  {
    if entries == [] || entries[|entries| - 1].height <= h {
      n := |entries|;
    } else {
      n := UpToIs(entries[..|entries| - 1], h);
    }
  }

  /** The last pause or resume up to entry `n` is the pause at `i`. */
  ghost predicate PausedBy(oracle: seq<Entry<OracleEntry>>, n: nat, i: int)
    requires n <= |oracle|
  {
    && 0 <= i < n && oracle[i].value.action.Pause?
    && forall j :: i < j < n ==> !oracle[j].value.action.Resume?
  }

  lemma {:induction false} PausedIs(oracle: seq<Entry<OracleEntry>>, n: nat)
    requires n <= |oracle|
    ensures Paused(oracle[..n]) <==> exists i :: PausedBy(oracle, n, i)
  {
    if n > 0 {
      var m := n - 1;
      PausedIs(oracle, m);
      assert oracle[..n][..n - 1] == oracle[..n - 1];
      var last := oracle[n - 1].value.action;
      if last.Pause? { assert PausedBy(oracle, n, n - 1); }
      if i :| last.Revoke? && PausedBy(oracle, m, i) { assert PausedBy(oracle, n, i); }
      if i :| !last.Pause? && PausedBy(oracle, n, i) {
        assert !oracle[n - 1].value.action.Resume?;
        assert PausedBy(oracle, m, i);
      }
    }
  }

  lemma {:induction false} RevokedIs(oracle: seq<Entry<OracleEntry>>, n: nat, key: PublicKey)
    requires n <= |oracle|
    ensures key in Revoked(oracle[..n]) <==>
      exists i :: 0 <= i < n && oracle[i].value.action.Revoke? && key in oracle[i].value.publicKeys
  {
    if n > 0 {
      RevokedIs(oracle, n - 1, key);
      assert oracle[..n][..n - 1] == oracle[..n - 1];
    }
  }

  /** Paused by a pause up to h that no resume up to h follows; revoked by an entry up to h that lists the key. */
  lemma OracleControlIs(oracle: seq<Entry<OracleEntry>>, h: nat, key: PublicKey) returns (n: nat)
    requires Increasing(oracle)
    ensures n <= |oracle| && forall i :: 0 <= i < |oracle| ==> (i < n <==> oracle[i].height <= h)
    ensures OracleControlAt(oracle, h).paused <==> exists i :: PausedBy(oracle, n, i)
    ensures key in OracleControlAt(oracle, h).revoked <==>
      exists i :: 0 <= i < n && oracle[i].value.action.Revoke? && key in oracle[i].value.publicKeys
  {
    n := UpToIs(oracle, h);
    PausedIs(oracle, n);
    RevokedIs(oracle, n, key);
  }

  /** Once a version of 6 or more is in force at h, no later height ever has a lower one, now or later in the run. */
  lemma NoDowngradeEver<S>(g: Genesis, cs: ChainState<S>, blocks: seq<BlockInput<S>>, h: nat, h': nat)
    requires GoodSchedules(g, cs.schedules) && AcceptAll(g, cs, blocks).Some?
    requires ProtocolVersionAt(cs.schedules, h) >= CONSENSUS_V6 && h <= h'
    ensures ProtocolVersionAt(AcceptAll(g, cs, blocks).value.schedules, h') >= ProtocolVersionAt(cs.schedules, h)
  {
    RunKeeps(g, cs, blocks);
    var later := AcceptAll(g, cs, blocks).value.schedules;
    var s, t := cs.schedules.protocol, later.protocol;
    var i := InForceIndex(s, h);
    var j := InForceIndex(t, h');
    assert t[i] == s[i];
    assert j >= i;
    assert i < j ==> !IsDowngrade(t[i].value, t[j].value);
  }

  // -------------------------------------------------------------------------
  // Checkpoint validators
  // -------------------------------------------------------------------------

  method ValidateValidatorSchedule(g: Genesis, entries: seq<Entry<seq<Validator>>>) returns (ok: bool)
    requires g.minimumValidators >= 1
    ensures ok <==> GoodValidatorSchedule(g, entries)
  {
    if |entries| < 1 { return false; }
    var previousHeight: int := -1;
    for i := 0 to |entries|
      invariant Increasing(entries[..i]) && previousHeight == (if i == 0 then -1 else entries[i - 1].height)
      invariant forall k :: 0 <= k < i ==>
        g.minimumValidators <= |entries[k].value| <= 100 && DistinctValidators(entries[k].value)
    {
      assert entries[i] in entries;
      if entries[i].height <= previousHeight {
        assert i > 0 && !(entries[i - 1].height < entries[i].height);
        return false;
      }
      if |entries[i].value| < g.minimumValidators || |entries[i].value| > 100 { return false; }
      if !DistinctValidators(entries[i].value) { return false; }
      previousHeight := entries[i].height;
    }
    assert entries[..|entries|] == entries;
    ok := entries[0] == Entry(0, g.validators);
  }

  method ValidateProtocolSchedule(entries: seq<Entry<nat>>) returns (ok: bool)
    ensures ok <==> GoodProtocolSchedule(entries)
  {
    if |entries| < 1 { return false; }
    var previousHeight: int := -1;
    var previousVersion := 0;
    for i := 0 to |entries|
      invariant Increasing(entries[..i]) && previousHeight == (if i == 0 then -1 else entries[i - 1].height)
      invariant previousVersion == if i == 0 then 0 else entries[i - 1].value
      invariant forall k :: 0 <= k < i ==> 1 <= entries[k].value <= 65_535
      invariant forall k, l :: 0 <= k < l < i ==> !IsDowngrade(entries[k].value, entries[l].value)
    {
      assert entries[i] in entries;
      if entries[i].height <= previousHeight {
        assert i > 0 && !(entries[i - 1].height < entries[i].height);
        return false;
      }
      if entries[i].value < 1 || entries[i].value > 65_535 { return false; }
      if IsDowngrade(previousVersion, entries[i].value) {
        assert i > 0 && IsDowngrade(entries[i - 1].value, entries[i].value);
        return false;
      }
      if i > 0 { NoDowngradeChain(entries[..i], entries[i].value); }
      assert forall k :: 0 <= k < i ==> entries[..i][k] == entries[k];
      previousHeight := entries[i].height;
      previousVersion := entries[i].value;
    }
    assert entries[..|entries|] == entries;
    ok := entries[0] == Entry(0, 1);
  }

  lemma {:induction false} OracleHistoryPrefix(g: Genesis, oracle: seq<Entry<OracleEntry>>, n: nat)
    requires n <= |oracle| && OracleHistoryOk(g, oracle)
    ensures OracleHistoryOk(g, oracle[..n])
    decreases |oracle|
  {
    if n < |oracle| {
      OracleHistoryPrefix(g, oracle[..|oracle| - 1], n);
      assert oracle[..|oracle| - 1][..n] == oracle[..n];
    } else {
      assert oracle[..n] == oracle;
    }
  }

  method ValidateOracleSchedule(g: Genesis, entries: seq<Entry<OracleEntry>>) returns (ok: bool)
    ensures ok <==> entries != [] && GoodOracleSchedule(g, entries)
  {
    if entries == [] { return false; }
    var revoked: set<PublicKey> := {};
    var paused := false;
    var previousHeight := 0;
    for i := 0 to |entries|
      invariant Increasing(entries[..i]) && previousHeight == (if i == 0 then 0 else entries[i - 1].height)
      invariant i > 0 ==> entries[0].height >= 1
      invariant OracleHistoryOk(g, entries[..i]) && paused == Paused(entries[..i]) && revoked == Revoked(entries[..i])
    {
      var entry := entries[i].value;
      assert entries[..i + 1][..i] == entries[..i] && entries[..i + 1][i] == entries[i];
      if entries[i].height <= previousHeight {
        assert i > 0 ==> !(entries[i - 1].height < entries[i].height);
        return false;
      }
      if !OracleActionOk(entry.action, entry.publicKeys, g.oracles, revoked, paused) {
        if OracleHistoryOk(g, entries) {
          OracleHistoryPrefix(g, entries, i + 1);
          assert false;
        }
        return false;
      }
      if entry.action.Pause? { paused := true; }
      else if entry.action.Resume? { paused := false; }
      else { revoked := revoked + set k | k in entry.publicKeys; }
      previousHeight := entries[i].height;
    }
    assert entries[..|entries|] == entries;
    ok := true;
  }

  /** A snapshot lists a schedule's entries by height; on a reachable schedule that is the order they were set in. */
  function SortedEntries<V>(entries: seq<Entry<V>>): seq<Entry<V>> {
    SortBy((a: Entry<V>, b: Entry<V>) => a.height < b.height, entries)
  }

  lemma SortedAlready<V>(entries: seq<Entry<V>>)
    requires Increasing(entries)
    ensures SortedEntries(entries) == entries
  {
    SortedStays((a: Entry<V>, b: Entry<V>) => a.height < b.height, entries);
  }

  /** Every checkpoint of a run that started at genesis passes the three schedule validators. */
  method CheckpointAccepted<S>(g: Genesis, ledger: S, blocks: seq<BlockInput<S>>)
    returns (validators: bool, protocol: bool, oracle: bool)
    requires GoodGenesis(g) && AcceptAll(g, ChainState(0, GenesisSchedules(g), ledger), blocks).Some?
    ensures validators && protocol
    ensures oracle <==> AcceptAll(g, ChainState(0, GenesisSchedules(g), ledger), blocks).value.schedules.oracle != []
  {
    var s := AcceptAll(g, ChainState(0, GenesisSchedules(g), ledger), blocks).value.schedules;
    ReachableSchedulesGood(g, ledger, blocks);
    SortedAlready(s.validators);
    SortedAlready(s.protocol);
    SortedAlready(s.oracle);
    validators := ValidateValidatorSchedule(g, SortedEntries(s.validators));
    protocol := ValidateProtocolSchedule(SortedEntries(s.protocol));
    oracle := ValidateOracleSchedule(g, SortedEntries(s.oracle));
  }

  // -------------------------------------------------------------------------
  // The chain object
  // -------------------------------------------------------------------------

  class ZyronChain<!S> {
    const genesis: Genesis
    var height: nat
    var schedules: Schedules
    var ledger: S

    ghost predicate Valid()
      reads this
    {
      GoodSchedules(genesis, schedules)
    }

    constructor (g: Genesis, initial: S)
      requires GoodGenesis(g)
      ensures Valid() && genesis == g && height == 0 && schedules == GenesisSchedules(g) && ledger == initial
    {
      genesis, height, schedules, ledger := g, 0, GenesisSchedules(g), initial;
    }

    method ValidatorsAtHeight(h: nat) returns (selected: seq<Validator>)
      requires Valid()
      ensures selected == ValidatorsAt(genesis, schedules, h)
    {
      selected := genesis.validators;
      var selectedHeight := 0;
      ghost var at := InForceIndex(schedules.validators, h);
      for i := 0 to |schedules.validators|
        invariant i <= at ==> selectedHeight <= schedules.validators[at].height
        invariant i > at ==>
          selected == schedules.validators[at].value && selectedHeight == schedules.validators[at].height
      {
        var entry := schedules.validators[i];
        if i < at { assert schedules.validators[i].height < schedules.validators[at].height; }
        if entry.height <= h && entry.height >= selectedHeight {
          selected, selectedHeight := entry.value, entry.height;
        }
      }
    }

    method ProtocolVersionAtHeight(h: nat) returns (version: nat)
      requires Valid()
      ensures version == ProtocolVersionAt(schedules, h)
    {
      version := 1;
      var selectedHeight := 0;
      ghost var at := InForceIndex(schedules.protocol, h);
      for i := 0 to |schedules.protocol|
        invariant i <= at ==> selectedHeight <= schedules.protocol[at].height
        invariant i > at ==> version == schedules.protocol[at].value && selectedHeight == schedules.protocol[at].height
      {
        var entry := schedules.protocol[i];
        if i < at { assert schedules.protocol[i].height < schedules.protocol[at].height; }
        if entry.height <= h && entry.height >= selectedHeight {
          version, selectedHeight := entry.value, entry.height;
        }
      }
    }

    method RecordGovernanceUpdates(txs: seq<Tx>)
      modifies this`schedules
      ensures schedules == Record(old(schedules), txs)
    {
      for i := 0 to |txs|
        invariant Record(old(schedules), txs) == Record(schedules, txs[i..])
      {
        assert txs[i..][1..] == txs[i + 1..];
        schedules := RecordTx(schedules, txs[i]);
      }
    }

    method AcceptBlock(b: BlockInput<S>) returns (ok: bool)
      requires Valid()
      modifies this
      ensures Valid()
      ensures var r := Accept(genesis, old(ChainState(height, schedules, ledger)), b);
        && ok == r.Some?
        && ChainState(height, schedules, ledger) == if ok then r.value else old(ChainState(height, schedules, ledger))
    {
      AcceptValid(genesis, ChainState(height, schedules, ledger), b);
      var validators := ValidatorsAtHeight(height + 1);
      var version := ProtocolVersionAtHeight(height + 1);
      if version !in SUPPORTED_PROTOCOL_VERSIONS { return false; }
      var env := Env(genesis, height + 1, validators, version, b.proofsOk, b.settlementOk, b.signatureOk);
      var next := ValidateAndApply(env, b.apply, ledger, InitialCursors(schedules), b.txs);
      if next.None? { return false; }
      height, ledger := height + 1, next.value.0;
      RecordGovernanceUpdates(b.txs);
      ok := true;
    }
  }

  lemma AcceptValid<S>(g: Genesis, cs: ChainState<S>, b: BlockInput<S>)
    requires GoodSchedules(g, cs.schedules)
    ensures Accept(g, cs, b).Some? ==> GoodSchedules(g, Accept(g, cs, b).value.schedules)
  {
    if Accept(g, cs, b).Some? { AcceptKeeps(g, cs, b); }
  }
}
