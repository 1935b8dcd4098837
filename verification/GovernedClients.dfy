/**
 * Light clients across validator changes: a client that authenticates, before every header, what
 * the State v2 root it trusts says about the next height's validators (l1/src/light-client.ts)
 * follows the chain the honest validators finalize.
 */
module GovernedClients {
  import opened Quorum
  import opened Digests
  import opened V6Certificates
  import opened V6Agreement
  import opened V6Governed
  import opened LightClient
  import opened Governance
  import opened GovernanceRuns
  import opened ScheduledAgreement
  import SparseTree
  import SparseMerkle

  /**
   * The run's origin, the tree hash, the decoding of hexadecimal roots, the state after a chain, and the
   * canonical text of a validator list.
   */
  datatype World<!S> = World(
    o: Origin<S>, h: SparseTree.Hash, fromHex: Hash -> Digest, stateOf: seq<Hash> -> map<string, string>,
    textOf: seq<Validator> -> string, hashOf: Header -> Hash)

  function ValidatorKey(height: nat): (key: string)
    ensures key != ""
  {
    "validator-schedule:" + SparseMerkle.Decimal(height)
  }

  /** Every height has its own key. */
  lemma ValidatorKeyDiffers(m: nat, n: nat)
    requires ValidatorKey(m) == ValidatorKey(n)
    ensures m == n
  {
    SparseMerkle.SamePrefix("validator-schedule:", SparseMerkle.Decimal(m), SparseMerkle.Decimal(n));
    SparseMerkle.DecimalDiffers(m, n);
  }

  /** What a proof of a key shows against a root, whatever the protocol version of the anchor. */
  ghost predicate Proves(h: SparseTree.Hash, root: Digest, key: string, value: Option<string>,
                         proof: SparseMerkle.Proof)
  {
    SparseMerkle.Accepts(h, SparseMerkle.Anchor(0, 2, root), key, value, proof)
  }

  /** `next`: the validators proved for the next height, None when their absence is proved. */
  datatype Move = Move(next: Option<seq<Validator>>, proof: SparseMerkle.Proof, header: Block)

  function NextText<S>(w: World<S>, next: Option<seq<Validator>>): Option<string> {
    match next
    case None => None
    case Some(vs) => Some(w.textOf(vs))
  }

  /** The anchor after activating the proved validators, if any. */
  function Activated(a: Anchor, next: Option<seq<Validator>>): Anchor {
    match next
    case None => a
    case Some(vs) => a.(validators := vs)
  }

  const STATE_V2 := {2, 3, 5, 6}

  /** Authenticates the validators that activate at the very next height; None where the source throws. */
  method ActivateNextValidatorSet<S>(w: World<S>, a: Anchor, vs: seq<Validator>, proof: SparseMerkle.Proof)
    returns (next: Option<Anchor>)
    ensures next.Some? <==>
      && a.protocolVersion in {2, 3, 5, 6} && a.timestampMs >= 0
      && 1 <= |a.validators| <= 100 && DistinctValidators(a.validators)
      && 1 <= |vs| <= 100 && DistinctValidators(vs)
      && Proves(w.h, w.fromHex(a.stateRoot), ValidatorKey(a.height + 1), NextText(w, Some(vs)), proof)
    ensures next.Some? ==> next.value == a.(validators := vs)
  {
    if !ValidAnchor(a) || a.protocolVersion !in STATE_V2 { return None; }
    var candidate := a.(validators := vs);
    if !ValidAnchor(candidate) { return None; }
    var anchor := SparseMerkle.Anchor(0, 2, w.fromHex(a.stateRoot));
    var ok := SparseMerkle.VerifyStateProof(w.h, anchor, ValidatorKey(a.height + 1), Some(w.textOf(vs)), proof);
    next := if ok then Some(candidate) else None;
  }

  /** One careful advance: the next height's schedule entry or its absence is proved, then the header is checked. */
  ghost predicate Advances<S>(w: World<S>, a: Anchor, m: Move, a': Anchor) {
    && Proves(w.h, w.fromHex(a.stateRoot), ValidatorKey(a.height + 1), NextText(w, m.next), m.proof)
    && VerifyNextFinalizedHeader(Activated(a, m.next), m.header, w.hashOf) == Some(a')
  }

  // ---- What the state says of the schedule ---------------------------------------

  ghost predicate HasEntry(entries: seq<Entry<seq<Validator>>>, h: nat) {
    exists e :: e in entries && e.height == h
  }

  /** The state holds exactly the entries of the validator schedule. */
  ghost predicate HoldsSchedule<S>(w: World<S>, chain: seq<Hash>)
    requires Replay(w.o, chain).Some?
  {
    var entries, state := Replay(w.o, chain).value.schedules.validators, w.stateOf(chain);
    && (forall h: nat :: ValidatorKey(h) in state <==> HasEntry(entries, h))
    && (forall e :: e in entries ==>
          ValidatorKey(e.height) in state && state[ValidatorKey(e.height)] == w.textOf(e.value))
  }

  ghost predicate OneText<S>(w: World<S>) {
    forall x, y :: w.textOf(x) == w.textOf(y) ==> x == y
  }

  /** What is in force at a height is its own entry, or what was in force one height before. */
  lemma {:induction false} InForceNext<V>(entries: seq<Entry<V>>, h: nat)
    requires Increasing(entries) && h >= 1
    ensures (forall e :: e in entries ==> e.height != h) ==> InForce(entries, h) == InForce(entries, h - 1)
    ensures forall e :: e in entries && e.height == h ==> InForce(entries, h) == Some(e.value)
    decreases |entries|
  {
    if entries != [] {
      var n := |entries| - 1;
      InForceNext(entries[..n], h);
      assert entries == entries[..n] + [entries[n]];
    }
  }

  /** The first `n` blocks of a chain. */
  function Upto(chain: seq<Hash>, n: nat): seq<Hash> {
    if n <= |chain| then chain[..n] else chain
  }

  /** The root of the State v2 tree after a chain. */
  ghost function StateRoot<S>(w: World<S>, chain: seq<Hash>): Digest {
    SparseTree.Root(w.h, SparseMerkle.Hashed(w.h, w.stateOf(chain)))
  }

  // ---- Following -----------------------------------------------------------------

  /** The anchor is the honest chain's block at its height, with the set in force there and the root of its state. */
  ghost predicate Tracks<S>(w: World<S>, top: seq<Hash>, a: Anchor) {
    && a.chainId == w.o.chainId && |w.o.root| <= a.height <= |top|
    && (a.height > 0 ==> a.blockHash == top[a.height - 1])
    && a.validators == ScheduledAt(w.o, Upto(top, a.height), a.height)
    && w.fromHex(a.stateRoot) == StateRoot(w, Upto(top, a.height))
  }

  /** What is asked of one advance: no collision among the inputs hashed, votes seen, an authentic next root. */
  ghost predicate Fair<S>(w: World<S>, s: State, top: seq<Hash>, height: nat, m: Move)
    requires height < |top|
  {
    && |m.proof.siblings| == SparseTree.DEPTH
    && InjectiveOn(w.h, SparseMerkle.SoundnessInputs(w.h, w.stateOf(Upto(top, height)), ValidatorKey(height + 1),
                                                     NextText(w, m.next), m.proof))
    && KnownVotes(s, m.header.attestations)
    && (m.header.hash == top[height] ==> w.fromHex(m.header.header.stateRoot) == StateRoot(w, Upto(top, height + 1)))
  }

  /** The state after the first `n` blocks holds their schedule. */
  ghost predicate AuthenticAt<S>(w: World<S>, top: seq<Hash>, n: nat) {
    Replay(w.o, Upto(top, n)).Some? && HoldsSchedule(w, Upto(top, n))
  }

  /** From the root on, the state after every beginning of the chain holds that beginning's schedule. */
  ghost predicate Authentic<S>(w: World<S>, top: seq<Hash>) {
    OneText(w) && forall n :: |w.o.root| <= n <= |top| ==> AuthenticAt(w, top, n)
  }

  /** What the proof makes the client hold is what the schedule puts in force at the next height. */
  lemma ActivatedIsInForce<S>(w: World<S>, top: seq<Hash>, a: Anchor, m: Move)
    requires GoodGenesis(w.o.genesis) && OneText(w) && a.height <= |top| && AuthenticAt(w, top, a.height)
    requires a.validators == ScheduledAt(w.o, Upto(top, a.height), a.height)
    requires var key, state := ValidatorKey(a.height + 1), w.stateOf(Upto(top, a.height));
      NextText(w, m.next) == if key in state then Some(state[key]) else None
    ensures Activated(a, m.next).validators == NextValidators(w.o, Upto(top, a.height))
  {
    var chain, h := Upto(top, a.height), a.height + 1;
    assert |chain| == a.height;
    var entries := Replay(w.o, chain).value.schedules.validators;
    ReplayedState(w.o, chain);
    InForceNext(entries, h);
    if HasEntry(entries, h) {
      var e :| e in entries && e.height == h;
      assert w.textOf(m.next.value) == w.textOf(e.value);
    } else {
      assert ValidatorKey(h) !in w.stateOf(chain);
      var i := InForceIndex(entries, a.height);
    }
  }

  lemma AuthenticReplays<S>(w: World<S>, top: seq<Hash>, n: nat)
    requires Authentic(w, top) && |w.o.root| <= n <= |top|
    ensures Replay(w.o, Upto(top, n)).Some?
  {
    assert AuthenticAt(w, top, n);
  }

  /** The proved value is what the state holds. */
  lemma ProvedValue<S>(w: World<S>, s: State, top: seq<Hash>, a: Anchor, m: Move)
    requires Tracks(w, top, a) && a.height < |top| && Fair(w, s, top, a.height, m)
    requires Proves(w.h, w.fromHex(a.stateRoot), ValidatorKey(a.height + 1), NextText(w, m.next), m.proof)
    ensures var key, state := ValidatorKey(a.height + 1), w.stateOf(Upto(top, a.height));
      NextText(w, m.next) == if key in state then Some(state[key]) else None
  {
    SparseMerkle.AcceptedIsTrue(w.h, w.stateOf(Upto(top, a.height)),
      SparseMerkle.Anchor(0, 2, w.fromHex(a.stateRoot)), ValidatorKey(a.height + 1), NextText(w, m.next), m.proof);
  }

  lemma ProvedSet<S>(w: World<S>, s: State, top: seq<Hash>, a: Anchor, m: Move)
    requires GoodGenesis(w.o.genesis) && Authentic(w, top) && Tracks(w, top, a) && a.height < |top|
    requires Fair(w, s, top, a.height, m)
    requires Proves(w.h, w.fromHex(a.stateRoot), ValidatorKey(a.height + 1), NextText(w, m.next), m.proof)
    ensures Activated(a, m.next).validators == NextValidators(w.o, Upto(top, a.height))
  {
    ProvedValue(w, s, top, a, m);
    assert AuthenticAt(w, top, a.height);
    ActivatedIsInForce(w, top, a, m);
  }

  /** An accepted header is the honest chain's block. */
  lemma HeaderNamesTheChain<S>(
    o: Origin<S>, run: seq<State>, chains: seq<Chains>, steps: seq<Step>, top: seq<Hash>, vs: seq<Validator>, p: Block)
    requires IsScheduledRun(o, run, chains, steps) && IsHonestChain(chains, top)
    requires p.header.chainId == o.chainId && |o.root| < p.header.height <= |top|
    requires vs == NextValidators(o, Below(|o.root|, top, p.header.height))
    requires ValidCommitCertificate(p, vs) && KnownVotes(run[|run| - 1], p.attestations)
    ensures p.hash == top[p.header.height - 1]
  {
    var i, k :| 0 <= i < |chains| && k in chains[i] && chains[i][k] == top;
    ScheduledRunTrusted(o, run, chains, steps);
    CertificateNamesTheChain(RulesOf(o), run, chains, steps, i, k, p);
  }

  /** With the set in force at the next height, an accepted header is the honest chain's next block. */
  lemma NextHeader<S>(
    w: World<S>, run: seq<State>, chains: seq<Chains>, steps: seq<Step>, top: seq<Hash>, a: Anchor, p: Block)
    requires IsScheduledRun(w.o, run, chains, steps) && IsHonestChain(chains, top)
    requires a.chainId == w.o.chainId && |w.o.root| <= a.height < |top|
    requires a.validators == NextValidators(w.o, Upto(top, a.height))
    requires VerifyNextFinalizedHeader(a, p, w.hashOf).Some? && KnownVotes(run[|run| - 1], p.attestations)
    ensures p.hash == top[a.height]
  {
    AcceptedHeader(a, p, w.hashOf);
    assert Below(|w.o.root|, top, a.height + 1) == Upto(top, a.height);
    HeaderNamesTheChain(w.o, run, chains, steps, top, a.validators, p);
  }

  /** The anchor a header leaves tracks the chain when the header is the chain's block. */
  lemma TracksNext<S>(w: World<S>, s: State, top: seq<Hash>, a: Anchor, m: Move, a': Anchor)
    requires GoodGenesis(w.o.genesis) && a.chainId == w.o.chainId && |w.o.root| <= a.height < |top|
    requires Replay(w.o, Upto(top, a.height + 1)).Some? && Fair(w, s, top, a.height, m)
    requires a.validators == NextValidators(w.o, Upto(top, a.height)) && m.header.hash == top[a.height]
    requires a' == a.(height := a.height + 1, blockHash := m.header.hash,
                      stateRoot := m.header.header.stateRoot, timestampMs := m.header.header.timestampMs)
    ensures Tracks(w, top, a')
  {
    NextScheduled(w.o, top, a.height);
  }

  lemma NextScheduled<S>(o: Origin<S>, top: seq<Hash>, n: nat)
    requires GoodGenesis(o.genesis) && n < |top| && Replay(o, Upto(top, n + 1)).Some?
    ensures ScheduledAt(o, Upto(top, n + 1), n + 1) == NextValidators(o, Upto(top, n))
  {
    var chain, next := Upto(top, n), Upto(top, n + 1);
    assert chain <= next && |chain| == n;
    SchedulesAgree(o, chain, next, n + 1);
  }

  /** One advance of a client that tracks the honest chain tracks it again. */
  lemma AdvanceTracks<S>(
    w: World<S>, run: seq<State>, chains: seq<Chains>, steps: seq<Step>, top: seq<Hash>, a: Anchor, m: Move, a': Anchor)
    requires IsScheduledRun(w.o, run, chains, steps) && IsHonestChain(chains, top) && Authentic(w, top)
    requires Tracks(w, top, a) && a.height < |top| && Fair(w, run[|run| - 1], top, a.height, m) && Advances(w, a, m, a')
    ensures Tracks(w, top, a') && a'.height == a.height + 1
  {
    ProvedSet(w, run[|run| - 1], top, a, m);
    var ready := Activated(a, m.next);
    NextHeader(w, run, chains, steps, top, ready, m.header);
    AcceptedHeader(ready, m.header, w.hashOf);
    AuthenticReplays(w, top, a.height + 1);
    TracksNext(w, run[|run| - 1], top, ready, m, a');
  }

  /** A run, an honest chain of it, and states that hold the schedules. */
  ghost predicate Setting<S>(w: World<S>, run: seq<State>, chains: seq<Chains>, steps: seq<Step>, top: seq<Hash>) {
    IsScheduledRun(w.o, run, chains, steps) && IsHonestChain(chains, top) && Authentic(w, top)
  }

  ghost predicate IsClientMove<S>(w: World<S>, s: State, top: seq<Hash>, a: Anchor, m: Move, a': Anchor) {
    a.height < |top| && Fair(w, s, top, a.height, m) && Advances(w, a, m, a')
  }

  /** How a client came to its anchor. */
  datatype Journey = At(anchor: Anchor) | Then(before: Journey, move: Move, anchor: Anchor)

  function Begin(j: Journey): Anchor {
    if j.At? then j.anchor else Begin(j.before)
  }

  function Moves(j: Journey): nat {
    if j.At? then 0 else Moves(j.before) + 1
  }

  /** Every move of the journey is a careful and fair one within the honest chain. */
  ghost predicate IsJourney<S>(w: World<S>, s: State, top: seq<Hash>, j: Journey) {
    j.Then? ==> IsJourney(w, s, top, j.before) && IsClientMove(w, s, top, j.before.anchor, j.move, j.anchor)
  }

  lemma MoveTracks<S>(
    w: World<S>, run: seq<State>, chains: seq<Chains>, steps: seq<Step>, top: seq<Hash>,
    s: State, a: Anchor, m: Move, a': Anchor)
    requires Setting(w, run, chains, steps, top) && run != [] && s == run[|run| - 1]
    requires Tracks(w, top, a) && IsClientMove(w, s, top, a, m, a')
    ensures Tracks(w, top, a') && a'.height == a.height + 1
  {
    AdvanceTracks(w, run, chains, steps, top, a, m, a');
  }

  /**
   * Main result: in every run, a client that starts on an honest chain and advances carefully ends on the
   * block the honest chain has at its height, with the validators governance put in force there.
   */
  lemma {:induction false} ClientFollowsTheChain<S>(
    w: World<S>, run: seq<State>, chains: seq<Chains>, steps: seq<Step>, top: seq<Hash>, s: State, j: Journey)
    requires Setting(w, run, chains, steps, top) && run != [] && s == run[|run| - 1]
    requires IsJourney(w, s, top, j) && Tracks(w, top, Begin(j))
    ensures Tracks(w, top, j.anchor) && j.anchor.height == Begin(j).height + Moves(j)
    decreases j
  {
    if j.Then? {
      ClientFollowsTheChain(w, run, chains, steps, top, s, j.before);
      MoveTracks(w, run, chains, steps, top, s, j.before.anchor, j.move, j.anchor);
    }
  }

  lemma TrackingAgrees<S>(w: World<S>, top: seq<Hash>, a: Anchor, b: Anchor)
    requires Tracks(w, top, a) && Tracks(w, top, b) && a.height == b.height
    ensures a.validators == b.validators && w.fromHex(a.stateRoot) == w.fromHex(b.stateRoot)
    ensures a.height > 0 ==> a.blockHash == b.blockHash
  {
  }

  /**
   * Two clients that start on one honest chain, wherever they start and whatever proofs and headers they are
   * shown, hold the same block, the same validators and the same state root when they are at the same height.
   */
  lemma GovernedClientsAgree<S>(
    w: World<S>, run: seq<State>, chains: seq<Chains>, steps: seq<Step>, top: seq<Hash>, s: State,
    j: Journey, k: Journey)
    requires Setting(w, run, chains, steps, top) && run != [] && s == run[|run| - 1]
    requires IsJourney(w, s, top, j) && Tracks(w, top, Begin(j))
    requires IsJourney(w, s, top, k) && Tracks(w, top, Begin(k))
    requires j.anchor.height == k.anchor.height
    ensures j.anchor.validators == k.anchor.validators
    ensures w.fromHex(j.anchor.stateRoot) == w.fromHex(k.anchor.stateRoot)
    ensures j.anchor.height > 0 ==> j.anchor.blockHash == k.anchor.blockHash
  {
    ClientFollowsTheChain(w, run, chains, steps, top, s, j);
    ClientFollowsTheChain(w, run, chains, steps, top, s, k);
    TrackingAgrees(w, top, j.anchor, k.anchor);
  }
}
