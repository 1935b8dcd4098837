/**
 * Finality and governance together: the validators of a height are those that the
 * governance transactions of the finalized blocks below it put in force
 * (l1/src/chain.ts), and a node may read them from its own schedule 100 blocks ahead.
 */
module ScheduledAgreement {
  import opened Quorum
  import opened V6Certificates
  import opened V6Agreement
  import opened V6Governed
  import opened GovernanceRuns
  import opened Governance

  const AHEAD := MIN_UPDATE_DELAY

  /**
   * The genesis, its ledger, the contents of a block, which its hash determines, and the chain below
   * the height from which protocol v6 is in force.
   */
  datatype Origin<!S> = Origin(
    chainId: string, genesis: Genesis, ledger: S, bodyOf: Hash -> BlockInput<S>, root: seq<Hash>)

  function Start<S>(o: Origin<S>): ChainState<S> {
    ChainState(0, GenesisSchedules(o.genesis), o.ledger)
  }

  function Bodies<S>(o: Origin<S>, chain: seq<Hash>): (blocks: seq<BlockInput<S>>)
    ensures |blocks| == |chain| && forall i :: 0 <= i < |chain| ==> blocks[i] == o.bodyOf(chain[i])
  {
    seq<BlockInput<S>>(|chain|, i requires 0 <= i < |chain| => o.bodyOf(chain[i]))
  }

  /** The chain state after the blocks of a chain, from genesis; None where one of them is refused. */
  function Replay<S>(o: Origin<S>, chain: seq<Hash>): Option<ChainState<S>> {
    AcceptAll(o.genesis, Start(o), Bodies(o, chain))
  }

  /** The validators a chain's schedule names for a height. */
  function ScheduledAt<S>(o: Origin<S>, chain: seq<Hash>, h: nat): seq<Validator> {
    match Replay(o, chain)
    case Some(cs) => ValidatorsAt(o.genesis, cs.schedules, h)
    case None => []
  }

  /** The validators in force at the height after the chain. */
  function NextValidators<S>(o: Origin<S>, chain: seq<Hash>): seq<Validator> {
    ScheduledAt(o, chain, |chain| + 1)
  }

  function RulesOf<S>(o: Origin<S>): Rules {
    Rules(o.chainId, o.root, (chain: seq<Hash>) => NextValidators(o, chain),
          (chain: seq<Hash>) => Replay(o, chain).Some?)
  }

  // ---- Replaying ----------------------------------------------------------------

  /** An accepted chain continues the chain state of any of its beginnings. */
  lemma ReplayContinues<S>(o: Origin<S>, chain: seq<Hash>, longer: seq<Hash>)
    requires chain <= longer && Replay(o, longer).Some?
    ensures Replay(o, chain).Some?
    ensures AcceptAll(o.genesis, Replay(o, chain).value, Bodies(o, longer[|chain|..])) == Replay(o, longer)
  {
    var rest := longer[|chain|..];
    assert longer == chain + rest;
    assert Bodies(o, longer) == Bodies(o, chain) + Bodies(o, rest);
    AcceptAllConcat(o.genesis, Start(o), Bodies(o, chain), Bodies(o, rest));
  }

  lemma ReplayedState<S>(o: Origin<S>, chain: seq<Hash>)
    requires GoodGenesis(o.genesis) && Replay(o, chain).Some?
    ensures var cs := Replay(o, chain).value;
      GoodSchedules(o.genesis, cs.schedules) && cs.height == |chain|
  {
    RunKeeps(o.genesis, Start(o), Bodies(o, chain));
  }

  /** The schedule of a chain and that of any continuation agree on the next 100 heights. */
  lemma SchedulesAgree<S>(o: Origin<S>, chain: seq<Hash>, longer: seq<Hash>, h: nat)
    requires GoodGenesis(o.genesis) && chain <= longer && Replay(o, longer).Some? && h <= |chain| + AHEAD
    ensures Replay(o, chain).Some?
    ensures ScheduledAt(o, longer, h) == ScheduledAt(o, chain, h)
  {
    ReplayContinues(o, chain, longer);
    ReplayedState(o, chain);
    NearFutureIsFixed(o.genesis, Replay(o, chain).value, Bodies(o, longer[|chain|..]), h);
  }

  /** What governance puts in force always has distinct members. */
  lemma ScheduledSetsDistinct<S>(o: Origin<S>, chain: seq<Hash>)
    requires GoodGenesis(o.genesis) && Replay(o, chain).Some?
    ensures DistinctValidators(NextValidators(o, chain))
  {
    ReplayedState(o, chain);
    var entries := Replay(o, chain).value.schedules.validators;
    var i := InForceIndex(entries, |chain| + 1);
  }

  // ---- Runs ---------------------------------------------------------------------

  ghost predicate Accepted<S>(o: Origin<S>, chains: Chains) {
    forall k :: k in chains ==> Replay(o, chains[k]).Some?
  }

  lemma {:induction false} HonestChainsAccepted<S>(
    o: Origin<S>, run: seq<State>, chains: seq<Chains>, steps: seq<Step>, i: nat)
    requires IsGovernedRun(RulesOf(o), run, chains, steps) && i < |chains|
    ensures Accepted(o, chains[i])
  {
    if i > 0 {
      HonestChainsAccepted(o, run, chains, steps, i - 1);
      assert GovernedStep(RulesOf(o), run[i - 1], chains[i - 1], run[i], chains[i], steps[i - 1]);
    }
  }

  /** The only assumption on the sets: fewer than a third of each set the honest chains put in force is faulty. */
  ghost predicate FewFaulty<S>(o: Origin<S>, honest: set<PublicKey>, chain: seq<Hash>) {
    forall n :: |o.root| <= n <= |chain| ==> FewFaultyIn(NextValidators(o, chain[..n]), honest)
  }

  ghost predicate FewFaultyIn(vs: seq<Validator>, honest: set<PublicKey>) {
    3 * |Keys(vs) - honest| < |vs|
  }

  ghost predicate RunFewFaulty<S>(o: Origin<S>, honest: set<PublicKey>, chains: seq<Chains>) {
    && FewFaulty(o, honest, o.root)
    && forall i, k :: 0 <= i < |chains| && k in chains[i] ==> FewFaulty(o, honest, chains[i][k])
  }

  lemma FewFaultyIsTrusted<S>(o: Origin<S>, honest: set<PublicKey>, chain: seq<Hash>)
    requires GoodGenesis(o.genesis) && Replay(o, chain).Some? && FewFaulty(o, honest, chain)
    ensures Trusted(RulesOf(o), honest, chain)
  {
    var rules := RulesOf(o);
    forall n | |o.root| <= n <= |chain| ensures Bounded(rules.next(chain[..n]), honest) {
      ReplayContinues(o, chain[..n], chain);
      ScheduledSetsDistinct(o, chain[..n]);
      assert FewFaultyIn(NextValidators(o, chain[..n]), honest);
    }
  }

  lemma ScheduledRunTrusted<S>(o: Origin<S>, run: seq<State>, chains: seq<Chains>, steps: seq<Step>)
    requires GoodGenesis(o.genesis) && IsGovernedRun(RulesOf(o), run, chains, steps)
    requires RunFewFaulty(o, run[0].nodes.Keys, chains)
    ensures RunTrusted(RulesOf(o), run, chains)
  {
    var rules, honest := RulesOf(o), run[0].nodes.Keys;
    FewFaultyIsTrusted(o, honest, o.root);
    forall i, k | 0 <= i < |chains| && k in chains[i] ensures Trusted(rules, honest, chains[i][k]) {
      HonestChainsAccepted(o, run, chains, steps, i);
      FewFaultyIsTrusted(o, honest, chains[i][k]);
    }
  }

  /** What one chain's schedule says of a height within 100 blocks is what another chain puts in force there. */
  lemma ReadsTheSame<S>(o: Origin<S>, a: seq<Hash>, b: seq<Hash>, h: nat)
    requires GoodGenesis(o.genesis) && (a <= b || b <= a)
    requires Replay(o, a).Some? && Replay(o, b).Some?
    requires |o.root| < h <= |b| + 1 && h <= |a| + AHEAD
    ensures ScheduledAt(o, a, h) == NextValidators(o, Below(|o.root|, b, h))
  {
    var below := Below(|o.root|, b, h);
    assert below == b[..h - 1] && |below| == h - 1;
    ReplayContinues(o, below, b);
    if |a| <= |below| {
      assert a <= below;
      SchedulesAgree(o, a, below, h);
    } else {
      assert below <= a;
      SchedulesAgree(o, below, a, h);
    }
  }

  /** A run from an accepted chain in which fewer than a third of every set in force is faulty. */
  ghost predicate IsScheduledRun<S>(o: Origin<S>, run: seq<State>, chains: seq<Chains>, steps: seq<Step>) {
    && GoodGenesis(o.genesis) && IsGovernedRun(RulesOf(o), run, chains, steps)
    && RunFewFaulty(o, run[0].nodes.Keys, chains)
  }

  ghost predicate IsHonestChain(chains: seq<Chains>, chain: seq<Hash>) {
    exists i, k :: 0 <= i < |chains| && k in chains[i] && chains[i][k] == chain
  }

  lemma HonestChainsMatch<S>(
    o: Origin<S>, run: seq<State>, chains: seq<Chains>, steps: seq<Step>, a: seq<Hash>, b: seq<Hash>)
    requires IsScheduledRun(o, run, chains, steps) && IsHonestChain(chains, a) && IsHonestChain(chains, b)
    ensures (a <= b || b <= a) && Replay(o, a).Some? && Replay(o, b).Some?
  {
    var i, k :| 0 <= i < |chains| && k in chains[i] && chains[i][k] == a;
    var j, k' :| 0 <= j < |chains| && k' in chains[j] && chains[j][k'] == b;
    ScheduledRunTrusted(o, run, chains, steps);
    HonestChainsAccepted(o, run, chains, steps, i);
    HonestChainsAccepted(o, run, chains, steps, j);
    HonestChainsAgree(RulesOf(o), run, chains, steps, i, k, j, k');
  }

  /**
   * Honest nodes read the validators of a height from their own schedules, up to 100 blocks ahead, and read
   * the same.
   */
  lemma HonestNodesReadTheSame<S>(
    o: Origin<S>, run: seq<State>, chains: seq<Chains>, steps: seq<Step>, a: seq<Hash>, top: seq<Hash>, h: nat)
    requires IsScheduledRun(o, run, chains, steps) && IsHonestChain(chains, a) && IsHonestChain(chains, top)
    requires |o.root| < h <= |top| + 1 && h <= |a| + AHEAD
    ensures ScheduledAt(o, a, h) == NextValidators(o, Below(|o.root|, top, h))
  {
    HonestChainsMatch(o, run, chains, steps, a, top);
    ReadsTheSame(o, a, top, h);
  }

  lemma InForceAgreement<S>(
    o: Origin<S>, run: seq<State>, chains: seq<Chains>, steps: seq<Step>, top: seq<Hash>,
    vs: seq<Validator>, block: Block, block': Block)
    requires IsScheduledRun(o, run, chains, steps) && IsHonestChain(chains, top)
    requires block.header.chainId == o.chainId == block'.header.chainId
    requires |o.root| < block.header.height == block'.header.height <= |top| + 1
    requires vs == NextValidators(o, Below(|o.root|, top, block.header.height))
    requires ValidCommitCertificate(block, vs) && ValidCommitCertificate(block', vs)
    requires KnownVotes(run[|run| - 1], block.attestations) && KnownVotes(run[|run| - 1], block'.attestations)
    ensures block.hash == block'.hash
  {
    var m, k :| 0 <= m < |chains| && k in chains[m] && chains[m][k] == top;
    ScheduledRunTrusted(o, run, chains, steps);
    GovernedAgreement(RulesOf(o), run, chains, steps, m, k, block, m, k, block');
  }

  /**
   * Main result: two commit certificates of one height, each checked against the validators an honest
   * node reads for that height from its own governance schedule, up to 100 blocks ahead of its tip,
   * name the same block. `top` is an honest chain that reaches the height below.
   */
  lemma ScheduledCertificatesAgree<S>(
    o: Origin<S>, run: seq<State>, chains: seq<Chains>, steps: seq<Step>, top: seq<Hash>,
    a: seq<Hash>, block: Block, b: seq<Hash>, block': Block)
    requires IsScheduledRun(o, run, chains, steps)
    requires IsHonestChain(chains, a) && IsHonestChain(chains, b) && IsHonestChain(chains, top)
    requires block.header.chainId == o.chainId == block'.header.chainId && block.header.height == block'.header.height
    requires |o.root| < block.header.height <= |top| + 1
    requires block.header.height <= |a| + AHEAD && block.header.height <= |b| + AHEAD
    requires ValidCommitCertificate(block, ScheduledAt(o, a, block.header.height))
    requires ValidCommitCertificate(block', ScheduledAt(o, b, block.header.height))
    requires KnownVotes(run[|run| - 1], block.attestations) && KnownVotes(run[|run| - 1], block'.attestations)
    ensures block.hash == block'.hash
  {
    var h := block.header.height;
    HonestNodesReadTheSame(o, run, chains, steps, a, top, h);
    HonestNodesReadTheSame(o, run, chains, steps, b, top, h);
    InForceAgreement(o, run, chains, steps, top, ScheduledAt(o, a, h), block, block');
  }
}
