/**
 * Agreement when the validator sets are not given but read by every node from the chain
 * it finalized itself: the sets of a height are decided by the blocks below it, so
 * agreement on the blocks and agreement on the sets are proved together, by height.
 */
module V6Governed {
  import opened Quorum
  import opened V6Certificates
  import opened V6Agreement

  /**
   * `root`: the chain below the height from which protocol v6 is in force. `next`: the validators of the
   * height after a finalized chain. `accepts`: chains of acceptable blocks.
   */
  datatype Rules = Rules(
    chainId: string, root: seq<Hash>, next: seq<Hash> -> seq<Validator>, accepts: seq<Hash> -> bool)

  /** The chain each honest node finalized. */
  type Chains = map<PublicKey, seq<Hash>>

  /** The part of a chain below height `h`, and at least its first `base` blocks. */
  function Below(base: nat, chain: seq<Hash>, h: nat): seq<Hash> {
    var n := if h <= base then base else h - 1;
    if n <= |chain| then chain[..n] else chain
  }

  /** The validator sets one chain decides from the root on; nobody acts at a lower height. */
  function ConfigOf(rules: Rules, chain: seq<Hash>): Config {
    Config(rules.chainId, (h: nat) => rules.next(Below(|rules.root|, chain, h)))
  }

  function Actor(step: Step): Option<PublicKey> {
    match step
    case ByzantineSigns(_) => None
    case Releases(_) => None
    case ReservesPrepare(key, _, _) => Some(key)
    case ReservesCommit(key, _) => Some(key)
    case ReservesTimeout(key, _, _) => Some(key)
    case ReservesProposal(key, _, _) => Some(key)
    case ReservesFreshBlock(key, _, _) => Some(key)
    case Finalizes(key, _) => Some(key)
  }

  function ActorChain(chains: Chains, step: Step): seq<Hash> {
    if Actor(step).Some? && Actor(step).value in chains then chains[Actor(step).value] else []
  }

  function After(chains: Chains, step: Step): Chains {
    if step.Finalizes? then chains[step.key := ActorChain(chains, step) + [step.block.hash]] else chains
  }

  /** A node judges messages by the validators of its own chain and finalizes acceptable blocks only. */
  ghost predicate GovernedStep(rules: Rules, s: State, chains: Chains, s': State, chains': Chains, step: Step) {
    && NextStep(ConfigOf(rules, ActorChain(chains, step)), s, s', step)
    && (step.Finalizes? ==> rules.accepts(ActorChain(chains, step) + [step.block.hash]))
    && chains' == After(chains, step)
  }

  ghost predicate IsGovernedRun(rules: Rules, run: seq<State>, chains: seq<Chains>, steps: seq<Step>) {
    && |run| == |chains| == |steps| + 1 && Init(run[0])
    && chains[0].Keys == run[0].nodes.Keys && rules.accepts(rules.root)
    && (forall k :: k in chains[0] ==> chains[0][k] == rules.root && run[0].nodes[k].height == |rules.root|)
    && forall i :: 0 <= i < |steps| ==> GovernedStep(rules, run[i], chains[i], run[i + 1], chains[i + 1], steps[i])
  }

  ghost predicate Bounded(vs: seq<Validator>, honest: set<PublicKey>) {
    DistinctValidators(vs) && 3 * |Keys(vs) - honest| < |vs|
  }

  /** Every set a chain decides from the root on has fewer than a third of its members outside the honest keys. */
  ghost predicate Trusted(rules: Rules, honest: set<PublicKey>, chain: seq<Hash>) {
    forall n :: |rules.root| <= n <= |chain| ==> Bounded(rules.next(chain[..n]), honest)
  }

  /** What is asked of a run: the fault bound for the sets that its honest chains decide. */
  ghost predicate RunTrusted(rules: Rules, run: seq<State>, chains: seq<Chains>)
    requires run != []
  {
    && Trusted(rules, run[0].nodes.Keys, rules.root)
    && forall i, k :: 0 <= i < |chains| && k in chains[i] ==> Trusted(rules, run[0].nodes.Keys, chains[i][k])
  }

  lemma TrustedIsFaultBound(rules: Rules, honest: set<PublicKey>, chain: seq<Hash>)
    requires rules.root <= chain && Trusted(rules, honest, chain)
    ensures FaultBound(ConfigOf(rules, chain), honest)
  {
    forall h: nat ensures Bounded(ConfigOf(rules, chain).validatorsAt(h), honest) {
      var n := |Below(|rules.root|, chain, h)|;
      assert Below(|rules.root|, chain, h) == chain[..n];
      assert Bounded(rules.next(chain[..n]), honest);
    }
  }

  // -------------------------------------------------------------------------
  // A step only depends on the set of the acting node's next height
  // -------------------------------------------------------------------------

  lemma SameSetSameStep(c: Config, c': Config, s: State, s': State, step: Step)
    requires c.chainId == c'.chainId && NextStep(c, s, s', step)
    requires var a := Actor(step);
      a.Some? && a.value in s.nodes ==>
        c.validatorsAt(s.nodes[a.value].height + 1) == c'.validatorsAt(s.nodes[a.value].height + 1)
    ensures NextStep(c', s, s', step)
  {
    match step
    case ByzantineSigns(sig) =>
    case Releases(sig) =>
    case ReservesPrepare(key, request, justify) => assert PrepareStep(c', s, s', key, request, justify);
    case ReservesCommit(key, qc) => assert CommitStep(c', s, s', key, qc);
    case ReservesTimeout(key, round, highQC) => assert TimeoutStep(c', s, s', key, round, highQC);
    case ReservesProposal(key, request, justify) => assert ProposalStep(c', s, s', key, request, justify);
    case ReservesFreshBlock(key, header, hash) =>
    case Finalizes(key, block) => assert FinalizeStep(c', s, s', key, block);
  }

  lemma SetsOfPrefix(rules: Rules, chain: seq<Hash>, longer: seq<Hash>, h: nat)
    requires rules.root <= chain <= longer && h <= |chain| + 1
    ensures ConfigOf(rules, chain).validatorsAt(h) == ConfigOf(rules, longer).validatorsAt(h)
  {
    assert Below(|rules.root|, chain, h) == Below(|rules.root|, longer, h);
  }

  /** A node's heights and chain belong together, and its chain lies between the root and the common one. */
  ghost predicate Follows(root: seq<Hash>, s: State, chains: Chains, common: seq<Hash>) {
    && chains.Keys == s.nodes.Keys && root <= common
    && forall k :: k in chains ==> |chains[k]| == s.nodes[k].height && root <= chains[k] <= common
  }

  lemma StepUnderCommon(rules: Rules, s: State, chains: Chains, s': State, chains': Chains, step: Step,
                        common: seq<Hash>)
    requires GovernedStep(rules, s, chains, s', chains', step) && Follows(rules.root, s, chains, common)
    ensures NextStep(ConfigOf(rules, common), s, s', step)
  {
    var chain, a := ActorChain(chains, step), Actor(step);
    if a.Some? && a.value in s.nodes {
      SetsOfPrefix(rules, chain, common, |chain| + 1);
    }
    SameSetSameStep(ConfigOf(rules, chain), ConfigOf(rules, common), s, s', step);
  }

  lemma StepUnderLonger(rules: Rules, s: State, chains: Chains, s': State, step: Step, common: seq<Hash>,
                        longer: seq<Hash>)
    requires NextStep(ConfigOf(rules, common), s, s', step)
    requires Follows(rules.root, s, chains, common) && common <= longer
    ensures NextStep(ConfigOf(rules, longer), s, s', step)
  {
    var a := Actor(step);
    if a.Some? && a.value in s.nodes {
      SetsOfPrefix(rules, common, longer, s.nodes[a.value].height + 1);
    }
    SameSetSameStep(ConfigOf(rules, common), ConfigOf(rules, longer), s, s', step);
  }

  // -------------------------------------------------------------------------
  // The induction: one common chain, certified, that every honest chain begins
  // -------------------------------------------------------------------------

  /** A commit certificate for entry `g` of the chain, valid under the set the entries below decide. */
  ghost predicate IsCertificate(rules: Rules, s: State, chain: seq<Hash>, g: nat, block: Block)
    requires g < |chain|
  {
    && block.header.chainId == rules.chainId && block.header.height == g + 1 && block.hash == chain[g]
    && ValidCommitCertificate(block, rules.next(chain[..g])) && KnownVotes(s, block.attestations)
  }

  ghost predicate HasCertificate(rules: Rules, s: State, chain: seq<Hash>, g: nat)
    requires g < |chain|
  {
    exists block :: IsCertificate(rules, s, chain, g, block)
  }

  ghost predicate Certified(rules: Rules, s: State, chain: seq<Hash>) {
    forall g :: |rules.root| <= g < |chain| ==> HasCertificate(rules, s, chain, g)
  }

  /** The first `n` steps are a run under the sets of the common chain. */
  ghost predicate Unified(rules: Rules, run: seq<State>, chains: seq<Chains>, steps: seq<Step>, n: nat,
                          common: seq<Hash>)
    requires |run| == |chains| == |steps| + 1 && n <= |steps|
  {
    && IsRun(ConfigOf(rules, common), run[..n + 1], steps[..n])
    && (forall i :: 0 <= i <= n ==> Follows(rules.root, run[i], chains[i], common))
    && rules.root <= common && Certified(rules, run[n], common) && Trusted(rules, run[0].nodes.Keys, common)
    && run[n].nodes.Keys == run[0].nodes.Keys
  }

  lemma CertifiedGrows(rules: Rules, s: State, s': State, chain: seq<Hash>)
    requires Certified(rules, s, chain) && s.signed <= s'.signed
    ensures Certified(rules, s', chain)
  {
    forall g | |rules.root| <= g < |chain| ensures HasCertificate(rules, s', chain, g) {
      assert HasCertificate(rules, s, chain, g);
      var block :| IsCertificate(rules, s, chain, g, block);
      assert IsCertificate(rules, s', chain, g, block);
    }
  }

  lemma CertifiedMore(rules: Rules, s: State, chain: seq<Hash>, block: Block)
    requires Certified(rules, s, chain)
    requires block.header.chainId == rules.chainId && block.header.height == |chain| + 1
    requires ValidCommitCertificate(block, rules.next(chain)) && KnownVotes(s, block.attestations)
    ensures Certified(rules, s, chain + [block.hash])
  {
    var more := chain + [block.hash];
    forall g | |rules.root| <= g < |more| ensures HasCertificate(rules, s, more, g) {
      assert more[..g] == chain[..g];
      if g == |chain| {
        assert chain[..g] == chain;
        assert IsCertificate(rules, s, more, g, block);
      } else {
        assert HasCertificate(rules, s, chain, g);
        var b :| IsCertificate(rules, s, chain, g, b);
        assert IsCertificate(rules, s, more, g, b);
      }
    }
  }

  /** The same run under the sets of a longer common chain. */
  lemma RunUnderLonger(rules: Rules, run: seq<State>, chains: seq<Chains>, steps: seq<Step>, n: nat,
                       common: seq<Hash>, longer: seq<Hash>)
    requires |run| == |chains| == |steps| + 1 && n <= |steps| && common <= longer
    requires IsRun(ConfigOf(rules, common), run[..n + 1], steps[..n])
    requires forall i :: 0 <= i <= n ==> Follows(rules.root, run[i], chains[i], common)
    ensures IsRun(ConfigOf(rules, longer), run[..n + 1], steps[..n])
  {
    var c, part, taken := ConfigOf(rules, longer), run[..n + 1], steps[..n];
    forall i | 0 <= i < n ensures NextStep(c, part[i], part[i + 1], taken[i]) {
      assert NextStep(ConfigOf(rules, common), part[i], part[i + 1], taken[i]);
      assert Follows(rules.root, run[i], chains[i], common);
      StepUnderLonger(rules, run[i], chains[i], run[i + 1], steps[i], common, longer);
    }
  }

  lemma RunSnoc(c: Config, run: seq<State>, steps: seq<Step>, n: nat)
    requires |run| == |steps| + 1 && n < |steps|
    requires IsRun(c, run[..n + 1], steps[..n]) && NextStep(c, run[n], run[n + 1], steps[n])
    ensures IsRun(c, run[..n + 2], steps[..n + 1])
  {
    var before, taken := run[..n + 1], steps[..n];
    var after, more := run[..n + 2], steps[..n + 1];
    forall i | 0 <= i < n + 1 ensures NextStep(c, after[i], after[i + 1], more[i]) {
      if i < n { assert NextStep(c, before[i], before[i + 1], taken[i]); }
    }
  }

  /** A block finalized where the common chain already has one is that block. */
  lemma FinalizesTheCommonBlock(rules: Rules, run: seq<State>, chains: seq<Chains>, steps: seq<Step>, n: nat,
                                common: seq<Hash>, vs: seq<Validator>, block: Block, g: nat)
    requires |run| == |chains| == |steps| + 1 && n <= |steps| && Unified(rules, run, chains, steps, n, common)
    requires |rules.root| <= g < |common| && block.header.chainId == rules.chainId && block.header.height == g + 1
    requires vs == rules.next(common[..g]) && ValidCommitCertificate(block, vs)
    requires KnownVotes(run[n], block.attestations)
    ensures block.hash == common[g]
  {
    var c := ConfigOf(rules, common);
    TrustedIsFaultBound(rules, run[0].nodes.Keys, common);
    assert HasCertificate(rules, run[n], common, g);
    var other :| IsCertificate(rules, run[n], common, g, other);
    assert Below(|rules.root|, common, g + 1) == common[..g];
    AgreementUnder(c, run[..n + 1], steps[..n], vs, block, other);
  }

  /** What a governed finalization shows. */
  lemma FinalizedBlock(rules: Rules, s: State, chains: Chains, s': State, chains': Chains, step: Step,
                       common: seq<Hash>)
    requires GovernedStep(rules, s, chains, s', chains', step) && step.Finalizes?
    requires Follows(rules.root, s, chains, common)
    ensures step.key in chains && chains' == chains[step.key := chains[step.key] + [step.block.hash]]
    ensures var chain := chains[step.key];
      && step.block.header.chainId == rules.chainId && step.block.header.height == |chain| + 1
      && ValidCommitCertificate(step.block, rules.next(chain)) && KnownVotes(s, step.block.attestations)
  {
    var chain := ActorChain(chains, step);
    assert FinalizeStep(ConfigOf(rules, chain), s, s', step.key, step.block);
    assert Below(|rules.root|, chain, |chain| + 1) == chain;
  }

  lemma FollowsAfter(rules: Rules, c: Config, s: State, chains: Chains, s': State, step: Step, common: seq<Hash>,
                     longer: seq<Hash>)
    requires NextStep(c, s, s', step) && Follows(rules.root, s, chains, common) && common <= longer
    requires step.Finalizes? ==> step.key in chains && chains[step.key] + [step.block.hash] <= longer
    ensures Follows(rules.root, s', After(chains, step), longer)
  {
    StepShape(c, s, s', step);
  }

  /** Where a finalization leaves the common chain. */
  lemma NextCommon(rules: Rules, run: seq<State>, chains: seq<Chains>, steps: seq<Step>, n: nat, common: seq<Hash>,
                   chain: seq<Hash>, block: Block) returns (longer: seq<Hash>)
    requires |run| == |chains| == |steps| + 1 && n < |steps| && Unified(rules, run, chains, steps, n, common)
    requires rules.root <= chain <= common && Trusted(rules, run[0].nodes.Keys, chain + [block.hash])
    requires block.header.chainId == rules.chainId && block.header.height == |chain| + 1
    requires ValidCommitCertificate(block, rules.next(chain)) && KnownVotes(run[n], block.attestations)
    ensures common <= longer && chain + [block.hash] <= longer
    ensures Certified(rules, run[n], longer) && Trusted(rules, run[0].nodes.Keys, longer)
  {
    longer := common;
    assert chain == common[..|chain|];
    if |chain| < |common| {
      FinalizesTheCommonBlock(rules, run, chains, steps, n, common, rules.next(chain), block, |chain|);
    } else {
      longer := common + [block.hash];
      assert chain == common;
      CertifiedMore(rules, run[n], common, block);
    }
  }

  lemma StepsOn(rules: Rules, run: seq<State>, chains: seq<Chains>, steps: seq<Step>, n: nat, common: seq<Hash>)
    returns (longer: seq<Hash>)
    requires IsGovernedRun(rules, run, chains, steps) && RunTrusted(rules, run, chains) && n < |steps|
    requires Unified(rules, run, chains, steps, n, common)
    ensures common <= longer && Certified(rules, run[n], longer) && Trusted(rules, run[0].nodes.Keys, longer)
    ensures Follows(rules.root, run[n + 1], chains[n + 1], longer)
  {
    var step := steps[n];
    longer := common;
    assert GovernedStep(rules, run[n], chains[n], run[n + 1], chains[n + 1], step);
    assert Follows(rules.root, run[n], chains[n], common);
    if step.Finalizes? {
      FinalizedBlock(rules, run[n], chains[n], run[n + 1], chains[n + 1], step, common);
      var chain := chains[n][step.key];
      assert chains[n + 1][step.key] == chain + [step.block.hash];
      longer := NextCommon(rules, run, chains, steps, n, common, chain, step.block);
    }
    var c := ConfigOf(rules, ActorChain(chains[n], step));
    FollowsAfter(rules, c, run[n], chains[n], run[n + 1], step, common, longer);
  }

  lemma UnifiedAtStart(rules: Rules, run: seq<State>, chains: seq<Chains>, steps: seq<Step>)
    requires IsGovernedRun(rules, run, chains, steps) && RunTrusted(rules, run, chains)
    ensures Unified(rules, run, chains, steps, 0, rules.root)
  {
    assert run[..1] == [run[0]] && steps[..0] == [];
  }

  lemma UnifiedMore(rules: Rules, run: seq<State>, chains: seq<Chains>, steps: seq<Step>, n: nat,
                    common: seq<Hash>, longer: seq<Hash>)
    requires IsGovernedRun(rules, run, chains, steps) && n < |steps| && Unified(rules, run, chains, steps, n, common)
    requires common <= longer && Certified(rules, run[n], longer) && Trusted(rules, run[0].nodes.Keys, longer)
    requires Follows(rules.root, run[n + 1], chains[n + 1], longer)
    ensures Unified(rules, run, chains, steps, n + 1, longer)
  {
    RunUnderLonger(rules, run, chains, steps, n, common, longer);
    forall i | 0 <= i <= n ensures Follows(rules.root, run[i], chains[i], longer) {
      assert Follows(rules.root, run[i], chains[i], common);
    }
    StepUnderCommon(rules, run[n], chains[n], run[n + 1], chains[n + 1], steps[n], longer);
    RunSnoc(ConfigOf(rules, longer), run, steps, n);
    StepShape(ConfigOf(rules, longer), run[n], run[n + 1], steps[n]);
    CertifiedGrows(rules, run[n], run[n + 1], longer);
  }

  lemma UnifiedNext(rules: Rules, run: seq<State>, chains: seq<Chains>, steps: seq<Step>, n: nat, common: seq<Hash>)
    returns (longer: seq<Hash>)
    requires IsGovernedRun(rules, run, chains, steps) && RunTrusted(rules, run, chains) && n < |steps|
    requires Unified(rules, run, chains, steps, n, common)
    ensures Unified(rules, run, chains, steps, n + 1, longer)
  {
    longer := StepsOn(rules, run, chains, steps, n, common);
    UnifiedMore(rules, run, chains, steps, n, common, longer);
  }

  /** The induction over the steps. */
  lemma CommonChain(rules: Rules, run: seq<State>, chains: seq<Chains>, steps: seq<Step>) returns (common: seq<Hash>)
    requires IsGovernedRun(rules, run, chains, steps) && RunTrusted(rules, run, chains)
    ensures Unified(rules, run, chains, steps, |steps|, common)
  {
    common := rules.root;
    UnifiedAtStart(rules, run, chains, steps);
    for n := 0 to |steps|
      invariant Unified(rules, run, chains, steps, n, common)
    {
      common := UnifiedNext(rules, run, chains, steps, n, common);
    }
  }

  // -------------------------------------------------------------------------
  // Agreement
  // -------------------------------------------------------------------------

  /** In every governed run the chains any two honest nodes hold at any two times agree: one begins the other. */
  lemma HonestChainsAgree(rules: Rules, run: seq<State>, chains: seq<Chains>, steps: seq<Step>,
                          i: nat, k: PublicKey, j: nat, k': PublicKey)
    requires IsGovernedRun(rules, run, chains, steps) && RunTrusted(rules, run, chains)
    requires i < |chains| && k in chains[i] && j < |chains| && k' in chains[j]
    ensures chains[i][k] <= chains[j][k'] || chains[j][k'] <= chains[i][k]
  {
    var common := CommonChain(rules, run, chains, steps);
    assert Follows(rules.root, run[i], chains[i], common) && Follows(rules.root, run[j], chains[j], common);
  }

  /**
   * Main result: two commit certificates of one height, each valid under the validators that some
   * honest node's own chain decides for that height, name the same block.
   */
  lemma GovernedAgreement(
    rules: Rules, run: seq<State>, chains: seq<Chains>, steps: seq<Step>,
    i: nat, k: PublicKey, block: Block, j: nat, k': PublicKey, block': Block)
    requires IsGovernedRun(rules, run, chains, steps) && RunTrusted(rules, run, chains)
    requires i < |chains| && k in chains[i] && j < |chains| && k' in chains[j]
    requires block.header.chainId == rules.chainId == block'.header.chainId
    requires |rules.root| < block.header.height == block'.header.height
    requires block.header.height <= |chains[i][k]| + 1 && block.header.height <= |chains[j][k']| + 1
    requires ValidCommitCertificate(block, rules.next(Below(|rules.root|, chains[i][k], block.header.height)))
    requires ValidCommitCertificate(block', rules.next(Below(|rules.root|, chains[j][k'], block.header.height)))
    requires KnownVotes(run[|run| - 1], block.attestations) && KnownVotes(run[|run| - 1], block'.attestations)
    ensures block.hash == block'.hash
  {
    var common := CommonChain(rules, run, chains, steps);
    assert Follows(rules.root, run[i], chains[i], common) && Follows(rules.root, run[j], chains[j], common);
    BeginsSame(|rules.root|, chains[i][k], common, block.header.height);
    BeginsSame(|rules.root|, chains[j][k'], common, block.header.height);
    UnifiedAgreement(rules, run, chains, steps, common, block, block');
  }

  /** A certificate of a height an honest chain has reached, valid under the set in force there, names its block. */
  lemma CertificateNamesTheChain(
    rules: Rules, run: seq<State>, chains: seq<Chains>, steps: seq<Step>, i: nat, k: PublicKey, block: Block)
    requires IsGovernedRun(rules, run, chains, steps) && RunTrusted(rules, run, chains)
    requires i < |chains| && k in chains[i]
    requires block.header.chainId == rules.chainId && |rules.root| < block.header.height <= |chains[i][k]|
    requires ValidCommitCertificate(block, rules.next(Below(|rules.root|, chains[i][k], block.header.height)))
    requires KnownVotes(run[|run| - 1], block.attestations)
    ensures block.hash == chains[i][k][block.header.height - 1]
  {
    var g := block.header.height - 1;
    var vs := rules.next(Below(|rules.root|, chains[i][k], block.header.height));
    var common := CommonChain(rules, run, chains, steps);
    assert Follows(rules.root, run[i], chains[i], common);
    assert Below(|rules.root|, chains[i][k], block.header.height) == common[..g];
    FinalizesTheCommonBlock(rules, run, chains, steps, |steps|, common, vs, block, g);
  }

  lemma BeginsSame(base: nat, chain: seq<Hash>, common: seq<Hash>, h: nat)
    requires chain <= common && base <= |chain| && h <= |chain| + 1
    ensures Below(base, chain, h) == Below(base, common, h)
  {
  }

  lemma UnifiedAgreement(rules: Rules, run: seq<State>, chains: seq<Chains>, steps: seq<Step>, common: seq<Hash>,
                         block: Block, block': Block)
    requires |run| == |chains| == |steps| + 1 && Unified(rules, run, chains, steps, |steps|, common)
    requires block.header.chainId == rules.chainId == block'.header.chainId
    requires block.header.height == block'.header.height
    requires ValidCommitCertificate(block, rules.next(Below(|rules.root|, common, block.header.height)))
    requires ValidCommitCertificate(block', rules.next(Below(|rules.root|, common, block.header.height)))
    requires KnownVotes(run[|run| - 1], block.attestations) && KnownVotes(run[|run| - 1], block'.attestations)
    ensures block.hash == block'.hash
  {
    var c := ConfigOf(rules, common);
    assert run[..|steps| + 1] == run && steps[..|steps|] == steps;
    TrustedIsFaultBound(rules, run[0].nodes.Keys, common);
    AgreementUnder(c, run, steps, c.validatorsAt(block.header.height), block, block');
  }
}
