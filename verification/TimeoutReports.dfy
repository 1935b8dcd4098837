/**
 * What the assembled timeout certificate carries compared with all valid responses
 * received: the highest QC over every valid response, or only over the last one of
 * each validator (l1/src/node.ts, assembleTimeoutCertificate).
 */
module TimeoutReports {
  import opened Quorum
  import opened Strings
  import opened V6Certificates
  import opened SigningJournal
  import opened V6Agreement
  import opened TimeoutAssembly

  function CarriedRound(highest: Option<PrepareQC>): int {
    if highest.Some? then highest.value.round else -1
  }

  predicate ValidAt(responses: seq<TimeoutResponse>, i: int, vs: seq<Validator>, chainId: string, height: nat,
                    round: nat)
  {
    0 <= i < |responses| && ValidTimeoutResponse(responses[i], vs, chainId, height, round)
  }

  /** The documented obligation: `m` is the highest round any valid response reports, -1 when none reports one. */
  ghost predicate HighestOfAll(responses: seq<TimeoutResponse>, m: int, vs: seq<Validator>, chainId: string,
                               height: nat, round: nat)
  {
    && (forall i :: ValidAt(responses, i, vs, chainId, height, round) ==> responses[i].vote.highQCRound <= m)
    && (m == -1 || exists i :: ValidAt(responses, i, vs, chainId, height, round) && responses[i].vote.highQCRound == m)
  }

  /** Some counted response reports at least the round that response `i` reports. */
  ghost predicate Matched(responses: seq<TimeoutResponse>, i: int, vs: seq<Validator>, chainId: string, height: nat,
                          round: nat)
    requires 0 <= i < |responses|
  {
    exists j ::
      && Counts(responses, j, vs, chainId, height, round)
      && responses[i].vote.highQCRound <= responses[j].vote.highQCRound
  }

  /** A counted report is at most the carried round, and the carried round is a counted report. */
  lemma CountedReports(responses: seq<TimeoutResponse>, kept: seq<TimeoutResponse>, highest: Option<PrepareQC>,
                       vs: seq<Validator>, chainId: string, height: nat, round: nat)
    requires Collected(responses, kept, highest, vs, chainId, height, round)
    ensures forall j :: Counts(responses, j, vs, chainId, height, round) ==>
      responses[j].vote.highQCRound <= CarriedRound(highest)
    ensures highest.Some? ==>
      exists j ::
        && Counts(responses, j, vs, chainId, height, round)
        && responses[j].vote.highQCRound == CarriedRound(highest)
  {
    forall j | Counts(responses, j, vs, chainId, height, round)
      ensures responses[j].vote.highQCRound <= CarriedRound(highest)
    {
      assert IsCounted(responses, responses[j], vs, chainId, height, round);
      assert responses[j] in kept;
    }
    if highest.Some? {
      var r :| r in kept && r.highQC == highest;
      assert IsCounted(responses, r, vs, chainId, height, round);
    }
  }

  /**
   * Main result: the certificate carries the highest QC of all valid responses exactly when every
   * valid response its sender superseded is matched by a counted one.
   */
  lemma HighestOfAllIff(responses: seq<TimeoutResponse>, kept: seq<TimeoutResponse>, highest: Option<PrepareQC>,
                        vs: seq<Validator>, chainId: string, height: nat, round: nat)
    requires Collected(responses, kept, highest, vs, chainId, height, round)
    ensures HighestOfAll(responses, CarriedRound(highest), vs, chainId, height, round) <==>
      forall i ::
        ValidAt(responses, i, vs, chainId, height, round) && !Counts(responses, i, vs, chainId, height, round) ==>
        Matched(responses, i, vs, chainId, height, round)
  {
    CountedReports(responses, kept, highest, vs, chainId, height, round);
    if HighestOfAll(responses, CarriedRound(highest), vs, chainId, height, round) {
      forall i | ValidAt(responses, i, vs, chainId, height, round)
        ensures Matched(responses, i, vs, chainId, height, round)
      {
        AtLeastCounted(responses, kept, highest, vs, chainId, height, round, i);
      }
    } else if highest.Some? {
      var j :|
        Counts(responses, j, vs, chainId, height, round) && responses[j].vote.highQCRound == CarriedRound(highest);
      assert ValidAt(responses, j, vs, chainId, height, round);
    }
  }

  lemma AtLeastCounted(responses: seq<TimeoutResponse>, kept: seq<TimeoutResponse>, highest: Option<PrepareQC>,
                       vs: seq<Validator>, chainId: string, height: nat, round: nat, i: int)
    requires Collected(responses, kept, highest, vs, chainId, height, round)
    requires ValidAt(responses, i, vs, chainId, height, round) && responses[i].vote.highQCRound <= CarriedRound(highest)
    ensures Matched(responses, i, vs, chainId, height, round)
  {
    CountedReports(responses, kept, highest, vs, chainId, height, round);
    if highest.None? {
      var j := LastOfSender(responses, vs, chainId, height, round, i);
      assert responses[j].vote.highQCRound >= -1;
    }
  }

  /** The counted response of the sender of a valid one. */
  lemma {:induction false} LastOfSender(responses: seq<TimeoutResponse>, vs: seq<Validator>, chainId: string,
                                        height: nat, round: nat, i: int)
    returns (j: int)
    requires ValidAt(responses, i, vs, chainId, height, round)
    ensures i <= j && Counts(responses, j, vs, chainId, height, round)
    ensures responses[j].vote.validator == responses[i].vote.validator
    decreases |responses| - i
  {
    j := i;
    if !Counts(responses, i, vs, chainId, height, round) {
      var k :| i < k < |responses| && ValidTimeoutResponse(responses[k], vs, chainId, height, round)
               && responses[k].vote.validator == responses[i].vote.validator;
      j := LastOfSender(responses, vs, chainId, height, round, k);
    }
  }

  /** When no validator sends two valid responses the documented obligation is met. */
  lemma OneAnswerEach(responses: seq<TimeoutResponse>, kept: seq<TimeoutResponse>, highest: Option<PrepareQC>,
                      vs: seq<Validator>, chainId: string, height: nat, round: nat)
    requires Collected(responses, kept, highest, vs, chainId, height, round)
    requires forall i, j ::
      && i < j && ValidAt(responses, i, vs, chainId, height, round)
      && ValidAt(responses, j, vs, chainId, height, round) ==>
        responses[i].vote.validator != responses[j].vote.validator
    ensures HighestOfAll(responses, CarriedRound(highest), vs, chainId, height, round)
  {
    HighestOfAllIff(responses, kept, highest, vs, chainId, height, round);
    forall i | ValidAt(responses, i, vs, chainId, height, round)
      ensures Counts(responses, i, vs, chainId, height, round)
    {
      var j := LastOfSender(responses, vs, chainId, height, round, i);
    }
  }

  // ---- A second answer that hides the first ------------------------------------

  function ToyQC(v: Validator): PrepareQC {
    var hash := Repeat('a', 64);
    PrepareQC("z", 1, 0, hash, [Vote(v.address, v.publicKey, Signature(v.publicKey, PreparePayload("z", 1, 0, hash)))])
  }

  /** Reports the QC when `reports`, and nothing otherwise. */
  function ToyResponse(v: Validator, reports: bool): TimeoutResponse {
    var round, hash := if reports then 0 else -1, if reports then Repeat('a', 64) else ZERO_HASH;
    TimeoutResponse(
      TimeoutVote(v.address, v.publicKey, "z", 1, 0, round, hash,
        Signature(v.publicKey, TimeoutPayload("z", 1, 0, round, hash))),
      if reports then Some(ToyQC(v)) else None)
  }

  lemma LoneMember(v: Validator)
    ensures IsMember([v], v.address, v.publicKey)
  {
    assert [v][..0] == [];
  }

  lemma ToyResponsesValid(v: Validator, reports: bool)
    ensures ValidTimeoutResponse(ToyResponse(v, reports), [v], "z", 1, 0)
  {
    LoneMember(v);
    assert Repeat('a', 64)[0] != ZERO_HASH[0];
  }

  /** Of the two toy responses only the second counts. */
  lemma OnlySecondCounts(v: Validator, responses: seq<TimeoutResponse>)
    requires responses == [ToyResponse(v, true), ToyResponse(v, false)]
    ensures ValidAt(responses, 0, [v], "z", 1, 0) && responses[0].vote.highQCRound == 0
    ensures Counts(responses, 1, [v], "z", 1, 0) && responses[1].vote.highQCRound == -1
    ensures forall j :: Counts(responses, j, [v], "z", 1, 0) ==> j == 1
  {
    ToyResponsesValid(v, true);
    ToyResponsesValid(v, false);
    assert responses[1].vote.validator == responses[0].vote.validator;
    assert ValidTimeoutResponse(responses[1], [v], "z", 1, 0);
  }

  /**
   * The obligation fails: a lone validator that first reports a QC and then none leaves the
   * assembled certificate, a quorum of one, without the QC.
   */
  lemma SecondAnswerHidesTheFirst(v: Validator, kept: seq<TimeoutResponse>, highest: Option<PrepareQC>)
    requires Collected([ToyResponse(v, true), ToyResponse(v, false)], kept, highest, [v], "z", 1, 0)
    ensures highest.None? && |AgreeingVotes(kept, highest)| >= QuorumSize(1)
    ensures !HighestOfAll([ToyResponse(v, true), ToyResponse(v, false)], CarriedRound(highest), [v], "z", 1, 0)
  {
    var responses := [ToyResponse(v, true), ToyResponse(v, false)];
    OnlySecondCounts(v, responses);
    CountedReports(responses, kept, highest, [v], "z", 1, 0);
    assert IsCounted(responses, responses[1], [v], "z", 1, 0);
    assert responses[1] in kept;
    AgreeingVotesExact(kept, highest);
    assert responses[1].vote in AgreeingVotes(kept, highest);
  }

  // ---- Over runs ---------------------------------------------------------------

  ghost predicate TimedOut(s: State, key: PublicKey, p: Payload) {
    p.TimeoutPayload? && Signature(key, p) in s.reserved
  }

  /** Above a node's tip its journal holds every timeout row it ever reserved. */
  ghost predicate TimeoutsRecorded(s: State) {
    forall k, p :: k in s.nodes && TimedOut(s, k, p) && p.height > s.nodes[k].height ==>
      Recorded(HeightState(s.nodes[k].journals, p.height), p)
  }

  ghost predicate Recorded(j: HeightJournal, p: Payload)
    requires p.TimeoutPayload?
  {
    p.round in j.timeouts && j.timeouts[p.round] == p
  }

  /** One timeout payload per honest key, height and round. */
  ghost predicate TimeoutsUnique(s: State) {
    forall k, p, p' ::
      k in s.nodes && TimedOut(s, k, p) && TimedOut(s, k, p') && p.height == p'.height && p.round == p'.round ==>
        p == p'
  }

  /** Any reservation that keeps the timeout rows and, if it is itself a timeout, records it. */
  lemma ReservationKeepsTimeouts(s: State, s': State, key: PublicKey, j: HeightJournal, payload: Payload)
    requires TimeoutsRecorded(s) && TimeoutsUnique(s) && Reserves(s, s', key, Some(j), payload)
    requires var was := NextJournal(s.nodes[key]).timeouts;
      forall r :: r in was ==> r in j.timeouts && j.timeouts[r] == was[r]
    requires payload.TimeoutPayload? ==> payload.height == s.nodes[key].height + 1 && Recorded(j, payload)
    ensures TimeoutsRecorded(s') && TimeoutsUnique(s')
  {
    var next := s.nodes[key].height + 1;
    forall k, p | k in s'.nodes && TimedOut(s', k, p) && p.height > s'.nodes[k].height
      ensures Recorded(HeightState(s'.nodes[k].journals, p.height), p)
    {
      if k == key && p != payload {
        assert TimedOut(s, k, p);
        assert Recorded(HeightState(s.nodes[k].journals, p.height), p);
      }
    }
    forall p | TimedOut(s, key, p) && payload.TimeoutPayload? && p.height == payload.height && p.round == payload.round
      ensures p == payload
    {
      assert Recorded(HeightState(s.nodes[key].journals, next), p);
    }
    forall k, p, p' |
      k in s'.nodes && TimedOut(s', k, p) && TimedOut(s', k, p') && p.height == p'.height && p.round == p'.round
      ensures p == p'
    {
      assert k != key || p != payload ==> TimedOut(s, k, p);
      assert k != key || p' != payload ==> TimedOut(s, k, p');
    }
  }

  lemma FinalizingKeepsTimeouts(c: Config, s: State, s': State, key: PublicKey, block: Block)
    requires TimeoutsRecorded(s) && TimeoutsUnique(s) && FinalizeStep(c, s, s', key, block)
    ensures TimeoutsRecorded(s') && TimeoutsUnique(s')
  {
    forall k, p | k in s'.nodes && TimedOut(s', k, p) && p.height > s'.nodes[k].height
      ensures Recorded(HeightState(s'.nodes[k].journals, p.height), p)
    {
      assert TimedOut(s, k, p);
      assert Recorded(HeightState(s.nodes[k].journals, p.height), p);
    }
    forall k, p, p' |
      k in s'.nodes && TimedOut(s', k, p) && TimedOut(s', k, p') && p.height == p'.height && p.round == p'.round
      ensures p == p'
    {
      assert TimedOut(s, k, p) && TimedOut(s, k, p');
    }
  }

  lemma PreparingKeepsTimeouts(c: Config, s: State, s': State, key: PublicKey, request: PrepareRequest,
                               justify: Option<PrepareQC>)
    requires TimeoutsRecorded(s) && TimeoutsUnique(s) && PrepareStep(c, s, s', key, request, justify)
    ensures TimeoutsRecorded(s') && TimeoutsUnique(s')
  {
    var p, hash := request.proposal, request.block.hash;
    ReservationKeepsTimeouts(s, s', key,
      ReservePrepare(NextJournal(s.nodes[key]), p.round, hash, p.justifyRound).value,
      PreparePayload(c.chainId, s.nodes[key].height + 1, p.round, hash));
  }

  lemma CommittingKeepsTimeouts(c: Config, s: State, s': State, key: PublicKey, qc: PrepareQC)
    requires TimeoutsRecorded(s) && TimeoutsUnique(s) && CommitStep(c, s, s', key, qc)
    ensures TimeoutsRecorded(s') && TimeoutsUnique(s')
  {
    ReservationKeepsTimeouts(s, s', key, ReserveCommit(NextJournal(s.nodes[key]), qc.round, qc.blockHash).value,
      CommitPayload(c.chainId, s.nodes[key].height + 1, qc.round, qc.blockHash));
  }

  lemma ProposingKeepsTimeouts(c: Config, s: State, s': State, step: Step)
    requires TimeoutsRecorded(s) && TimeoutsUnique(s) && NextStep(c, s, s', step)
    requires step.ReservesProposal? || step.ReservesFreshBlock?
    ensures TimeoutsRecorded(s') && TimeoutsUnique(s')
  {
    var was := NextJournal(s.nodes[step.key]);
    if step.ReservesProposal? {
      var p := step.request.proposal;
      ReservationKeepsTimeouts(s, s', step.key, ReserveProposal(was, p.round, p.signature.payload).value,
        p.signature.payload);
    } else {
      ReservationKeepsTimeouts(s, s', step.key, ReserveBlockProposal(was, step.header.round, step.hash).value,
        HeaderPayload(step.header));
    }
  }

  lemma StepKeepsTimeouts(c: Config, s: State, s': State, step: Step)
    requires TimeoutsRecorded(s) && TimeoutsUnique(s) && NextStep(c, s, s', step)
    ensures TimeoutsRecorded(s') && TimeoutsUnique(s')
  {
    match step
    case ByzantineSigns(sig) => SigningKeepsTimeouts(s, s');
    case Releases(sig) => SigningKeepsTimeouts(s, s');
    case ReservesTimeout(key, round, highQC) => TimingOutKeepsTimeouts(c, s, s', key, round, highQC);
    case Finalizes(key, block) => FinalizingKeepsTimeouts(c, s, s', key, block);
    case ReservesPrepare(key, request, justify) => PreparingKeepsTimeouts(c, s, s', key, request, justify);
    case ReservesCommit(key, qc) => CommittingKeepsTimeouts(c, s, s', key, qc);
    case _ => ProposingKeepsTimeouts(c, s, s', step);
  }

  lemma SigningKeepsTimeouts(s: State, s': State)
    requires TimeoutsRecorded(s) && TimeoutsUnique(s) && s'.reserved == s.reserved && s'.nodes == s.nodes
    ensures TimeoutsRecorded(s') && TimeoutsUnique(s')
  {
    assert forall k, p :: TimedOut(s', k, p) <==> TimedOut(s, k, p);
  }

  lemma TimingOutKeepsTimeouts(c: Config, s: State, s': State, key: PublicKey, round: nat, highQC: Option<PrepareQC>)
    requires TimeoutsRecorded(s) && TimeoutsUnique(s) && TimeoutStep(c, s, s', key, round, highQC)
    ensures TimeoutsRecorded(s') && TimeoutsUnique(s')
  {
    var payload := TimeoutPayload(c.chainId, s.nodes[key].height + 1, round,
      if highQC.Some? then highQC.value.round else -1, if highQC.Some? then highQC.value.blockHash else ZERO_HASH);
    ReservationKeepsTimeouts(s, s', key, ReserveTimeout(NextJournal(s.nodes[key]), round, payload).value, payload);
  }

  lemma {:induction false} RunKeepsTimeouts(c: Config, run: seq<State>, steps: seq<Step>, i: nat)
    requires IsRun(c, run, steps) && i < |run|
    ensures TimeoutsRecorded(run[i]) && TimeoutsUnique(run[i])
  {
    if i > 0 {
      RunKeepsTimeouts(c, run, steps, i - 1);
      StepKeepsTimeouts(c, run[i - 1], run[i], steps[i - 1]);
    }
  }

  /** Two valid responses of one honest validator carry one vote; their QCs differ at most in the vote list. */
  lemma HonestAnswersAgree(c: Config, run: seq<State>, steps: seq<Step>, height: nat, round: nat, a: TimeoutResponse,
                           b: TimeoutResponse)
    requires IsRun(c, run, steps) && FaultBound(c, run[0].nodes.Keys)
    requires ValidTimeoutResponse(a, c.validatorsAt(height), c.chainId, height, round)
    requires ValidTimeoutResponse(b, c.validatorsAt(height), c.chainId, height, round)
    requires a.vote.validator == b.vote.validator && a.vote.publicKey in run[|run| - 1].nodes
    requires a.vote.signature in run[|run| - 1].signed && b.vote.signature in run[|run| - 1].signed
    ensures a.vote == b.vote && (a.highQC.Some? <==> b.highQC.Some?)
    ensures a.highQC.Some? ==> b.highQC.value == a.highQC.value.(votes := b.highQC.value.votes)
  {
    var last := |run| - 1;
    RunKeepsInv(c, run, steps, last, last);
    RunKeepsTimeouts(c, run, steps, last);
    assert TimedOut(run[last], a.vote.publicKey, a.vote.signature.payload);
    assert TimedOut(run[last], a.vote.publicKey, b.vote.signature.payload);
  }

  /**
   * Main result over runs: the carried QC is at least what every honest validator reported in any of
   * its valid responses, and the obligation can fail only through a validator outside the honest ones
   * that answered twice.
   */
  lemma HonestReportsAreCarried(
    c: Config, run: seq<State>, steps: seq<Step>, height: nat, round: nat,
    responses: seq<TimeoutResponse>, kept: seq<TimeoutResponse>, highest: Option<PrepareQC>)
    requires IsRun(c, run, steps) && FaultBound(c, run[0].nodes.Keys)
    requires Collected(responses, kept, highest, c.validatorsAt(height), c.chainId, height, round)
    requires forall r :: r in responses ==> r.vote.signature in run[|run| - 1].signed
    ensures forall i ::
      && ValidAt(responses, i, c.validatorsAt(height), c.chainId, height, round)
      && responses[i].vote.publicKey in run[|run| - 1].nodes ==>
        responses[i].vote.highQCRound <= CarriedRound(highest)
    ensures var vs := c.validatorsAt(height);
      HighestOfAll(responses, CarriedRound(highest), vs, c.chainId, height, round) <==>
        forall i ::
          && ValidAt(responses, i, vs, c.chainId, height, round) && !Counts(responses, i, vs, c.chainId, height, round)
          && responses[i].vote.publicKey !in run[|run| - 1].nodes
          ==> Matched(responses, i, vs, c.chainId, height, round)
  {
    var vs, nodes := c.validatorsAt(height), run[|run| - 1].nodes;
    CountedReports(responses, kept, highest, vs, c.chainId, height, round);
    HighestOfAllIff(responses, kept, highest, vs, c.chainId, height, round);
    forall i | ValidAt(responses, i, vs, c.chainId, height, round) && responses[i].vote.publicKey in nodes
      ensures responses[i].vote.highQCRound <= CarriedRound(highest)
      ensures Matched(responses, i, vs, c.chainId, height, round)
    {
      var j := LastOfSender(responses, vs, c.chainId, height, round, i);
      HonestAnswersAgree(c, run, steps, height, round, responses[i], responses[j]);
    }
  }
}
