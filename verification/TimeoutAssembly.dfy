/** The leader's collection of votes and timeout responses (l1/src/node.ts). */
module TimeoutAssembly {
  import opened Quorum
  import opened V6Certificates
  import opened V6Agreement

  /** `Map.set` keyed by the validator: a known key keeps its place, a new one goes to the end. */
  function SetResponse(kept: seq<TimeoutResponse>, r: TimeoutResponse): seq<TimeoutResponse> {
    if kept == [] then [r]
    else if kept[0].vote.validator == r.vote.validator then [r] + kept[1..]
    else [kept[0]] + SetResponse(kept[1..], r)
  }

  ghost predicate DistinctResponders(kept: seq<TimeoutResponse>) {
    forall i, j :: 0 <= i < j < |kept| ==> kept[i].vote.validator != kept[j].vote.validator
  }

  lemma {:induction false} SetResponseKeeps(kept: seq<TimeoutResponse>, r: TimeoutResponse)
    requires DistinctResponders(kept)
    ensures var out := SetResponse(kept, r);
      && DistinctResponders(out)
      && (forall x :: x in out <==> x == r || (x in kept && x.vote.validator != r.vote.validator))
  {
    if kept != [] && kept[0].vote.validator != r.vote.validator {
      SetResponseKeeps(kept[1..], r);
      var out := SetResponse(kept[1..], r);
      forall j | 0 <= j < |out| ensures out[j].vote.validator != kept[0].vote.validator {
        if out[j] != r {
          var k :| 0 <= k < |kept[1..]| && kept[1..][k] == out[j];
        }
      }
    }
  }

  /** The response that counts for its validator: valid, and no later response of that validator is valid. */
  ghost predicate Counts(responses: seq<TimeoutResponse>, i: int, vs: seq<Validator>, chainId: string, height: nat,
                         round: nat)
  {
    && 0 <= i < |responses| && ValidTimeoutResponse(responses[i], vs, chainId, height, round)
    && forall j :: i < j < |responses| && ValidTimeoutResponse(responses[j], vs, chainId, height, round)
         ==> responses[j].vote.validator != responses[i].vote.validator
  }

  ghost predicate IsCounted(responses: seq<TimeoutResponse>, r: TimeoutResponse, vs: seq<Validator>, chainId: string,
                            height: nat, round: nat)
  {
    exists i :: Counts(responses, i, vs, chainId, height, round) && responses[i] == r
  }

  method CountedResponses(responses: seq<TimeoutResponse>, vs: seq<Validator>, chainId: string, height: nat, round: nat)
    returns (kept: seq<TimeoutResponse>)
    ensures DistinctResponders(kept)
    ensures forall r :: r in kept <==> IsCounted(responses, r, vs, chainId, height, round)
  {
    kept := [];
    for n := 0 to |responses|
      invariant DistinctResponders(kept)
      invariant forall r :: r in kept <==> IsCounted(responses[..n], r, vs, chainId, height, round)
    {
      CountedStep(responses[..n], responses[n], kept, vs, chainId, height, round);
      assert responses[..n + 1] == responses[..n] + [responses[n]];
      if ValidTimeoutResponse(responses[n], vs, chainId, height, round) {
        kept := SetResponse(kept, responses[n]);
      }
    }
    assert responses[..|responses|] == responses;
  }

  lemma CountedStep(prefix: seq<TimeoutResponse>, r: TimeoutResponse, kept: seq<TimeoutResponse>,
                    vs: seq<Validator>, chainId: string, height: nat, round: nat)
    requires DistinctResponders(kept)
    requires forall x :: x in kept <==> IsCounted(prefix, x, vs, chainId, height, round)
    ensures var ok := ValidTimeoutResponse(r, vs, chainId, height, round);
      var out := if ok then SetResponse(kept, r) else kept;
      && DistinctResponders(out)
      && forall x :: x in out <==> IsCounted(prefix + [r], x, vs, chainId, height, round)
  {
    SetResponseKeeps(kept, r);
    var all, ok := prefix + [r], ValidTimeoutResponse(r, vs, chainId, height, round);
    var out := if ok then SetResponse(kept, r) else kept;
    forall x ensures x in out <==> IsCounted(all, x, vs, chainId, height, round) {
      if x in out {
        if ok && x == r {
          assert Counts(all, |prefix|, vs, chainId, height, round);
        } else {
          var i :| Counts(prefix, i, vs, chainId, height, round) && prefix[i] == x;
          assert all[i] == x;
          assert Counts(all, i, vs, chainId, height, round);
        }
      }
      if IsCounted(all, x, vs, chainId, height, round) {
        var i :| Counts(all, i, vs, chainId, height, round) && all[i] == x;
        if i < |prefix| {
          forall j | i < j < |prefix| && ValidTimeoutResponse(prefix[j], vs, chainId, height, round)
            ensures prefix[j].vote.validator != prefix[i].vote.validator
          {
            assert all[j] == prefix[j];
          }
          assert prefix[i] == x;
          assert Counts(prefix, i, vs, chainId, height, round);
          assert all[|prefix|] == r;
        }
      }
    }
  }

  /** Highest-round QC among the candidates; the first one wins a tie. */
  method MaxQC(candidates: seq<Option<PrepareQC>>) returns (best: Option<PrepareQC>)
    ensures best.None? <==> forall q :: q in candidates ==> q.None?
    ensures best.Some? ==> best in candidates
    ensures best.Some? ==> forall q :: q in candidates && q.Some? ==> q.value.round <= best.value.round
    ensures best.Some? ==> exists i ::
      && 0 <= i < |candidates| && candidates[i] == best
      && (forall j :: 0 <= j < i && candidates[j].Some? ==> candidates[j].value.round < best.value.round)
  {
    best := None;
    ghost var at := 0;
    for n := 0 to |candidates|
      invariant best.None? <==> forall q :: q in candidates[..n] ==> q.None?
      invariant best.Some? ==> 0 <= at < n && candidates[at] == best
      invariant best.Some? ==> forall q :: q in candidates[..n] && q.Some? ==> q.value.round <= best.value.round
      invariant best.Some? ==> forall j :: 0 <= j < at && candidates[j].Some? ==>
        candidates[j].value.round < best.value.round
    {
      assert candidates[..n + 1] == candidates[..n] + [candidates[n]];
      if candidates[n].Some? && (best.None? || candidates[n].value.round > best.value.round) {
        assert forall j :: 0 <= j < n ==> candidates[..n][j] == candidates[j];
        assert forall j :: 0 <= j < n && candidates[j].Some? ==> candidates[j] in candidates[..n];
        best := candidates[n];
        at := n;
      }
    }
    assert candidates[..|candidates|] == candidates;
  }

  /** A report of the chosen round that names another block cannot be part of the certificate. */
  predicate Conflicts(vote: TimeoutVote, highest: Option<PrepareQC>) {
    highest.Some? && vote.highQCRound == highest.value.round && vote.highQCHash != highest.value.blockHash
  }

  function AgreeingVotes(kept: seq<TimeoutResponse>, highest: Option<PrepareQC>): seq<TimeoutVote> {
    if kept == [] then []
    else (if Conflicts(kept[0].vote, highest) then [] else [kept[0].vote]) + AgreeingVotes(kept[1..], highest)
  }

  lemma {:induction false} AgreeingVotesExact(kept: seq<TimeoutResponse>, highest: Option<PrepareQC>)
    requires DistinctResponders(kept)
    ensures var votes := AgreeingVotes(kept, highest);
      && DistinctTimeoutVoters(votes) && |votes| <= |kept|
      && (forall v :: v in votes <==> !Conflicts(v, highest) && exists r :: r in kept && r.vote == v)
      && ((forall r :: r in kept ==> !Conflicts(r.vote, highest)) ==> |votes| == |kept|)
  {
    if kept != [] {
      AgreeingVotesExact(kept[1..], highest);
      var votes, tail := AgreeingVotes(kept, highest), AgreeingVotes(kept[1..], highest);
      assert forall r :: r in kept <==> r == kept[0] || r in kept[1..];
      forall v | v in tail ensures v.validator != kept[0].vote.validator {
        var r :| r in kept[1..] && r.vote == v;
        var k :| 0 <= k < |kept[1..]| && kept[1..][k] == r;
      }
    }
  }

  lemma {:induction false} RespondersFit(kept: seq<TimeoutResponse>, vs: seq<Validator>)
    requires DistinctResponders(kept)
    requires forall r :: r in kept ==> IsMember(vs, r.vote.validator, r.vote.publicKey)
    ensures |kept| <= |vs|
  {
    var members := set v | v in vs :: v.address;
    AddressCount(vs);
    var seen: set<Address> := {};
    for i := 0 to |kept|
      invariant seen == (set r | r in kept[..i] :: r.vote.validator) && |seen| == i && seen <= members
    {
      assert kept[..i + 1] == kept[..i] + [kept[i]];
      MemberIsListed(vs, kept[i].vote.validator, kept[i].vote.publicKey);
      seen := seen + {kept[i].vote.validator};
    }
    SubsetCardinality(seen, members);
  }

  lemma {:induction false} AddressCount(vs: seq<Validator>)
    ensures |set v | v in vs :: v.address| <= |vs|
  {
    if vs != [] {
      AddressCount(vs[1..]);
      assert (set v | v in vs :: v.address) == {vs[0].address} + (set v | v in vs[1..] :: v.address);
    }
  }

  /** The certificate the leader would build from the counted responses. */
  lemma AssembledIsValid(kept: seq<TimeoutResponse>, highest: Option<PrepareQC>, vs: seq<Validator>, chainId: string,
                         height: nat, round: nat)
    requires TargetShape(chainId, height, round) && 1 <= |vs| <= MAX_VALIDATOR_COUNT
    requires DistinctResponders(kept)
    requires forall r :: r in kept ==> ValidTimeoutResponse(r, vs, chainId, height, round)
    requires highest.None? ==> forall r :: r in kept ==> r.highQC.None?
    requires highest.Some? ==> exists r :: r in kept && r.highQC == highest
    requires highest.Some? ==> forall r :: r in kept && r.highQC.Some? ==> r.highQC.value.round <= highest.value.round
    requires |AgreeingVotes(kept, highest)| >= QuorumSize(|vs|)
    ensures ValidTimeoutCertificate(
      TimeoutCertificate(chainId, height, round, AgreeingVotes(kept, highest), highest), vs, chainId, height, round,
      if highest.Some? then highest.value.round else -1)
  {
    AgreeingVotesExact(kept, highest);
    RespondersFit(kept, vs);
    var votes := AgreeingVotes(kept, highest);
    if highest.Some? {
      var r :| r in kept && r.highQC == highest;
      assert r.vote in votes;
    }
  }

  /** One response per validator, its last valid one, and the highest QC these carry. */
  ghost predicate Collected(
    responses: seq<TimeoutResponse>, kept: seq<TimeoutResponse>, highest: Option<PrepareQC>,
    vs: seq<Validator>, chainId: string, height: nat, round: nat)
  {
    && DistinctResponders(kept)
    && (forall r :: r in kept <==> IsCounted(responses, r, vs, chainId, height, round))
    && (forall r :: r in kept && r.highQC.Some? ==> highest.Some? && r.highQC.value.round <= highest.value.round)
    && (highest.Some? ==> exists r :: r in kept && r.highQC == highest)
  }

  /**
   * Against arbitrary responses: the final validation never fails, the certificate
   * carries the highest QC among the counted responses, and None is returned exactly
   * when fewer than a quorum of counted responses agree with that QC.
   */
  method AssembleTimeoutCertificate(responses: seq<TimeoutResponse>, vs: seq<Validator>, chainId: string, height: nat,
                                    round: nat)
    returns (tc: Option<TimeoutCertificate>, kept: seq<TimeoutResponse>, highest: Option<PrepareQC>)
    requires TargetShape(chainId, height, round) && 1 <= |vs| <= MAX_VALIDATOR_COUNT
    ensures Collected(responses, kept, highest, vs, chainId, height, round)
    ensures tc.None? <==> |AgreeingVotes(kept, highest)| < QuorumSize(|vs|)
    ensures tc.Some? ==>
      && tc.value.highQC == highest
      && ValidTimeoutCertificate(tc.value, vs, chainId, height, round,
        if highest.Some? then highest.value.round else -1)
  {
    var valid := CountedResponses(responses, vs, chainId, height, round);
    var best := MaxQC(seq(|valid|, i requires 0 <= i < |valid| => valid[i].highQC));
    kept, highest := valid, best;
    var qcs := seq(|valid|, i requires 0 <= i < |valid| => valid[i].highQC);
    assert forall i :: 0 <= i < |valid| ==> qcs[i] == valid[i].highQC;
    assert forall r :: r in valid ==> r.highQC in qcs;
    if best.Some? {
      var i :| 0 <= i < |qcs| && qcs[i] == best;
      assert valid[i] in valid && valid[i].highQC == best;
    }
    var votes := AgreeingVotes(valid, best);
    if |votes| < QuorumSize(|vs|) { return None, kept, highest; }
    var certificate := TimeoutCertificate(chainId, height, round, votes, best);
    AssembledIsValid(valid, best, vs, chainId, height, round);
    var checked := ValidateTimeoutCertificate(certificate, vs, chainId, height, round);
    assert checked.Some?;
    tc := Some(certificate);
  }

  /** With an assembled certificate, the leader's request is accepted exactly for the block it is obliged to propose. */
  lemma AssembledProposalAccepted(
    tc: TimeoutCertificate, vs: seq<Validator>, chainId: string, height: nat, round: nat, m: int, block: Block)
    requires ValidTimeoutCertificate(tc, vs, chainId, height, round, m) && round < V6_MAX_ROUND
    requires IsHash(block.hash) && block.header.height == height && block.header.chainId == chainId
    ensures var leader := ExpectedValidator(vs, height, round + 1).publicKey;
      var payload := ProposalPayload(chainId, height, round + 1, block.hash, m);
      var request := PrepareRequest(Proposal(chainId, height, round + 1, block.hash, m, Signature(leader, payload)),
        block, Some(tc));
      (exists justify :: ValidPrepareRequest(request, vs, chainId, height, justify)) <==>
        (if tc.highQC.Some? then block.hash == tc.highQC.value.blockHash && block.header.round <= tc.highQC.value.round
         else block.header.round == round + 1)
  {
    var leader := ExpectedValidator(vs, height, round + 1).publicKey;
    var payload := ProposalPayload(chainId, height, round + 1, block.hash, m);
    var request := PrepareRequest(Proposal(chainId, height, round + 1, block.hash, m, Signature(leader, payload)),
      block, Some(tc));
    if tc.highQC.Some? {
      assert tc.highQC.value.round == m;
      var v :| v in tc.votes && v.highQCRound == m;
      assert ValidTimeoutVote(v, vs, chainId, height, round);
    }
    if if tc.highQC.Some? then block.hash == tc.highQC.value.blockHash && block.header.round <= tc.highQC.value.round
       else block.header.round == round + 1 {
      assert JustifiedProposal(request, vs, chainId, height, tc.highQC);
      assert ValidPrepareRequest(request, vs, chainId, height, tc.highQC);
    }
  }

  /** In a run no counted report conflicts with the highest QC, so a quorum of counted responses is enough. */
  lemma NothingConflictsInARun(
    c: Config, run: seq<State>, steps: seq<Step>, height: nat, round: nat, kept: seq<TimeoutResponse>,
    highest: Option<PrepareQC>)
    requires IsRun(c, run, steps) && FaultBound(c, run[0].nodes.Keys)
    requires DistinctResponders(kept)
    requires forall r :: r in kept ==>
      ValidTimeoutResponse(r, c.validatorsAt(height), c.chainId, height, round) && KnownQC(run[|run| - 1], r.highQC)
    requires highest.Some? ==> exists r :: r in kept && r.highQC == highest
    ensures |AgreeingVotes(kept, highest)| == |kept|
  {
    var last := |run| - 1;
    RunKeepsInv(c, run, steps, last, last);
    if highest.Some? {
      var h :| h in kept && h.highQC == highest;
      forall r | r in kept ensures !Conflicts(r.vote, highest) {
        if r.vote.highQCRound == highest.value.round {
          var qc, top := r.highQC.value, highest.value;
          VoteSetIsQuorum(c, run[last], height, qc.votes, PreparePayload(c.chainId, height, qc.round, qc.blockHash));
          VoteSetIsQuorum(c, run[last], height, top.votes, PreparePayload(c.chainId, height, top.round, top.blockHash));
          PreparesAgree(c, run[last], height, qc.round, qc.blockHash, top.blockHash);
        }
      }
    }
    AgreeingVotesExact(kept, highest);
  }
}
