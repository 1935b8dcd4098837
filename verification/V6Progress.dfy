/**
 * The other side of the lock rule: in every run an honest validator that is locked still
 * votes where the protocol needs it to, and refuses only what its own commit excludes.
 */
module V6Progress {
  import opened Quorum
  import opened V6Certificates
  import opened SigningJournal
  import opened V6Agreement

  /** A request the node at `key` has in hand for its next height, in a round it has not voted in and that is open. */
  ghost predicate InHand(c: Config, s: State, key: PublicKey, request: PrepareRequest, justify: Option<PrepareQC>) {
    && key in s.nodes
    && var h, p, j := s.nodes[key].height + 1, request.proposal, NextJournal(s.nodes[key]);
       && ValidPrepareRequest(request, c.validatorsAt(h), c.chainId, h, justify)
       && p.signature in s.signed && KnownTC(s, request.tc)
       && p.round !in j.prepares && Open(j, p.round)
  }

  /** The validator signs the prepare vote the request asks for. */
  ghost predicate MayVote(c: Config, s: State, key: PublicKey, request: PrepareRequest, justify: Option<PrepareQC>) {
    exists s' :: NextStep(c, s, s', ReservesPrepare(key, request, justify))
  }

  /** The newest block the validator committed to at a height. */
  ghost predicate CommittedLast(c: Config, s: State, key: PublicKey, h: nat, r: nat, b: Hash) {
    Committed(c, s, key, h, r, b) && forall q: nat, d :: Committed(c, s, key, h, q, d) ==> q <= r
  }

  /** That block is another one, and the justification is not newer than the commit. */
  ghost predicate CommittedElsewhere(c: Config, s: State, key: PublicKey, h: nat, hash: Hash, justifyRound: int) {
    exists r, b :: CommittedLast(c, s, key, h, r, b) && b != hash && justifyRound <= r
  }

  lemma RowsAreCommits(c: Config, s: State, key: PublicKey, h: nat, hash: Hash, justifyRound: int)
    requires key in s.nodes && JournalComplete(c, s, key, h)
    ensures LockedElsewhere(HeightState(s.nodes[key].journals, h), hash, justifyRound) <==>
      CommittedElsewhere(c, s, key, h, hash, justifyRound)
  {
    var j := HeightState(s.nodes[key].journals, h);
    if LockedElsewhere(j, hash, justifyRound) {
      var r :| r in j.commits && (forall q :: q in j.commits ==> q <= r) && j.commits[r] != hash && justifyRound <= r;
      assert CommittedLast(c, s, key, h, r, j.commits[r]);
    }
    if CommittedElsewhere(c, s, key, h, hash, justifyRound) {
      var r, b :| CommittedLast(c, s, key, h, r, b) && b != hash && justifyRound <= r;
      assert r in j.commits && j.commits[r] == b;
      forall q | q in j.commits ensures q <= r {
        assert Committed(c, s, key, h, q, j.commits[q]);
      }
    }
  }

  lemma MayVoteIs(c: Config, s: State, key: PublicKey, request: PrepareRequest, justify: Option<PrepareQC>)
    requires InHand(c, s, key, request, justify)
    ensures var p := request.proposal;
      MayVote(c, s, key, request, justify) <==>
        ReservePrepare(NextJournal(s.nodes[key]), p.round, request.block.hash, p.justifyRound).Some?
  {
    var node, p := s.nodes[key], request.proposal;
    var h, j := node.height + 1, ReservePrepare(NextJournal(node), p.round, request.block.hash, p.justifyRound);
    var payload := PreparePayload(c.chainId, h, p.round, request.block.hash);
    if j.Some? {
      var s' := State(s.signed, s.reserved + {Signature(key, payload)},
                      s.nodes[key := node.(journals := node.journals[h := j.value])]);
      assert Reserves(s, s', key, j, payload);
      assert NextStep(c, s, s', ReservesPrepare(key, request, justify));
    }
  }

  lemma RefusedAt(c: Config, s: State, key: PublicKey, request: PrepareRequest, justify: Option<PrepareQC>)
    requires JournalsComplete(c, s) && InHand(c, s, key, request, justify)
    ensures !MayVote(c, s, key, request, justify) <==>
      CommittedElsewhere(c, s, key, s.nodes[key].height + 1, request.block.hash, request.proposal.justifyRound)
  {
    var h, p := s.nodes[key].height + 1, request.proposal;
    assert JournalComplete(c, s, key, h);
    RowsAreCommits(c, s, key, h, request.block.hash, p.justifyRound);
    PrepareGrantedIff(NextJournal(s.nodes[key]), p.round, request.block.hash, p.justifyRound);
    MayVoteIs(c, s, key, request, justify);
  }

  /**
   * Main result: in every run an honest validator with such a request in hand refuses it exactly when the
   * newest block it committed to is another one and the request's justification is not newer than that commit.
   */
  lemma RefusedIff(
    c: Config, run: seq<State>, steps: seq<Step>, i: nat, key: PublicKey, request: PrepareRequest,
    justify: Option<PrepareQC>)
    requires IsRun(c, run, steps) && FaultBound(c, run[0].nodes.Keys) && i < |run|
    requires InHand(c, run[i], key, request, justify)
    ensures !MayVote(c, run[i], key, request, justify) <==>
      CommittedElsewhere(c, run[i], key, run[i].nodes[key].height + 1, request.block.hash,
                         request.proposal.justifyRound)
  {
    RunKeepsInv(c, run, steps, i, i);
    RefusedAt(c, run[i], key, request, justify);
  }

  /** A justification as new as an own commit is for the block committed to. */
  lemma JustifiedAtTheLock(
    c: Config, s: State, key: PublicKey, h: nat, request: PrepareRequest, justify: Option<PrepareQC>, r: nat, b: Hash)
    requires CommitsJustified(c, s) && Inv(c, s) && FaultBound(c, s.nodes.Keys) && key in s.nodes
    requires Committed(c, s, key, h, r, b)
    requires ValidPrepareRequest(request, c.validatorsAt(h), c.chainId, h, justify) && KnownTC(s, request.tc)
    requires request.proposal.justifyRound == r
    ensures request.block.hash == b
  {
    JustifyIsQuorum(c, s, h, request, justify);
    PreparesAgree(c, s, h, r, request.block.hash, b);
  }

  /** The request's justification is at least as new as whatever the validator committed to. */
  ghost predicate NewestJustification(c: Config, s: State, key: PublicKey, h: nat, justifyRound: int) {
    forall r: nat, b :: Committed(c, s, key, h, r, b) ==> r <= justifyRound
  }

  lemma NotElsewhere(c: Config, s: State, key: PublicKey, request: PrepareRequest, justify: Option<PrepareQC>)
    requires Inv(c, s) && FaultBound(c, s.nodes.Keys) && InHand(c, s, key, request, justify)
    requires NewestJustification(c, s, key, s.nodes[key].height + 1, request.proposal.justifyRound)
    ensures !CommittedElsewhere(c, s, key, s.nodes[key].height + 1, request.block.hash, request.proposal.justifyRound)
  {
    var h, p := s.nodes[key].height + 1, request.proposal;
    forall r: nat, b | CommittedLast(c, s, key, h, r, b) && p.justifyRound <= r ensures b == request.block.hash {
      assert Committed(c, s, key, h, r, b);
      JustifiedAtTheLock(c, s, key, h, request, justify, r, b);
    }
  }

  lemma VotedAt(c: Config, s: State, key: PublicKey, request: PrepareRequest, justify: Option<PrepareQC>)
    requires Inv(c, s) && FaultBound(c, s.nodes.Keys) && InHand(c, s, key, request, justify)
    requires NewestJustification(c, s, key, s.nodes[key].height + 1, request.proposal.justifyRound)
    ensures MayVote(c, s, key, request, justify)
  {
    NotElsewhere(c, s, key, request, justify);
    RefusedAt(c, s, key, request, justify);
  }

  /**
   * Main result: in every run an honest validator votes for every such request whose justification is at
   * least as new as all it committed to. A leader that carries the newest QC is never refused by a lock.
   */
  lemma JustifiedRequestsAreVoted(
    c: Config, run: seq<State>, steps: seq<Step>, i: nat, key: PublicKey, request: PrepareRequest,
    justify: Option<PrepareQC>)
    requires IsRun(c, run, steps) && FaultBound(c, run[0].nodes.Keys) && i < |run|
    requires InHand(c, run[i], key, request, justify)
    requires NewestJustification(c, run[i], key, run[i].nodes[key].height + 1, request.proposal.justifyRound)
    ensures MayVote(c, run[i], key, request, justify)
  {
    RunKeepsInv(c, run, steps, i, i);
    VotedAt(c, run[i], key, request, justify);
  }
}
