/**
 * Protocol v6 messages and certificate validation (l1/src/consensus-v6.ts).
 *
 * A signature is a symbolic term: it verifies for exactly the key and payload it
 * was made from. The signing domains of the source are the constructors of Payload.
 */
module V6Certificates {
  import opened Quorum
  import opened Strings

  const V6_MAX_ROUND: nat := 1_000_000
  const MAX_VALIDATOR_COUNT: nat := 100

  type Hash = string

  datatype Header = Header(
    version: nat, chainId: string, height: nat, round: nat, previousHash: Hash,
    timestampMs: int, stateRoot: Hash, proposer: Address)

  datatype Payload =
    | ProposalPayload(chainId: string, height: nat, round: nat, blockHash: Hash, justifyRound: int)
    | PreparePayload(chainId: string, height: nat, round: nat, blockHash: Hash)
    | CommitPayload(chainId: string, height: nat, round: nat, blockHash: Hash)
    | TimeoutPayload(chainId: string, height: nat, round: nat, highQCRound: int, highQCHash: Hash)
    | HeaderPayload(header: Header)

  datatype Signature = Signature(publicKey: PublicKey, payload: Payload)

  datatype Vote = Vote(validator: Address, publicKey: PublicKey, signature: Signature)

  datatype PrepareQC = PrepareQC(chainId: string, height: nat, round: nat, blockHash: Hash, votes: seq<Vote>)

  datatype TimeoutVote = TimeoutVote(
    validator: Address, publicKey: PublicKey, chainId: string, height: nat, round: nat,
    highQCRound: int, highQCHash: Hash, signature: Signature)

  datatype TimeoutResponse = TimeoutResponse(vote: TimeoutVote, highQC: Option<PrepareQC>)

  datatype TimeoutCertificate = TimeoutCertificate(
    chainId: string, height: nat, round: nat, votes: seq<TimeoutVote>, highQC: Option<PrepareQC>)

  datatype Proposal = Proposal(
    chainId: string, height: nat, round: nat, blockHash: Hash, justifyRound: int, signature: Signature)

  /** `commitRound` is None while the block is a proposal. */
  datatype Block = Block(
    header: Header, hash: Hash, proposerPublicKey: PublicKey, signature: Signature,
    attestations: seq<Vote>, commitRound: Option<nat>)

  datatype PrepareRequest = PrepareRequest(proposal: Proposal, block: Block, tc: Option<TimeoutCertificate>)

  datatype Lock = Lock(round: nat, blockHash: Hash)

  // -------------------------------------------------------------------------
  // Shape of untrusted input
  // -------------------------------------------------------------------------

  const ZERO_HASH: Hash := Repeat('0', 64)

  predicate IsHash(h: Hash) {
    |h| == 64 && forall i :: 0 <= i < 64 ==> '0' <= h[i] <= '9' || 'a' <= h[i] <= 'f'
  }

  predicate TargetShape(chainId: string, height: nat, round: nat) {
    1 <= |chainId| <= 128 && height >= 1 && round <= V6_MAX_ROUND
  }

  predicate PrepareQCShape(qc: PrepareQC) {
    TargetShape(qc.chainId, qc.height, qc.round) && IsHash(qc.blockHash) && |qc.votes| <= MAX_VALIDATOR_COUNT
  }

  predicate ProposalShape(p: Proposal) {
    TargetShape(p.chainId, p.height, p.round) && IsHash(p.blockHash) && -1 <= p.justifyRound < p.round
  }

  predicate TimeoutVoteShape(v: TimeoutVote) {
    && TargetShape(v.chainId, v.height, v.round)
    && -1 <= v.highQCRound <= v.round
    && IsHash(v.highQCHash)
    && (v.highQCRound == -1 <==> v.highQCHash == ZERO_HASH)
  }

  predicate TimeoutCertificateShape(tc: TimeoutCertificate) {
    && TargetShape(tc.chainId, tc.height, tc.round)
    && |tc.votes| <= MAX_VALIDATOR_COUNT
    && (forall v :: v in tc.votes ==> TimeoutVoteShape(v))
    && (tc.highQC.Some? ==> PrepareQCShape(tc.highQC.value))
  }

  // -------------------------------------------------------------------------
  // What a valid certificate is
  // -------------------------------------------------------------------------

  predicate DistinctVoters(votes: seq<Vote>) {
    forall i, j :: 0 <= i < j < |votes| ==> votes[i].validator != votes[j].validator
  }

  predicate ValidVote(vote: Vote, vs: seq<Validator>, payload: Payload) {
    IsMember(vs, vote.validator, vote.publicKey) && vote.signature == Signature(vote.publicKey, payload)
  }

  /** At least a quorum of votes by pairwise distinct members, every one signing `payload`. */
  predicate ValidVoteSet(votes: seq<Vote>, vs: seq<Validator>, payload: Payload) {
    && vs != []
    && QuorumSize(|vs|) <= |votes| <= |vs|
    && DistinctVoters(votes)
    && forall vote :: vote in votes ==> ValidVote(vote, vs, payload)
  }

  predicate ValidPrepareQC(qc: PrepareQC, vs: seq<Validator>, chainId: string, height: nat) {
    && PrepareQCShape(qc) && qc.chainId == chainId && qc.height == height
    && ValidVoteSet(qc.votes, vs, PreparePayload(chainId, height, qc.round, qc.blockHash))
  }

  predicate ValidTimeoutVote(v: TimeoutVote, vs: seq<Validator>, chainId: string, height: nat, round: nat) {
    && TimeoutVoteShape(v) && v.chainId == chainId && v.height == height && v.round == round
    && IsMember(vs, v.validator, v.publicKey)
    && v.signature == Signature(v.publicKey, TimeoutPayload(chainId, height, round, v.highQCRound, v.highQCHash))
  }

  /** A reported QC must be carried and match the signed report; an unreported one must not be carried. */
  predicate ValidTimeoutResponse(r: TimeoutResponse, vs: seq<Validator>, chainId: string, height: nat, round: nat) {
    && ValidTimeoutVote(r.vote, vs, chainId, height, round)
    && match r.highQC {
         case None => r.vote.highQCRound == -1
         case Some(qc) =>
           && r.vote.highQCRound != -1
           && ValidPrepareQC(qc, vs, chainId, height)
           && qc.round == r.vote.highQCRound && qc.blockHash == r.vote.highQCHash
       }
  }

  predicate DistinctTimeoutVoters(votes: seq<TimeoutVote>) {
    forall i, j :: 0 <= i < j < |votes| ==> votes[i].validator != votes[j].validator
  }

  /** `m` is the highest round any vote reports (-1 when none does). */
  ghost predicate IsMaxReported(votes: seq<TimeoutVote>, m: int) {
    && m >= -1
    && (forall v :: v in votes ==> v.highQCRound <= m)
    && (m > -1 ==> exists v :: v in votes && v.highQCRound == m)
  }

  predicate ReportsAgree(votes: seq<TimeoutVote>, round: int, hash: Hash) {
    forall v :: v in votes && v.highQCRound == round ==> v.highQCHash == hash
  }

  /** TC(H, r): a quorum of distinct timeout votes and, iff some vote reports a QC, the highest reported one. */
  ghost predicate ValidTimeoutCertificate(
    tc: TimeoutCertificate, vs: seq<Validator>, chainId: string, height: nat, round: nat, maxReported: int)
  {
    && TimeoutCertificateShape(tc) && tc.chainId == chainId && tc.height == height && tc.round == round
    && vs != []
    && QuorumSize(|vs|) <= |tc.votes| <= |vs|
    && DistinctTimeoutVoters(tc.votes)
    && (forall v :: v in tc.votes ==> ValidTimeoutVote(v, vs, chainId, height, round))
    && IsMaxReported(tc.votes, maxReported)
    && match tc.highQC {
         case None => maxReported == -1
         case Some(qc) =>
           && maxReported >= 0
           && ValidPrepareQC(qc, vs, chainId, height) && qc.round == maxReported
           && ReportsAgree(tc.votes, maxReported, qc.blockHash)
       }
  }

  /** SAFE-VOTE: unlocked, or the locked block, or a justification newer than the lock. */
  predicate SafeVote(lock: Option<Lock>, blockHash: Hash, justifyRound: int) {
    lock.None? || lock.value.blockHash == blockHash || justifyRound > lock.value.round
  }

  /** A `prepare` request whose certificates a validator accepts, with the justify QC it rests on. */
  ghost predicate ValidPrepareRequest(
    request: PrepareRequest, vs: seq<Validator>, chainId: string, height: nat, justify: Option<PrepareQC>)
  {
    var p, block := request.proposal, request.block;
    && ProposalShape(p) && p.chainId == chainId && p.height == height
    && vs != []
    && p.signature == Signature(ExpectedValidator(vs, p.height, p.round).publicKey,
                                ProposalPayload(p.chainId, p.height, p.round, p.blockHash, p.justifyRound))
    && block.hash == p.blockHash
    && block.header.height == height && block.header.chainId == chainId && block.header.round <= p.round
    && JustifiedProposal(request, vs, chainId, height, justify)
  }

  /** Round 0 and unjustified proposals carry a fresh block; a justified one re-proposes the QC's block. */
  ghost predicate JustifiedProposal(
    request: PrepareRequest, vs: seq<Validator>, chainId: string, height: nat, justify: Option<PrepareQC>)
  {
    var p, block := request.proposal, request.block;
    if p.round == 0 then
      request.tc.None? && p.justifyRound == -1 && block.header.round == 0 && justify.None?
    else
      && request.tc.Some?
      && ValidTimeoutCertificate(request.tc.value, vs, chainId, height, p.round - 1, p.justifyRound)
      && justify == request.tc.value.highQC
      && match justify {
           case None => block.header.round == p.round
           case Some(qc) => qc.blockHash == block.hash && block.header.round <= qc.round
         }
  }

  /** The v6 finality certificate: a quorum of commit votes over the block in its commit round. */
  predicate ValidCommitCertificate(block: Block, vs: seq<Validator>) {
    && block.commitRound.Some? && block.commitRound.value <= V6_MAX_ROUND
    && block.header.round <= block.commitRound.value
    && ValidVoteSet(block.attestations, vs,
                    CommitPayload(block.header.chainId, block.header.height, block.commitRound.value, block.hash))
  }

  // -------------------------------------------------------------------------
  // The validation loops
  // -------------------------------------------------------------------------

  method ValidateVoteSet(votes: seq<Vote>, vs: seq<Validator>, payload: Payload) returns (ok: bool)
    ensures ok <==> ValidVoteSet(votes, vs, payload)
  {
    if |votes| > |vs| { return false; }
    var allowed := MemberMap(vs);
    var seen: set<Address> := {};
    for i := 0 to |votes|
      invariant DistinctVoters(votes[..i])
      invariant seen == set vote | vote in votes[..i] :: vote.validator
      invariant forall vote :: vote in votes[..i] ==> ValidVote(vote, vs, payload)
    {
      var vote := votes[i];
      assert votes[..i + 1] == votes[..i] + [vote];
      assert vote in votes;
      if vote.validator in seen {
        var earlier :| earlier in votes[..i] && earlier.validator == vote.validator;
        var k :| 0 <= k < i && votes[k] == earlier;
        return false;
      }
      seen := seen + {vote.validator};
      if vote.validator !in allowed || allowed[vote.validator] != vote.publicKey { return false; }
      if vote.signature != Signature(vote.publicKey, payload) { return false; }
    }
    assert votes[..|votes|] == votes;
    if |vs| < 1 { return false; }
    ok := |votes| >= QuorumSize(|vs|);
  }

  method ValidatePrepareQC(qc: PrepareQC, vs: seq<Validator>, chainId: string, height: nat) returns (ok: bool)
    ensures ok <==> ValidPrepareQC(qc, vs, chainId, height)
  {
    if !PrepareQCShape(qc) || qc.chainId != chainId || qc.height != height { return false; }
    ok := ValidateVoteSet(qc.votes, vs, PreparePayload(chainId, height, qc.round, qc.blockHash));
  }

  /** The vote loop: None at a repeated or invalid vote, otherwise the highest reported round. */
  method TallyTimeoutVotes(votes: seq<TimeoutVote>, vs: seq<Validator>, chainId: string, height: nat, round: nat)
    returns (m: Option<int>)
    ensures m.Some? <==>
      DistinctTimeoutVoters(votes) && forall v :: v in votes ==> ValidTimeoutVote(v, vs, chainId, height, round)
    ensures m.Some? ==> IsMaxReported(votes, m.value)
  {
    var seen: set<Address> := {};
    var maxReported := -1;
    for i := 0 to |votes|
      invariant DistinctTimeoutVoters(votes[..i])
      invariant seen == set v | v in votes[..i] :: v.validator
      invariant forall v :: v in votes[..i] ==> ValidTimeoutVote(v, vs, chainId, height, round)
      invariant IsMaxReported(votes[..i], maxReported)
    {
      var vote := votes[i];
      assert votes[..i + 1] == votes[..i] + [vote];
      assert vote in votes;
      if vote.validator in seen {
        var earlier :| earlier in votes[..i] && earlier.validator == vote.validator;
        var k :| 0 <= k < i && votes[k] == earlier;
        return None;
      }
      seen := seen + {vote.validator};
      if !ValidTimeoutVote(vote, vs, chainId, height, round) { return None; }
      if vote.highQCRound > maxReported { maxReported := vote.highQCRound; }
    }
    assert votes[..|votes|] == votes;
    m := Some(maxReported);
  }

  /** The loop over the votes that report the highest round. */
  method CheckReports(votes: seq<TimeoutVote>, round: int, hash: Hash) returns (ok: bool)
    ensures ok <==> ReportsAgree(votes, round, hash)
  {
    for i := 0 to |votes|
      invariant ReportsAgree(votes[..i], round, hash)
    {
      assert votes[..i + 1] == votes[..i] + [votes[i]];
      assert votes[i] in votes;
      if votes[i].highQCRound == round && votes[i].highQCHash != hash { return false; }
    }
    assert votes[..|votes|] == votes;
    ok := true;
  }

  /** Returns the highest reported QC round, or None where the source throws. */
  method ValidateTimeoutCertificate(
    tc: TimeoutCertificate, vs: seq<Validator>, chainId: string, height: nat, round: nat) returns (r: Option<int>)
    ensures r.Some? ==> ValidTimeoutCertificate(tc, vs, chainId, height, round, r.value)
    ensures r.None? ==> forall m :: !ValidTimeoutCertificate(tc, vs, chainId, height, round, m)
  {
    if !TimeoutCertificateShape(tc) { return None; }
    if tc.chainId != chainId || tc.height != height || tc.round != round { return None; }
    if |tc.votes| > |vs| { return None; }
    var reported := TallyTimeoutVotes(tc.votes, vs, chainId, height, round);
    if reported.None? || |vs| < 1 || |tc.votes| < QuorumSize(|vs|) { return None; }
    var maxReported := reported.value;
    MaxReportedIsUnique(tc.votes, maxReported);
    if maxReported < 0 {
      return if tc.highQC.Some? then None else Some(-1);
    }
    if tc.highQC.None? { return None; }
    var qcOk := ValidatePrepareQC(tc.highQC.value, vs, chainId, height);
    if !qcOk || tc.highQC.value.round != maxReported { return None; }
    var agree := CheckReports(tc.votes, maxReported, tc.highQC.value.blockHash);
    r := if agree then Some(maxReported) else None;
  }

  lemma MaxReportedIsUnique(votes: seq<TimeoutVote>, m: int)
    requires IsMaxReported(votes, m)
    ensures forall n :: IsMaxReported(votes, n) ==> n == m
  {
  }

  /** None where the source throws, otherwise the justify QC. */
  method ValidatePrepareRequestCertificates(
    request: PrepareRequest, vs: seq<Validator>, chainId: string, height: nat) returns (r: Option<Option<PrepareQC>>)
    ensures r.Some? ==> ValidPrepareRequest(request, vs, chainId, height, r.value)
    ensures r.None? ==> forall j :: !ValidPrepareRequest(request, vs, chainId, height, j)
  {
    var p, block, tc := request.proposal, request.block, request.tc;
    if !ProposalShape(p) || p.chainId != chainId || p.height != height { return None; }
    if vs == [] { return None; }
    if p.signature != Signature(ExpectedValidator(vs, p.height, p.round).publicKey,
                                ProposalPayload(p.chainId, p.height, p.round, p.blockHash, p.justifyRound)) {
      return None;
    }
    if block.hash != p.blockHash { return None; }
    if block.header.height != height || block.header.chainId != chainId { return None; }
    if block.header.round > p.round { return None; }
    if p.round == 0 {
      if tc.Some? || p.justifyRound != -1 || block.header.round != 0 { return None; }
      return Some(None);
    }
    if tc.None? { return None; }
    var maxReported := ValidateTimeoutCertificate(tc.value, vs, chainId, height, p.round - 1);
    if maxReported.None? { return None; }
    if p.justifyRound != maxReported.value {
      MaxReportedIsUnique(tc.value.votes, maxReported.value);
      return None;
    }
    if maxReported.value == -1 {
      if block.header.round != p.round { return None; }
      return Some(None);
    }
    var justify := tc.value.highQC.value;
    if justify.blockHash != block.hash || block.header.round > justify.round { return None; }
    r := Some(Some(justify));
  }
}
