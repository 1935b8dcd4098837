/**
 * Certificates told by who signed them: exactly the votes of more than two thirds of the validators,
 * each signing once, make a certificate (l1/src/consensus-v6.ts).
 */
module V6Quorums {
  import opened Quorum
  import opened V6Certificates

  function Voting(votes: seq<Vote>): (members: seq<Validator>)
    ensures |members| == |votes|
    ensures forall i :: 0 <= i < |members| ==> members[i] == Validator(votes[i].validator, votes[i].publicKey)
  {
    seq(|votes|, i requires 0 <= i < |votes| => Validator(votes[i].validator, votes[i].publicKey))
  }

  ghost function Voters(votes: seq<Vote>): set<PublicKey> {
    set v | v in votes :: v.publicKey
  }

  /** More than two thirds of the validators sign the payload, each once, and nobody else does. */
  ghost predicate Backed(votes: seq<Vote>, vs: seq<Validator>, payload: Payload) {
    && (forall v :: v in votes ==>
          Validator(v.validator, v.publicKey) in vs && v.signature == Signature(v.publicKey, payload))
    && |Voters(votes)| == |votes| && 3 * |Voters(votes)| > 2 * |vs|
  }

  lemma VoterCount(votes: seq<Vote>, vs: seq<Validator>)
    requires DistinctValidators(vs)
    requires forall v :: v in votes ==> Validator(v.validator, v.publicKey) in vs
    ensures |Voters(votes)| <= |votes| && |Voters(votes)| <= |vs|
    ensures |Voters(votes)| == |votes| <==> DistinctVoters(votes)
  {
    var members := Voting(votes);
    forall v | v in members ensures v in vs {
      var i :| 0 <= i < |members| && members[i] == v;
      assert votes[i] in votes;
    }
    MemberCount(members, vs);
    assert Keys(members) == Voters(votes) by {
      forall v | v in votes ensures v.publicKey in Keys(members) {
        var i :| 0 <= i < |members| && votes[i] == v;
        assert members[i] in members;
      }
    }
    assert forall i :: 0 <= i < |members| ==> members[i].address == votes[i].validator;
    KeyCount(vs);
    SubsetCardinality(Keys(members), Keys(vs));
  }

  /** Main result: a vote set passes exactly when more than two thirds of the validators back the payload. */
  lemma VoteSetIff(votes: seq<Vote>, vs: seq<Validator>, payload: Payload)
    requires DistinctValidators(vs)
    ensures ValidVoteSet(votes, vs, payload) <==> vs != [] && Backed(votes, vs, payload)
  {
    forall v | v in votes
      ensures IsMember(vs, v.validator, v.publicKey) <==> Validator(v.validator, v.publicKey) in vs
    {
      MemberIff(vs, v.validator, v.publicKey);
    }
    if forall v :: v in votes ==> Validator(v.validator, v.publicKey) in vs { VoterCount(votes, vs); }
  }

  /** The target of a message: a chain identifier of 1 to 128 characters, a height above 0, a round up to a million. */
  predicate Targets(chainId: string, height: nat, round: nat) {
    1 <= |chainId| <= 128 && height >= 1 && round <= 1_000_000
  }

  /** 64 lower-case hexadecimal digits. */
  predicate HexHash(h: Hash) {
    |h| == 64 && forall i :: 0 <= i < 64 ==> h[i] in "0123456789abcdef"
  }

  lemma HexHashIs(h: Hash)
    ensures IsHash(h) <==> HexHash(h)
  {
    forall i | 0 <= i < |h|
      ensures h[i] in "0123456789abcdef" <==> '0' <= h[i] <= '9' || 'a' <= h[i] <= 'f'
    {
      HexChar(h[i]);
    }
  }

  lemma HexChar(c: char)
    ensures c in "0123456789abcdef" <==> '0' <= c <= '9' || 'a' <= c <= 'f'
  {
    var digits := "0123456789abcdef";
    if '0' <= c <= '9' { assert digits[c as int - '0' as int] == c; }
    if 'a' <= c <= 'f' { assert digits[c as int - 'a' as int + 10] == c; }
  }

  lemma PrepareQCIff(qc: PrepareQC, vs: seq<Validator>, chainId: string, height: nat)
    requires DistinctValidators(vs)
    ensures ValidPrepareQC(qc, vs, chainId, height) <==>
      && qc.chainId == chainId && qc.height == height && Targets(chainId, height, qc.round) && HexHash(qc.blockHash)
      && vs != [] && |qc.votes| <= 100 && Backed(qc.votes, vs, PreparePayload(chainId, height, qc.round, qc.blockHash))
  {
    HexHashIs(qc.blockHash);
    VoteSetIff(qc.votes, vs, PreparePayload(chainId, height, qc.round, qc.blockHash));
  }

  lemma CommitCertificateIff(block: Block, vs: seq<Validator>)
    requires DistinctValidators(vs)
    ensures ValidCommitCertificate(block, vs) <==>
      && block.commitRound.Some? && block.header.round <= block.commitRound.value <= 1_000_000 && vs != []
      && var r, h := block.commitRound.value, block.header;
         Backed(block.attestations, vs, CommitPayload(h.chainId, h.height, r, block.hash))
  {
    if block.commitRound.Some? {
      var r, h := block.commitRound.value, block.header;
      VoteSetIff(block.attestations, vs, CommitPayload(h.chainId, h.height, r, block.hash));
    }
  }

  // -------------------------------------------------------------------------
  // Timeout certificates
  // -------------------------------------------------------------------------

  function TimingOut(votes: seq<TimeoutVote>): (members: seq<Validator>)
    ensures |members| == |votes|
    ensures forall i :: 0 <= i < |members| ==> members[i] == Validator(votes[i].validator, votes[i].publicKey)
  {
    seq(|votes|, i requires 0 <= i < |votes| => Validator(votes[i].validator, votes[i].publicKey))
  }

  /** A signed report of the highest certificate seen, none or one up to the round. */
  ghost predicate Reports(v: TimeoutVote, vs: seq<Validator>, chainId: string, height: nat, round: nat) {
    && Validator(v.validator, v.publicKey) in vs && v.chainId == chainId && v.height == height && v.round == round
    && v.signature == Signature(v.publicKey, TimeoutPayload(chainId, height, round, v.highQCRound, v.highQCHash))
    && HexHash(v.highQCHash)
    && if v.highQCRound == -1 then v.highQCHash == ZERO_HASH
       else 0 <= v.highQCRound <= round && v.highQCHash != ZERO_HASH
  }

  lemma ReportIff(v: TimeoutVote, vs: seq<Validator>, chainId: string, height: nat, round: nat)
    requires DistinctValidators(vs) && Targets(chainId, height, round)
    ensures ValidTimeoutVote(v, vs, chainId, height, round) <==> Reports(v, vs, chainId, height, round)
  {
    HexHashIs(v.highQCHash);
    MemberIff(vs, v.validator, v.publicKey);
  }

  lemma TimeoutCount(votes: seq<TimeoutVote>, vs: seq<Validator>)
    requires DistinctValidators(vs)
    requires forall v :: v in votes ==> Validator(v.validator, v.publicKey) in vs
    ensures |Keys(TimingOut(votes))| <= |votes| && |Keys(TimingOut(votes))| <= |vs|
    ensures |Keys(TimingOut(votes))| == |votes| <==> DistinctTimeoutVoters(votes)
  {
    var members := TimingOut(votes);
    forall v | v in members ensures v in vs {
      var i :| 0 <= i < |members| && members[i] == v;
      assert votes[i] in votes;
    }
    MemberCount(members, vs);
    assert forall i :: 0 <= i < |members| ==> members[i].address == votes[i].validator;
    KeyCount(vs);
    SubsetCardinality(Keys(members), Keys(vs));
  }

  /** More than two thirds of the validators report, each once. */
  ghost predicate Reported(votes: seq<TimeoutVote>, vs: seq<Validator>, chainId: string, height: nat, round: nat) {
    && (forall v :: v in votes ==> Reports(v, vs, chainId, height, round))
    && |Keys(TimingOut(votes))| == |votes| && 3 * |votes| > 2 * |vs|
  }

  /** The certificate carried is the highest reported one, and none only if none is reported. */
  ghost predicate CarriesHighest(tc: TimeoutCertificate, vs: seq<Validator>, highest: int) {
    && (forall v :: v in tc.votes ==> v.highQCRound <= highest)
    && match tc.highQC {
         case None => highest == -1
         case Some(qc) =>
           && qc.round == highest && ValidPrepareQC(qc, vs, tc.chainId, tc.height)
           && (exists v :: v in tc.votes && v.highQCRound == highest)
           && (forall v :: v in tc.votes && v.highQCRound == highest ==> v.highQCHash == qc.blockHash)
       }
  }

  lemma TimeoutCertificateIff(tc: TimeoutCertificate, vs: seq<Validator>, chainId: string, height: nat, round: nat,
                              highest: int)
    requires DistinctValidators(vs) && Targets(chainId, height, round)
    ensures ValidTimeoutCertificate(tc, vs, chainId, height, round, highest) <==>
      && tc.chainId == chainId && tc.height == height && tc.round == round && vs != [] && |tc.votes| <= 100
      && Reported(tc.votes, vs, chainId, height, round) && CarriesHighest(tc, vs, highest)
  {
    forall v | v in tc.votes
      ensures ValidTimeoutVote(v, vs, chainId, height, round) <==> Reports(v, vs, chainId, height, round)
    {
      ReportIff(v, vs, chainId, height, round);
    }
    if forall v :: v in tc.votes ==> Reports(v, vs, chainId, height, round) { TimeoutCount(tc.votes, vs); }
  }
}
