/** The light client's anchor-advancing step for protocol v6 (l1/src/light-client.ts). */
module LightClient {
  import opened Constants
  import opened Quorum
  import opened V6Certificates
  import opened V6Agreement
  import opened V6Quorums

  datatype Anchor = Anchor(
    chainId: string, height: nat, blockHash: Hash, stateRoot: Hash, timestampMs: int,
    protocolVersion: nat, validators: seq<Validator>)

  predicate ValidAnchor(a: Anchor) {
    1 <= |a.validators| <= MAX_VALIDATOR_COUNT && DistinctValidators(a.validators) && a.timestampMs >= 0
  }

  /** None where the source throws. `hashOf` is the header hash; the proof is a block without its transactions. */
  function VerifyNextFinalizedHeader(a: Anchor, proof: Block, hashOf: Header -> Hash): Option<Anchor> {
    var header := proof.header;
    if !ValidAnchor(a) || a.protocolVersion != CONSENSUS_V6 then None
    else if header.chainId != a.chainId || header.height != a.height + 1 || header.previousHash != a.blockHash then None
    else if header.timestampMs <= a.timestampMs || header.version != a.protocolVersion then None
    else if proof.hash != hashOf(header) then None
    else
      var proposer := ExpectedValidator(a.validators, header.height, header.round);
      if header.proposer != proposer.address || proof.proposerPublicKey != proposer.publicKey then None
      else if proof.signature != Signature(proof.proposerPublicKey, HeaderPayload(header)) then None
      else if !ValidCommitCertificate(proof, a.validators) then None
      else Some(a.(height := header.height, blockHash := proof.hash,
                  stateRoot := header.stateRoot, timestampMs := header.timestampMs))
  }

  /** Advancing an anchor through a list of proofs. */
  function Follow(a: Anchor, proofs: seq<Block>, hashOf: Header -> Hash): Option<Anchor>
    decreases |proofs|
  {
    if proofs == [] then Some(a)
    else
      var next := VerifyNextFinalizedHeader(a, proofs[0], hashOf);
      if next.None? then None else Follow(next.value, proofs[1..], hashOf)
  }

  /**
   * `proof` is the next finalized block after one of this hash and time: linked to it and later, hashed as it
   * says, signed by the proposer whose turn it was, and backed by the commits of more than two thirds.
   */
  ghost predicate NextFinalized(
    chainId: string, vs: seq<Validator>, height: nat, parent: Hash, parentMs: int, proof: Block, hashOf: Header -> Hash)
    requires vs != []
  {
    var h := proof.header;
    && h.version == 6 && h.chainId == chainId && h.height == height + 1 && h.previousHash == parent
    && h.timestampMs > parentMs && proof.hash == hashOf(h)
    && proof.commitRound.Some? && h.round <= proof.commitRound.value <= 1_000_000
    && Backed(proof.attestations, vs, CommitPayload(chainId, height + 1, proof.commitRound.value, proof.hash))
    && var leader := ExpectedValidator(vs, height + 1, h.round);
       && h.proposer == leader.address && proof.proposerPublicKey == leader.publicKey
       && proof.signature == Signature(leader.publicKey, HeaderPayload(h))
  }

  /** What the client can start from. */
  predicate Usable(a: Anchor) {
    1 <= |a.validators| <= 100 && DistinctValidators(a.validators) && a.timestampMs >= 0 && a.protocolVersion == 6
  }

  /** Exactly which proofs advance an anchor, and to what. */
  lemma VerifyIff(a: Anchor, proof: Block, hashOf: Header -> Hash)
    ensures VerifyNextFinalizedHeader(a, proof, hashOf).Some? <==>
      Usable(a) && NextFinalized(a.chainId, a.validators, a.height, a.blockHash, a.timestampMs, proof, hashOf)
    ensures VerifyNextFinalizedHeader(a, proof, hashOf).Some? ==>
      VerifyNextFinalizedHeader(a, proof, hashOf).value == Advanced(a, proof, 1)
  {
    if Usable(a) { CommitCertificateIff(proof, a.validators); }
  }

  /** Proof `i` of a list continues the anchor or the proof before it. */
  ghost predicate Continues(a: Anchor, proofs: seq<Block>, i: nat, hashOf: Header -> Hash)
    requires i < |proofs| && a.validators != []
  {
    NextFinalized(a.chainId, a.validators, a.height + i,
                  if i == 0 then a.blockHash else proofs[i - 1].hash,
                  if i == 0 then a.timestampMs else proofs[i - 1].header.timestampMs, proofs[i], hashOf)
  }

  ghost predicate AllContinue(a: Anchor, proofs: seq<Block>, hashOf: Header -> Hash)
    requires a.validators != []
  {
    forall i :: 0 <= i < |proofs| ==> Continues(a, proofs, i, hashOf)
  }

  /** The anchor after a proof. */
  function Advanced(a: Anchor, proof: Block, steps: nat): Anchor {
    a.(height := a.height + steps, blockHash := proof.hash,
       stateRoot := proof.header.stateRoot, timestampMs := proof.header.timestampMs)
  }

  lemma ContinuesNext(a: Anchor, proofs: seq<Block>, i: nat, hashOf: Header -> Hash)
    requires i + 1 < |proofs| && a.validators != []
    ensures Continues(Advanced(a, proofs[0], 1), proofs[1..], i, hashOf) <==> Continues(a, proofs, i + 1, hashOf)
  {
  }

  lemma AllContinueNext(a: Anchor, proofs: seq<Block>, hashOf: Header -> Hash)
    requires proofs != [] && a.validators != []
    ensures AllContinue(a, proofs, hashOf) <==>
      Continues(a, proofs, 0, hashOf) && AllContinue(Advanced(a, proofs[0], 1), proofs[1..], hashOf)
  {
    var next, rest := Advanced(a, proofs[0], 1), proofs[1..];
    forall i | 0 <= i < |rest| ensures Continues(next, rest, i, hashOf) <==> Continues(a, proofs, i + 1, hashOf) {
      ContinuesNext(a, proofs, i, hashOf);
    }
    if Continues(a, proofs, 0, hashOf) && AllContinue(next, rest, hashOf) {
      forall i | 0 <= i < |proofs| ensures Continues(a, proofs, i, hashOf) {
        if i > 0 { assert Continues(next, rest, i - 1, hashOf); }
      }
    }
  }

  /** Main result: a client follows a list of proofs exactly when each continues the one before it. */
  lemma {:induction false} FollowIff(a: Anchor, proofs: seq<Block>, hashOf: Header -> Hash)
    requires Usable(a)
    ensures Follow(a, proofs, hashOf).Some? <==> AllContinue(a, proofs, hashOf)
    ensures Follow(a, proofs, hashOf).Some? && proofs != [] ==>
      Follow(a, proofs, hashOf).value == Advanced(a, proofs[|proofs| - 1], |proofs|)
    decreases |proofs|
  {
    if proofs != [] {
      VerifyIff(a, proofs[0], hashOf);
      AllContinueNext(a, proofs, hashOf);
      if VerifyNextFinalizedHeader(a, proofs[0], hashOf).Some? {
        FollowIff(Advanced(a, proofs[0], 1), proofs[1..], hashOf);
      }
    }
  }

  /** What the two clients share at every moment. */
  ghost predicate SamePosition(c: Config, a: Anchor, b: Anchor) {
    a.chainId == c.chainId == b.chainId && a.height == b.height
    && a.validators == b.validators && a.blockHash == b.blockHash
  }

  /** What an accepted header proof shows. */
  lemma AcceptedHeader(a: Anchor, p: Block, hashOf: Header -> Hash)
    requires VerifyNextFinalizedHeader(a, p, hashOf).Some?
    ensures ValidCommitCertificate(p, a.validators)
    ensures p.header.chainId == a.chainId && p.header.height == a.height + 1 && p.hash == hashOf(p.header)
    ensures VerifyNextFinalizedHeader(a, p, hashOf).value ==
      a.(height := a.height + 1, blockHash := p.hash,
         stateRoot := p.header.stateRoot, timestampMs := p.header.timestampMs)
  {
  }

  lemma OneStepAgrees(
    c: Config, run: seq<State>, steps: seq<Step>, a: Anchor, b: Anchor, p: Block, q: Block, hashOf: Header -> Hash)
    requires IsRun(c, run, steps) && FaultBound(c, run[0].nodes.Keys) && SamePosition(c, a, b)
    requires VerifyNextFinalizedHeader(a, p, hashOf).Some? && VerifyNextFinalizedHeader(b, q, hashOf).Some?
    requires c.validatorsAt(a.height + 1) == a.validators
    requires KnownVotes(run[|run| - 1], p.attestations) && KnownVotes(run[|run| - 1], q.attestations)
    ensures var a', b' := VerifyNextFinalizedHeader(a, p, hashOf).value, VerifyNextFinalizedHeader(b, q, hashOf).value;
      && SamePosition(c, a', b') && a'.height == a.height + 1 && a'.validators == a.validators
      && hashOf(p.header) == hashOf(q.header)
      && (a == b && p.header == q.header ==> a' == b')
  {
    AcceptedHeader(a, p, hashOf);
    AcceptedHeader(b, q, hashOf);
    AgreementUnder(c, run, steps, a.validators, p, q);
  }

  ghost predicate NoHeaderCollision(ps: seq<Block>, qs: seq<Block>, hashOf: Header -> Hash)
    requires |ps| == |qs|
  {
    forall i :: 0 <= i < |ps| && hashOf(ps[i].header) == hashOf(qs[i].header) ==> ps[i].header == qs[i].header
  }

  /**
   * Two light clients that start from one v6 anchor and take equally many steps, on
   * whatever proofs they are shown during a run, hold the same block hash; they hold
   * the same anchor when the header hash does not collide on the headers they saw.
   */
  lemma {:induction false} LightClientsAgree(
    c: Config, run: seq<State>, steps: seq<Step>, a: Anchor, b: Anchor, ps: seq<Block>, qs: seq<Block>,
    hashOf: Header -> Hash)
    requires IsRun(c, run, steps) && FaultBound(c, run[0].nodes.Keys) && SamePosition(c, a, b)
    requires |ps| == |qs| && Follow(a, ps, hashOf).Some? && Follow(b, qs, hashOf).Some?
    requires forall h :: a.height < h <= a.height + |ps| ==> c.validatorsAt(h) == a.validators
    requires forall i :: 0 <= i < |ps| ==>
      KnownVotes(run[|run| - 1], ps[i].attestations) && KnownVotes(run[|run| - 1], qs[i].attestations)
    ensures Follow(a, ps, hashOf).value.blockHash == Follow(b, qs, hashOf).value.blockHash
    ensures a == b && NoHeaderCollision(ps, qs, hashOf) ==> Follow(a, ps, hashOf) == Follow(b, qs, hashOf)
    decreases |ps|
  {
    if ps != [] {
      OneStepAgrees(c, run, steps, a, b, ps[0], qs[0], hashOf);
      var a', b' := VerifyNextFinalizedHeader(a, ps[0], hashOf).value,
        VerifyNextFinalizedHeader(b, qs[0], hashOf).value;
      LightClientsAgree(c, run, steps, a', b', ps[1..], qs[1..], hashOf);
      assert NoHeaderCollision(ps, qs, hashOf) ==> NoHeaderCollision(ps[1..], qs[1..], hashOf);
    }
  }
}
