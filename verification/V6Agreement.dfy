/**
 * Protocol v6 as a state machine: honest validators follow the handlers of
 * l1/src/node-base.ts and the journal of l1/src/storage.ts; every other key signs
 * anything at any time. The theorem is agreement in every reachable state.
 */
module V6Agreement {
  import opened Quorum
  import opened V6Certificates
  import opened SigningJournal

  /** `validatorsAt` is the governed validator schedule. */
  datatype Config = Config(chainId: string, validatorsAt: nat -> seq<Validator>)

  /** `height` is the height of the node's finalized tip; rows at or below it are pruned. */
  datatype Node = Node(height: nat, journals: map<nat, HeightJournal>)

  /**
   * `signed`: every signature anyone can show. `reserved`: every row an honest
   * journal ever held, pruned or not (a history variable). `nodes`: one per honest key.
   */
  datatype State = State(signed: set<Signature>, reserved: set<Signature>, nodes: map<PublicKey, Node>)

  datatype Step =
    | ByzantineSigns(signature: Signature)
    | ReservesPrepare(key: PublicKey, request: PrepareRequest, justify: Option<PrepareQC>)
    | ReservesCommit(key: PublicKey, qc: PrepareQC)
    | ReservesTimeout(key: PublicKey, round: nat, highQC: Option<PrepareQC>)
    | ReservesProposal(key: PublicKey, request: PrepareRequest, justify: Option<PrepareQC>)
    | ReservesFreshBlock(key: PublicKey, header: Header, hash: Hash)
    | Releases(signature: Signature)
    | Finalizes(key: PublicKey, block: Block)

  /** Distinct validators at every height, fewer than a third of them outside the honest keys. */
  ghost predicate FaultBound(c: Config, honest: set<PublicKey>) {
    forall h: nat ::
      && DistinctValidators(c.validatorsAt(h))
      && 3 * |Keys(c.validatorsAt(h)) - honest| < |c.validatorsAt(h)|
  }

  ghost predicate Init(s: State) {
    && s.signed == {} && s.reserved == {}
    && forall k :: k in s.nodes ==> s.nodes[k].journals == map[]
  }

  ghost predicate KnownVotes(s: State, votes: seq<Vote>) {
    forall v :: v in votes ==> v.signature in s.signed
  }

  ghost predicate KnownQC(s: State, qc: Option<PrepareQC>) {
    qc.Some? ==> KnownVotes(s, qc.value.votes)
  }

  ghost predicate KnownTC(s: State, tc: Option<TimeoutCertificate>) {
    tc.Some? ==> KnownQC(s, tc.value.highQC) && forall v :: v in tc.value.votes ==> v.signature in s.signed
  }

  /** The node at `key` turns the rows of its next height into `j` and records the row of `payload`. */
  ghost predicate Reserves(s: State, s': State, key: PublicKey, j: Option<HeightJournal>, payload: Payload) {
    && key in s.nodes && j.Some?
    && var node := s.nodes[key];
       s' == State(s.signed, s.reserved + {Signature(key, payload)},
                   s.nodes[key := node.(journals := node.journals[node.height + 1 := j.value])])
  }

  function NextJournal(node: Node): HeightJournal {
    HeightState(node.journals, node.height + 1)
  }

  ghost predicate PrepareStep(c: Config, s: State, s': State, key: PublicKey, request: PrepareRequest,
                              justify: Option<PrepareQC>)
  {
    && key in s.nodes
    && var h, p := s.nodes[key].height + 1, request.proposal;
       && ValidPrepareRequest(request, c.validatorsAt(h), c.chainId, h, justify)
       && p.signature in s.signed && KnownTC(s, request.tc)
       && Reserves(s, s', key, ReservePrepare(NextJournal(s.nodes[key]), p.round, request.block.hash, p.justifyRound),
                   PreparePayload(c.chainId, h, p.round, request.block.hash))
  }

  ghost predicate CommitStep(c: Config, s: State, s': State, key: PublicKey, qc: PrepareQC) {
    && key in s.nodes
    && var h := s.nodes[key].height + 1;
       && ValidPrepareQC(qc, c.validatorsAt(h), c.chainId, h) && KnownVotes(s, qc.votes)
       && Reserves(s, s', key, ReserveCommit(NextJournal(s.nodes[key]), qc.round, qc.blockHash),
                   CommitPayload(c.chainId, h, qc.round, qc.blockHash))
  }

  /**
   * The reported QC is any valid one up to the round, or none: a lost QC file makes
   * an honest node report none although its lock row stays enforced.
   */
  ghost predicate TimeoutStep(c: Config, s: State, s': State, key: PublicKey, round: nat, highQC: Option<PrepareQC>) {
    && key in s.nodes && round <= V6_MAX_ROUND
    && var h, j := s.nodes[key].height + 1, NextJournal(s.nodes[key]);
       var payload := TimeoutPayload(c.chainId, h, round,
         if highQC.Some? then highQC.value.round else -1, if highQC.Some? then highQC.value.blockHash else ZERO_HASH);
       && KnownQC(s, highQC)
       && (highQC.Some? ==>
         ValidPrepareQC(highQC.value, c.validatorsAt(h), c.chainId, h) && highQC.value.round <= round)
       && (round !in j.timeouts ==> j.maxVoteRound <= round && j.maxTimeoutRound <= round)
       && Reserves(s, s', key, ReserveTimeout(j, round, payload), payload)
  }

  /** The leader checks its own request as a validator would before it journals the proposal. */
  ghost predicate ProposalStep(c: Config, s: State, s': State, key: PublicKey, request: PrepareRequest,
                               justify: Option<PrepareQC>)
  {
    && key in s.nodes
    && var h, p, j := s.nodes[key].height + 1, request.proposal, NextJournal(s.nodes[key]);
       && ValidPrepareRequest(request, c.validatorsAt(h), c.chainId, h, justify)
       && p.signature.publicKey == key && KnownTC(s, request.tc)
       && (p.justifyRound == -1 ==> p.round in j.blockProposals && j.blockProposals[p.round] == request.block.hash)
       && Reserves(s, s', key, ReserveProposal(j, p.round, p.signature.payload), p.signature.payload)
  }

  ghost predicate FreshBlockStep(s: State, s': State, key: PublicKey, header: Header, hash: Hash) {
    && key in s.nodes && header.height == s.nodes[key].height + 1
    && Reserves(s, s', key, ReserveBlockProposal(NextJournal(s.nodes[key]), header.round, hash), HeaderPayload(header))
  }

  /** Accepting a finalized block moves the tip and prunes the journal through its height. */
  ghost predicate FinalizeStep(c: Config, s: State, s': State, key: PublicKey, block: Block) {
    && key in s.nodes
    && var node := s.nodes[key];
       && block.header.chainId == c.chainId && block.header.height == node.height + 1
       && ValidCommitCertificate(block, c.validatorsAt(node.height + 1)) && KnownVotes(s, block.attestations)
       && s' == s.(nodes := s.nodes[key := Node(node.height + 1,
                                                map h | h in node.journals && h > node.height + 1 :: node.journals[h])])
  }

  ghost predicate NextStep(c: Config, s: State, s': State, step: Step) {
    match step
    case ByzantineSigns(sig) => sig.publicKey !in s.nodes && s' == s.(signed := s.signed + {sig})
    case Releases(sig) => sig in s.reserved && s' == s.(signed := s.signed + {sig})
    case ReservesPrepare(key, request, justify) => PrepareStep(c, s, s', key, request, justify)
    case ReservesCommit(key, qc) => CommitStep(c, s, s', key, qc)
    case ReservesTimeout(key, round, highQC) => TimeoutStep(c, s, s', key, round, highQC)
    case ReservesProposal(key, request, justify) => ProposalStep(c, s, s', key, request, justify)
    case ReservesFreshBlock(key, header, hash) => FreshBlockStep(s, s', key, header, hash)
    case Finalizes(key, block) => FinalizeStep(c, s, s', key, block)
  }

  /** A run: `run[0]` is initial and consecutive states are related by `steps`. */
  ghost predicate IsRun(c: Config, run: seq<State>, steps: seq<Step>) {
    && |run| == |steps| + 1 && Init(run[0])
    && forall i :: 0 <= i < |steps| ==> NextStep(c, run[i], run[i + 1], steps[i])
  }

  // -------------------------------------------------------------------------
  // The inductive invariant
  // -------------------------------------------------------------------------

  ghost predicate Prepared(c: Config, s: State, key: PublicKey, h: nat, r: nat, b: Hash) {
    Signature(key, PreparePayload(c.chainId, h, r, b)) in s.reserved
  }

  ghost predicate Committed(c: Config, s: State, key: PublicKey, h: nat, r: nat, b: Hash) {
    Signature(key, CommitPayload(c.chainId, h, r, b)) in s.reserved
  }

  ghost function Signers(c: Config, s: State, h: nat, payload: Payload): set<PublicKey> {
    set k | k in Keys(c.validatorsAt(h)) && Signature(k, payload) in s.signed
  }

  ghost predicate IsQuorum(c: Config, h: nat, q: set<PublicKey>) {
    q <= Keys(c.validatorsAt(h)) && |q| >= QuorumSize(|c.validatorsAt(h)|)
  }

  ghost predicate PrepareQuorum(c: Config, s: State, h: nat, r: nat, b: Hash) {
    IsQuorum(c, h, Signers(c, s, h, PreparePayload(c.chainId, h, r, b)))
  }

  ghost predicate CommitQuorum(c: Config, s: State, h: nat, r: nat, b: Hash) {
    IsQuorum(c, h, Signers(c, s, h, CommitPayload(c.chainId, h, r, b)))
  }

  ghost predicate VotedAbove(c: Config, s: State, key: PublicKey, h: nat, r: nat) {
    exists r', b' :: r' > r && (Prepared(c, s, key, h, r', b') || Committed(c, s, key, h, r', b'))
  }

  /** An honest validator that did not commit (r, b) and, having voted above r, never will. */
  ghost predicate Blocked(c: Config, s: State, key: PublicKey, h: nat, r: nat, b: Hash) {
    key in s.nodes && !Committed(c, s, key, h, r, b) && VotedAbove(c, s, key, h, r)
  }

  /** No quorum can ever commit (r, b). */
  ghost predicate Unchoosable(c: Config, s: State, h: nat, r: nat, b: Hash) {
    forall q :: IsQuorum(c, h, q) ==> exists k :: k in q && Blocked(c, s, k, h, r, b)
  }

  ghost predicate Evidence(c: Config, s: State, h: nat, lo: nat, hi: nat, b: Hash) {
    exists r :: lo < r <= hi && PrepareQuorum(c, s, h, r, b)
  }

  ghost predicate HonestSignaturesReserved(s: State) {
    forall sig :: sig in s.signed && sig.publicKey in s.nodes ==> sig in s.reserved
  }

  /** Above the node's tip its journal holds exactly the rows it ever reserved. */
  ghost predicate JournalComplete(c: Config, s: State, key: PublicKey, h: nat)
    requires key in s.nodes
  {
    var j := HeightState(s.nodes[key].journals, h);
    && Coherent(j)
    && (forall r, b :: Prepared(c, s, key, h, r, b) <==> r in j.prepares && j.prepares[r] == b)
    && (forall r, b :: Committed(c, s, key, h, r, b) <==> r in j.commits && j.commits[r] == b)
  }

  ghost predicate JournalsComplete(c: Config, s: State) {
    forall k, h :: k in s.nodes && h > s.nodes[k].height ==> JournalComplete(c, s, k, h)
  }

  ghost predicate PreparesUnique(c: Config, s: State) {
    forall k, h, r, b, b' :: k in s.nodes && Prepared(c, s, k, h, r, b) && Prepared(c, s, k, h, r, b') ==> b == b'
  }

  ghost predicate CommitsJustified(c: Config, s: State) {
    forall k, h, r, b :: k in s.nodes && Committed(c, s, k, h, r, b) ==> PrepareQuorum(c, s, h, r, b)
  }

  /** Whoever prepares another block above an own commit has seen a newer QC for that block. */
  ghost predicate PreparesJustified(c: Config, s: State) {
    forall k, h, r, b, r', b' ::
      k in s.nodes && Committed(c, s, k, h, r, b) && Prepared(c, s, k, h, r', b') && r < r' && b != b' ==>
        Evidence(c, s, h, r, r', b')
  }

  ghost predicate QuorumsExclude(c: Config, s: State) {
    forall h, r, b, r', b' :: PrepareQuorum(c, s, h, r', b') && r < r' && b != b' ==> Unchoosable(c, s, h, r, b)
  }

  ghost predicate Inv(c: Config, s: State) {
    && HonestSignaturesReserved(s) && JournalsComplete(c, s) && PreparesUnique(c, s)
    && CommitsJustified(c, s) && PreparesJustified(c, s) && QuorumsExclude(c, s)
  }

  lemma InitEstablishesInv(c: Config, s: State)
    requires Init(s) && FaultBound(c, s.nodes.Keys)
    ensures Inv(c, s)
  {
    forall h: nat, r, b ensures !PrepareQuorum(c, s, h, r, b) {
      assert Signers(c, s, h, PreparePayload(c.chainId, h, r, b)) == {};
    }
  }

  /** Counting the members of a valid vote set by key. */
  lemma VoteSetIsQuorum(c: Config, s: State, h: nat, votes: seq<Vote>, payload: Payload)
    requires DistinctValidators(c.validatorsAt(h))
    requires ValidVoteSet(votes, c.validatorsAt(h), payload) && KnownVotes(s, votes)
    ensures IsQuorum(c, h, Signers(c, s, h, payload))
  {
    var vs := c.validatorsAt(h);
    var keys := VoterKeys(votes, vs, payload);
    assert keys <= Signers(c, s, h, payload);
    SubsetCardinality(keys, Signers(c, s, h, payload));
  }

  lemma {:induction false} VoterKeys(votes: seq<Vote>, vs: seq<Validator>, payload: Payload)
    returns (keys: set<PublicKey>)
    requires DistinctValidators(vs) && DistinctVoters(votes)
    requires forall vote :: vote in votes ==> ValidVote(vote, vs, payload)
    ensures keys == (set v | v in votes :: v.publicKey) && |keys| == |votes| && keys <= Keys(vs)
  {
    keys := {};
    for i := 0 to |votes|
      invariant keys == (set v | v in votes[..i] :: v.publicKey) && |keys| == i && keys <= Keys(vs)
    {
      var vote := votes[i];
      assert votes[..i + 1] == votes[..i] + [vote];
      assert vote in votes;
      MemberIsListed(vs, vote.validator, vote.publicKey);
      forall k | 0 <= k < i ensures votes[k].publicKey != vote.publicKey {
        OneKeyEach(vs, votes[k], vote, payload);
      }
      keys := keys + {vote.publicKey};
    }
    assert votes[..|votes|] == votes;
  }

  lemma OneKeyEach(vs: seq<Validator>, a: Vote, b: Vote, payload: Payload)
    requires DistinctValidators(vs) && a.validator != b.validator
    requires ValidVote(a, vs, payload) && ValidVote(b, vs, payload)
    ensures a.publicKey != b.publicKey
  {
    MemberIsListed(vs, a.validator, a.publicKey);
    MemberIsListed(vs, b.validator, b.publicKey);
  }

  /** Any two quorums of a height share an honest validator. */
  lemma HonestIntersection(c: Config, honest: set<PublicKey>, h: nat, q1: set<PublicKey>, q2: set<PublicKey>)
    returns (k: PublicKey)
    requires FaultBound(c, honest) && IsQuorum(c, h, q1) && IsQuorum(c, h, q2)
    ensures k in q1 && k in q2 && k in honest
  {
    KeyCount(c.validatorsAt(h));
    k := QuorumIntersection(Keys(c.validatorsAt(h)), Keys(c.validatorsAt(h)) - honest, q1, q2);
  }

  lemma QuorumsGrow(c: Config, s: State, s': State, h: nat, r: nat, b: Hash)
    requires s.signed <= s'.signed && PrepareQuorum(c, s, h, r, b)
    ensures PrepareQuorum(c, s', h, r, b)
  {
    var payload := PreparePayload(c.chainId, h, r, b);
    SubsetCardinality(Signers(c, s, h, payload), Signers(c, s', h, payload));
  }

  lemma EvidenceGrows(c: Config, s: State, s': State, h: nat, lo: nat, hi: nat, b: Hash)
    requires s.signed <= s'.signed && Evidence(c, s, h, lo, hi, b)
    ensures Evidence(c, s', h, lo, hi, b)
  {
    var r :| lo < r <= hi && PrepareQuorum(c, s, h, r, b);
    QuorumsGrow(c, s, s', h, r, b);
  }

  // -------------------------------------------------------------------------
  // Steps that only add a signature
  // -------------------------------------------------------------------------

  ghost predicate OnlySigns(s: State, s': State) {
    && s.signed <= s'.signed && s'.reserved == s.reserved && s'.nodes == s.nodes
    && HonestSignaturesReserved(s')
  }

  lemma SigningExcludes(c: Config, s: State, s': State, h: nat, r: nat, b: Hash, r': nat, b': Hash, q: set<PublicKey>)
    returns (k: PublicKey)
    requires Inv(c, s) && FaultBound(c, s.nodes.Keys) && OnlySigns(s, s')
    requires PrepareQuorum(c, s', h, r', b') && r < r' && b != b' && IsQuorum(c, h, q)
    ensures k in q && Blocked(c, s', k, h, r, b)
  {
    k := HonestIntersection(c, s.nodes.Keys, h, q, Signers(c, s', h, PreparePayload(c.chainId, h, r', b')));
    assert Prepared(c, s', k, h, r', b');
    if Committed(c, s, k, h, r, b) {
      assert Prepared(c, s, k, h, r', b');
      assert Evidence(c, s, h, r, r', b');
      assert Unchoosable(c, s, h, r, b);
      k :| k in q && Blocked(c, s, k, h, r, b);
      var r'', b'' :| r'' > r && (Prepared(c, s, k, h, r'', b'') || Committed(c, s, k, h, r'', b''));
      assert Prepared(c, s', k, h, r'', b'') || Committed(c, s', k, h, r'', b'');
    }
  }

  lemma SigningKeepsInv(c: Config, s: State, s': State)
    requires Inv(c, s) && FaultBound(c, s.nodes.Keys) && OnlySigns(s, s')
    ensures Inv(c, s')
  {
    assert forall k, h, r, b :: Prepared(c, s', k, h, r, b) == Prepared(c, s, k, h, r, b);
    assert forall k, h, r, b :: Committed(c, s', k, h, r, b) == Committed(c, s, k, h, r, b);
    forall k, h | k in s'.nodes && h > s'.nodes[k].height ensures JournalComplete(c, s', k, h) {
      assert JournalComplete(c, s, k, h);
    }
    forall k, h, r, b | k in s'.nodes && Committed(c, s', k, h, r, b) ensures PrepareQuorum(c, s', h, r, b) {
      QuorumsGrow(c, s, s', h, r, b);
    }
    forall k, h, r, b, r', b' |
      k in s'.nodes && Committed(c, s', k, h, r, b) && Prepared(c, s', k, h, r', b') && r < r' && b != b'
      ensures Evidence(c, s', h, r, r', b')
    {
      EvidenceGrows(c, s, s', h, r, r', b');
    }
    forall h, r, b, r', b' | PrepareQuorum(c, s', h, r', b') && r < r' && b != b' ensures Unchoosable(c, s', h, r, b) {
      forall q | IsQuorum(c, h, q) ensures exists k :: k in q && Blocked(c, s', k, h, r, b) {
        var k := SigningExcludes(c, s, s', h, r, b, r', b', q);
      }
    }
  }

  // -------------------------------------------------------------------------
  // Steps that reserve a journal row
  // -------------------------------------------------------------------------

  /** A reservation signs nothing, so quorums stay as they are. */
  lemma ReservingKeepsQuorums(c: Config, s: State, s': State)
    requires s'.signed == s.signed
    ensures forall h, r, b :: PrepareQuorum(c, s', h, r, b) == PrepareQuorum(c, s, h, r, b)
    ensures forall h, lo, hi, b :: Evidence(c, s', h, lo, hi, b) == Evidence(c, s, h, lo, hi, b)
  {
    forall h, r, b ensures PrepareQuorum(c, s', h, r, b) == PrepareQuorum(c, s, h, r, b) {
      assert Signers(c, s', h, PreparePayload(c.chainId, h, r, b)) ==
        Signers(c, s, h, PreparePayload(c.chainId, h, r, b));
    }
  }

  /** Only a commit row of the validator itself could unblock it, and it has voted above that round. */
  lemma BlockedStays(c: Config, s: State, s': State, k: PublicKey, h: nat, r: nat, b: Hash)
    requires s.reserved <= s'.reserved && s'.nodes.Keys == s.nodes.Keys
    requires Blocked(c, s, k, h, r, b) && !Committed(c, s', k, h, r, b)
    ensures Blocked(c, s', k, h, r, b)
  {
    var r', b' :| r' > r && (Prepared(c, s, k, h, r', b') || Committed(c, s, k, h, r', b'));
    assert Prepared(c, s', k, h, r', b') || Committed(c, s', k, h, r', b');
  }

  lemma ExclusionKept(c: Config, s: State, s': State)
    requires QuorumsExclude(c, s)
    requires s'.signed == s.signed && s.reserved <= s'.reserved && s'.nodes.Keys == s.nodes.Keys
    requires forall k, h, r, b :: k in s.nodes && Committed(c, s', k, h, r, b) && VotedAbove(c, s, k, h, r) ==>
      Committed(c, s, k, h, r, b)
    ensures QuorumsExclude(c, s')
  {
    ReservingKeepsQuorums(c, s, s');
    forall h, r, b, r', b' | PrepareQuorum(c, s', h, r', b') && r < r' && b != b' ensures Unchoosable(c, s', h, r, b) {
      forall q | IsQuorum(c, h, q) ensures exists k :: k in q && Blocked(c, s', k, h, r, b) {
        assert Unchoosable(c, s, h, r, b);
        var k :| k in q && Blocked(c, s, k, h, r, b);
        BlockedStays(c, s, s', k, h, r, b);
      }
    }
  }

  /** Rows of other validators and other heights are untouched by a reservation. */
  lemma OtherJournalsKept(c: Config, s: State, s': State, key: PublicKey, j: Option<HeightJournal>, payload: Payload)
    requires JournalsComplete(c, s) && Reserves(s, s', key, j, payload)
    requires payload.PreparePayload? || payload.CommitPayload? ==> payload.height == s.nodes[key].height + 1
    ensures forall k, h :: k in s'.nodes && h > s'.nodes[k].height && !(k == key && h == s.nodes[key].height + 1) ==>
      JournalComplete(c, s', k, h)
  {
    forall k, h | k in s'.nodes && h > s'.nodes[k].height && !(k == key && h == s.nodes[key].height + 1)
      ensures JournalComplete(c, s', k, h)
    {
      assert JournalComplete(c, s, k, h);
      assert HeightState(s'.nodes[k].journals, h) == HeightState(s.nodes[k].journals, h);
      assert forall r, b :: Prepared(c, s', k, h, r, b) == Prepared(c, s, k, h, r, b);
      assert forall r, b :: Committed(c, s', k, h, r, b) == Committed(c, s, k, h, r, b);
    }
  }

  /** Rows that are no votes: timeouts, proposals, fresh blocks. */
  lemma OtherRowKeepsInv(c: Config, s: State, s': State, key: PublicKey, j: Option<HeightJournal>, payload: Payload)
    requires Inv(c, s) && Reserves(s, s', key, j, payload)
    requires !payload.PreparePayload? && !payload.CommitPayload?
    requires j.value.prepares == NextJournal(s.nodes[key]).prepares
    requires j.value.commits == NextJournal(s.nodes[key]).commits
    requires Coherent(j.value)
    ensures Inv(c, s')
  {
    var h := s.nodes[key].height + 1;
    assert forall k, h, r, b :: Prepared(c, s', k, h, r, b) == Prepared(c, s, k, h, r, b);
    assert forall k, h, r, b :: Committed(c, s', k, h, r, b) == Committed(c, s, k, h, r, b);
    OtherJournalsKept(c, s, s', key, j, payload);
    assert JournalComplete(c, s, key, h);
    assert JournalComplete(c, s', key, h);
    ReservingKeepsQuorums(c, s, s');
    ExclusionKept(c, s, s');
  }

  /** The justify QC of an accepted request is a prepare quorum for the proposed block. */
  lemma JustifyIsQuorum(c: Config, s: State, h: nat, request: PrepareRequest, justify: Option<PrepareQC>)
    requires DistinctValidators(c.validatorsAt(h))
    requires ValidPrepareRequest(request, c.validatorsAt(h), c.chainId, h, justify) && KnownTC(s, request.tc)
    requires request.proposal.justifyRound >= 0
    ensures PrepareQuorum(c, s, h, request.proposal.justifyRound, request.block.hash)
  {
    assert JustifiedProposal(request, c.validatorsAt(h), c.chainId, h, justify);
    var qc := justify.value;
    VoteSetIsQuorum(c, s, h, qc.votes, PreparePayload(c.chainId, h, qc.round, qc.blockHash));
  }

  /** SAFE-VOTE turns into evidence: the lock's own QC, or the justify QC above it. */
  lemma SafeVoteHasEvidence(c: Config, s: State, key: PublicKey, h: nat, j: HeightJournal, round: nat, hash: Hash,
                            justifyRound: int, r: nat, b: Hash)
    requires key in s.nodes && j == HeightState(s.nodes[key].journals, h) && JournalComplete(c, s, key, h)
    requires CommitsJustified(c, s)
    requires ReservePrepare(j, round, hash, justifyRound).Some? && round !in j.prepares
    requires justifyRound >= 0 ==> PrepareQuorum(c, s, h, justifyRound, hash)
    requires Committed(c, s, key, h, r, b) && r < round && b != hash
    ensures Evidence(c, s, h, r, round, hash)
  {
    PrepareReservation(j, round, hash, justifyRound);
    assert r in j.commits && j.commits[r] == b;
    var lock := j.lock.value;
    if lock.blockHash == hash {
      assert Committed(c, s, key, h, lock.round, lock.blockHash);
      assert PrepareQuorum(c, s, h, lock.round, hash);
    } else {
      assert PrepareQuorum(c, s, h, justifyRound, hash);
    }
  }

  /** Which rows a prepare reservation adds, seen in the journal. */
  lemma PrepareRows(c: Config, s: State, s': State, key: PublicKey, request: PrepareRequest, justify: Option<PrepareQC>)
    requires Inv(c, s) && PrepareStep(c, s, s', key, request, justify)
    ensures var h, p := s.nodes[key].height + 1, request.proposal;
      && JournalsComplete(c, s')
      && (p.round in NextJournal(s.nodes[key]).prepares ==> Prepared(c, s, key, h, p.round, request.block.hash))
      && (p.round !in NextJournal(s.nodes[key]).prepares ==> forall b :: !Prepared(c, s, key, h, p.round, b))
  {
    var h, p, j := s.nodes[key].height + 1, request.proposal, NextJournal(s.nodes[key]);
    var payload := PreparePayload(c.chainId, h, p.round, request.block.hash);
    var k := ReservePrepare(j, p.round, request.block.hash, p.justifyRound);
    assert JournalComplete(c, s, key, h);
    PrepareReservation(j, p.round, request.block.hash, p.justifyRound);
    OtherJournalsKept(c, s, s', key, k, payload);
    assert forall r, b :: Prepared(c, s', key, h, r, b) <==>
      Prepared(c, s, key, h, r, b) || (r == p.round && b == request.block.hash);
    assert forall r, b :: Committed(c, s', key, h, r, b) <==> Committed(c, s, key, h, r, b);
    assert HeightState(s'.nodes[key].journals, h) == k.value;
    assert JournalComplete(c, s', key, h);
  }

  lemma PreparesStayJustified(c: Config, s: State, s': State, key: PublicKey, request: PrepareRequest,
                              justify: Option<PrepareQC>)
    requires Inv(c, s) && FaultBound(c, s.nodes.Keys) && PrepareStep(c, s, s', key, request, justify)
    requires forall k, h, r, b :: Committed(c, s', k, h, r, b) == Committed(c, s, k, h, r, b)
    ensures PreparesJustified(c, s')
  {
    var h, p := s.nodes[key].height + 1, request.proposal;
    PrepareRows(c, s, s', key, request, justify);
    ReservingKeepsQuorums(c, s, s');
    forall k, h', r, b, r', b' |
      k in s'.nodes && Committed(c, s', k, h', r, b) && Prepared(c, s', k, h', r', b') && r < r' && b != b'
      ensures Evidence(c, s', h', r, r', b')
    {
      if !Prepared(c, s, k, h', r', b') {
        assert k == key && h' == h && r' == p.round && b' == request.block.hash;
        assert JournalComplete(c, s, key, h);
        if p.justifyRound >= 0 { JustifyIsQuorum(c, s, h, request, justify); }
        SafeVoteHasEvidence(c, s, key, h, NextJournal(s.nodes[key]), p.round, b', p.justifyRound, r, b);
      }
    }
  }

  lemma PrepareKeepsInv(c: Config, s: State, s': State, key: PublicKey, request: PrepareRequest,
                        justify: Option<PrepareQC>)
    requires Inv(c, s) && FaultBound(c, s.nodes.Keys) && PrepareStep(c, s, s', key, request, justify)
    ensures Inv(c, s')
  {
    var h, p := s.nodes[key].height + 1, request.proposal;
    var sig := Signature(key, PreparePayload(c.chainId, h, p.round, request.block.hash));
    PrepareRows(c, s, s', key, request, justify);
    ReservingKeepsQuorums(c, s, s');
    assert s'.reserved == s.reserved + {sig};
    assert forall k, h', r, b :: Committed(c, s', k, h', r, b) == Committed(c, s, k, h', r, b);
    assert forall k, h', r, b :: Prepared(c, s', k, h', r, b) <==>
      Prepared(c, s, k, h', r, b) || (k == key && h' == h && r == p.round && b == request.block.hash);
    ExclusionKept(c, s, s');
    PreparesStayJustified(c, s, s', key, request, justify);
  }

  lemma CommitRows(c: Config, s: State, s': State, key: PublicKey, qc: PrepareQC)
    requires Inv(c, s) && CommitStep(c, s, s', key, qc)
    ensures var h := s.nodes[key].height + 1;
      && JournalsComplete(c, s')
      && (qc.round in NextJournal(s.nodes[key]).commits ==> Committed(c, s, key, h, qc.round, qc.blockHash))
      && (qc.round !in NextJournal(s.nodes[key]).commits ==> !VotedAbove(c, s, key, h, qc.round))
  {
    var h, j := s.nodes[key].height + 1, NextJournal(s.nodes[key]);
    var payload := CommitPayload(c.chainId, h, qc.round, qc.blockHash);
    var k := ReserveCommit(j, qc.round, qc.blockHash);
    assert JournalComplete(c, s, key, h);
    CommitReservation(j, qc.round, qc.blockHash);
    OtherJournalsKept(c, s, s', key, k, payload);
    assert forall r, b :: Committed(c, s', key, h, r, b) <==>
      Committed(c, s, key, h, r, b) || (r == qc.round && b == qc.blockHash);
    assert forall r, b :: Prepared(c, s', key, h, r, b) <==> Prepared(c, s, key, h, r, b);
    assert HeightState(s'.nodes[key].journals, h) == k.value;
    assert JournalComplete(c, s', key, h);
  }

  lemma CommitKeepsInv(c: Config, s: State, s': State, key: PublicKey, qc: PrepareQC)
    requires Inv(c, s) && FaultBound(c, s.nodes.Keys) && CommitStep(c, s, s', key, qc)
    ensures Inv(c, s')
  {
    var h := s.nodes[key].height + 1;
    var sig := Signature(key, CommitPayload(c.chainId, h, qc.round, qc.blockHash));
    CommitRows(c, s, s', key, qc);
    ReservingKeepsQuorums(c, s, s');
    assert forall k, h', r, b :: Prepared(c, s', k, h', r, b) == Prepared(c, s, k, h', r, b);
    assert forall k, h', r, b :: Committed(c, s', k, h', r, b) <==>
      Committed(c, s, k, h', r, b) || Signature(k, CommitPayload(c.chainId, h', r, b)) == sig;
    ExclusionKept(c, s, s');
    VoteSetIsQuorum(c, s, h, qc.votes, PreparePayload(c.chainId, h, qc.round, qc.blockHash));
    assert PrepareQuorum(c, s, h, qc.round, qc.blockHash);
    forall k, h', r, b, r', b' |
      k in s'.nodes && Committed(c, s', k, h', r, b) && Prepared(c, s', k, h', r', b') && r < r' && b != b'
      ensures Evidence(c, s', h', r, r', b')
    {
      assert Prepared(c, s, k, h', r', b');
      assert Committed(c, s, k, h', r, b);
    }
  }

  lemma FinalizeKeepsInv(c: Config, s: State, s': State, key: PublicKey, block: Block)
    requires Inv(c, s) && FinalizeStep(c, s, s', key, block)
    ensures Inv(c, s')
  {
    assert forall k, h, r, b :: Prepared(c, s', k, h, r, b) == Prepared(c, s, k, h, r, b);
    assert forall k, h, r, b :: Committed(c, s', k, h, r, b) == Committed(c, s, k, h, r, b);
    forall k, h | k in s'.nodes && h > s'.nodes[k].height ensures JournalComplete(c, s', k, h) {
      assert JournalComplete(c, s, k, h);
      assert HeightState(s'.nodes[k].journals, h) == HeightState(s.nodes[k].journals, h);
    }
    ReservingKeepsQuorums(c, s, s');
    ExclusionKept(c, s, s');
  }

  lemma OtherStepKeepsInv(c: Config, s: State, s': State, step: Step)
    requires Inv(c, s) && NextStep(c, s, s', step)
    requires step.ReservesTimeout? || step.ReservesProposal? || step.ReservesFreshBlock?
    ensures Inv(c, s')
  {
    match step
    case ReservesTimeout(key, round, highQC) => TimeoutKeepsInv(c, s, s', key, round, highQC);
    case ReservesProposal(key, request, justify) => ProposalKeepsInv(c, s, s', key, request, justify);
    case ReservesFreshBlock(key, header, hash) => FreshBlockKeepsInv(c, s, s', key, header, hash);
  }

  lemma TimeoutKeepsInv(c: Config, s: State, s': State, key: PublicKey, round: nat, highQC: Option<PrepareQC>)
    requires Inv(c, s) && TimeoutStep(c, s, s', key, round, highQC)
    ensures Inv(c, s')
  {
    var h, j := s.nodes[key].height + 1, NextJournal(s.nodes[key]);
    assert JournalComplete(c, s, key, h);
    var payload := TimeoutPayload(c.chainId, h, round,
      if highQC.Some? then highQC.value.round else -1, if highQC.Some? then highQC.value.blockHash else ZERO_HASH);
    OtherRowKeepsInv(c, s, s', key, ReserveTimeout(j, round, payload), payload);
  }

  lemma ProposalKeepsInv(c: Config, s: State, s': State, key: PublicKey, request: PrepareRequest,
                         justify: Option<PrepareQC>)
    requires Inv(c, s) && ProposalStep(c, s, s', key, request, justify)
    ensures Inv(c, s')
  {
    var j, p := NextJournal(s.nodes[key]), request.proposal;
    assert JournalComplete(c, s, key, s.nodes[key].height + 1);
    OtherRowKeepsInv(c, s, s', key, ReserveProposal(j, p.round, p.signature.payload), p.signature.payload);
  }

  lemma FreshBlockKeepsInv(c: Config, s: State, s': State, key: PublicKey, header: Header, hash: Hash)
    requires Inv(c, s) && FreshBlockStep(s, s', key, header, hash)
    ensures Inv(c, s')
  {
    var j := NextJournal(s.nodes[key]);
    assert JournalComplete(c, s, key, s.nodes[key].height + 1);
    OtherRowKeepsInv(c, s, s', key, ReserveBlockProposal(j, header.round, hash), HeaderPayload(header));
  }

  lemma VoteStepKeepsInv(c: Config, s: State, s': State, step: Step)
    requires Inv(c, s) && FaultBound(c, s.nodes.Keys) && NextStep(c, s, s', step)
    requires step.ReservesPrepare? || step.ReservesCommit? || step.Finalizes?
    ensures Inv(c, s')
  {
    match step
    case ReservesPrepare(key, request, justify) => PrepareKeepsInv(c, s, s', key, request, justify);
    case ReservesCommit(key, qc) => CommitKeepsInv(c, s, s', key, qc);
    case Finalizes(key, block) => FinalizeKeepsInv(c, s, s', key, block);
  }

  /** What a step does to heights, honest keys and the signatures known. */
  lemma StepShape(c: Config, s: State, s': State, step: Step)
    requires NextStep(c, s, s', step)
    ensures s.signed <= s'.signed && s'.nodes.Keys == s.nodes.Keys
    ensures forall k :: k in s.nodes ==>
      s'.nodes[k].height == s.nodes[k].height + if step.Finalizes? && step.key == k then 1 else 0
  {
    match step
    case ByzantineSigns(sig) =>
    case Releases(sig) =>
    case ReservesPrepare(key, request, justify) => assert PrepareStep(c, s, s', key, request, justify);
    case ReservesCommit(key, qc) => assert CommitStep(c, s, s', key, qc);
    case ReservesTimeout(key, round, highQC) => assert TimeoutStep(c, s, s', key, round, highQC);
    case ReservesProposal(key, request, justify) => assert ProposalStep(c, s, s', key, request, justify);
    case ReservesFreshBlock(key, header, hash) => assert FreshBlockStep(s, s', key, header, hash);
    case Finalizes(key, block) => assert FinalizeStep(c, s, s', key, block);
  }

  lemma StepKeepsInv(c: Config, s: State, s': State, step: Step)
    requires Inv(c, s) && FaultBound(c, s.nodes.Keys) && NextStep(c, s, s', step)
    ensures Inv(c, s')
  {
    if step.ByzantineSigns? || step.Releases? {
      SigningKeepsInv(c, s, s');
    } else if step.ReservesPrepare? || step.ReservesCommit? || step.Finalizes? {
      VoteStepKeepsInv(c, s, s', step);
    } else {
      OtherStepKeepsInv(c, s, s', step);
    }
  }

  lemma HonestStepKeepsInv(c: Config, honest: set<PublicKey>, s: State, s': State, step: Step)
    requires Inv(c, s) && s.nodes.Keys == honest && FaultBound(c, honest) && NextStep(c, s, s', step)
    ensures Inv(c, s') && s'.nodes.Keys == honest && s.signed <= s'.signed
  {
    StepShape(c, s, s', step);
    StepKeepsInv(c, s, s', step);
  }

  lemma {:induction false} RunKeepsInv(c: Config, run: seq<State>, steps: seq<Step>, i: nat, j: nat)
    requires IsRun(c, run, steps) && FaultBound(c, run[0].nodes.Keys) && i <= j < |run|
    ensures Inv(c, run[j]) && run[j].nodes.Keys == run[0].nodes.Keys && run[i].signed <= run[j].signed
  {
    var honest, s, n := run[0].nodes.Keys, run[0], 0;
    InitEstablishesInv(c, s);
    while n < j
      invariant 0 <= n <= j && s == run[n] && s.nodes.Keys == honest && (i <= n ==> run[i].signed <= s.signed)
      invariant Inv(c, s)
    {
      var s' := run[n + 1];
      HonestStepKeepsInv(c, honest, s, s', steps[n]);
      s, n := s', n + 1;
    }
  }

  // -------------------------------------------------------------------------
  // Agreement
  // -------------------------------------------------------------------------

  /** A prepare quorum above r for another block rules a commit quorum at r out. */
  lemma NoCommitBelow(c: Config, s: State, h: nat, r: nat, b: Hash, r': nat, b': Hash)
    requires Inv(c, s) && PrepareQuorum(c, s, h, r', b') && r < r' && b != b'
    ensures !CommitQuorum(c, s, h, r, b)
  {
    var q := Signers(c, s, h, CommitPayload(c.chainId, h, r, b));
    assert forall k :: k in q && k in s.nodes ==> Committed(c, s, k, h, r, b);
    assert Unchoosable(c, s, h, r, b);
  }

  lemma PreparesAgree(c: Config, s: State, h: nat, r: nat, b: Hash, b': Hash)
    requires Inv(c, s) && FaultBound(c, s.nodes.Keys) && PrepareQuorum(c, s, h, r, b) && PrepareQuorum(c, s, h, r, b')
    ensures b == b'
  {
    var k := HonestIntersection(c, s.nodes.Keys, h,
      Signers(c, s, h, PreparePayload(c.chainId, h, r, b)), Signers(c, s, h, PreparePayload(c.chainId, h, r, b')));
    assert Prepared(c, s, k, h, r, b) && Prepared(c, s, k, h, r, b');
  }

  lemma CommitHasPrepareQuorum(c: Config, s: State, h: nat, r: nat, b: Hash)
    requires Inv(c, s) && FaultBound(c, s.nodes.Keys) && CommitQuorum(c, s, h, r, b)
    ensures PrepareQuorum(c, s, h, r, b)
  {
    var q := Signers(c, s, h, CommitPayload(c.chainId, h, r, b));
    var k := HonestIntersection(c, s.nodes.Keys, h, q, q);
    assert Committed(c, s, k, h, r, b);
  }

  /** Once (r, b) has a commit quorum, every prepare quorum in a round >= r is for b. */
  lemma CommitFixesPrepares(c: Config, s: State, h: nat, r: nat, b: Hash, r': nat, b': Hash)
    requires Inv(c, s) && FaultBound(c, s.nodes.Keys)
    requires CommitQuorum(c, s, h, r, b) && PrepareQuorum(c, s, h, r', b') && r <= r'
    ensures b == b'
  {
    if r == r' {
      CommitHasPrepareQuorum(c, s, h, r, b);
      PreparesAgree(c, s, h, r, b, b');
    } else if b != b' {
      NoCommitBelow(c, s, h, r, b, r', b');
    }
  }

  lemma CommitsAgree(c: Config, s: State, h: nat, r: nat, b: Hash, r': nat, b': Hash)
    requires Inv(c, s) && FaultBound(c, s.nodes.Keys)
    requires CommitQuorum(c, s, h, r, b) && CommitQuorum(c, s, h, r', b')
    ensures b == b'
  {
    var lo, hi, lb, hb := r, r', b, b';
    if r' < r { lo, hi, lb, hb := r', r, b', b; }
    CommitHasPrepareQuorum(c, s, h, hi, hb);
    CommitFixesPrepares(c, s, h, lo, lb, hi, hb);
  }

  /**
   * In every run: a valid commit certificate for (H, r, B), shown at any time, and a
   * valid PrepareQC at H in a round >= r, shown at any time, are for the same block.
   */
  lemma PrepareQCsFollowCommit(
    c: Config, run: seq<State>, steps: seq<Step>, i: nat, block: Block, j: nat, qc: PrepareQC)
    requires IsRun(c, run, steps) && FaultBound(c, run[0].nodes.Keys) && i < |run| && j < |run|
    requires block.header.chainId == c.chainId
    requires ValidCommitCertificate(block, c.validatorsAt(block.header.height))
    requires KnownVotes(run[i], block.attestations)
    requires ValidPrepareQC(qc, c.validatorsAt(block.header.height), c.chainId, block.header.height)
    requires KnownVotes(run[j], qc.votes)
    requires qc.round >= block.commitRound.value
    ensures qc.blockHash == block.hash
  {
    var last, h := |run| - 1, block.header.height;
    RunKeepsInv(c, run, steps, i, last);
    RunKeepsInv(c, run, steps, j, last);
    VoteSetIsQuorum(c, run[last], h, block.attestations,
      CommitPayload(c.chainId, h, block.commitRound.value, block.hash));
    VoteSetIsQuorum(c, run[last], h, qc.votes, PreparePayload(c.chainId, h, qc.round, qc.blockHash));
    CommitFixesPrepares(c, run[last], h, block.commitRound.value, block.hash, qc.round, qc.blockHash);
  }

  /** In every run no two valid commit certificates at one height name different blocks. */
  lemma Agreement(c: Config, run: seq<State>, steps: seq<Step>, i: nat, block: Block, j: nat, block': Block)
    requires IsRun(c, run, steps) && FaultBound(c, run[0].nodes.Keys) && i < |run| && j < |run|
    requires block.header.chainId == c.chainId == block'.header.chainId
    requires block.header.height == block'.header.height
    requires ValidCommitCertificate(block, c.validatorsAt(block.header.height))
    requires KnownVotes(run[i], block.attestations)
    requires ValidCommitCertificate(block', c.validatorsAt(block.header.height))
    requires KnownVotes(run[j], block'.attestations)
    ensures block.hash == block'.hash
  {
    var last, h := |run| - 1, block.header.height;
    RunKeepsInv(c, run, steps, i, last);
    RunKeepsInv(c, run, steps, j, last);
    VoteSetIsQuorum(c, run[last], h, block.attestations,
      CommitPayload(c.chainId, h, block.commitRound.value, block.hash));
    VoteSetIsQuorum(c, run[last], h, block'.attestations,
      CommitPayload(c.chainId, h, block'.commitRound.value, block'.hash));
    CommitsAgree(c, run[last], h, block.commitRound.value, block.hash, block'.commitRound.value, block'.hash);
  }

  /** The same for certificates in hand, given the set they were checked against. */
  lemma AgreementUnder(c: Config, run: seq<State>, steps: seq<Step>, vs: seq<Validator>, block: Block, block': Block)
    requires IsRun(c, run, steps) && FaultBound(c, run[0].nodes.Keys)
    requires block.header.chainId == c.chainId == block'.header.chainId
    requires block.header.height == block'.header.height && vs == c.validatorsAt(block.header.height)
    requires ValidCommitCertificate(block, vs) && ValidCommitCertificate(block', vs)
    requires KnownVotes(run[|run| - 1], block.attestations) && KnownVotes(run[|run| - 1], block'.attestations)
    ensures block.hash == block'.hash
  {
    Agreement(c, run, steps, |run| - 1, block, |run| - 1, block');
  }
}
