/**
 * The agreement theorem speaks about something: a lone validator proposes, prepares,
 * commits and finalizes the block of height 1 in a run of eight steps.
 */
module V6Witness {
  import opened Quorum
  import opened Strings
  import opened V6Certificates
  import opened SigningJournal
  import opened V6Agreement

  function WitnessHash(): Hash { Repeat('a', 64) }

  function WitnessConfig(v: Validator): Config { Config("z", (h: nat) => [v]) }

  function WitnessHeader(v: Validator): Header {
    Header(6, "z", 1, 0, ZERO_HASH, 0, ZERO_HASH, v.address)
  }

  function ProposalSignature(v: Validator): Signature {
    Signature(v.publicKey, ProposalPayload("z", 1, 0, WitnessHash(), -1))
  }

  function PrepareSignature(v: Validator): Signature {
    Signature(v.publicKey, PreparePayload("z", 1, 0, WitnessHash()))
  }

  function CommitSignature(v: Validator): Signature {
    Signature(v.publicKey, CommitPayload("z", 1, 0, WitnessHash()))
  }

  function HeaderSignature(v: Validator): Signature {
    Signature(v.publicKey, HeaderPayload(WitnessHeader(v)))
  }

  function WitnessBlock(v: Validator): Block {
    Block(WitnessHeader(v), WitnessHash(), v.publicKey, HeaderSignature(v),
          [Vote(v.address, v.publicKey, CommitSignature(v))], Some(0))
  }

  function WitnessRequest(v: Validator): PrepareRequest {
    PrepareRequest(Proposal("z", 1, 0, WitnessHash(), -1, ProposalSignature(v)), WitnessBlock(v), None)
  }

  function WitnessQC(v: Validator): PrepareQC {
    PrepareQC("z", 1, 0, WitnessHash(), [Vote(v.address, v.publicKey, PrepareSignature(v))])
  }

  lemma WitnessIsValid(v: Validator)
    ensures FaultBound(WitnessConfig(v), {v.publicKey})
    ensures ValidPrepareRequest(WitnessRequest(v), [v], "z", 1, None)
    ensures ValidPrepareQC(WitnessQC(v), [v], "z", 1)
    ensures ValidCommitCertificate(WitnessBlock(v), [v])
  {
    assert [v][..0] == [];
    assert IsMember([v], v.address, v.publicKey);
    assert Keys([v]) == {v.publicKey};
    assert Keys([v]) - {v.publicKey} == {};
  }

  // ---- The journal of height 1 after each reservation ---------------------------

  function Proposed(): HeightJournal { EMPTY_JOURNAL.(blockProposals := map[0 := WitnessHash()]) }

  function Journaled(v: Validator): HeightJournal { Proposed().(proposals := map[0 := ProposalSignature(v).payload]) }

  function Voted(v: Validator): HeightJournal {
    Journaled(v).(prepares := map[0 := WitnessHash()], maxVoteRound := 0)
  }

  function Locked(v: Validator): HeightJournal {
    Voted(v).(commits := map[0 := WitnessHash()], lock := Some(Lock(0, WitnessHash())))
  }

  function At(v: Validator, j: HeightJournal, signed: set<Signature>, reserved: set<Signature>): State {
    State(signed, reserved, map[v.publicKey := Node(0, map[1 := j])])
  }

  function Start(v: Validator): State {
    State({}, {}, map[v.publicKey := Node(0, map[])])
  }

  /** One reservation of the lone node. */
  lemma Reserving(v: Validator, was: HeightJournal, j: HeightJournal, signed: set<Signature>, reserved: set<Signature>,
                  payload: Payload)
    ensures Reserves(At(v, was, signed, reserved), At(v, j, signed, reserved + {Signature(v.publicKey, payload)}),
                     v.publicKey, Some(j), payload)
  {
    assert map[1 := was][1 := j] == map[1 := j];
  }

  lemma StartsFreshBlock(v: Validator)
    ensures FreshBlockStep(Start(v), At(v, Proposed(), {}, {HeaderSignature(v)}),
                           v.publicKey, WitnessHeader(v), WitnessHash())
  {
    assert ReserveBlockProposal(EMPTY_JOURNAL, 0, WitnessHash()) == Some(Proposed());
    assert {} + {HeaderSignature(v)} == {HeaderSignature(v)};
  }

  lemma Proposes(v: Validator, signed: set<Signature>, reserved: set<Signature>)
    ensures ProposalStep(WitnessConfig(v), At(v, Proposed(), signed, reserved),
                         At(v, Journaled(v), signed, reserved + {ProposalSignature(v)}),
                         v.publicKey, WitnessRequest(v), None)
  {
    WitnessIsValid(v);
    var payload := ProposalSignature(v).payload;
    assert ReserveProposal(Proposed(), 0, payload) == Some(Journaled(v));
    Reserving(v, Proposed(), Journaled(v), signed, reserved, payload);
  }

  lemma Prepares(v: Validator, signed: set<Signature>, reserved: set<Signature>)
    requires ProposalSignature(v) in signed
    ensures PrepareStep(WitnessConfig(v), At(v, Journaled(v), signed, reserved),
                        At(v, Voted(v), signed, reserved + {PrepareSignature(v)}), v.publicKey, WitnessRequest(v), None)
  {
    WitnessIsValid(v);
    assert ReservePrepare(Journaled(v), 0, WitnessHash(), -1) == Some(Voted(v));
    Reserving(v, Journaled(v), Voted(v), signed, reserved, PrepareSignature(v).payload);
  }

  lemma Commits(v: Validator, signed: set<Signature>, reserved: set<Signature>)
    requires PrepareSignature(v) in signed
    ensures CommitStep(WitnessConfig(v), At(v, Voted(v), signed, reserved),
                       At(v, Locked(v), signed, reserved + {CommitSignature(v)}), v.publicKey, WitnessQC(v))
  {
    WitnessIsValid(v);
    assert ReserveCommit(Voted(v), 0, WitnessHash()) == Some(Locked(v));
    Reserving(v, Voted(v), Locked(v), signed, reserved, CommitSignature(v).payload);
  }

  lemma FinalizesIt(v: Validator, signed: set<Signature>, reserved: set<Signature>)
    requires CommitSignature(v) in signed
    ensures FinalizeStep(WitnessConfig(v), At(v, Locked(v), signed, reserved),
                         State(signed, reserved, map[v.publicKey := Node(1, map[])]), v.publicKey, WitnessBlock(v))
  {
    WitnessIsValid(v);
    var rows := map[1 := Locked(v)];
    assert (map h | h in rows && h > 1 :: rows[h]) == map[];
  }

  /** A run from a list of states, each related to the next. */
  ghost predicate Linked(c: Config, run: seq<State>, steps: seq<Step>) {
    |run| == |steps| + 1 && forall i :: 0 <= i < |steps| ==> NextStep(c, run[i], run[i + 1], steps[i])
  }

  lemma Extend(c: Config, run: seq<State>, steps: seq<Step>, step: Step, s: State)
    returns (run': seq<State>, steps': seq<Step>)
    requires Linked(c, run, steps) && NextStep(c, run[|run| - 1], s, step)
    ensures Linked(c, run', steps') && run'[0] == run[0] && run'[|run'| - 1] == s
  {
    run', steps' := run + [s], steps + [step];
  }

  /** Proposing: the journaled and released proposal. */
  lemma Opening(v: Validator) returns (run: seq<State>, steps: seq<Step>)
    ensures Linked(WitnessConfig(v), run, steps) && run[0] == Start(v)
    ensures run[|run| - 1] == At(v, Journaled(v), {ProposalSignature(v)}, {HeaderSignature(v)} + {ProposalSignature(v)})
  {
    var c, header, proposal := WitnessConfig(v), HeaderSignature(v), ProposalSignature(v);
    run, steps := [Start(v)], [];
    StartsFreshBlock(v);
    run, steps := Extend(c, run, steps,
      ReservesFreshBlock(v.publicKey, WitnessHeader(v), WitnessHash()), At(v, Proposed(), {}, {header}));
    Proposes(v, {}, {header});
    run, steps := Extend(c, run, steps,
      ReservesProposal(v.publicKey, WitnessRequest(v), None), At(v, Journaled(v), {}, {header} + {proposal}));
    assert {} + {proposal} == {proposal};
    run, steps := Extend(c, run, steps, Releases(proposal), At(v, Journaled(v), {proposal}, {header} + {proposal}));
  }

  /** Voting: from the released proposal to a locked node and a released commit. */
  lemma Voting(v: Validator, signed: set<Signature>, reserved: set<Signature>, before: seq<State>, taken: seq<Step>)
    returns (run: seq<State>, steps: seq<Step>)
    requires Linked(WitnessConfig(v), before, taken) && ProposalSignature(v) in signed
    requires before[|before| - 1] == At(v, Journaled(v), signed, reserved)
    ensures Linked(WitnessConfig(v), run, steps) && run[0] == before[0]
    ensures run[|run| - 1] == At(v, Locked(v), signed + {PrepareSignature(v)} + {CommitSignature(v)},
                                 reserved + {PrepareSignature(v)} + {CommitSignature(v)})
  {
    var c, prepare, commit := WitnessConfig(v), PrepareSignature(v), CommitSignature(v);
    var rows, shown := reserved + {prepare}, signed + {prepare};
    Prepares(v, signed, reserved);
    run, steps := Extend(c, before, taken, ReservesPrepare(v.publicKey, WitnessRequest(v), None),
      At(v, Voted(v), signed, rows));
    run, steps := Extend(c, run, steps, Releases(prepare), At(v, Voted(v), shown, rows));
    Commits(v, shown, rows);
    run, steps := Extend(c, run, steps, ReservesCommit(v.publicKey, WitnessQC(v)),
      At(v, Locked(v), shown, rows + {commit}));
    run, steps := Extend(c, run, steps, Releases(commit), At(v, Locked(v), shown + {commit}, rows + {commit}));
  }

  /** Reachability: a run exists that meets the fault bound and ends with the block certified and finalized. */
  lemma ABlockIsFinalized(v: Validator) returns (c: Config, run: seq<State>, steps: seq<Step>, block: Block)
    ensures IsRun(c, run, steps) && FaultBound(c, run[0].nodes.Keys)
    ensures block.header.chainId == c.chainId && block.header.height == 1
    ensures ValidCommitCertificate(block, c.validatorsAt(1)) && KnownVotes(run[|run| - 1], block.attestations)
    ensures v.publicKey in run[|run| - 1].nodes && run[|run| - 1].nodes[v.publicKey].height == 1
  {
    WitnessIsValid(v);
    c, block := WitnessConfig(v), WitnessBlock(v);
    run, steps := Opening(v);
    run, steps := Voting(v, {ProposalSignature(v)}, {HeaderSignature(v)} + {ProposalSignature(v)}, run, steps);
    var s := run[|run| - 1];
    FinalizesIt(v, s.signed, s.reserved);
    run, steps := Extend(c, run, steps, Finalizes(v.publicKey, block),
      State(s.signed, s.reserved, map[v.publicKey := Node(1, map[])]));
    assert Start(v).nodes.Keys == {v.publicKey};
  }
}
