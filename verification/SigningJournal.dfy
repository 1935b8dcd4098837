/**
 * The validator's anti-equivocation record for protocol v6 (l1/src/storage.ts).
 * The functions say what one reservation does to the rows of a height; the class
 * does it in place, as the source does.
 */
module SigningJournal {
  import opened Arithmetic
  import opened Quorum
  import opened V6Certificates

  /** One map per journal step; a timeout or proposal row stands for its payload (the source stores its digest). */
  datatype HeightJournal = HeightJournal(
    prepares: map<nat, Hash>, commits: map<nat, Hash>, timeouts: map<nat, Payload>,
    proposals: map<nat, Payload>, blockProposals: map<nat, Hash>,
    lock: Option<Lock>, maxVoteRound: int, maxTimeoutRound: int)

  const EMPTY_JOURNAL := HeightJournal(map[], map[], map[], map[], map[], None, -1, -1)

  function HeightState(heights: map<nat, HeightJournal>, h: nat): HeightJournal {
    if h in heights then heights[h] else EMPTY_JOURNAL
  }

  /** No vote in a round that timed out, nor below a round already voted in. */
  predicate RoundOpen(j: HeightJournal, round: nat) {
    j.maxTimeoutRound < round && j.maxVoteRound <= round
  }

  /** None where the source refuses; an identical row is accepted again without a change. */
  function ReservePrepare(j: HeightJournal, round: nat, hash: Hash, justifyRound: int): Option<HeightJournal> {
    if !(-1 <= justifyRound < round) then None
    else if round in j.prepares then (if j.prepares[round] == hash then Some(j) else None)
    else if !RoundOpen(j, round) || !SafeVote(j.lock, hash, justifyRound) then None
    else Some(j.(prepares := j.prepares[round := hash], maxVoteRound := Max(j.maxVoteRound, round)))
  }

  predicate LockForbids(lock: Option<Lock>, round: nat, hash: Hash) {
    lock.Some? && (lock.value.round > round || (lock.value.round == round && lock.value.blockHash != hash))
  }

  /** Lock and commit rows are one append. */
  function ReserveCommit(j: HeightJournal, round: nat, hash: Hash): Option<HeightJournal> {
    if round in j.commits then (if j.commits[round] == hash then Some(j) else None)
    else if !RoundOpen(j, round) then None
    else if round in j.prepares && j.prepares[round] != hash then None
    else if LockForbids(j.lock, round, hash) then None
    else Some(j.(lock := Some(Lock(round, hash)), commits := j.commits[round := hash],
                 maxVoteRound := Max(j.maxVoteRound, round)))
  }

  function ReserveTimeout(j: HeightJournal, round: nat, payload: Payload): Option<HeightJournal> {
    if round in j.timeouts then (if j.timeouts[round] == payload then Some(j) else None)
    else Some(j.(timeouts := j.timeouts[round := payload], maxTimeoutRound := Max(j.maxTimeoutRound, round)))
  }

  function ReserveProposal(j: HeightJournal, round: nat, payload: Payload): Option<HeightJournal> {
    if round in j.proposals then (if j.proposals[round] == payload then Some(j) else None)
    else if !RoundOpen(j, round) then None
    else Some(j.(proposals := j.proposals[round := payload]))
  }

  function ReserveBlockProposal(j: HeightJournal, round: nat, hash: Hash): Option<HeightJournal> {
    if round in j.blockProposals then (if j.blockProposals[round] == hash then Some(j) else None)
    else if !RoundOpen(j, round) then None
    else Some(j.(blockProposals := j.blockProposals[round := hash]))
  }

  /** What every reservation keeps: the two maxima are those of the rows and the lock is the newest commit row. */
  ghost predicate Coherent(j: HeightJournal) {
    && (forall r :: r in j.prepares ==> r <= j.maxVoteRound)
    && (forall r :: r in j.commits ==> r <= j.maxVoteRound)
    && (forall r :: r in j.commits ==> j.lock.Some? && r <= j.lock.value.round)
    && (j.lock.Some? ==> j.lock.value.round in j.commits && j.commits[j.lock.value.round] == j.lock.value.blockHash)
    && (forall r :: r in j.timeouts ==> r <= j.maxTimeoutRound)
    && (j.maxVoteRound >= 0 ==> j.maxVoteRound in j.prepares || j.maxVoteRound in j.commits)
    && (j.maxTimeoutRound >= 0 ==> j.maxTimeoutRound in j.timeouts)
  }

  /** The rows of the height leave a round open: it did not time out, nor did a later one, and no vote is above it. */
  ghost predicate Open(j: HeightJournal, round: nat) {
    && (forall r :: r in j.timeouts ==> r < round)
    && (forall r :: r in j.prepares || r in j.commits ==> r <= round)
  }

  /** The newest block committed to is another one, and the justification is not newer than that commit. */
  ghost predicate LockedElsewhere(j: HeightJournal, hash: Hash, justifyRound: int) {
    exists r :: r in j.commits && (forall q :: q in j.commits ==> q <= r) && j.commits[r] != hash && justifyRound <= r
  }

  /** Exactly which prepare votes are granted, said of the rows alone. */
  lemma PrepareGrantedIff(j: HeightJournal, round: nat, hash: Hash, justifyRound: int)
    requires Coherent(j)
    ensures ReservePrepare(j, round, hash, justifyRound).Some? <==>
      && -1 <= justifyRound < round
      && if round in j.prepares then j.prepares[round] == hash
         else Open(j, round) && !LockedElsewhere(j, hash, justifyRound)
  {
    OpenIs(j, round);
    if j.lock.Some? { assert j.lock.value.round in j.commits; }
  }

  lemma OpenIs(j: HeightJournal, round: nat)
    requires Coherent(j)
    ensures Open(j, round) <==> j.maxTimeoutRound < round && j.maxVoteRound <= round
  {
  }

  /** Exactly which commit votes are granted. */
  lemma CommitGrantedIff(j: HeightJournal, round: nat, hash: Hash)
    requires Coherent(j)
    ensures ReserveCommit(j, round, hash).Some? <==>
      if round in j.commits then j.commits[round] == hash
      else Open(j, round) && (round in j.prepares ==> j.prepares[round] == hash)
  {
    OpenIs(j, round);
    if j.lock.Some? { assert j.lock.value.round in j.commits; }
  }

  /** Exactly which timeouts and proposals are granted. */
  lemma OthersGrantedIff(j: HeightJournal, round: nat, payload: Payload, hash: Hash)
    requires Coherent(j)
    ensures ReserveTimeout(j, round, payload).Some? <==> (round in j.timeouts ==> j.timeouts[round] == payload)
    ensures ReserveProposal(j, round, payload).Some? <==>
      if round in j.proposals then j.proposals[round] == payload else Open(j, round)
    ensures ReserveBlockProposal(j, round, hash).Some? <==>
      if round in j.blockProposals then j.blockProposals[round] == hash else Open(j, round)
  {
    OpenIs(j, round);
  }

  /** A prepare reservation keeps every earlier row and the lock; a new row obeys SAFE-VOTE and the open-round rule. */
  lemma PrepareReservation(j: HeightJournal, round: nat, hash: Hash, justifyRound: int)
    requires Coherent(j) && ReservePrepare(j, round, hash, justifyRound).Some?
    ensures var k := ReservePrepare(j, round, hash, justifyRound).value;
      && Coherent(k) && k.lock == j.lock && k.commits == j.commits
      && k.prepares == j.prepares[round := hash]
      && (round !in j.prepares ==> SafeVote(j.lock, hash, justifyRound) && forall r :: r in j.commits ==> r <= round)
  {
  }

  /** A commit reservation never lowers the lock and never commits below a round already voted in. */
  lemma CommitReservation(j: HeightJournal, round: nat, hash: Hash)
    requires Coherent(j) && ReserveCommit(j, round, hash).Some?
    ensures var k := ReserveCommit(j, round, hash).value;
      && Coherent(k) && k.prepares == j.prepares && k.commits == j.commits[round := hash]
      && k.lock.Some? && round <= k.lock.value.round
      && (j.lock.Some? ==> j.lock.value.round <= k.lock.value.round)
      && (round !in j.commits ==> k.lock == Some(Lock(round, hash)) && (forall r :: r in j.prepares ==> r <= round))
  {
  }

  class Journal {
    var heights: map<nat, HeightJournal>

    constructor ()
      ensures heights == map[]
    {
      heights := map[];
    }

    ghost predicate Valid()
      reads this
    {
      forall h :: h in heights ==> Coherent(heights[h])
    }

    method ReserveV6Prepare(height: nat, round: nat, hash: Hash, justifyRound: int) returns (ok: bool)
      requires Valid()
      modifies this
      ensures Valid()
      ensures var r := ReservePrepare(HeightState(old(heights), height), round, hash, justifyRound);
        && ok == r.Some?
        && (!ok ==> heights == old(heights))
        && (ok ==>
              && HeightState(heights, height) == r.value
              && forall h :: h != height ==> HeightState(heights, h) == HeightState(old(heights), h))
    {
      var state := HeightState(heights, height);
      if justifyRound < -1 || justifyRound >= round { return false; }
      if round in state.prepares { return state.prepares[round] == hash; }
      if state.maxTimeoutRound >= round || state.maxVoteRound > round { return false; }
      if !SafeVote(state.lock, hash, justifyRound) { return false; }
      PrepareReservation(state, round, hash, justifyRound);
      state := state.(prepares := state.prepares[round := hash], maxVoteRound := Max(state.maxVoteRound, round));
      heights := heights[height := state];
      ok := true;
    }

    method ReserveV6Commit(height: nat, round: nat, hash: Hash) returns (ok: bool)
      requires Valid()
      modifies this
      ensures Valid()
      ensures var r := ReserveCommit(HeightState(old(heights), height), round, hash);
        && ok == r.Some?
        && (!ok ==> heights == old(heights))
        && (ok ==>
              && HeightState(heights, height) == r.value
              && forall h :: h != height ==> HeightState(heights, h) == HeightState(old(heights), h))
    {
      var state := HeightState(heights, height);
      if round in state.commits { return state.commits[round] == hash; }
      if state.maxTimeoutRound >= round || state.maxVoteRound > round { return false; }
      if round in state.prepares && state.prepares[round] != hash { return false; }
      if LockForbids(state.lock, round, hash) { return false; }
      CommitReservation(state, round, hash);
      state := state.(lock := Some(Lock(round, hash)), commits := state.commits[round := hash],
                      maxVoteRound := Max(state.maxVoteRound, round));
      heights := heights[height := state];
      ok := true;
    }
  }
}
