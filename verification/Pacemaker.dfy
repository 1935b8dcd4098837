/** The v6 pacemaker: closed-form round offsets and their inverse (l1/src/consensus-v6.ts). */
module Pacemaker {
  import opened Arithmetic
  import opened Quorum
  import opened V6Certificates

  const V6_BLOCK_INTERVAL_MS := 30_000
  const V6_ROUND_BASE_MS := 30_000
  const V6_ROUND_STEP_MS := 5_000
  const V6_ROUND_MAX_MS := 120_000
  const V6_TIMEOUT_GUARD_MS := 2_000
  /** First round whose duration is capped: ceil((120000 - 30000) / 5000). */
  const CAP_ROUND: nat := 18

  function RoundDuration(round: nat): int {
    Min(V6_ROUND_BASE_MS + round * V6_ROUND_STEP_MS, V6_ROUND_MAX_MS)
  }

  function RoundOffset(round: nat): int {
    var linear := Min(round, CAP_ROUND);
    var linearPart := linear * V6_ROUND_BASE_MS + V6_ROUND_STEP_MS * linear * (linear - 1) / 2;
    linearPart + (if round > CAP_ROUND then round - CAP_ROUND else 0) * V6_ROUND_MAX_MS
  }

  function RoundStart(tipMs: int, round: nat): int {
    tipMs + V6_BLOCK_INTERVAL_MS + RoundOffset(round)
  }

  function RoundEnd(tipMs: int, round: nat): int {
    RoundStart(tipMs, round) + RoundDuration(round)
  }

  function TimeoutAllowedAt(tipMs: int, round: nat): int {
    RoundEnd(tipMs, round) - V6_TIMEOUT_GUARD_MS
  }

  /** The offset without a closed form. */
  function TotalDuration(rounds: nat): int {
    if rounds == 0 then 0 else TotalDuration(rounds - 1) + RoundDuration(rounds - 1)
  }

  lemma OffsetStep(round: nat)
    ensures RoundOffset(round + 1) == RoundOffset(round) + RoundDuration(round)
  {
    if round < CAP_ROUND { TriangleStep(round); }
  }

  lemma TriangleStep(n: nat)
    ensures V6_ROUND_STEP_MS * (n + 1) * n / 2 == V6_ROUND_STEP_MS * n * (n - 1) / 2 + n * V6_ROUND_STEP_MS
  {
    assert V6_ROUND_STEP_MS * (n + 1) * n == V6_ROUND_STEP_MS * n * (n - 1) + 2 * (n * V6_ROUND_STEP_MS);
  }

  lemma {:induction false} OffsetIsTotalDuration(round: nat)
    ensures RoundOffset(round) == TotalDuration(round)
  {
    if round > 0 {
      OffsetIsTotalDuration(round - 1);
      OffsetStep(round - 1);
    }
  }

  lemma {:induction false} OffsetsIncrease(lo: nat, hi: nat)
    requires lo < hi
    ensures RoundOffset(lo) + RoundDuration(lo) <= RoundOffset(hi)
    decreases hi
  {
    OffsetStep(hi - 1);
    if lo < hi - 1 { OffsetsIncrease(lo, hi - 1); }
  }

  /** Round r starts 30 s after the tip and 30 s, 35 s, 40 s, ... for the rounds before, never more than 120 s each. */
  lemma {:induction false} RoundTimes(tipMs: int, round: nat)
    ensures RoundStart(tipMs, 0) == tipMs + 30_000
    ensures RoundStart(tipMs, round + 1) ==
      RoundStart(tipMs, round) + if round < 18 then 30_000 + 5_000 * round else 120_000
    ensures TimeoutAllowedAt(tipMs, round) == RoundStart(tipMs, round + 1) - 2_000
  {
    OffsetStep(round);
  }

  ghost predicate InRound(tipMs: int, nowMs: int, round: nat) {
    RoundStart(tipMs, round) <= nowMs < RoundEnd(tipMs, round)
  }

  /** Rounds tile time from round 0 on: adjacent rounds touch and an instant lies in at most one. */
  lemma RoundsTile(tipMs: int, nowMs: int, r: nat, r': nat)
    ensures RoundEnd(tipMs, r) == RoundStart(tipMs, r + 1)
    ensures InRound(tipMs, nowMs, r) && InRound(tipMs, nowMs, r') ==> r == r'
  {
    OffsetStep(r);
    if r < r' { OffsetsIncrease(r, r'); }
    if r' < r { OffsetsIncrease(r', r); }
  }

  /**
   * The round containing `nowMs`, whatever the floating-point estimate `seed` is;
   * None exactly before round 0 and after the last round.
   */
  method ClockRound(tipMs: int, nowMs: int, seed: nat) returns (round: Option<nat>)
    requires seed <= V6_MAX_ROUND
    ensures round.Some? ==> round.value <= V6_MAX_ROUND && InRound(tipMs, nowMs, round.value)
    ensures round.None? <==> nowMs < RoundStart(tipMs, 0) || nowMs >= RoundEnd(tipMs, V6_MAX_ROUND)
  {
    var elapsed := nowMs - (tipMs + V6_BLOCK_INTERVAL_MS);
    if elapsed < 0 { return None; }
    var capOffset := RoundOffset(CAP_ROUND);
    var r: nat;
    if elapsed >= capOffset {
      r := CAP_ROUND + (elapsed - capOffset) / V6_ROUND_MAX_MS;
    } else {
      r := seed;
      while r > 0 && RoundOffset(r) > elapsed
        invariant r <= V6_MAX_ROUND
      {
        r := r - 1;
      }
      if r > CAP_ROUND { OffsetsIncrease(CAP_ROUND, r); }
      while r + 1 <= CAP_ROUND && RoundOffset(r + 1) <= elapsed
        invariant r < CAP_ROUND && RoundOffset(r) <= elapsed
      {
        r := r + 1;
      }
    }
    OffsetStep(r);
    if r > V6_MAX_ROUND {
      OffsetsIncrease(V6_MAX_ROUND, r);
      return None;
    }
    if r < V6_MAX_ROUND { OffsetsIncrease(r, V6_MAX_ROUND); }
    round := Some(r);
  }

  /**
   * The leader reads the clock `V6_TIMEOUT_GUARD_MS` ahead, so its round reaches r >= 1
   * exactly when validators may sign the timeout of r - 1.
   */
  lemma LeaderOpensWithTimeouts(tipMs: int, nowMs: int, leaderRound: nat, r: nat)
    requires InRound(tipMs, nowMs + V6_TIMEOUT_GUARD_MS, leaderRound) && r >= 1
    ensures leaderRound >= r <==> nowMs >= TimeoutAllowedAt(tipMs, r - 1)
  {
    OffsetStep(r - 1);
    if leaderRound < r { OffsetsIncrease(leaderRound, r); }
    if r < leaderRound { OffsetsIncrease(r, leaderRound); }
  }
}
