/** Genesis allocation locks: cliff-and-linear vesting and the permanent-liquidity account, over whole runs. */
module AllocationLocks {
  import opened Constants
  import opened Arithmetic
  import opened Quorum
  import opened Sums

  const FOUNDER_CLIFF_MS := 365 * DAY_MS
  const FOUNDER_LINEAR_MS := 1_095 * DAY_MS
  const BLOCK_MS := 30_000
  const BLOCKS_PER_DAY := 2_880
  const FOUNDER_CLIFF_BLOCKS := 365 * BLOCKS_PER_DAY
  const FOUNDER_LINEAR_BLOCKS := 3 * 365 * BLOCKS_PER_DAY

  // -------------------------------------------------------------------------
  // The schedule
  // -------------------------------------------------------------------------

  lemma CancelLess(n: nat, x: int, y: int)
    requires n > 0 && n * x < n * y
    ensures x < y
  {
    assert n * (y - x) == n * y - n * x > 0;
  }

  lemma DivMonotone(a: int, b: int, n: nat)
    requires n > 0 && a <= b
    ensures a / n <= b / n
  {
    var p, q := a / n, b / n;
    assert a == n * p + a % n && b == n * q + b % n;
    assert n * (q + 1) == n * q + n;
    CancelLess(n, p, q + 1);
  }

  lemma DivBound(x: nat, r: nat, n: nat)
    requires n > 0 && r <= n
    ensures 0 <= x * r / n <= x
    ensures r == n ==> x * r / n == x
    ensures r == 0 ==> x * r / n == 0
  {
    MulMonotone(x, r, n);
    MulMonotone(x, 0, r);
    assert x * n == n * x + 0 && 0 == n * 0 + 0;
    DivModIs(x * n, n, x, 0);
    DivModIs(0, n, 0, 0);
    DivMonotone(0, x * r, n);
    DivMonotone(x * r, x * n, n);
  }

  /** None is the "Invalid vesting schedule" error. */
  function Vested(elapsed: int, cliff: int, linear: int, total: int): Option<int> {
    if cliff < 0 || linear <= 0 || total < 0 then None
    else if elapsed <= cliff then Some(0)
    else
      var released := if elapsed - cliff < linear then elapsed - cliff else linear;
      Some(total * released / linear)
  }

  function Released(elapsed: int, cliff: int, linear: int): int {
    if elapsed <= cliff then 0 else if elapsed - cliff < linear then elapsed - cliff else linear
  }

  lemma VestedIs(elapsed: int, cliff: nat, linear: nat, total: nat)
    requires linear > 0
    ensures Vested(elapsed, cliff, linear, total) == Some(total * Released(elapsed, cliff, linear) / linear)
  {
    DivBound(total, 0, linear);
  }

  lemma QuotaMonotone(total: nat, a: nat, b: nat, n: nat)
    requires n > 0 && a <= b
    ensures total * a / n <= total * b / n
  {
    MulMonotone(total, a, b);
    DivMonotone(total * a, total * b, n);
  }

  /** The schedule starts at nothing, never falls, and ends at everything. */
  lemma VestingShape(s: int, t: int, cliff: nat, linear: nat, total: nat)
    requires linear > 0 && s <= t
    ensures Vested(s, cliff, linear, total).Some? && Vested(t, cliff, linear, total).Some?
    ensures 0 <= Vested(s, cliff, linear, total).value <= Vested(t, cliff, linear, total).value <= total
    ensures s <= cliff ==> Vested(s, cliff, linear, total).value == 0
    ensures s >= cliff + linear ==> Vested(s, cliff, linear, total).value == total
  {
    var a, b := Released(s, cliff, linear), Released(t, cliff, linear);
    VestedIs(s, cliff, linear, total);
    VestedIs(t, cliff, linear, total);
    DivBound(total, a, linear);
    DivBound(total, b, linear);
    QuotaMonotone(total, a, b, linear);
  }

  /** Between cliff and end the vested amount is the linear share, rounded down. */
  lemma VestingIsLinear(elapsed: int, cliff: nat, linear: nat, total: nat)
    requires linear > 0 && cliff <= elapsed <= cliff + linear
    ensures var v := Vested(elapsed, cliff, linear, total).value;
      linear * v <= total * (elapsed - cliff) < linear * v + linear
  {
    VestedIs(elapsed, cliff, linear, total);
    var share := total * (elapsed - cliff);
    assert Released(elapsed, cliff, linear) == elapsed - cliff;
    assert share == linear * (share / linear) + share % linear;
  }

  lemma ScaleDivision(a: int, n: nat, k: nat)
    requires n > 0 && k > 0
    ensures k * n > 0 && (k * a) / (k * n) == a / n
  {
    var q, r := a / n, a % n;
    assert a == n * q + r;
    MulMonotone(k, 0, r);
    MulMonotone(k, r, n - 1);
    MulMonotone(k, 1, n);
    assert k * a == (k * n) * q + k * r by {
      assert k * (n * q + r) == k * (n * q) + k * r && k * (n * q) == (k * n) * q;
    }
    assert k * (n - 1) == k * n - k;
    DivModIs(k * a, k * n, q, k * r);
  }

  lemma ReleasedScales(elapsed: int, cliff: nat, linear: nat, k: nat)
    requires k > 0
    ensures k * linear >= 0 && k * cliff >= 0
    ensures Released(k * elapsed, k * cliff, k * linear) == k * Released(elapsed, cliff, linear)
  {
    MulMonotone(k, 0, linear);
    MulMonotone(k, 0, cliff);
    assert k * (elapsed - cliff) == k * elapsed - k * cliff;
    if elapsed <= cliff {
      MulMonotone(k, elapsed, cliff);
    } else {
      MulMonotone(k, 1, elapsed - cliff);
      if elapsed - cliff < linear {
        MulMonotone(k, elapsed - cliff, linear - 1);
        assert k * (linear - 1) == k * linear - k;
      } else {
        MulMonotone(k, linear, elapsed - cliff);
      }
    }
  }

  /** Measuring in a unit `k` times finer changes nothing. */
  lemma VestingScales(elapsed: int, cliff: nat, linear: nat, total: nat, k: nat)
    requires linear > 0 && k > 0
    ensures Vested(k * elapsed, k * cliff, k * linear, total) == Vested(elapsed, cliff, linear, total)
  {
    var r := Released(elapsed, cliff, linear);
    ReleasedScales(elapsed, cliff, linear, k);
    QuotaScales(total, r, linear, k);
    VestedIs(elapsed, cliff, linear, total);
    VestedIs(k * elapsed, k * cliff, k * linear, total);
  }

  lemma QuotaScales(total: nat, r: int, linear: nat, k: nat)
    requires linear > 0 && k > 0
    ensures k * linear > 0 && total * (k * r) / (k * linear) == total * r / linear
  {
    ScaleDivision(total * r, linear, k);
    assert total * (k * r) == k * (total * r);
  }

  function FounderVestedAtHeight(height: int, start: int, total: int): Option<int> {
    Vested(height - start, FOUNDER_CLIFF_BLOCKS, FOUNDER_LINEAR_BLOCKS, total)
  }

  function FounderVestedAt(genesisMs: int, blockMs: int, total: int): Option<int> {
    Vested(blockMs - genesisMs, FOUNDER_CLIFF_MS, FOUNDER_LINEAR_MS, total)
  }

  /** The founder's allocation: nothing for 365 days, then linear over 1095 days, to the millisecond. */
  lemma FounderVests(genesisMs: int, blockMs: int, total: nat)
    ensures FounderVestedAt(genesisMs, blockMs, total).Some?
    ensures var elapsed, v := blockMs - genesisMs, FounderVestedAt(genesisMs, blockMs, total).value;
      && (elapsed <= 31_536_000_000 ==> v == 0)
      && (31_536_000_000 <= elapsed <= 126_144_000_000 ==>
            94_608_000_000 * v <= total * (elapsed - 31_536_000_000) < 94_608_000_000 * v + 94_608_000_000)
      && (elapsed >= 126_144_000_000 ==> v == total)
  {
    var elapsed := blockMs - genesisMs;
    VestingShape(elapsed, elapsed, 31_536_000_000, 94_608_000_000, total);
    if 31_536_000_000 <= elapsed <= 126_144_000_000 {
      VestingIsLinear(elapsed, 31_536_000_000, 94_608_000_000, total);
    }
  }

  /** Main result: with blocks exactly 30 seconds apart the height schedule is the timestamp schedule. */
  lemma HeightScheduleIsTimeSchedule(height: nat, start: nat, genesisMs: int, total: nat)
    ensures FounderVestedAtHeight(height, start, total) ==
      FounderVestedAt(genesisMs, genesisMs + BLOCK_MS * (height - start), total)
  {
    VestingScales(height - start, FOUNDER_CLIFF_BLOCKS, FOUNDER_LINEAR_BLOCKS, total, BLOCK_MS);
  }

  // -------------------------------------------------------------------------
  // The locks
  // -------------------------------------------------------------------------

  datatype Release = Release(address: Address, allocation: nat, cliffMs: nat, linearMs: nat)

  /** The genesis declarations; the block timestamp comes with each debit. */
  datatype Locks = Locks(
    founder: Option<Address>,
    liquidity: Option<Address>,
    founderAllocation: nat,
    genesisMs: int,
    release: Option<Release>)

  /** What genesis validation guarantees of the declarations. */
  predicate ValidLocks(k: Locks) {
    && (k.founder.Some? ==> k.founder != k.liquidity)
    && (k.release.Some? ==>
          && k.release.value.linearMs > 0
          && Some(k.release.value.address) != k.founder && Some(k.release.value.address) != k.liquidity)
  }

  /** Atoms of an account that must stay in place in a block at `blockMs`. */
  function Locked(k: Locks, a: Address, balance: nat, blockMs: int): int
    requires ValidLocks(k)
  {
    if k.liquidity == Some(a) then balance
    else if k.founder == Some(a) then FounderLocked(k, blockMs)
    else if k.release.Some? && k.release.value.address == a then ReleaseLocked(k, blockMs)
    else 0
  }

  function FounderLocked(k: Locks, blockMs: int): int {
    k.founderAllocation - FounderVestedAt(k.genesisMs, blockMs, k.founderAllocation).value
  }

  function ReleaseLocked(k: Locks, blockMs: int): int
    requires k.release.Some? && k.release.value.linearMs > 0
  {
    var r := k.release.value;
    r.allocation - Vested(blockMs - k.genesisMs, r.cliffMs, r.linearMs, r.allocation).value
  }

  function Spendable(k: Locks, a: Address, balance: nat, blockMs: int): int
    requires ValidLocks(k)
  {
    var locked := Locked(k, a, balance, blockMs);
    if balance > locked then balance - locked else 0
  }

  /** `assertAllocationLockOutflow` does not throw. */
  predicate OutflowAllowed(k: Locks, sender: Address, balance: nat, outflow: nat, blockMs: int)
    requires ValidLocks(k)
  {
    && k.liquidity != Some(sender)
    && (k.founder == Some(sender) ==> balance - outflow >= Locked(k, sender, balance, blockMs))
    && (k.release.Some? && k.release.value.address == sender ==>
      balance - outflow >= Locked(k, sender, balance, blockMs))
  }

  /** For a non-empty outflow within the balance, the check is exactly the reported spendable amount. */
  lemma SpendableIsExact(k: Locks, a: Address, balance: nat, outflow: nat, blockMs: int)
    requires ValidLocks(k) && outflow > 0
    ensures outflow <= balance && OutflowAllowed(k, a, balance, outflow, blockMs) <==>
      outflow <= Spendable(k, a, balance, blockMs)
  {
    var locked := Locked(k, a, balance, blockMs);
    LockedNonNegative(k, a, balance, blockMs);
    SpendableByLock(balance, locked, outflow);
    assert k.liquidity != Some(a) && k.founder != Some(a) && !(k.release.Some? && k.release.value.address == a) ==>
      locked == 0;
  }

  lemma SpendableByLock(balance: nat, locked: int, outflow: nat)
    requires outflow > 0 && locked >= 0
    ensures outflow <= balance && balance - outflow >= locked <==>
      outflow <= if balance > locked then balance - locked else 0
  {
  }

  lemma LockedNonNegative(k: Locks, a: Address, balance: nat, blockMs: int)
    requires ValidLocks(k)
    ensures Locked(k, a, balance, blockMs) >= 0
  {
    FounderLockFalls(k, blockMs, blockMs);
    if k.release.Some? { ReleaseLockFalls(k, blockMs, blockMs); }
  }

  // -------------------------------------------------------------------------
  // Runs
  // -------------------------------------------------------------------------

  datatype Credit = Credit(to: Address, atoms: nat)

  /** One applied debit: the sender loses `outflow`, fee included; receivers and fee recipients are credited. */
  datatype Step = Step(blockMs: int, sender: Address, outflow: nat, credits: seq<Credit>)

  function To(a: Address): Credit -> int {
    (c: Credit) => if c.to == a then c.atoms else 0
  }

  function Inflow(a: Address): Step -> int {
    (s: Step) => Sum(s.credits, To(a))
  }

  function Outflow(a: Address): Step -> int {
    (s: Step) => if s.sender == a then s.outflow else 0
  }

  /** An account's balance after a run, from its genesis allocation. */
  function Balance(genesis: Address -> nat, run: seq<Step>, a: Address): int {
    genesis(a) + Sum(run, Inflow(a)) - Sum(run, Outflow(a))
  }

  /** Every debit was covered, allowed by the locks at its block's time, and block time never went back. */
  ghost predicate Applied(k: Locks, genesis: Address -> nat, run: seq<Step>)
    requires ValidLocks(k)
  {
    run != [] ==>
      var before, last := run[..|run| - 1], run[|run| - 1];
      && Applied(k, genesis, before)
      && (before != [] ==> before[|before| - 1].blockMs <= last.blockMs)
      && last.outflow <= Balance(genesis, before, last.sender)
      && OutflowAllowed(k, last.sender, Balance(genesis, before, last.sender), last.outflow, last.blockMs)
  }

  lemma CreditsNonNegative(credits: seq<Credit>, a: Address)
    ensures Sum(credits, To(a)) >= 0
  {
    SumNonNegative(credits, To(a));
  }

  lemma {:induction false} NeverNegative(k: Locks, genesis: Address -> nat, run: seq<Step>, a: Address)
    requires ValidLocks(k) && Applied(k, genesis, run)
    ensures Balance(genesis, run, a) >= 0
    decreases |run|
  {
    if run != [] {
      var n := |run| - 1;
      NeverNegative(k, genesis, run[..n], a);
      CreditsNonNegative(run[n].credits, a);
    }
  }

  lemma FounderLockFalls(k: Locks, s: int, t: int)
    requires s <= t
    ensures 0 <= FounderLocked(k, t) <= FounderLocked(k, s) <= k.founderAllocation
  {
    VestingShape(s - k.genesisMs, t - k.genesisMs, FOUNDER_CLIFF_MS, FOUNDER_LINEAR_MS, k.founderAllocation);
  }

  lemma ReleaseLockFalls(k: Locks, s: int, t: int)
    requires ValidLocks(k) && k.release.Some? && s <= t
    ensures 0 <= ReleaseLocked(k, t) <= ReleaseLocked(k, s) <= k.release.value.allocation
  {
    var r := k.release.value;
    VestingShape(s - k.genesisMs, t - k.genesisMs, r.cliffMs, r.linearMs, r.allocation);
  }

  ghost predicate NotBefore(run: seq<Step>, now: int) {
    run != [] ==> run[|run| - 1].blockMs <= now
  }

  /** Main result: the founder balance never falls below the part still locked, at any time after the run. */
  lemma {:induction false} FounderNeverBelowLocked(k: Locks, genesis: Address -> nat, run: seq<Step>, now: int)
    requires ValidLocks(k) && k.founder.Some? && genesis(k.founder.value) == k.founderAllocation
    requires Applied(k, genesis, run) && NotBefore(run, now)
    ensures Balance(genesis, run, k.founder.value) >= FounderLocked(k, now)
    decreases |run|
  {
    var a := k.founder.value;
    if run == [] {
      FounderLockFalls(k, now, now);
    } else {
      var n := |run| - 1;
      FounderLockFalls(k, run[n].blockMs, now);
      FounderNeverBelowLocked(k, genesis, run[..n], run[n].blockMs);
      CreditsNonNegative(run[n].credits, a);
    }
  }

  /** The same for the public-distribution account and its own schedule. */
  lemma {:induction false} ReleaseNeverBelowLocked(k: Locks, genesis: Address -> nat, run: seq<Step>, now: int)
    requires ValidLocks(k) && k.release.Some? && genesis(k.release.value.address) == k.release.value.allocation
    requires Applied(k, genesis, run) && NotBefore(run, now)
    ensures Balance(genesis, run, k.release.value.address) >= ReleaseLocked(k, now)
    decreases |run|
  {
    var a := k.release.value.address;
    if run == [] {
      ReleaseLockFalls(k, now, now);
    } else {
      var n := |run| - 1;
      ReleaseLockFalls(k, run[n].blockMs, now);
      ReleaseNeverBelowLocked(k, genesis, run[..n], run[n].blockMs);
      CreditsNonNegative(run[n].credits, a);
    }
  }

  /** Main result: what the founder has ever sent is at most what has vested plus what was received. */
  lemma FounderOutflowBounded(k: Locks, genesis: Address -> nat, run: seq<Step>, now: int)
    requires ValidLocks(k) && k.founder.Some? && genesis(k.founder.value) == k.founderAllocation
    requires Applied(k, genesis, run) && NotBefore(run, now)
    ensures Sum(run, Outflow(k.founder.value)) <=
      FounderVestedAt(k.genesisMs, now, k.founderAllocation).value + Sum(run, Inflow(k.founder.value))
  {
    FounderNeverBelowLocked(k, genesis, run, now);
  }

  /** Main result: the permanent-liquidity balance never decreases along a run. */
  lemma {:induction false} LiquidityNeverDecreases(k: Locks, genesis: Address -> nat, run: seq<Step>, n: nat)
    requires ValidLocks(k) && k.liquidity.Some? && Applied(k, genesis, run) && n <= |run|
    ensures genesis(k.liquidity.value) <=
      Balance(genesis, run[..n], k.liquidity.value) <= Balance(genesis, run, k.liquidity.value)
    decreases |run|
  {
    var a := k.liquidity.value;
    if run == [] {
      assert run[..n] == run;
    } else if n == |run| {
      assert run[..n] == run;
      LiquidityNeverDecreases(k, genesis, run[..n - 1], n - 1);
      CreditsNonNegative(run[n - 1].credits, a);
    } else {
      var m := |run| - 1;
      LiquidityNeverDecreases(k, genesis, run[..m], n);
      assert run[..m][..n] == run[..n];
      CreditsNonNegative(run[m].credits, a);
    }
  }
}
