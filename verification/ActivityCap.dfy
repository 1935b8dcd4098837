/**
 * Activity settlements: one per closed 24-hour epoch, capped per epoch and, by
 * remembering only the previous settlement, in every rolling 24-hour window.
 */
module ActivityCap {
  import opened Sorting
  import opened Constants
  import opened Quorum
  import opened Sums

  const MAX_SETTLEMENT := 10_000 * 100_000_000

  datatype Entry = Entry(receiver: string, amount: int)

  function Amount(): Entry -> int {
    (e: Entry) => e.amount
  }

  /** Total payout, or None when an amount is negative or the cap is exceeded. */
  method SettlementWithinCap(entries: seq<Entry>, cap: int) returns (total: Option<int>)
    ensures total.Some? <==>
      cap >= 1 && (forall i :: 0 <= i < |entries| ==> entries[i].amount >= 0) && Sum(entries, Amount()) <= cap
    ensures total.Some? ==> total.value == Sum(entries, Amount())
  {
    if cap < 1 { return None; }
    var sum := 0;
    for i := 0 to |entries|
      invariant sum == Sum(entries[..i], Amount()) <= cap
      invariant forall j :: 0 <= j < i ==> entries[j].amount >= 0
    {
      if entries[i].amount < 0 { return None; }
      assert entries[..i + 1][..i] == entries[..i];
      sum := sum + entries[i].amount;
      if sum > cap {
        OverCapStays(entries, i + 1);
        return None;
      }
    }
    assert entries[..|entries|] == entries;
    total := Some(sum);
  }

  lemma OverCapStays(entries: seq<Entry>, n: nat)
    requires n <= |entries|
    ensures (forall i :: 0 <= i < |entries| ==> entries[i].amount >= 0) ==>
      Sum(entries[..n], Amount()) <= Sum(entries, Amount())
  {
    if forall i :: 0 <= i < |entries| ==> entries[i].amount >= 0 {
      assert entries == entries[..n] + entries[n..];
      SumAppend(entries[..n], entries[n..], Amount());
      SumNonNegative(entries[n..], Amount());
    }
  }

  /** The epoch holding an instant; -1 before genesis. */
  function EpochAt(genesisMs: int, timestampMs: int): (e: int)
    ensures timestampMs < genesisMs <==> e == -1
    ensures e >= 0 ==> genesisMs + e * DAY_MS <= timestampMs < genesisMs + (e + 1) * DAY_MS
  {
    if timestampMs < genesisMs then -1 else (timestampMs - genesisMs) / DAY_MS
  }

  /** Only the most recently closed epoch may be settled. */
  predicate InWindow(epoch: int, genesisMs: int, blockMs: int) {
    var current := EpochAt(genesisMs, blockMs);
    epoch >= 0 && !(epoch >= current) && !(epoch < current - 1)
  }

  /**
   * The terms a chain fixes: its genesis time, the cap, the pool's address, the addresses the protocol
   * reserves, the oracle approval of a settlement and the allocation lock on what leaves the pool.
   */
  datatype Terms = Terms(
    genesisMs: int, cap: int, pool: string, reserved: string -> bool,
    approved: Settlement -> bool, mayLeave: (int, int, int) -> bool)

  datatype Settlement = Settlement(sender: string, nonce: int, epoch: int, blockMs: int, entries: seq<Entry>)

  /** What the ledger remembers: which epochs settled, the last settlement, the pool's nonce and the balances. */
  datatype Ledger = Ledger(settled: set<int>, lastMs: int, lastAtoms: int, nonce: int, balances: map<string, int>)

  function Opening(balances: map<string, int>): Ledger { Ledger({}, 0, 0, 0, balances) }

  function BalanceOf(balances: map<string, int>, a: string): int {
    if a in balances then balances[a] else 0
  }

  function Total(s: Settlement): int { Sum(s.entries, Amount()) }

  /** What one account is paid. */
  function PaidTo(a: string): Entry -> int {
    (e: Entry) => if e.receiver == a then e.amount else 0
  }

  predicate RollingOk(l: Ledger, blockMs: int, total: int, cap: int) {
    && 1 <= cap <= MAX_SETTLEMENT
    && blockMs >= 0
    && 0 <= l.lastMs <= blockMs && 0 <= l.lastAtoms <= cap
    && total >= 0
    && !(blockMs - l.lastMs < DAY_MS && l.lastAtoms + total > cap)
  }

  predicate ReceiversOk(c: Terms, entries: seq<Entry>) {
    forall i :: 0 <= i < |entries| ==> entries[i].receiver != c.pool && !c.reserved(entries[i].receiver)
  }

  /** No receiver ends above the maximum supply. */
  predicate CreditsFit(balances: map<string, int>, entries: seq<Entry>) {
    forall i :: 0 <= i < |entries| ==>
      BalanceOf(balances, entries[i].receiver) + Sum(entries, PaidTo(entries[i].receiver)) <= MAX_SUPPLY
  }

  predicate Accepts(c: Terms, l: Ledger, s: Settlement) {
    && c.approved(s) && s.sender == c.pool && ReceiversOk(c, s.entries)
    && InWindow(s.epoch, c.genesisMs, s.blockMs)
    && s.epoch !in l.settled && s.epoch + 1 !in l.settled
    && s.nonce == l.nonce + 1
    && (forall i :: 0 <= i < |s.entries| ==> s.entries[i].amount >= 0) && Total(s) <= c.cap
    && RollingOk(l, s.blockMs, Total(s), c.cap)
    && BalanceOf(l.balances, c.pool) >= Total(s)
    && c.mayLeave(s.blockMs, BalanceOf(l.balances, c.pool), Total(s))
    && CreditsFit(l.balances, s.entries)
  }

  function Credit(balances: map<string, int>, entries: seq<Entry>): map<string, int> {
    if entries == [] then balances
    else
      var before, last := Credit(balances, entries[..|entries| - 1]), entries[|entries| - 1];
      before[last.receiver := BalanceOf(before, last.receiver) + last.amount]
  }

  function After(c: Terms, l: Ledger, s: Settlement): Ledger {
    var paid := l.balances[c.pool := BalanceOf(l.balances, c.pool) - Total(s)];
    Ledger(l.settled + {s.epoch}, s.blockMs, Total(s), s.nonce, Credit(paid, s.entries))
  }

  /** Crediting adds to every account exactly what the entries name it for. */
  lemma {:induction false} CreditIs(balances: map<string, int>, entries: seq<Entry>, a: string)
    ensures BalanceOf(Credit(balances, entries), a) == BalanceOf(balances, a) + Sum(entries, PaidTo(a))
  {
    if entries != [] { CreditIs(balances, entries[..|entries| - 1], a); }
  }

  /** Paid amounts only add up: a prefix pays no more than the whole. */
  lemma PaidSoFar(entries: seq<Entry>, n: nat, a: string)
    requires n <= |entries| && forall i :: 0 <= i < |entries| ==> entries[i].amount >= 0
    ensures Sum(entries[..n], PaidTo(a)) <= Sum(entries, PaidTo(a))
  {
    assert entries == entries[..n] + entries[n..];
    SumAppend(entries[..n], entries[n..], PaidTo(a));
    SumNonNegative(entries[n..], PaidTo(a));
  }

  /** Every receiver so far is within the maximum supply. */
  ghost predicate WithinSupply(balances: map<string, int>, entries: seq<Entry>) {
    forall i :: 0 <= i < |entries| ==> BalanceOf(balances, entries[i].receiver) <= MAX_SUPPLY
  }

  lemma CreditStep(balances: map<string, int>, entries: seq<Entry>, n: nat, before: map<string, int>)
    requires n < |entries| && before == Credit(balances, entries[..n]) && WithinSupply(before, entries[..n])
    requires forall i :: 0 <= i < |entries| ==> entries[i].amount >= 0
    ensures var next := BalanceOf(before, entries[n].receiver) + entries[n].amount;
      && before[entries[n].receiver := next] == Credit(balances, entries[..n + 1])
      && (next <= MAX_SUPPLY ==> WithinSupply(Credit(balances, entries[..n + 1]), entries[..n + 1]))
      && (next > MAX_SUPPLY ==> !CreditsFit(balances, entries))
  {
    var receiver := entries[n].receiver;
    assert entries[..n + 1][..n] == entries[..n];
    CreditIs(balances, entries[..n + 1], receiver);
    PaidSoFar(entries, n + 1, receiver);
    var after, some := Credit(balances, entries[..n + 1]), entries[..n + 1];
    if BalanceOf(before, receiver) + entries[n].amount <= MAX_SUPPLY {
      forall i | 0 <= i < |some| ensures BalanceOf(after, some[i].receiver) <= MAX_SUPPLY {
        if i < n { assert entries[..n][i] == some[i]; }
      }
    }
  }

  lemma WithinSupplyFits(balances: map<string, int>, entries: seq<Entry>)
    requires WithinSupply(Credit(balances, entries), entries)
    ensures CreditsFit(balances, entries)
  {
    forall i | 0 <= i < |entries|
      ensures BalanceOf(balances, entries[i].receiver) + Sum(entries, PaidTo(entries[i].receiver)) <= MAX_SUPPLY
    {
      CreditIs(balances, entries, entries[i].receiver);
    }
  }

  /** Credits in turn, as the source does; None at the first balance above the maximum supply. */
  method CreditAll(balances: map<string, int>, entries: seq<Entry>) returns (credited: Option<map<string, int>>)
    requires forall i :: 0 <= i < |entries| ==> entries[i].amount >= 0
    ensures credited.Some? <==> CreditsFit(balances, entries)
    ensures credited.Some? ==> credited.value == Credit(balances, entries)
  {
    var current := balances;
    for n := 0 to |entries|
      invariant current == Credit(balances, entries[..n]) && WithinSupply(current, entries[..n])
    {
      CreditStep(balances, entries, n, current);
      var next := BalanceOf(current, entries[n].receiver) + entries[n].amount;
      if next > MAX_SUPPLY { return None; }
      current := current[entries[n].receiver := next];
    }
    assert entries[..|entries|] == entries;
    WithinSupplyFits(balances, entries);
    credited := Some(current);
  }

  /** Debiting the pool changes nothing for receivers, which are never the pool. */
  lemma DebitedFits(balances: map<string, int>, pool: string, left: int, entries: seq<Entry>)
    requires forall i :: 0 <= i < |entries| ==> entries[i].receiver != pool
    ensures CreditsFit(balances[pool := left], entries) <==> CreditsFit(balances, entries)
  {
  }

  /** The ledger object that settlements update in place. */
  class ActivityLedger {
    var settled: set<int>
    var lastMs: int
    var lastAtoms: int
    var nonce: int
    var balances: map<string, int>

    function View(): Ledger
      reads this
    {
      Ledger(settled, lastMs, lastAtoms, nonce, balances)
    }

    /** A refusal changes nothing: the source applies a settlement to a copy that it drops when it throws. */
    method Settle(c: Terms, s: Settlement) returns (ok: bool)
      modifies this
      ensures ok <==> Accepts(c, old(View()), s)
      ensures View() == if ok then After(c, old(View()), s) else old(View())
    {
      if !c.approved(s) || s.sender != c.pool { return false; }
      if !ReceiversOk(c, s.entries) { return false; }
      var current := EpochAt(c.genesisMs, s.blockMs);
      if s.epoch < 0 || s.epoch >= current || s.epoch < current - 1 { return false; }
      if s.epoch in settled || s.epoch + 1 in settled { return false; }
      if s.nonce != nonce + 1 { return false; }
      var total := SettlementWithinCap(s.entries, c.cap);
      if total.None? || c.cap > MAX_SETTLEMENT { return false; }
      if s.blockMs < 0 || lastMs < 0 || lastAtoms < 0 || lastAtoms > c.cap || lastMs > s.blockMs { return false; }
      SumNonNegative(s.entries, Amount());
      if s.blockMs - lastMs < DAY_MS && lastAtoms + total.value > c.cap { return false; }
      ok := PayOut(c, s, total.value);
    }

    /** Moves the total from the pool to the receivers and records the settlement. */
    method PayOut(c: Terms, s: Settlement, total: int) returns (ok: bool)
      requires total == Total(s) && ReceiversOk(c, s.entries)
      requires forall i :: 0 <= i < |s.entries| ==> s.entries[i].amount >= 0
      modifies this
      ensures var was := old(BalanceOf(balances, c.pool));
        ok <==> was >= total && c.mayLeave(s.blockMs, was, total) && CreditsFit(old(balances), s.entries)
      ensures View() == if ok then After(c, old(View()), s) else old(View())
    {
      var pool := BalanceOf(balances, c.pool);
      if pool < total || !c.mayLeave(s.blockMs, pool, total) { return false; }
      DebitedFits(balances, c.pool, pool - total, s.entries);
      var credited := CreditAll(balances[c.pool := pool - total], s.entries);
      if credited.None? { return false; }
      balances, nonce, settled := credited.value, s.nonce, settled + {s.epoch};
      lastMs, lastAtoms := s.blockMs, total;
      ok := true;
    }
  }

  /** Exactly which settlements are accepted, in numbers. */
  lemma AcceptsIff(c: Terms, l: Ledger, s: Settlement)
    ensures Accepts(c, l, s) <==>
      && 1 <= c.cap <= 1_000_000_000_000 && 0 <= l.lastAtoms <= c.cap && 0 <= l.lastMs <= s.blockMs
      && c.approved(s) && s.sender == c.pool && s.nonce == l.nonce + 1
      && s.epoch >= 0
      && c.genesisMs + (s.epoch + 1) * 86_400_000 <= s.blockMs < c.genesisMs + (s.epoch + 2) * 86_400_000
      && s.epoch !in l.settled && s.epoch + 1 !in l.settled
      && (forall e :: e in s.entries ==> e.amount >= 0 && e.receiver != c.pool && !c.reserved(e.receiver))
      && (forall e :: e in s.entries ==>
            BalanceOf(l.balances, e.receiver) + Sum(s.entries, PaidTo(e.receiver)) <= 5_000_000_000_000_000)
      && Total(s) <= c.cap && (s.blockMs < l.lastMs + 86_400_000 ==> l.lastAtoms + Total(s) <= c.cap)
      && Total(s) <= BalanceOf(l.balances, c.pool)
      && c.mayLeave(s.blockMs, BalanceOf(l.balances, c.pool), Total(s))
  {
    WindowIs(c.genesisMs, s.blockMs, s.epoch);
    if forall e :: e in s.entries ==> e.amount >= 0 { SumNonNegative(s.entries, Amount()); }
  }

  lemma WindowIs(genesisMs: int, blockMs: int, epoch: int)
    ensures InWindow(epoch, genesisMs, blockMs) <==>
      epoch >= 0 && genesisMs + (epoch + 1) * DAY_MS <= blockMs < genesisMs + (epoch + 2) * DAY_MS
  {
  }

  // -------------------------------------------------------------------------
  // Conservation
  // -------------------------------------------------------------------------

  function BalanceIn(balances: map<string, int>): string -> int {
    (a: string) => BalanceOf(balances, a)
  }

  /** Writing one account moves the sum over distinct accounts by the change of that account. */
  lemma {:induction false} SumAfterWrite(accounts: seq<string>, balances: map<string, int>, a: string, value: int)
    requires NoRepeats(accounts)
    ensures Sum(accounts, BalanceIn(balances[a := value])) ==
      Sum(accounts, BalanceIn(balances)) + if a in accounts then value - BalanceOf(balances, a) else 0
  {
    if accounts != [] {
      var init, last := accounts[..|accounts| - 1], accounts[|accounts| - 1];
      SumAfterWrite(init, balances, a, value);
      assert accounts == init + [last];
      assert last !in init by {
        forall i | 0 <= i < |init| ensures init[i] != last { assert accounts[i] != accounts[|init|]; }
      }
    }
  }

  lemma {:induction false} SumAfterCredits(accounts: seq<string>, balances: map<string, int>, entries: seq<Entry>)
    requires NoRepeats(accounts) && forall i :: 0 <= i < |entries| ==> entries[i].receiver in accounts
    ensures Sum(accounts, BalanceIn(Credit(balances, entries))) ==
      Sum(accounts, BalanceIn(balances)) + Sum(entries, Amount())
    decreases |entries|
  {
    if entries != [] {
      var init, last := entries[..|entries| - 1], entries[|entries| - 1];
      SumAfterCredits(accounts, balances, init);
      var before := Credit(balances, init);
      SumAfterWrite(accounts, before, last.receiver, BalanceOf(before, last.receiver) + last.amount);
    }
  }

  /** A settlement moves money and makes none: over any accounts that hold the pool and the receivers the sum stays. */
  lemma SettlementConserves(c: Terms, l: Ledger, s: Settlement, accounts: seq<string>)
    requires NoRepeats(accounts) && c.pool in accounts
    requires forall i :: 0 <= i < |s.entries| ==> s.entries[i].receiver in accounts
    ensures Sum(accounts, BalanceIn(After(c, l, s).balances)) == Sum(accounts, BalanceIn(l.balances))
  {
    var left := BalanceOf(l.balances, c.pool) - Total(s);
    SumAfterWrite(accounts, l.balances, c.pool, left);
    SumAfterCredits(accounts, l.balances[c.pool := left], s.entries);
  }

  // -------------------------------------------------------------------------
  // Runs
  // -------------------------------------------------------------------------

  /** A settlement and the balances other transactions left before it. */
  datatype Turn = Turn(balances: map<string, int>, s: Settlement)

  /** The ledger after a run of settlements with any other transactions between them. */
  function Run(c: Terms, l: Ledger, run: seq<Turn>): Ledger {
    if run == [] then l
    else
      var last := run[|run| - 1];
      After(c, Run(c, l, run[..|run| - 1]).(balances := last.balances), last.s)
  }

  /**
   * A run from genesis of accepted settlements in blocks of non-decreasing time. Other transactions may
   * change every balance but the pool's, which they can neither pay into nor draw from.
   */
  ghost predicate Accepted(c: Terms, balances: map<string, int>, run: seq<Turn>) {
    run != [] ==>
      var before, last := run[..|run| - 1], run[|run| - 1];
      && Accepted(c, balances, before)
      && BalanceOf(last.balances, c.pool) == BalanceOf(Run(c, Opening(balances), before).balances, c.pool)
      && Accepts(c, Run(c, Opening(balances), before).(balances := last.balances), last.s)
      && (before != [] ==> before[|before| - 1].s.blockMs <= last.s.blockMs)
  }

  /** What settles inside the open window of 24 hours after `start`. */
  function Inside(start: int): Turn -> int {
    (t: Turn) => if start < t.s.blockMs < start + DAY_MS then Total(t.s) else 0
  }

  lemma {:induction false} RunMembers(c: Terms, balances: map<string, int>, run: seq<Turn>)
    requires Accepted(c, balances, run)
    ensures forall t :: t in run ==> t.s.epoch in Run(c, Opening(balances), run).settled
    ensures forall t :: t in run ==> t.s.epoch == EpochAt(c.genesisMs, t.s.blockMs) - 1 >= 0
    ensures forall t :: t in run ==> t.s.blockMs <= run[|run| - 1].s.blockMs
    decreases |run|
  {
    if run != [] {
      RunMembers(c, balances, run[..|run| - 1]);
      assert run == run[..|run| - 1] + [run[|run| - 1]];
    }
  }

  /** Each settlement falls in a later epoch of block time than all before it. */
  lemma EpochsGrow(c: Terms, balances: map<string, int>, run: seq<Turn>, i: nat)
    requires Accepted(c, balances, run) && i < |run| - 1
    ensures run[i].s.epoch < run[|run| - 1].s.epoch
  {
    var n := |run| - 1;
    RunMembers(c, balances, run[..n]);
    RunMembers(c, balances, run);
    assert run[i] == run[..n][i] && run[i] in run[..n];
    assert run[i] in run && run[n] in run;
    assert run[i].s.epoch != run[n].s.epoch;
    EpochMonotone(c.genesisMs, run[i].s.blockMs, run[n].s.blockMs);
  }

  lemma EpochMonotone(genesisMs: int, s: int, t: int)
    requires s <= t
    ensures EpochAt(genesisMs, s) <= EpochAt(genesisMs, t)
  {
  }

  /** Two epochs apart is more than a day apart. */
  lemma FarApart(genesisMs: int, s: int, t: int)
    requires 0 <= EpochAt(genesisMs, s) && EpochAt(genesisMs, s) + 2 <= EpochAt(genesisMs, t)
    ensures t - s > DAY_MS
  {
  }

  /** Each epoch settles at most once and in increasing order. */
  lemma {:induction false} EpochsDistinct(c: Terms, balances: map<string, int>, run: seq<Turn>)
    requires Accepted(c, balances, run)
    ensures forall i, j :: 0 <= i < j < |run| ==> run[i].s.epoch < run[j].s.epoch
    decreases |run|
  {
    if run != [] {
      var n := |run| - 1;
      EpochsDistinct(c, balances, run[..n]);
      forall i, j | 0 <= i < j < |run| ensures run[i].s.epoch < run[j].s.epoch {
        if j == n {
          EpochsGrow(c, balances, run, i);
        } else {
          assert run[i] == run[..n][i] && run[j] == run[..n][j];
        }
      }
    }
  }

  /** Settlements before the previous one are more than a day older than the last. */
  lemma OldOneFar(c: Terms, balances: map<string, int>, run: seq<Turn>, k: nat)
    requires Accepted(c, balances, run) && k + 2 < |run|
    ensures run[|run| - 1].s.blockMs - run[k].s.blockMs > DAY_MS
  {
    var last := |run| - 1;
    EpochsDistinct(c, balances, run);
    assert run[k].s.epoch < run[last - 1].s.epoch < run[last].s.epoch;
    RunMembers(c, balances, run);
    assert run[k] in run && run[last] in run;
    FarApart(c.genesisMs, run[k].s.blockMs, run[last].s.blockMs);
  }

  /** So they lie outside every window holding the last one. */
  lemma {:induction false} OldOnesOutside(c: Terms, balances: map<string, int>, run: seq<Turn>, start: int,
                                          n: nat)
    requires Accepted(c, balances, run) && n + 1 < |run|
    requires start < run[|run| - 1].s.blockMs < start + DAY_MS
    ensures Sum(run[..n], Inside(start)) == 0
    decreases n
  {
    if n > 0 {
      OldOnesOutside(c, balances, run, start, n - 1);
      assert run[..n][..n - 1] == run[..n - 1];
      OldOneFar(c, balances, run, n - 1);
    }
  }

  lemma LastIsRemembered(c: Terms, balances: map<string, int>, run: seq<Turn>)
    requires run != []
    ensures Run(c, Opening(balances), run).lastMs == run[|run| - 1].s.blockMs
    ensures Run(c, Opening(balances), run).lastAtoms == Total(run[|run| - 1].s)
  {
  }

  /** Main result: in every run, what settles in any open 24-hour window is at most the cap. */
  lemma {:induction false} RollingCap(c: Terms, balances: map<string, int>, run: seq<Turn>, start: int)
    requires Accepted(c, balances, run) && c.cap >= 0
    ensures Sum(run, Inside(start)) <= c.cap
    decreases |run|
  {
    if run != [] {
      var before, last := run[..|run| - 1], run[|run| - 1];
      RollingCap(c, balances, before, start);
      if start < last.s.blockMs < start + DAY_MS && before != [] {
        var n := |before| - 1;
        OldOnesOutside(c, balances, run, start, n);
        assert before[..n] == run[..n];
        LastIsRemembered(c, balances, before);
        SumNonNegative(before[n].s.entries, Amount());
      }
    }
  }

  function Paid(): Turn -> int {
    (t: Turn) => Total(t.s)
  }

  /** A settlement lowers the pool by its total: the pool is never a receiver. */
  lemma PoolAfter(c: Terms, l: Ledger, s: Settlement)
    requires ReceiversOk(c, s.entries)
    ensures BalanceOf(After(c, l, s).balances, c.pool) == BalanceOf(l.balances, c.pool) - Total(s)
  {
    CreditIs(l.balances[c.pool := BalanceOf(l.balances, c.pool) - Total(s)], s.entries, c.pool);
    NothingPaid(s.entries, c.pool);
  }

  lemma {:induction false} NothingPaid(entries: seq<Entry>, a: string)
    requires forall i :: 0 <= i < |entries| ==> entries[i].receiver != a
    ensures Sum(entries, PaidTo(a)) == 0
  {
    if entries != [] { NothingPaid(entries[..|entries| - 1], a); }
  }

  /** In every run the pool holds its opening balance less all that settled, and that is never negative. */
  lemma {:induction false} PoolPaysOut(c: Terms, balances: map<string, int>, run: seq<Turn>)
    requires Accepted(c, balances, run)
    ensures BalanceOf(Run(c, Opening(balances), run).balances, c.pool) == BalanceOf(balances, c.pool) - Sum(run, Paid())
    ensures run != [] ==> Sum(run, Paid()) <= BalanceOf(balances, c.pool)
    decreases |run|
  {
    if run != [] {
      var before, last := run[..|run| - 1], run[|run| - 1];
      PoolPaysOut(c, balances, before);
      PoolAfter(c, Run(c, Opening(balances), before).(balances := last.balances), last.s);
    }
  }
}
