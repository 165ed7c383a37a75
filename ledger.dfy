/** The session ledger: the record-to-record update that App.tsx hands to `setStats`
    when a laugh is detected, the zero record built on start-up and on reset, and
    the invariant `totalDue == min(count * pricePerLaugh, maxCharge)` they keep. */
module Ledger {
  import opened Types

  /** `Math.min(count * price, cap)`. */
  function Charge(count: nat, price: nat, cap: nat): (r: nat)
    ensures r <= cap && r <= count * price
    ensures r == cap || r == count * price
  {
    if count * price < cap then count * price else cap
  }

  /** The ledger invariant: the amount owed is the capped product of count and price,
      so it is never more than the cap nor more than the uncapped bill. */
  predicate Consistent(s: LaughStats)
    ensures Consistent(s) ==> s.totalDue <= s.maxCharge && s.totalDue <= s.count * s.pricePerLaugh
  {
    s.totalDue == Charge(s.count, s.pricePerLaugh, s.maxCharge)
  }

  /** The stats record the app starts with and that a reset rebuilds. */
  function Initial(price: nat, cap: nat): (s: LaughStats)
    ensures s.count == 0 && s.totalDue == 0
    ensures s.pricePerLaugh == price && s.maxCharge == cap
    ensures Consistent(s)
  {
    LaughStats(0, 0, price, cap)
  }

  /** The updater passed to `setStats` by `handleLaughDetected`: one more laugh, the
      total recomputed from the new count, everything else copied from `prev`. */
  function ApplyLaugh(prev: LaughStats): (next: LaughStats)
    ensures next.count == prev.count + 1
    ensures next.pricePerLaugh == prev.pricePerLaugh && next.maxCharge == prev.maxCharge
    ensures Consistent(next)
  {
    var newCount := prev.count + 1;
    var newTotal := Charge(newCount, prev.pricePerLaugh, prev.maxCharge);
    prev.(count := newCount, totalDue := newTotal)
  }

  /** `n` laughs applied one after the other. */
  function Laughs(s: LaughStats, n: nat): (r: LaughStats)
    ensures r.count == s.count + n
    ensures r.pricePerLaugh == s.pricePerLaugh && r.maxCharge == s.maxCharge
    ensures n > 0 ==> Consistent(r)
  {
    if n == 0 then s else ApplyLaugh(Laughs(s, n - 1))
  }

  /** The charge never shrinks as the count grows. */
  lemma {:induction false} ChargeMonotone(c1: nat, c2: nat, price: nat, cap: nat)
    requires c1 <= c2
    ensures Charge(c1, price, cap) <= Charge(c2, price, cap)
  {
    assert c1 * price <= c2 * price by {
      assert c2 * price == c1 * price + (c2 - c1) * price;
    }
  }

  /** A laugh never lowers the amount owed (from a record that keeps the invariant). */
  lemma LaughNeverLowersTotal(s: LaughStats)
    requires Consistent(s)
    ensures s.totalDue <= ApplyLaugh(s).totalDue
  {
    ChargeMonotone(s.count, s.count + 1, s.pricePerLaugh, s.maxCharge);
  }

  /** After `n` laughs the count has grown by exactly `n`, the prices are those of the
      start, and the invariant holds. */
  lemma {:induction false} LaughsShape(s: LaughStats, n: nat)
    requires Consistent(s)
    ensures Laughs(s, n).count == s.count + n
    ensures Laughs(s, n).pricePerLaugh == s.pricePerLaugh
    ensures Laughs(s, n).maxCharge == s.maxCharge
    ensures Consistent(Laughs(s, n))
  {
    if n > 0 {
      LaughsShape(s, n - 1);
    }
  }

  /** From the zero record, `n` laughs leave exactly count `n` and total `min(n * price, cap)`. */
  lemma AfterLaughs(price: nat, cap: nat, n: nat)
    ensures Laughs(Initial(price, cap), n) == LaughStats(n, Charge(n, price, cap), price, cap)
  {
    LaughsShape(Initial(price, cap), n);
  }

  /** The total owed is non-decreasing along any run of laughs. */
  lemma {:induction false} LaughsMonotone(s: LaughStats, n1: nat, n2: nat)
    requires Consistent(s)
    requires n1 <= n2
    ensures Laughs(s, n1).totalDue <= Laughs(s, n2).totalDue
  {
    if n1 < n2 {
      LaughsMonotone(s, n1, n2 - 1);
      LaughsShape(s, n2 - 1);
      LaughNeverLowersTotal(Laughs(s, n2 - 1));
    }
  }

  /** Once `n * price` reaches the cap the total is the cap, at the boundary and past it. */
  lemma CapReached(price: nat, cap: nat, n: nat)
    requires n * price >= cap
    ensures Laughs(Initial(price, cap), n).totalDue == cap
  {
    AfterLaughs(price, cap, n);
  }

  /** With the advertised prices (30 cents a laugh, capped at 2400 cents) the 80th laugh
      reaches the cap exactly and the 81st adds nothing. */
  lemma SampleCap()
    ensures Laughs(Initial(30, 2400), 79).totalDue == 2370
    ensures Laughs(Initial(30, 2400), 80).totalDue == 2400
    ensures Laughs(Initial(30, 2400), 81).totalDue == 2400
  {
    AfterLaughs(30, 2400, 79);
    AfterLaughs(30, 2400, 80);
    AfterLaughs(30, 2400, 81);
  }
}
