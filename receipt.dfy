/** What components/FinalReceipt.tsx shows of the session record: the laugh count,
    the unit price, the "Membership Cap Applied" line and the total due. */
module Receipt {
  import opened Types
  import Ledger

  /** The receipt's figures; the receipt only reads the record it is given. */
  datatype ReceiptView = ReceiptView(laughEvents: nat, unitPrice: nat, capApplied: bool, totalDue: nat)

  /** The condition guarding the cap line: the uncapped bill strictly above the cap; under
      the ledger invariant, exactly when the total due is below the uncapped bill. */
  predicate CapApplied(s: LaughStats)
    ensures Ledger.Consistent(s) ==> (CapApplied(s) <==> s.totalDue < s.count * s.pricePerLaugh)
  {
    s.count * s.pricePerLaugh > s.maxCharge
  }

  /** The figures the receipt shows are the record's own count, unit price and total,
      and for a record that keeps the ledger invariant the total is the capped bill
      of the count shown at the price shown. */
  function Render(s: LaughStats): (v: ReceiptView)
    ensures v.laughEvents == s.count && v.unitPrice == s.pricePerLaugh && v.totalDue == s.totalDue
    ensures Ledger.Consistent(s) ==> v.totalDue == Ledger.Charge(v.laughEvents, v.unitPrice, s.maxCharge)
  {
    ReceiptView(s.count, s.pricePerLaugh, CapApplied(s), s.totalDue)
  }

  /** Under the ledger invariant the cap line tells how the total was reached: shown,
      the total is the cap; not shown, the total is the uncapped bill. */
  lemma CapLineMeaning(s: LaughStats)
    requires Ledger.Consistent(s)
    ensures Render(s).capApplied ==> Render(s).totalDue == s.maxCharge
    ensures !Render(s).capApplied ==> Render(s).totalDue == s.count * s.pricePerLaugh
  {
  }

  /** At the exact boundary the cap line is not shown, and the total is both the cap
      and the uncapped bill. */
  lemma CapBoundary(s: LaughStats)
    requires Ledger.Consistent(s)
    requires s.count * s.pricePerLaugh == s.maxCharge
    ensures !Render(s).capApplied
    ensures Render(s).totalDue == s.maxCharge
  {
  }

  /** After `n` laughs from the zero record the cap line is shown iff `n * price > cap`;
      with 30 cents and a 2400-cent cap it first shows on the 81st laugh, not the 80th. */
  lemma CapAfterLaughs(price: nat, cap: nat, n: nat)
    ensures Render(Ledger.Laughs(Ledger.Initial(price, cap), n)).capApplied <==> n * price > cap
    ensures !Render(Ledger.Laughs(Ledger.Initial(30, 2400), 80)).capApplied
    ensures Render(Ledger.Laughs(Ledger.Initial(30, 2400), 81)).capApplied
  {
    Ledger.AfterLaughs(price, cap, n);
    Ledger.AfterLaughs(30, 2400, 80);
    Ledger.AfterLaughs(30, 2400, 81);
  }
}
