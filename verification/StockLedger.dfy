/** The append-only inventory ledger shared by the sweep, the snapshot rebuild and the checker. */
module StockLedger {
  import opened Common

  datatype Domain = STORE | KALAVARA

  datatype Entry = Entry(
    temple: Id, domain: Domain, storeProduct: Option<Id>, kalavaraItem: Option<Id>,
    location: Option<Id>, change: real, before: real, after: real)

  const TOLERANCE: real := 0.0001

  function Abs(x: real): real {
    if x < 0.0 then -x else x
  }

  /** The row condition of the checker's "Ledger Imbalance Detection" query. */
  predicate Imbalanced(e: Entry) {
    Abs(e.before + e.change - e.after) > TOLERANCE
  }

  /** Theorem: an entry is reported exactly if its balances differ from its change by more than 0.0001. */
  lemma ImbalancedMeans(e: Entry)
    ensures Imbalanced(e) <==> e.after - e.before > e.change + 0.0001 || e.after - e.before < e.change - 0.0001
  {
  }

  /** The table's CHECK constraint on its polymorphic keys. */
  predicate WellTyped(e: Entry) {
    || (e.domain == STORE && e.storeProduct.Some? && e.kalavaraItem.None?)
    || (e.domain == KALAVARA && e.kalavaraItem.Some? && e.storeProduct.None?)
  }
}
