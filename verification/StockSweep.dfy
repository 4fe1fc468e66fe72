/** Release of expired stock reservations.

    One sweep is a loop over the expired reservations inside one database session.
    Each iteration may fail at one of its awaits; the error is logged and the loop goes on.
    `Releases` is the meaning of the loop, `Sweep` that of the whole job with its
    conditional commit, and `StockDatabase` is the job itself. */
module StockSweep {
  import opened Common
  import opened StockLedger

  datatype Status = RESERVED | RELEASED | CONFIRMED

  datatype Reservation = Reservation(
    id: Id, temple: Id, product: Id, quantity: real, status: Status, expiresAt: int, location: Option<Id>)

  datatype Stock = Stock(temple: Id, product: Id, quantity: real, location: Option<Id>, version: int)

  datatype Key = Key(temple: Id, product: Id)

  datatype Tables = Tables(
    reservations: seq<Reservation>, stock: seq<Stock>, ledger: seq<Entry>, audits: seq<Id>)

  /** Where an iteration stops: nowhere, or at one of the three awaits. */
  datatype Fault = NoFault | AtStockQuery | AtProductQuery | AtAuditLog

  /** What an iteration has to get through to have a given effect. */
  datatype Stage = StatusFlipped | StockRestored | LedgerWritten | Completed

  predicate Reaches(f: Fault, s: Stage) {
    match s
    case StatusFlipped => true
    case StockRestored => f != AtStockQuery
    case LedgerWritten => f == NoFault || f == AtAuditLog
    case Completed => f == NoFault
  }

  function KeyOf(r: Reservation): Key { Key(r.temple, r.product) }

  predicate Expired(r: Reservation, now: int) {
    r.status == RESERVED && r.expiresAt < now
  }

  /** The rows the opening SELECT returns, by position and in any order. */
  ghost predicate IsExpiredList(rs: seq<Reservation>, now: int, order: seq<nat>) {
    && (forall n, m :: 0 <= n < m < |order| ==> order[n] != order[m])
    && (forall n :: 0 <= n < |order| ==> order[n] < |rs|)
    && (forall i: nat :: i in order <==> i < |rs| && Expired(rs[i], now))
  }

  // ----- one iteration -----

  predicate Holds(s: Stock, k: Key) { s.temple == k.temple && s.product == k.product }

  /** Position of the first stock row of a key, or the table's length. */
  function FindStock(stock: seq<Stock>, k: Key): (j: nat)
    ensures j <= |stock|
    ensures forall i :: 0 <= i < j ==> !Holds(stock[i], k)
    ensures j < |stock| ==> Holds(stock[j], k)
  {
    if stock == [] then 0
    else if Holds(stock[0], k) then 0
    else 1 + FindStock(stock[1..], k)
  }

  function Restore(stock: seq<Stock>, r: Reservation): (restored: seq<Stock>)
    ensures FindStock(stock, KeyOf(r)) < |restored|
  {
    var j := FindStock(stock, KeyOf(r));
    if j < |stock|
    then stock[j := stock[j].(quantity := stock[j].quantity + r.quantity, version := stock[j].version + 1)]
    else stock + [Stock(r.temple, r.product, r.quantity, r.location, 1)]
  }

  function ReleaseEntry(stock: seq<Stock>, r: Reservation): Entry {
    var j := FindStock(stock, KeyOf(r));
    var before := if j < |stock| then stock[j].quantity else 0.0;
    var location := if r.location.Some? then r.location else Restore(stock, r)[j].location;
    Entry(r.temple, STORE, Some(r.product), None, location, r.quantity, before, before + r.quantity)
  }

  function NewEntries(stock: seq<Stock>, r: Reservation, fault: Fault): seq<Entry> {
    if Reaches(fault, LedgerWritten) then [ReleaseEntry(stock, r)] else []
  }

  /** The effect of one iteration that stops at `fault`. */
  function Release(t: Tables, i: nat, fault: Fault): Tables
    requires i < |t.reservations|
  {
    var r := t.reservations[i];
    Tables(
      t.reservations[i := r.(status := RELEASED)],
      if Reaches(fault, StockRestored) then Restore(t.stock, r) else t.stock,
      t.ledger + NewEntries(t.stock, r, fault),
      if Reaches(fault, Completed) then t.audits + [r.id] else t.audits)
  }

  // ----- the loop and the commit -----

  /** The session's tables after the iterations for `order`; faults are attached to reservations. */
  function Releases(t: Tables, order: seq<nat>, faults: Id -> Fault): (w: Tables)
    requires forall n :: 0 <= n < |order| ==> order[n] < |t.reservations|
    ensures |w.reservations| == |t.reservations|
  {
    if order == [] then t
    else
      var n := |order| - 1;
      var before := Releases(t, order[..n], faults);
      Release(before, order[n], faults(t.reservations[order[n]].id))
  }

  lemma ReleasesNone(t: Tables, faults: Id -> Fault)
    ensures Releases(t, [], faults) == t && ReleasedIds(t, [], faults) == []
  {
  }

  /** The loop releases the listed reservations and touches no other. */
  lemma {:induction false} ReleasesRows(t: Tables, order: seq<nat>, faults: Id -> Fault)
    requires forall n :: 0 <= n < |order| ==> order[n] < |t.reservations|
    ensures var w := Releases(t, order, faults);
      forall i :: 0 <= i < |t.reservations| ==>
        w.reservations[i] == if i in order then t.reservations[i].(status := RELEASED) else t.reservations[i]
  {
    if order != [] {
      var n := |order| - 1;
      ReleasesRows(t, order[..n], faults);
      assert order == order[..n] + [order[n]];
    }
  }

  lemma ReleasesStep(t: Tables, order: seq<nat>, n: nat, faults: Id -> Fault)
    requires n < |order|
    requires forall m :: 0 <= m < |order| ==> order[m] < |t.reservations|
    ensures var before := Releases(t, order[..n], faults);
      && before.reservations[order[n]].id == t.reservations[order[n]].id
      && Releases(t, order[..n + 1], faults) == Release(before, order[n], faults(t.reservations[order[n]].id))
      && ReleasedIds(t, order[..n + 1], faults)
         == ReleasedIds(t, order[..n], faults)
            + (if faults(t.reservations[order[n]].id) == NoFault then [t.reservations[order[n]].id] else [])
  {
    assert order[..n + 1][..n] == order[..n];
    ReleasesRows(t, order[..n], faults);
  }

  /** The reservations whose iteration ran to its end. */
  function ReleasedIds(t: Tables, order: seq<nat>, faults: Id -> Fault): seq<Id>
    requires forall n :: 0 <= n < |order| ==> order[n] < |t.reservations|
  {
    if order == [] then []
    else
      var n := |order| - 1;
      var id := t.reservations[order[n]].id;
      ReleasedIds(t, order[..n], faults) + if faults(id) == NoFault then [id] else []
  }

  /** The persisted outcome: the session commits only if some iteration completed. */
  function Sweep(t: Tables, order: seq<nat>, faults: Id -> Fault): Tables
    requires forall n :: 0 <= n < |order| ==> order[n] < |t.reservations|
  {
    if ReleasedIds(t, order, faults) != [] then Releases(t, order, faults) else t
  }

  function NoFaults(): Id -> Fault { id => NoFault }

  // ----- what the tables add up to -----

  function StockTotal(stock: seq<Stock>, k: Key): real {
    Total(stock, (s: Stock) => if Holds(s, k) then s.quantity else 0.0)
  }

  function VersionTotal(stock: seq<Stock>, k: Key): int {
    Tally(stock, (s: Stock) => if Holds(s, k) then s.version else 0)
  }

  function RowCount(stock: seq<Stock>, k: Key): int {
    Tally(stock, (s: Stock) => if Holds(s, k) then 1 else 0)
  }

  predicate Records(e: Entry, k: Key) {
    e.temple == k.temple && e.domain == STORE && e.storeProduct == Some(k.product)
  }

  /** The ledger replay of one key. */
  function LedgerTotal(ledger: seq<Entry>, k: Key): real {
    Total(ledger, (e: Entry) => if Records(e, k) then e.change else 0.0)
  }

  function ReservedTotal(rs: seq<Reservation>, k: Key): real {
    Total(rs, (r: Reservation) => if KeyOf(r) == k && r.status == RESERVED then r.quantity else 0.0)
  }

  predicate Counts(r: Reservation, now: int, faults: Id -> Fault, k: Key, s: Stage) {
    KeyOf(r) == k && Expired(r, now) && Reaches(faults(r.id), s)
  }

  function DueWeight(now: int, faults: Id -> Fault, k: Key, s: Stage): Reservation -> real {
    (r: Reservation) => if Counts(r, now, faults, k, s) then r.quantity else 0.0
  }

  /** Quantity of the expired reservations whose iteration reaches a stage: the order plays no part. */
  function Due(rs: seq<Reservation>, now: int, faults: Id -> Fault, k: Key, s: Stage): real {
    Total(rs, DueWeight(now, faults, k, s))
  }

  function DueCountWeight(now: int, faults: Id -> Fault, k: Key, s: Stage): Reservation -> int {
    (r: Reservation) => if Counts(r, now, faults, k, s) then 1 else 0
  }

  function DueCount(rs: seq<Reservation>, now: int, faults: Id -> Fault, k: Key, s: Stage): int {
    Tally(rs, DueCountWeight(now, faults, k, s))
  }

  // ----- accounting of one iteration -----

  lemma RestoreAccounts(stock: seq<Stock>, r: Reservation, k: Key)
    ensures StockTotal(Restore(stock, r), k) == StockTotal(stock, k) + (if KeyOf(r) == k then r.quantity else 0.0)
    ensures VersionTotal(Restore(stock, r), k) == VersionTotal(stock, k) + (if KeyOf(r) == k then 1 else 0)
    ensures RowCount(Restore(stock, r), k)
         == if KeyOf(r) == k && FindStock(stock, k) == |stock| then RowCount(stock, k) + 1 else RowCount(stock, k)
  {
    hide FindStock;
    var j := FindStock(stock, KeyOf(r));
    var quantity := (s: Stock) => if Holds(s, k) then s.quantity else 0.0;
    var version := (s: Stock) => if Holds(s, k) then s.version else 0;
    var one := (s: Stock) => if Holds(s, k) then 1 else 0;
    if j < |stock| {
      var s := stock[j].(quantity := stock[j].quantity + r.quantity, version := stock[j].version + 1);
      TotalUpdate(stock, j, s, quantity);
      TallyUpdate(stock, j, s, version);
      TallyUpdate(stock, j, s, one);
    } else {
      var s := Stock(r.temple, r.product, r.quantity, r.location, 1);
      TotalAppend(stock, s, quantity);
      TallyAppend(stock, s, version);
      TallyAppend(stock, s, one);
    }
  }

  lemma AbsentMeansNoRows(stock: seq<Stock>, k: Key)
    ensures RowCount(stock, k) >= 0
    ensures FindStock(stock, k) == |stock| <==> RowCount(stock, k) == 0
    ensures FindStock(stock, k) == |stock| ==> StockTotal(stock, k) == 0.0 && VersionTotal(stock, k) == 0
  {
    var one := (s: Stock) => if Holds(s, k) then 1 else 0;
    TallyNonNegative(stock, one);
    var j := FindStock(stock, k);
    if j == |stock| {
      TotalZero(stock, (s: Stock) => if Holds(s, k) then s.quantity else 0.0);
      TallyZero(stock, (s: Stock) => if Holds(s, k) then s.version else 0);
    } else {
      assert one(stock[j]) == 1;
    }
  }

  /** A key's only row carries the key's whole stock. */
  lemma {:induction false} OnlyRow(stock: seq<Stock>, k: Key)
    requires RowCount(stock, k) == 1
    ensures FindStock(stock, k) < |stock|
    ensures StockTotal(stock, k) == stock[FindStock(stock, k)].quantity
  {
    AbsentMeansNoRows(stock, k);
    var j := FindStock(stock, k);
    var one := (s: Stock) => if Holds(s, k) then 1 else 0;
    var rest := stock[j := stock[j].(temple := k.temple + 1)];
    TallyUpdate(stock, j, rest[j], one);
    AbsentMeansNoRows(rest, k);
    TotalUpdate(stock, j, rest[j], (s: Stock) => if Holds(s, k) then s.quantity else 0.0);
  }

  /** One iteration moves exactly its own quantity from what is due to what was restored or recorded. */
  lemma ReleaseAccounts(t: Tables, i: nat, now: int, faults: Id -> Fault, k: Key)
    requires i < |t.reservations| && Expired(t.reservations[i], now)
    ensures var w := Release(t, i, faults(t.reservations[i].id));
      && StockTotal(w.stock, k) + Due(w.reservations, now, faults, k, StockRestored)
         == StockTotal(t.stock, k) + Due(t.reservations, now, faults, k, StockRestored)
      && VersionTotal(w.stock, k) + DueCount(w.reservations, now, faults, k, StockRestored)
         == VersionTotal(t.stock, k) + DueCount(t.reservations, now, faults, k, StockRestored)
      && LedgerTotal(w.ledger, k) + Due(w.reservations, now, faults, k, LedgerWritten)
         == LedgerTotal(t.ledger, k) + Due(t.reservations, now, faults, k, LedgerWritten)
      && ReservedTotal(w.reservations, k) - Due(w.reservations, now, faults, k, StatusFlipped)
         == ReservedTotal(t.reservations, k) - Due(t.reservations, now, faults, k, StatusFlipped)
  {
    hide StockTotal, VersionTotal, RowCount, LedgerTotal, ReservedTotal, Due, DueCount, Restore, ReleaseEntry;
    var r := t.reservations[i];
    var fault := faults(r.id);
    ReleaseSettles(t.reservations, i, now, faults, k, StatusFlipped);
    ReleaseSettles(t.reservations, i, now, faults, k, StockRestored);
    ReleaseSettles(t.reservations, i, now, faults, k, LedgerWritten);
    RestoreAccounts(t.stock, r, k);
    NewEntriesAccount(t.ledger, t.stock, r, fault, k);
  }

  /** Releasing a reservation takes it out of RESERVED and out of everything that is due. */
  lemma ReleaseSettles(rs: seq<Reservation>, i: nat, now: int, faults: Id -> Fault, k: Key, s: Stage)
    requires i < |rs| && Expired(rs[i], now)
    ensures var w := rs[i := rs[i].(status := RELEASED)]; var counts := Counts(rs[i], now, faults, k, s);
      && Due(w, now, faults, k, s) == Due(rs, now, faults, k, s) - (if counts then rs[i].quantity else 0.0)
      && DueCount(w, now, faults, k, s) == DueCount(rs, now, faults, k, s) - (if counts then 1 else 0)
      && ReservedTotal(w, k) == ReservedTotal(rs, k) - (if KeyOf(rs[i]) == k then rs[i].quantity else 0.0)
  {
    var released := rs[i].(status := RELEASED);
    TotalUpdate(rs, i, released, DueWeight(now, faults, k, s));
    TallyUpdate(rs, i, released, DueCountWeight(now, faults, k, s));
    TotalUpdate(rs, i, released,
      (r: Reservation) => if KeyOf(r) == k && r.status == RESERVED then r.quantity else 0.0);
  }

  lemma NewEntriesAccount(ledger: seq<Entry>, stock: seq<Stock>, r: Reservation, fault: Fault, k: Key)
    ensures LedgerTotal(ledger + NewEntries(stock, r, fault), k)
         == LedgerTotal(ledger, k) + (if KeyOf(r) == k && Reaches(fault, LedgerWritten) then r.quantity else 0.0)
  {
    TotalAppend(ledger, ReleaseEntry(stock, r), (e: Entry) => if Records(e, k) then e.change else 0.0);
    assert ledger + [] == ledger;
  }

  /** A key gains a row only when it had none. */
  lemma ReleaseRows(t: Tables, i: nat, now: int, faults: Id -> Fault, k: Key)
    requires i < |t.reservations| && Expired(t.reservations[i], now)
    ensures var w := Release(t, i, faults(t.reservations[i].id));
      && (RowCount(t.stock, k) > 0 ==> RowCount(w.stock, k) == RowCount(t.stock, k))
      && (RowCount(t.stock, k) == 0 ==>
            RowCount(w.stock, k) == if Counts(t.reservations[i], now, faults, k, StockRestored) then 1 else 0)
      && DueCount(w.reservations, now, faults, k, StockRestored)
         == DueCount(t.reservations, now, faults, k, StockRestored)
            - (if Counts(t.reservations[i], now, faults, k, StockRestored) then 1 else 0)
  {
    hide StockTotal, VersionTotal, RowCount, ReservedTotal, Due, DueCount, Restore;
    ReleaseSettles(t.reservations, i, now, faults, k, StockRestored);
    RestoreAccounts(t.stock, t.reservations[i], k);
    AbsentMeansNoRows(t.stock, k);
  }

  lemma DueCountNonNegative(rs: seq<Reservation>, now: int, faults: Id -> Fault, k: Key, s: Stage)
    ensures DueCount(rs, now, faults, k, s) >= 0
    ensures DueCount(rs, now, faults, k, s) == 0 ==> Due(rs, now, faults, k, s) == 0.0
  {
    TallyNonNegative(rs, DueCountWeight(now, faults, k, s));
    if DueCount(rs, now, faults, k, s) == 0 {
      assert forall i :: 0 <= i < |rs| ==> DueCountWeight(now, faults, k, s)(rs[i]) == 0;
      TotalZero(rs, DueWeight(now, faults, k, s));
    }
  }

  // ----- accounting of the loop -----

  /** The same balances hold over any number of iterations. */
  lemma {:induction false} LoopAccounts(t: Tables, order: seq<nat>, now: int, faults: Id -> Fault, k: Key)
    requires forall n :: 0 <= n < |order| ==> order[n] < |t.reservations| && Expired(t.reservations[order[n]], now)
    requires forall n, m :: 0 <= n < m < |order| ==> order[n] != order[m]
    ensures var w := Releases(t, order, faults);
      && StockTotal(w.stock, k) + Due(w.reservations, now, faults, k, StockRestored)
         == StockTotal(t.stock, k) + Due(t.reservations, now, faults, k, StockRestored)
      && VersionTotal(w.stock, k) + DueCount(w.reservations, now, faults, k, StockRestored)
         == VersionTotal(t.stock, k) + DueCount(t.reservations, now, faults, k, StockRestored)
      && LedgerTotal(w.ledger, k) + Due(w.reservations, now, faults, k, LedgerWritten)
         == LedgerTotal(t.ledger, k) + Due(t.reservations, now, faults, k, LedgerWritten)
      && ReservedTotal(w.reservations, k) - Due(w.reservations, now, faults, k, StatusFlipped)
         == ReservedTotal(t.reservations, k) - Due(t.reservations, now, faults, k, StatusFlipped)
      && (RowCount(t.stock, k) > 0 ==> RowCount(w.stock, k) == RowCount(t.stock, k))
      && (RowCount(t.stock, k) == 0 ==>
            var due := DueCount(t.reservations, now, faults, k, StockRestored);
            var left := DueCount(w.reservations, now, faults, k, StockRestored);
            RowCount(w.stock, k) == if left == due then 0 else 1)
      && DueCount(w.reservations, now, faults, k, StockRestored)
         <= DueCount(t.reservations, now, faults, k, StockRestored)
  {
    if order != [] {
      var n := |order| - 1;
      LoopAccounts(t, order[..n], now, faults, k);
      var before := Releases(t, order[..n], faults);
      ReleasesRows(t, order[..n], faults);
      assert order[n] !in order[..n];
      ReleaseAccounts(before, order[n], now, faults, k);
      ReleaseRows(before, order[n], now, faults, k);
      AbsentMeansNoRows(t.stock, k);
      AbsentMeansNoRows(before.stock, k);
    }
  }

  /** Once every expired reservation was visited, none is due. */
  lemma NothingDueAfter(t: Tables, order: seq<nat>, now: int, faults: Id -> Fault)
    requires IsExpiredList(t.reservations, now, order)
    ensures var w := Releases(t, order, faults);
      forall i :: 0 <= i < |w.reservations| ==> !Expired(w.reservations[i], now)
  {
    ReleasesRows(t, order, faults);
  }

  /** Theorem: whatever faults strike, the loop moves per key exactly: all due quantity out of RESERVED, the part
      that got past the stock query into stock (one version each), the part that got past the product query into the
      ledger; a row is created only for a key that had none. */
  lemma LoopBalance(t: Tables, order: seq<nat>, now: int, faults: Id -> Fault, k: Key)
    requires IsExpiredList(t.reservations, now, order)
    ensures var w := Releases(t, order, faults); var rs := t.reservations;
      && ReservedTotal(w.reservations, k) == ReservedTotal(rs, k) - Due(rs, now, faults, k, StatusFlipped)
      && StockTotal(w.stock, k) == StockTotal(t.stock, k) + Due(rs, now, faults, k, StockRestored)
      && LedgerTotal(w.ledger, k) == LedgerTotal(t.ledger, k) + Due(rs, now, faults, k, LedgerWritten)
      && VersionTotal(w.stock, k) == VersionTotal(t.stock, k) + DueCount(rs, now, faults, k, StockRestored)
      && RowCount(w.stock, k) == if RowCount(t.stock, k) == 0 && DueCount(rs, now, faults, k, StockRestored) > 0
                                 then 1 else RowCount(t.stock, k)
  {
    LoopAccounts(t, order, now, faults, k);
    NothingDueAfter(t, order, now, faults);
    var w := Releases(t, order, faults);
    TotalZero(w.reservations, DueWeight(now, faults, k, StatusFlipped));
    TotalZero(w.reservations, DueWeight(now, faults, k, StockRestored));
    TotalZero(w.reservations, DueWeight(now, faults, k, LedgerWritten));
    TallyZero(w.reservations, DueCountWeight(now, faults, k, StockRestored));
    AbsentMeansNoRows(t.stock, k);
    DueCountNonNegative(t.reservations, now, faults, k, StockRestored);
  }

  // ----- conservation -----

  lemma {:induction false} ReleasedIdsAre(t: Tables, order: seq<nat>, faults: Id -> Fault, id: Id)
    requires forall n :: 0 <= n < |order| ==> order[n] < |t.reservations|
    ensures id in ReleasedIds(t, order, faults)
       <==> faults(id) == NoFault && exists n :: 0 <= n < |order| && t.reservations[order[n]].id == id
  {
    if order != [] {
      var n := |order| - 1;
      ReleasedIdsAre(t, order[..n], faults, id);
      assert forall j :: 0 <= j < n ==> order[j] == order[..n][j];
    }
  }

  lemma ReleasedIdsExpired(t: Tables, order: seq<nat>, now: int, faults: Id -> Fault, id: Id)
    requires IsExpiredList(t.reservations, now, order)
    ensures id in ReleasedIds(t, order, faults)
       <==> faults(id) == NoFault && exists r :: r in t.reservations && Expired(r, now) && r.id == id
  {
    ReleasedIdsAre(t, order, faults, id);
    if n :| 0 <= n < |order| && t.reservations[order[n]].id == id {
      assert order[n] in order;
      assert t.reservations[order[n]] in t.reservations;
    }
    if r :| r in t.reservations && Expired(r, now) && r.id == id {
      var i :| 0 <= i < |t.reservations| && t.reservations[i] == r;
      assert i in order;
    }
  }

  /** The job commits exactly when some expired reservation gets through without a fault; otherwise nothing changes. */
  lemma CommitsIffSomeCompletes(t: Tables, order: seq<nat>, now: int, faults: Id -> Fault)
    requires IsExpiredList(t.reservations, now, order)
    ensures (exists r :: r in t.reservations && Expired(r, now) && faults(r.id) == NoFault)
            ==> Sweep(t, order, faults) == Releases(t, order, faults)
    ensures !(exists r :: r in t.reservations && Expired(r, now) && faults(r.id) == NoFault)
            ==> Sweep(t, order, faults) == t
  {
    if r :| r in t.reservations && Expired(r, now) && faults(r.id) == NoFault {
      ReleasedIdsExpired(t, order, now, faults, r.id);
    } else if ReleasedIds(t, order, faults) != [] {
      ReleasedIdsExpired(t, order, now, faults, ReleasedIds(t, order, faults)[0]);
    }
  }

  ghost predicate QuantitiesNonNegative(rs: seq<Reservation>) {
    forall i :: 0 <= i < |rs| ==> rs[i].quantity >= 0.0
  }

  /** Fewer iterations reach a later stage, and the quantities tie only if what was lost on the way is empty. */
  lemma DueShrinks(rs: seq<Reservation>, now: int, faults: Id -> Fault, k: Key, early: Stage, late: Stage)
    requires QuantitiesNonNegative(rs)
    requires forall f: Fault :: Reaches(f, late) ==> Reaches(f, early)
    ensures Due(rs, now, faults, k, late) <= Due(rs, now, faults, k, early)
    ensures Due(rs, now, faults, k, late) == Due(rs, now, faults, k, early)
       <==> forall i :: 0 <= i < |rs| && Counts(rs[i], now, faults, k, early) && rs[i].quantity > 0.0
                        ==> Reaches(faults(rs[i].id), late)
  {
    var low, high := DueWeight(now, faults, k, late), DueWeight(now, faults, k, early);
    TotalCompare(rs, low, high);
    forall i | 0 <= i < |rs|
      ensures low(rs[i]) == high(rs[i])
         <==> (Counts(rs[i], now, faults, k, early) && rs[i].quantity > 0.0 ==> Reaches(faults(rs[i].id), late))
    {
    }
  }

  lemma DueNonNegative(rs: seq<Reservation>, now: int, faults: Id -> Fault, k: Key, s: Stage)
    requires QuantitiesNonNegative(rs)
    ensures Due(rs, now, faults, k, s) >= 0.0
  {
    TotalCompare(rs, r => 0.0, DueWeight(now, faults, k, s));
    TotalZero<Reservation>(rs, r => 0.0);
  }

  /** Theorem: per product, ledger added <= stock added <= quantity released, under every fault pattern. */
  lemma FaultInequalities(t: Tables, order: seq<nat>, now: int, faults: Id -> Fault, k: Key)
    requires IsExpiredList(t.reservations, now, order) && QuantitiesNonNegative(t.reservations)
    ensures var w := Sweep(t, order, faults);
      && 0.0 <= LedgerTotal(w.ledger, k) - LedgerTotal(t.ledger, k)
             <= StockTotal(w.stock, k) - StockTotal(t.stock, k)
             <= ReservedTotal(t.reservations, k) - ReservedTotal(w.reservations, k)
  {
    hide StockTotal, VersionTotal, RowCount, LedgerTotal, ReservedTotal, Due, DueCount, Releases, ReleasedIds;
    LoopBalance(t, order, now, faults, k);
    DueShrinks(t.reservations, now, faults, k, StatusFlipped, StockRestored);
    DueShrinks(t.reservations, now, faults, k, StockRestored, LedgerWritten);
    DueNonNegative(t.reservations, now, faults, k, LedgerWritten);
  }

  /** Theorem: a committing sweep conserves stock + RESERVED exactly when no expired reservation with something
      in it failed at its stock query; it never creates units. */
  lemma ConservedIff(t: Tables, order: seq<nat>, now: int, faults: Id -> Fault, k: Key)
    requires IsExpiredList(t.reservations, now, order) && QuantitiesNonNegative(t.reservations)
    requires ReleasedIds(t, order, faults) != []
    ensures var w := Sweep(t, order, faults);
      && StockTotal(w.stock, k) + ReservedTotal(w.reservations, k)
         <= StockTotal(t.stock, k) + ReservedTotal(t.reservations, k)
      && (StockTotal(w.stock, k) + ReservedTotal(w.reservations, k)
          == StockTotal(t.stock, k) + ReservedTotal(t.reservations, k)
          <==> forall i :: 0 <= i < |t.reservations| && KeyOf(t.reservations[i]) == k
                           && Expired(t.reservations[i], now) && t.reservations[i].quantity > 0.0
                           ==> faults(t.reservations[i].id) != AtStockQuery)
  {
    LoopBalance(t, order, now, faults, k);
    DueShrinks(t.reservations, now, faults, k, StatusFlipped, StockRestored);
    forall i | 0 <= i < |t.reservations|
      ensures Counts(t.reservations[i], now, faults, k, StatusFlipped)
         <==> KeyOf(t.reservations[i]) == k && Expired(t.reservations[i], now)
    {
    }
  }

  /** Theorem: a committing sweep keeps "ledger replay = live stock" exactly when no expired reservation with
      something in it failed between the stock update and the ledger entry. */
  lemma ReplayAgreesIff(t: Tables, order: seq<nat>, now: int, faults: Id -> Fault, k: Key)
    requires IsExpiredList(t.reservations, now, order) && QuantitiesNonNegative(t.reservations)
    requires ReleasedIds(t, order, faults) != []
    requires LedgerTotal(t.ledger, k) == StockTotal(t.stock, k)
    ensures var w := Sweep(t, order, faults);
      LedgerTotal(w.ledger, k) == StockTotal(w.stock, k)
      <==> forall i :: 0 <= i < |t.reservations| && KeyOf(t.reservations[i]) == k
                       && Expired(t.reservations[i], now) && t.reservations[i].quantity > 0.0
                       ==> faults(t.reservations[i].id) != AtProductQuery
  {
    hide StockTotal, LedgerTotal, ReservedTotal, VersionTotal, RowCount, Due, DueCount, IsExpiredList;
    LoopBalance(t, order, now, faults, k);
    DueShrinks(t.reservations, now, faults, k, StockRestored, LedgerWritten);
    forall i | 0 <= i < |t.reservations|
      ensures (Counts(t.reservations[i], now, faults, k, StockRestored)
          ==> Reaches(faults(t.reservations[i].id), LedgerWritten))
         <==> (KeyOf(t.reservations[i]) == k && Expired(t.reservations[i], now)
               ==> faults(t.reservations[i].id) != AtProductQuery)
    {
    }
  }

  // ----- runs of sweeps -----

  /** One sweep: its time, the answer of its query, and its faults. */
  datatype Round = Round(now: int, order: seq<nat>, faults: Id -> Fault)

  /** Every round works on what its query can return. */
  ghost predicate Possible(t: Tables, rounds: seq<Round>)
    decreases |rounds|, 0
  {
    rounds == [] ||
      (var n := |rounds| - 1;
       Possible(t, rounds[..n])
       && IsExpiredList(AfterRounds(t, rounds[..n]).reservations, rounds[n].now, rounds[n].order))
  }

  ghost function AfterRounds(t: Tables, rounds: seq<Round>): Tables
    requires Possible(t, rounds)
    decreases |rounds|, 1
  {
    if rounds == [] then t
    else
      var n := |rounds| - 1;
      Sweep(AfterRounds(t, rounds[..n]), rounds[n].order, rounds[n].faults)
  }

  /** The sweep commits, although a due reservation of the key with something in it failed at the given await. */
  ghost predicate FailsAt(t: Tables, r: Round, k: Key, f: Fault) {
    && (exists x :: x in t.reservations && Expired(x, r.now) && r.faults(x.id) == NoFault)
    && exists i :: 0 <= i < |t.reservations| && KeyOf(t.reservations[i]) == k && Expired(t.reservations[i], r.now)
                   && t.reservations[i].quantity > 0.0 && r.faults(t.reservations[i].id) == f
  }

  lemma RoundBalance(t: Tables, r: Round, k: Key)
    requires IsExpiredList(t.reservations, r.now, r.order) && QuantitiesNonNegative(t.reservations)
    ensures var w := Sweep(t, r.order, r.faults);
      && QuantitiesNonNegative(w.reservations)
      && 0.0 <= LedgerTotal(w.ledger, k) - LedgerTotal(t.ledger, k)
             <= StockTotal(w.stock, k) - StockTotal(t.stock, k)
             <= ReservedTotal(t.reservations, k) - ReservedTotal(w.reservations, k)
      && (StockTotal(w.stock, k) + ReservedTotal(w.reservations, k)
          == StockTotal(t.stock, k) + ReservedTotal(t.reservations, k)
          <==> !FailsAt(t, r, k, AtStockQuery))
      && (LedgerTotal(w.ledger, k) - LedgerTotal(t.ledger, k) == StockTotal(w.stock, k) - StockTotal(t.stock, k)
          <==> !FailsAt(t, r, k, AtProductQuery))
  {
    hide StockTotal, VersionTotal, RowCount, LedgerTotal, ReservedTotal, Due, DueCount, IsExpiredList, Releases,
      ReleasedIds, Sweep;
    FaultInequalities(t, r.order, r.now, r.faults, k);
    CommitsIffSomeCompletes(t, r.order, r.now, r.faults);
    SweepKeepsQuantities(t, r.order, r.now, r.faults);
    LoopBalance(t, r.order, r.now, r.faults, k);
    DueShrinks(t.reservations, r.now, r.faults, k, StatusFlipped, StockRestored);
    DueShrinks(t.reservations, r.now, r.faults, k, StockRestored, LedgerWritten);
    forall i | 0 <= i < |t.reservations|
      ensures Counts(t.reservations[i], r.now, r.faults, k, StatusFlipped)
         <==> KeyOf(t.reservations[i]) == k && Expired(t.reservations[i], r.now)
      ensures (Counts(t.reservations[i], r.now, r.faults, k, StockRestored)
               ==> Reaches(r.faults(t.reservations[i].id), LedgerWritten))
         <==> (KeyOf(t.reservations[i]) == k && Expired(t.reservations[i], r.now)
               ==> r.faults(t.reservations[i].id) != AtProductQuery)
    {
    }
  }

  lemma SweepKeepsQuantities(t: Tables, order: seq<nat>, now: int, faults: Id -> Fault)
    requires IsExpiredList(t.reservations, now, order) && QuantitiesNonNegative(t.reservations)
    ensures QuantitiesNonNegative(Sweep(t, order, faults).reservations)
  {
    ReleasesRows(t, order, faults);
  }

  /** Theorem: over any run of sweeps at any times with any faults, per product: ledger added <= stock added <=
      quantity released, so that stock plus RESERVED never grows. It is conserved exactly if no sweep of the run
      committed although a due, non-empty reservation failed at its stock query, and ledger and stock grow alike
      exactly if none did although one failed at its product query. */
  lemma {:induction false} BalancesOverRounds(t: Tables, rounds: seq<Round>, k: Key)
    requires Possible(t, rounds) && QuantitiesNonNegative(t.reservations)
    ensures var w := AfterRounds(t, rounds);
      && QuantitiesNonNegative(w.reservations)
      && 0.0 <= LedgerTotal(w.ledger, k) - LedgerTotal(t.ledger, k)
             <= StockTotal(w.stock, k) - StockTotal(t.stock, k)
             <= ReservedTotal(t.reservations, k) - ReservedTotal(w.reservations, k)
      && (StockTotal(w.stock, k) + ReservedTotal(w.reservations, k)
          == StockTotal(t.stock, k) + ReservedTotal(t.reservations, k)
          <==> forall n: nat :: n < |rounds| ==> !RoundFailsAt(t, rounds, n, k, AtStockQuery))
      && (LedgerTotal(w.ledger, k) - LedgerTotal(t.ledger, k) == StockTotal(w.stock, k) - StockTotal(t.stock, k)
          <==> forall n: nat :: n < |rounds| ==> !RoundFailsAt(t, rounds, n, k, AtProductQuery))
  {
    hide StockTotal, LedgerTotal, ReservedTotal, Sweep, FailsAt, QuantitiesNonNegative, IsExpiredList;
    if rounds != [] {
      var n := |rounds| - 1;
      var front := rounds[..n];
      BalancesOverRounds(t, front, k);
      RoundBalance(AfterRounds(t, front), rounds[n], k);
      forall m: nat, f: Fault | m < n ensures RoundFailsAt(t, rounds, m, k, f) <==> RoundFailsAt(t, front, m, k, f) {
        assert front[..m] == rounds[..m];
      }
      PrefixPossible(t, rounds, n);
      assert forall f: Fault ::
          RoundFailsAt(t, rounds, n, k, f) <==> FailsAt(AfterRounds(t, front), rounds[n], k, f);
    }
  }

  /** Round n of the run fails at the await, in the state the rounds before it left. */
  ghost predicate RoundFailsAt(t: Tables, rounds: seq<Round>, n: nat, k: Key, f: Fault) {
    n < |rounds| && Possible(t, rounds[..n]) && FailsAt(AfterRounds(t, rounds[..n]), rounds[n], k, f)
  }

  lemma {:induction false} PrefixPossible(t: Tables, rounds: seq<Round>, n: nat)
    requires Possible(t, rounds) && n <= |rounds|
    ensures Possible(t, rounds[..n])
  {
    if n < |rounds| {
      PrefixPossible(t, rounds[..|rounds| - 1], n);
      assert rounds[..|rounds| - 1][..n] == rounds[..n];
    } else {
      assert rounds[..n] == rounds;
    }
  }

  // ----- confluence -----

  /** Theorem: the order in which the database returns the expired rows does not matter to statuses, per-key stock,
      versions, row counts or ledger replay, nor to whether the job commits. */
  lemma OrderDoesNotMatter(t: Tables, a: seq<nat>, b: seq<nat>, now: int, faults: Id -> Fault, k: Key)
    requires IsExpiredList(t.reservations, now, a) && IsExpiredList(t.reservations, now, b)
    ensures var u, v := Sweep(t, a, faults), Sweep(t, b, faults);
      && u.reservations == v.reservations
      && StockTotal(u.stock, k) == StockTotal(v.stock, k)
      && VersionTotal(u.stock, k) == VersionTotal(v.stock, k)
      && RowCount(u.stock, k) == RowCount(v.stock, k)
      && LedgerTotal(u.ledger, k) == LedgerTotal(v.ledger, k)
  {
    hide StockTotal, VersionTotal, RowCount, LedgerTotal, ReservedTotal, Due, DueCount, Releases, ReleasedIds;
    LoopBalance(t, a, now, faults, k);
    LoopBalance(t, b, now, faults, k);
    CommitsIffSomeCompletes(t, a, now, faults);
    CommitsIffSomeCompletes(t, b, now, faults);
    assert forall i: nat :: i in a <==> i in b;
    ReleasesRows(t, a, faults);
    ReleasesRows(t, b, faults);
    assert Releases(t, a, faults).reservations == Releases(t, b, faults).reservations;
  }

  /** The one thing the order decides: the location of a stock row that the sweep creates. */
  lemma CreatedLocationDependsOnOrder()
    ensures var r0 := Reservation(0, 7, 8, 1.0, RESERVED, 5, Some(100));
      var r1 := Reservation(1, 7, 8, 1.0, RESERVED, 5, Some(200));
      var t := Tables([r0, r1], [], [], []);
      && IsExpiredList(t.reservations, 10, [0, 1]) && IsExpiredList(t.reservations, 10, [1, 0])
      && Sweep(t, [0, 1], NoFaults()).stock == [Stock(7, 8, 2.0, Some(100), 2)]
      && Sweep(t, [1, 0], NoFaults()).stock == [Stock(7, 8, 2.0, Some(200), 2)]
  {
    hide Sweep;
    var r0 := Reservation(0, 7, 8, 1.0, RESERVED, 5, Some(100));
    var r1 := Reservation(1, 7, 8, 1.0, RESERVED, 5, Some(200));
    var t := Tables([r0, r1], [], [], []);
    TwoReleasesCreate(t, 0, 1);
    TwoReleasesCreate(t, 1, 0);
  }

  lemma TwoReleasesCreate(t: Tables, i: nat, j: nat)
    requires i < |t.reservations| && j < |t.reservations| && i != j && t.stock == []
    requires KeyOf(t.reservations[i]) == KeyOf(t.reservations[j])
    ensures var r, r' := t.reservations[i], t.reservations[j];
      Sweep(t, [i, j], NoFaults()).stock
      == [Stock(r.temple, r.product, r.quantity + r'.quantity, r.location, 2)]
  {
    hide Sweep;
    TwoReleases(t, i, j);
    var r := t.reservations[i];
    var m := Release(t, i, NoFault);
    assert m.stock == [Stock(r.temple, r.product, r.quantity, r.location, 1)];
    assert m.reservations[j] == t.reservations[j];
    assert FindStock(m.stock, KeyOf(r)) == 0;
  }

  lemma TwoReleases(t: Tables, i: nat, j: nat)
    requires i < |t.reservations| && j < |t.reservations|
    ensures Sweep(t, [i, j], NoFaults()) == Release(Release(t, i, NoFault), j, NoFault)
  {
    assert [i, j][..1] == [i] && [i][..0] == [];
    assert Releases(t, [], NoFaults()) == t;
    assert Releases(t, [i], NoFaults()) == Release(t, i, NoFault);
    assert |ReleasedIds(t, [i], NoFaults())| == 1;
  }

  // ----- composition -----

  /** The statuses a fault-free sweep leaves. */
  function ReleasedBy(rs: seq<Reservation>, now: int): (w: seq<Reservation>)
    ensures |w| == |rs|
  {
    seq(|rs|, i requires 0 <= i < |rs| => if Expired(rs[i], now) then rs[i].(status := RELEASED) else rs[i])
  }

  /** A fault-free sweep commits whatever it did, flips exactly the expired rows and leaves none expired. */
  lemma FaultFreeSweep(t: Tables, order: seq<nat>, now: int)
    requires IsExpiredList(t.reservations, now, order)
    ensures Sweep(t, order, NoFaults()) == Releases(t, order, NoFaults())
    ensures Sweep(t, order, NoFaults()).reservations == ReleasedBy(t.reservations, now)
    ensures forall r :: r in ReleasedBy(t.reservations, now) && r.status == RESERVED ==> r.expiresAt >= now
    ensures forall r :: r in t.reservations && r.expiresAt >= now ==> r in ReleasedBy(t.reservations, now)
  {
    forall r | r in t.reservations && r.expiresAt >= now ensures r in ReleasedBy(t.reservations, now) {
      var i :| 0 <= i < |t.reservations| && t.reservations[i] == r;
      assert ReleasedBy(t.reservations, now)[i] == r;
    }
    if order != [] {
      ReleasedIdsAre(t, order, NoFaults(), t.reservations[order[0]].id);
    }
    ReleasesRows(t, order, NoFaults());
  }

  lemma DueComposes(rs: seq<Reservation>, t1: int, t2: int, k: Key, s: Stage)
    requires t1 <= t2
    ensures Due(rs, t1, NoFaults(), k, s) + Due(ReleasedBy(rs, t1), t2, NoFaults(), k, s)
        == Due(rs, t2, NoFaults(), k, s)
    ensures DueCount(rs, t1, NoFaults(), k, s) + DueCount(ReleasedBy(rs, t1), t2, NoFaults(), k, s)
         == DueCount(rs, t2, NoFaults(), k, s)
    decreases |rs|
  {
    if rs != [] {
      var n := |rs| - 1;
      DueComposes(rs[..n], t1, t2, k, s);
      assert ReleasedBy(rs, t1)[..n] == ReleasedBy(rs[..n], t1);
    }
  }

  lemma ReleasedByComposes(rs: seq<Reservation>, t1: int, t2: int)
    requires t1 <= t2
    ensures ReleasedBy(ReleasedBy(rs, t1), t2) == ReleasedBy(rs, t2)
  {
  }

  /** Everything the tables hold per key, apart from the reservations. */
  datatype Balances = Balances(stock: real, version: int, rows: int, ledger: real)

  function BalancesOf(t: Tables, k: Key): Balances {
    Balances(StockTotal(t.stock, k), VersionTotal(t.stock, k), RowCount(t.stock, k), LedgerTotal(t.ledger, k))
  }

  function Moved(b: Balances, quantity: real, count: int): Balances {
    Balances(b.stock + quantity, b.version + count, if b.rows == 0 && count > 0 then 1 else b.rows, b.ledger + quantity)
  }

  function AllDue(rs: seq<Reservation>, now: int, k: Key): real { Due(rs, now, NoFaults(), k, StatusFlipped) }

  function AllDueCount(rs: seq<Reservation>, now: int, k: Key): int { DueCount(rs, now, NoFaults(), k, StatusFlipped) }

  lemma AllDueComposes(rs: seq<Reservation>, t1: int, t2: int, k: Key)
    requires t1 <= t2
    ensures AllDue(rs, t1, k) + AllDue(ReleasedBy(rs, t1), t2, k) == AllDue(rs, t2, k)
    ensures AllDueCount(rs, t1, k) + AllDueCount(ReleasedBy(rs, t1), t2, k) == AllDueCount(rs, t2, k)
  {
    DueComposes(rs, t1, t2, k, StatusFlipped);
  }

  lemma FaultFreeBalances(t: Tables, order: seq<nat>, now: int, k: Key)
    requires IsExpiredList(t.reservations, now, order)
    ensures BalancesOf(Sweep(t, order, NoFaults()), k)
         == Moved(BalancesOf(t, k), AllDue(t.reservations, now, k), AllDueCount(t.reservations, now, k))
    ensures AllDueCount(t.reservations, now, k) >= 0
  {
    hide StockTotal, VersionTotal, RowCount, LedgerTotal, ReservedTotal, Due, DueCount, IsExpiredList;
    FaultFreeSweep(t, order, now);
    LoopBalance(t, order, now, NoFaults(), k);
    StagesTie(t.reservations, now, k, StockRestored);
    StagesTie(t.reservations, now, k, LedgerWritten);
    DueCountNonNegative(t.reservations, now, NoFaults(), k, StatusFlipped);
  }

  lemma {:induction false} StagesTie(rs: seq<Reservation>, now: int, k: Key, s: Stage)
    ensures Due(rs, now, NoFaults(), k, s) == AllDue(rs, now, k)
    ensures DueCount(rs, now, NoFaults(), k, s) == AllDueCount(rs, now, k)
  {
    if rs != [] {
      StagesTie(rs[..|rs| - 1], now, k, s);
    }
  }

  /** Theorem: sweeping at t1 and again at t2 >= t1 leaves the statuses and per-key stock, versions, rows and replay
      of one sweep at t2. */
  lemma SweepsCompose(t: Tables, m: Tables, t1: int, t2: int, first: seq<nat>, second: seq<nat>, once: seq<nat>, k: Key)
    requires t1 <= t2
    requires IsExpiredList(t.reservations, t1, first) && IsExpiredList(t.reservations, t2, once)
    requires m == Sweep(t, first, NoFaults()) && IsExpiredList(m.reservations, t2, second)
    ensures Sweep(m, second, NoFaults()).reservations == Sweep(t, once, NoFaults()).reservations
    ensures BalancesOf(Sweep(m, second, NoFaults()), k) == BalancesOf(Sweep(t, once, NoFaults()), k)
  {
    hide BalancesOf, AllDue, AllDueCount, ReleasedBy, Releases, ReleasedIds;
    assert m.reservations == ReleasedBy(t.reservations, t1) by { FaultFreeSweep(t, first, t1); }
    assert Sweep(m, second, NoFaults()).reservations == ReleasedBy(m.reservations, t2) by {
      FaultFreeSweep(m, second, t2);
    }
    assert Sweep(t, once, NoFaults()).reservations == ReleasedBy(t.reservations, t2) by { FaultFreeSweep(t, once, t2); }
    ReleasedByComposes(t.reservations, t1, t2);
    FaultFreeBalances(t, first, t1, k);
    FaultFreeBalances(m, second, t2, k);
    FaultFreeBalances(t, once, t2, k);
    AllDueComposes(t.reservations, t1, t2, k);
  }

  lemma NoneExpired(rs: seq<Reservation>, now: int, order: seq<nat>)
    requires IsExpiredList(rs, now, order) && order != []
    ensures exists i :: 0 <= i < |rs| && Expired(rs[i], now)
  {
    assert order[0] in order;
  }

  /** Theorem: whatever faults struck the first sweep, a second one at the same time or an earlier one finds
      nothing, and changes nothing, exactly if the first committed or nothing was due at that time anyway. */
  lemma SecondSweepIsIdle(t: Tables, now: int, earlier: int, first: seq<nat>, second: seq<nat>, faults: Id -> Fault,
                          others: Id -> Fault)
    requires earlier <= now
    requires IsExpiredList(t.reservations, now, first)
    requires IsExpiredList(Sweep(t, first, faults).reservations, earlier, second)
    ensures second == []
       <==> || (exists r :: r in t.reservations && Expired(r, now) && faults(r.id) == NoFault)
            || (forall r :: r in t.reservations ==> !Expired(r, earlier))
    ensures second == [] ==> Sweep(Sweep(t, first, faults), second, others) == Sweep(t, first, faults)
  {
    CommitsIffSomeCompletes(t, first, now, faults);
    NothingDueAfter(t, first, now, faults);
    if second != [] {
      NoneExpired(Sweep(t, first, faults).reservations, earlier, second);
    } else if Sweep(t, first, faults) == t {
      forall r | r in t.reservations ensures !Expired(r, earlier) {
        var i :| 0 <= i < |t.reservations| && t.reservations[i] == r;
        assert i !in second;
      }
    }
  }

  // ----- the ledger chain -----

  /** The entries of a key, read in order, lead from one balance to another without a gap. */
  predicate Chained(entries: seq<Entry>, k: Key, from: real, to: real) {
    if entries == [] then from == to
    else
      var e := entries[|entries| - 1];
      var front := entries[..|entries| - 1];
      if Records(e, k)
      then e.before + e.change == e.after && e.after == to && Chained(front, k, from, e.before)
      else Chained(front, k, from, to)
  }

  lemma ChainedAppend(news: seq<Entry>, e: Entry, k: Key, from: real, mid: real)
    requires Chained(news, k, from, mid)
    requires Records(e, k) ==> e.before == mid && e.before + e.change == e.after
    ensures Chained(news + [e], k, from, if Records(e, k) then e.after else mid)
  {
    assert (news + [e])[..|news|] == news;
  }

  /** With at most one row, a release finds the key's balance in the row it looks at. */
  lemma EntryStartsAtBalance(stock: seq<Stock>, r: Reservation)
    requires RowCount(stock, KeyOf(r)) <= 1
    ensures ReleaseEntry(stock, r).before == StockTotal(stock, KeyOf(r))
  {
    AbsentMeansNoRows(stock, KeyOf(r));
    if RowCount(stock, KeyOf(r)) == 1 {
      OnlyRow(stock, KeyOf(r));
    }
  }

  /** One more release extends the chain. */
  lemma ReleaseChains(m: Tables, i: nat, fault: Fault, k: Key, news: seq<Entry>, from: real)
    requires i < |m.reservations| && RowCount(m.stock, k) <= 1
    requires KeyOf(m.reservations[i]) == k ==> fault != AtProductQuery
    requires Chained(news, k, from, StockTotal(m.stock, k))
    ensures var w := Release(m, i, fault);
      && RowCount(w.stock, k) <= 1
      && Chained(news + NewEntries(m.stock, m.reservations[i], fault), k, from, StockTotal(w.stock, k))
  {
    hide StockTotal, RowCount, Chained, FindStock, VersionTotal;
    var r := m.reservations[i];
    RestoreAccounts(m.stock, r, k);
    AbsentMeansNoRows(m.stock, k);
    if KeyOf(r) == k {
      EntryStartsAtBalance(m.stock, r);
    }
    if Reaches(fault, LedgerWritten) {
      ChainedAppend(news, ReleaseEntry(m.stock, r), k, from, StockTotal(m.stock, k));
    } else {
      assert news + [] == news;
    }
  }

  lemma LedgerChainsStep(t: Tables, m: Tables, i: nat, fault: Fault, k: Key)
    requires i < |m.reservations| && RowCount(m.stock, k) <= 1
    requires KeyOf(m.reservations[i]) == k ==> fault != AtProductQuery
    requires t.ledger <= m.ledger
    requires Chained(m.ledger[|t.ledger|..], k, StockTotal(t.stock, k), StockTotal(m.stock, k))
    ensures var w := Release(m, i, fault);
      && RowCount(w.stock, k) <= 1
      && t.ledger <= w.ledger
      && Chained(w.ledger[|t.ledger|..], k, StockTotal(t.stock, k), StockTotal(w.stock, k))
  {
    hide StockTotal, RowCount, Chained, ReleaseEntry, Restore;
    var news := m.ledger[|t.ledger|..];
    ReleaseChains(m, i, fault, k, news, StockTotal(t.stock, k));
    var added := NewEntries(m.stock, m.reservations[i], fault);
    assert (m.ledger + added)[|t.ledger|..] == news + added;
  }

  /** Theorem: for a key with at most one stock row and no fault between stock update and ledger entry, the new ledger
      entries chain from the starting balance to the final one. */
  lemma {:induction false} LedgerChains(t: Tables, order: seq<nat>, faults: Id -> Fault, k: Key)
    requires forall n :: 0 <= n < |order| ==> order[n] < |t.reservations|
    requires RowCount(t.stock, k) <= 1
    requires forall n :: 0 <= n < |order| && KeyOf(t.reservations[order[n]]) == k
                         ==> faults(t.reservations[order[n]].id) != AtProductQuery
    ensures var w := Releases(t, order, faults);
      && RowCount(w.stock, k) <= 1
      && t.ledger <= w.ledger
      && Chained(w.ledger[|t.ledger|..], k, StockTotal(t.stock, k), StockTotal(w.stock, k))
  {
    if order != [] {
      var n := |order| - 1;
      var front := order[..n];
      LedgerChains(t, front, faults, k);
      ReleasesStep(t, order, n, faults);
      ReleasesRows(t, front, faults);
      assert order[..n + 1] == order;
      LedgerChainsStep(t, Releases(t, front, faults), order[n], faults(t.reservations[order[n]].id), k);
    }
  }

  /** Whatever faults strike, no entry the sweep writes is reported by the ledger imbalance check. */
  lemma {:induction false} NewEntriesBalance(t: Tables, order: seq<nat>, faults: Id -> Fault)
    requires forall n :: 0 <= n < |order| ==> order[n] < |t.reservations|
    ensures var w := Releases(t, order, faults);
      && t.ledger <= w.ledger
      && forall n :: |t.ledger| <= n < |w.ledger| ==>
           w.ledger[n].before + w.ledger[n].change == w.ledger[n].after && !Imbalanced(w.ledger[n])
  {
    if order != [] {
      NewEntriesBalance(t, order[..|order| - 1], faults);
    }
  }

  // ----- what each entry documents -----

  /** The entry of a release: the reservation's product and quantity, at the reservation's location or, failing that, at
      the location of a stock row of the product. */
  predicate Documents(e: Entry, r: Reservation, stock: seq<Stock>) {
    && e.temple == r.temple && e.domain == STORE && e.storeProduct == Some(r.product) && e.kalavaraItem == None
    && e.change == r.quantity
    && if r.location.Some? then e.location == r.location
       else exists j :: 0 <= j < |stock| && Holds(stock[j], KeyOf(r)) && stock[j].location == e.location
  }

  /** Stock rows are never removed or moved; only their quantity and version change. */
  predicate RowsStay(before: seq<Stock>, after: seq<Stock>) {
    && |before| <= |after|
    && forall j :: 0 <= j < |before| ==>
         after[j] == before[j].(quantity := after[j].quantity, version := after[j].version)
  }

  lemma RestoreKeepsRows(stock: seq<Stock>, r: Reservation)
    ensures RowsStay(stock, Restore(stock, r))
    ensures Documents(ReleaseEntry(stock, r), r, Restore(stock, r))
  {
    var j := FindStock(stock, KeyOf(r));
    assert Holds(Restore(stock, r)[j], KeyOf(r));
  }

  lemma DocumentsStays(e: Entry, r: Reservation, before: seq<Stock>, after: seq<Stock>)
    requires RowsStay(before, after) && Documents(e, r, before)
    ensures Documents(e, r, after)
  {
    if r.location.None? {
      var j :| 0 <= j < |before| && Holds(before[j], KeyOf(r)) && before[j].location == e.location;
      assert Holds(after[j], KeyOf(r)) && after[j].location == e.location;
    }
  }

  /** The positions whose iteration got past the product query. */
  function Written(t: Tables, order: seq<nat>, faults: Id -> Fault): (written: seq<nat>)
    requires forall n :: 0 <= n < |order| ==> order[n] < |t.reservations|
    ensures forall n :: 0 <= n < |written| ==> written[n] < |t.reservations|
  {
    if order == [] then []
    else
      var i := order[|order| - 1];
      Written(t, order[..|order| - 1], faults)
      + if Reaches(faults(t.reservations[i].id), LedgerWritten) then [i] else []
  }

  /** Theorem: the new ledger entries document the releases that got past the product query, one each and in their
      order, and stock rows stay where they were. */
  lemma {:induction false} EntriesDocumentReleases(t: Tables, order: seq<nat>, faults: Id -> Fault)
    requires forall n :: 0 <= n < |order| ==> order[n] < |t.reservations|
    ensures var w := Releases(t, order, faults); var written := Written(t, order, faults);
      && RowsStay(t.stock, w.stock)
      && |w.ledger| == |t.ledger| + |written| && t.ledger <= w.ledger
      && forall n :: 0 <= n < |written| ==>
           Documents(w.ledger[|t.ledger| + n], t.reservations[written[n]], w.stock)
  {
    hide Documents, ReleaseEntry, Restore;
    if order != [] {
      var last := |order| - 1;
      var front := order[..last];
      var m, w := Releases(t, front, faults), Releases(t, order, faults);
      var written := Written(t, front, faults);
      EntriesDocumentReleases(t, front, faults);
      ReleasesRows(t, front, faults);
      var r := m.reservations[order[last]];
      ReleaseDocuments(m, order[last], faults(r.id), t.reservations[order[last]]);
      forall n | 0 <= n < |written| ensures Documents(w.ledger[|t.ledger| + n], t.reservations[written[n]], w.stock) {
        DocumentsStays(m.ledger[|t.ledger| + n], t.reservations[written[n]], m.stock, w.stock);
      }
    }
  }

  lemma ReleaseDocuments(m: Tables, i: nat, fault: Fault, original: Reservation)
    requires i < |m.reservations| && m.reservations[i].(status := original.status) == original
    ensures var w := Release(m, i, fault);
      && RowsStay(m.stock, w.stock)
      && (Reaches(fault, LedgerWritten) ==>
            w.ledger == m.ledger + [ReleaseEntry(m.stock, m.reservations[i])]
            && Documents(ReleaseEntry(m.stock, m.reservations[i]), original, w.stock))
      && (!Reaches(fault, LedgerWritten) ==> w.ledger == m.ledger)
  {
    hide ReleaseEntry, Restore;
    RestoreKeepsRows(m.stock, m.reservations[i]);
  }

  /** The n-th iteration is the first one that restores stock of the key. */
  ghost predicate FirstToRestore(t: Tables, order: seq<nat>, faults: Id -> Fault, k: Key, n: nat)
    requires forall x :: 0 <= x < |order| ==> order[x] < |t.reservations|
  {
    && n < |order| && KeyOf(t.reservations[order[n]]) == k && faults(t.reservations[order[n]].id) != AtStockQuery
    && forall x :: 0 <= x < n && KeyOf(t.reservations[order[x]]) == k
        ==> faults(t.reservations[order[x]].id) == AtStockQuery
  }

  /** All rows of the key are at the location, and there is one. */
  predicate OnlyAt(stock: seq<Stock>, k: Key, location: Option<Id>) {
    && (exists j :: 0 <= j < |stock| && Holds(stock[j], k))
    && forall s :: s in stock && Holds(s, k) ==> s.location == location
  }

  lemma RestoreCreates(stock: seq<Stock>, r: Reservation, k: Key)
    ensures (forall s :: s in stock ==> !Holds(s, k)) ==>
              if KeyOf(r) == k then OnlyAt(Restore(stock, r), k, r.location)
              else forall s :: s in Restore(stock, r) ==> !Holds(s, k)
    ensures forall location :: OnlyAt(stock, k, location) ==> OnlyAt(Restore(stock, r), k, location)
  {
    var j := FindStock(stock, KeyOf(r));
    var w := Restore(stock, r);
    RestoreKeepsRows(stock, r);
    assert forall s :: s in w ==> exists i :: 0 <= i < |w| && w[i] == s;
    if j < |stock| {
      assert stock[j] in stock;
    } else {
      assert w[|stock|] == Stock(r.temple, r.product, r.quantity, r.location, 1);
    }
    forall location | OnlyAt(stock, k, location) ensures OnlyAt(w, k, location) {
      var i :| 0 <= i < |stock| && Holds(stock[i], k);
      assert Holds(w[i], k);
      forall s | s in w && Holds(s, k) ensures s.location == location {
        var m :| 0 <= m < |w| && w[m] == s;
        if m < |stock| {
          assert stock[m] in stock;
        }
      }
    }
  }

  /** Theorem: the row the sweep creates for a key without one is at the location of the first reservation of that
      key that got past its stock query. */
  lemma {:induction false} CreatedLocation(t: Tables, order: seq<nat>, faults: Id -> Fault, k: Key, n: nat, m: nat)
    requires forall x :: 0 <= x < |order| ==> order[x] < |t.reservations|
    requires (forall s :: s in t.stock ==> !Holds(s, k)) && FirstToRestore(t, order, faults, k, n) && m <= |order|
    ensures var w := Releases(t, order[..m], faults);
      if m <= n then forall s :: s in w.stock ==> !Holds(s, k)
      else OnlyAt(w.stock, k, t.reservations[order[n]].location)
  {
    hide OnlyAt, Holds, Releases, Release;
    if m == 0 {
      ReleasesNone(t, faults);
      assert order[..0] == [];
    } else {
      CreatedLocation(t, order, faults, k, n, m - 1);
      ReleasesStep(t, order, m - 1, faults);
      ReleasesRows(t, order[..m - 1], faults);
      var before := Releases(t, order[..m - 1], faults);
      var r := before.reservations[order[m - 1]];
      ReleaseStock(before, order[m - 1], faults(r.id));
      RestoreCreates(before.stock, r, k);
    }
  }

  lemma ReleaseStock(t: Tables, i: nat, fault: Fault)
    requires i < |t.reservations|
    ensures Release(t, i, fault).stock == if fault == AtStockQuery then t.stock else Restore(t.stock, t.reservations[i])
  {
  }

  lemma {:induction false} AuditsFollow(t: Tables, order: seq<nat>, faults: Id -> Fault)
    requires forall n :: 0 <= n < |order| ==> order[n] < |t.reservations|
    ensures Releases(t, order, faults).audits == t.audits + ReleasedIds(t, order, faults)
  {
    if order != [] {
      var n := |order| - 1;
      AuditsFollow(t, order[..n], faults);
      ReleasesStep(t, order, n, faults);
      assert order[..n + 1] == order;
    }
  }

  /** Theorem: the audit trail names exactly the expired reservations that were released without a fault. */
  lemma AuditsAreTrue(t: Tables, order: seq<nat>, now: int, faults: Id -> Fault, id: Id)
    requires IsExpiredList(t.reservations, now, order)
    ensures var w := Releases(t, order, faults);
      && t.audits <= w.audits
      && (id in w.audits[|t.audits|..]
          <==> faults(id) == NoFault && exists r :: r in t.reservations && Expired(r, now) && r.id == id)
  {
    AuditsFollow(t, order, faults);
    ReleasedIdsExpired(t, order, now, faults, id);
  }

  // ----- the job -----

  class StockDatabase {
    var reservations: seq<Reservation>
    var stock: seq<Stock>
    var ledger: seq<Entry>
    var audits: seq<Id>

    function View(): Tables
      reads this
    {
      Tables(reservations, stock, ledger, audits)
    }

    constructor (t: Tables)
      ensures View() == t
    {
      reservations, stock, ledger, audits := t.reservations, t.stock, t.ledger, t.audits;
    }

    /** `expired` is the answer to the opening query; the session's rows are local until the commit. */
    method CleanupExpiredReservations(now: int, expired: seq<nat>, faults: Id -> Fault) returns (releasedCount: nat)
      requires IsExpiredList(reservations, now, expired)
      modifies this
      ensures View() == Sweep(old(View()), expired, faults)
      ensures releasedCount == |ReleasedIds(old(View()), expired, faults)|
    {
      hide FindStock, ReleasedIds, Releases;
      ghost var t := View();
      var rows, balances, entries, log := reservations, stock, ledger, audits;
      releasedCount := 0;
      ReleasesNone(t, faults);
      assert expired[..0] == [];
      for n := 0 to |expired|
        modifies {}
        invariant |rows| == |t.reservations|
        invariant Tables(rows, balances, entries, log) == Releases(t, expired[..n], faults)
        invariant releasedCount == |ReleasedIds(t, expired[..n], faults)|
      {
        ReleasesStep(t, expired, n, faults);
        ghost var start := Tables(rows, balances, entries, log);
        ghost var next := Release(start, expired[n], faults(rows[expired[n]].id));
        assert Releases(t, expired[..n + 1], faults) == next;
        var i := expired[n];
        var reservation := rows[i];
        rows := rows[i := reservation.(status := RELEASED)];

        if faults(reservation.id) == AtStockQuery {
          assert start.ledger + [] == start.ledger;
          assert Tables(rows, balances, entries, log) == next;
          continue;
        }
        var j := FindStock(balances, KeyOf(reservation));
        var before, after;
        if j < |balances| {
          before := balances[j].quantity;
          after := before + reservation.quantity;
          balances := balances[j := balances[j].(quantity := after)];
          balances := balances[j := balances[j].(version := balances[j].version + 1)];
        } else {
          balances := balances
            + [Stock(reservation.temple, reservation.product, reservation.quantity, reservation.location, 1)];
          before := 0.0;
          after := reservation.quantity;
        }
        assert balances == Restore(start.stock, reservation);

        if faults(reservation.id) == AtProductQuery {
          assert start.ledger + [] == start.ledger;
          assert Tables(rows, balances, entries, log) == next;
          continue;
        }
        var location := if reservation.location.Some? then reservation.location else balances[j].location;
        entries := entries + [Entry(reservation.temple, STORE, Some(reservation.product), None, location,
                                    reservation.quantity, before, after)];
        assert entries == next.ledger by {
          assert entries[|entries| - 1] == ReleaseEntry(start.stock, reservation);
        }

        if faults(reservation.id) == AtAuditLog {
          continue;
        }
        log := log + [reservation.id];
        releasedCount := releasedCount + 1;
      }
      assert expired[..|expired|] == expired;
      if releasedCount > 0 {
        reservations, stock, ledger, audits := rows, balances, entries, log;
      }
    }
  }
}
