/** The money backfill of the procurement ledger migration: every invoice gets its payment columns, and legacy remarks
    become payment transactions.

    Number and timestamp parsing are parameters; the answer of the payment-header search is part of the invoice. Money
    columns are Numeric(18, 2): PostgreSQL rounds to them and rejects what does not fit, SQLite stores the number as it
    is. */
module LegacyBackfill {
  import opened Common
  import opened LegacyRemarks
  import Slugs
  import PlatformFee

  datatype PaymentStatus = FULL_PAYMENT | PARTIAL_PAYMENT | PAY_LATER

  datatype Means = CASH | UPI | CARD | BANK_TRANSFER | CHEQUE

  /** The three groups of the header search, as text. */
  datatype Header = Header(status: string, paid: string, due: string)

  /** `created` is the creation time, or the clock where the row has none. */
  datatype Invoice = Invoice(
    amount: real, status: Option<string>, created: int, remarks: string, header: Option<Header>)

  datatype Payment = Payment(amount: real, means: Means, date: int, note: string)

  datatype Columns = Columns(
    status: PaymentStatus, totalPaid: real, balanceDue: real, lastPayment: Option<int>, completed: Option<int>)

  datatype Parsers = Parsers(amount: string -> Option<real>, time: string -> Option<int>)

  // ----- one timeline block -----

  function Upper(c: char): char { if Slugs.IsLower(c) then (c as int - 32) as char else c }

  /** `upper()` and the two replacements, on ASCII text. */
  function Normalised(s: string): string {
    seq(|s|, i requires 0 <= i < |s| => if s[i] == ' ' || s[i] == '-' then '_' else Upper(s[i]))
  }

  function MeansOf(s: string): Means {
    var n := Normalised(s);
    if n == "UPI" then UPI
    else if n == "CARD" then CARD
    else if n == "BANK_TRANSFER" then BANK_TRANSFER
    else if n == "CHEQUE" then CHEQUE
    else CASH
  }

  /** What the two number parsers are given. */
  function AmountText(s: string): string { Replace(s, ',', "") }

  function TimeText(s: string): string { Replace(s, 'Z', "+00:00") }

  /** The payment a block describes, if it has four fields and a readable amount. */
  function ParseBlock(block: string, created: int, p: Parsers): Option<Payment> {
    var parts := Split(block, '|');
    if |parts| < 4 then None
    else
      match p.amount(AmountText(parts[1]))
      case None => None
      case Some(amount) =>
        var date := match p.time(TimeText(parts[3])) case Some(t) => t case None => created;
        Some(Payment(amount, MeansOf(parts[2]), date, if |parts| > 4 then parts[4] else "Initial Payment"))
  }

  /** The payments the blocks describe, in order. */
  function Parsed(blocks: seq<string>, created: int, p: Parsers): seq<Payment> {
    if blocks == [] then []
    else
      var n := |blocks| - 1;
      Parsed(blocks[..n], created, p) +
      match ParseBlock(blocks[n], created, p) case None => [] case Some(payment) => [payment]
  }

  // ----- money columns -----

  const CENTS_LIMIT: int := 1_000_000_000_000_000_000

  function Cents(x: real): int { PlatformFee.RoundHalfUp(x * 100.0) }

  /** The number a money column holds after storing x. */
  function Column(x: real, isSqlite: bool): real {
    if isSqlite then x else Cents(x) as real / 100.0
  }

  predicate FitsColumn(x: real, isSqlite: bool) {
    isSqlite || -CENTS_LIMIT < Cents(x) < CENTS_LIMIT
  }

  /** The payment table's CHECK constraint and column type. */
  predicate IsStorable(amount: real, isSqlite: bool) {
    Column(amount, isSqlite) > 0.0 && FitsColumn(amount, isSqlite)
  }

  /** The rows the inserts leave. */
  function Stored(payments: seq<Payment>, isSqlite: bool): seq<Payment> {
    if payments == [] then []
    else
      var n := |payments| - 1;
      Stored(payments[..n], isSqlite)
      + if IsStorable(payments[n].amount, isSqlite) then [AsStored(payments[n], isSqlite)] else []
  }

  function AsStored(x: Payment, isSqlite: bool): Payment { x.(amount := Column(x.amount, isSqlite)) }

  function LastDate(payments: seq<Payment>): Option<int> {
    if payments == [] then None else Some(payments[|payments| - 1].date)
  }

  // ----- one invoice -----

  function StatusOf(legacy: string): PaymentStatus {
    if legacy == "Fully paid" || legacy == "Fully Paid" then FULL_PAYMENT
    else if legacy == "Partially paid" || legacy == "Partially Paid" then PARTIAL_PAYMENT
    else PAY_LATER
  }

  /** The status is COMPLETED in any case; the two replacements cannot produce that word. */
  predicate IsCompleted(i: Invoice) {
    i.status.Some? && Normalised(i.status.value) == "COMPLETED"
  }

  function One(amount: real, date: int, note: string): seq<Payment> {
    if amount > 0.0 then [Payment(amount, CASH, date, note)] else []
  }

  /** The header's numbers are parsed outside any error handling. */
  predicate Readable(i: Invoice, p: Parsers) {
    i.header.Some? ==>
      p.amount(AmountText(i.header.value.paid)).Some? && p.amount(AmountText(i.header.value.due)).Some?
  }

  function PaidOf(i: Invoice, p: Parsers): real
    requires i.header.Some? && Readable(i, p)
  {
    p.amount(AmountText(i.header.value.paid)).value
  }

  function DueOf(i: Invoice, p: Parsers): real
    requires i.header.Some? && Readable(i, p)
  {
    p.amount(AmountText(i.header.value.due)).value
  }

  /** The inserts the invoice attempts, in order. */
  function Attempted(i: Invoice, p: Parsers): seq<Payment>
    requires Readable(i, p)
  {
    match i.header
    case Some(h) =>
      if FindAll(i.remarks) != [] then Parsed(FindAll(i.remarks), i.created, p)
      else One(PaidOf(i, p), i.created, "Initial Legacy Migrated Payment")
    case None =>
      if IsCompleted(i) then One(i.amount, i.created, "Legacy Default Payment") else []
  }

  function ColumnsOf(i: Invoice, p: Parsers, isSqlite: bool): Columns
    requires Readable(i, p)
  {
    var last := LastDate(Attempted(i, p));
    var paid, due := Column(Sent(i, p).0, isSqlite), Column(Sent(i, p).1, isSqlite);
    match i.header
    case Some(h) =>
      Columns(StatusOf(h.status), paid, due, last, if StatusOf(h.status) == FULL_PAYMENT then Some(i.created) else None)
    case None =>
      if IsCompleted(i) then Columns(FULL_PAYMENT, paid, due, last, Some(i.created))
      else Columns(PAY_LATER, paid, due, None, None)
  }

  /** The two numbers the invoice update sends. */
  function Sent(i: Invoice, p: Parsers): (real, real)
    requires Readable(i, p)
  {
    match i.header
    case Some(h) => (PaidOf(i, p), DueOf(i, p))
    case None => if IsCompleted(i) then (i.amount, 0.0) else (0.0, i.amount)
  }

  /** An unreadable header number stops the migration on either database. PostgreSQL also aborts it at a rejected
      insert or update; SQLite, which has no invoice constraints here, skips the insert and goes on. */
  predicate Aborts(i: Invoice, p: Parsers, isSqlite: bool) {
    || !Readable(i, p)
    || (&& !isSqlite
        && (|| ColumnsOf(i, p, false).balanceDue < 0.0
            || !FitsColumn(Sent(i, p).0, false) || !FitsColumn(Sent(i, p).1, false)
            || exists payment :: payment in Attempted(i, p) && !IsStorable(payment.amount, false)))
  }

  // ----- theorems -----

  function Sum(payments: seq<Payment>): real { Total(payments, (p: Payment) => p.amount) }

  /** What PostgreSQL makes of a number: below half a cent it is not positive, at minus half a cent it becomes
      negative, and half a cent below ten to the sixteenth it stops fitting. */
  lemma ColumnMeans(x: real)
    ensures Column(x, false) <= 0.0 <==> x < 0.005
    ensures Column(x, false) < 0.0 <==> x <= -0.005
    ensures FitsColumn(x, false) <==> -9_999_999_999_999_999.995 < x < 9_999_999_999_999_999.995
    ensures Column(x, true) == x && FitsColumn(x, true)
    ensures -0.005 <= Column(x, false) - x <= 0.005
  {
  }

  const LARGEST: real := 9_999_999_999_999_999.995

  /** A payment is stored unless it is not storable, and then as it is up to the column's rounding. */
  lemma {:induction false} StoredContents(payments: seq<Payment>, isSqlite: bool)
    ensures forall y :: y in Stored(payments, isSqlite) <==>
                        exists x :: x in payments && IsStorable(x.amount, isSqlite) && y == AsStored(x, isSqlite)
  {
    hide IsStorable, AsStored;
    if payments != [] {
      var n := |payments| - 1;
      StoredContents(payments[..n], isSqlite);
      assert payments == payments[..n] + [payments[n]];
    }
  }

  /** If all are storable, all are stored, in order. */
  lemma {:induction false} StoredAll(payments: seq<Payment>, isSqlite: bool)
    requires forall x :: x in payments ==> IsStorable(x.amount, isSqlite)
    ensures |Stored(payments, isSqlite)| == |payments|
    ensures forall n :: 0 <= n < |payments| ==> Stored(payments, isSqlite)[n] == AsStored(payments[n], isSqlite)
  {
    hide IsStorable, AsStored;
    if payments != [] {
      StoredAll(payments[..|payments| - 1], isSqlite);
    }
  }

  // ----- payment means -----

  function NameOf(m: Means): string {
    match m
    case CASH => "CASH"
    case UPI => "UPI"
    case CARD => "CARD"
    case BANK_TRANSFER => "BANK_TRANSFER"
    case CHEQUE => "CHEQUE"
  }

  /** Any mixture of cases, with spaces or dashes for underscores. */
  predicate Spells(s: string, name: string) {
    && |s| == |name|
    && forall k :: 0 <= k < |s| ==>
         || s[k] == name[k] || (name[k] == '_' && (s[k] == ' ' || s[k] == '-'))
         || ('A' <= name[k] <= 'Z' && s[k] as int == name[k] as int + 32)
  }

  lemma NormalisedSpells(s: string, m: Means)
    ensures Normalised(s) == NameOf(m) <==> Spells(s, NameOf(m))
  {
    var name := NameOf(m);
    assert forall k :: 0 <= k < |name| ==> name[k] == '_' || 'A' <= name[k] <= 'Z';
    if |s| == |name| {
      assert forall k :: 0 <= k < |s| ==>
        (Normalised(s)[k] == name[k] <==>
           || s[k] == name[k] || (name[k] == '_' && (s[k] == ' ' || s[k] == '-'))
           || ('A' <= name[k] <= 'Z' && s[k] as int == name[k] as int + 32));
      if Spells(s, name) {
        assert Normalised(s) == name;
      }
    }
  }

  /** Theorem: every spelling of an enum name means that name, and everything else means cash. */
  lemma MeansOfSpelling(s: string, m: Means)
    ensures Spells(s, NameOf(m)) ==> MeansOf(s) == m
    ensures MeansOf(s) == m && m != CASH ==> Spells(s, NameOf(m))
    ensures (forall other :: other != CASH ==> !Spells(s, NameOf(other))) ==> MeansOf(s) == CASH
  {
    hide Normalised, Spells;
    NormalisedSpells(s, UPI);
    NormalisedSpells(s, CARD);
    NormalisedSpells(s, BANK_TRANSFER);
    NormalisedSpells(s, CHEQUE);
    NormalisedSpells(s, m);
    assert "CASH"[3] == 'H' && "CARD"[3] == 'D';
  }
}
