/** The migration as it changes the invoice table: the loops over timeline blocks and invoices, and the single
    transaction. */
module LegacyTables {
  import opened Common
  import opened LegacyRemarks
  import opened LegacyBackfill

  datatype Row = Row(invoice: Invoice, columns: Option<Columns>, payments: seq<Payment>)

  function Migrated(row: Row, p: Parsers, isSqlite: bool): Row
    requires Readable(row.invoice, p)
  {
    row.(columns := Some(ColumnsOf(row.invoice, p, isSqlite)),
         payments := row.payments + Stored(Attempted(row.invoice, p), isSqlite))
  }

  predicate AnyAborts(rows: seq<Row>, p: Parsers, isSqlite: bool) {
    exists k :: 0 <= k < |rows| && Aborts(rows[k].invoice, p, isSqlite)
  }

  function AllMigrated(rows: seq<Row>, p: Parsers, isSqlite: bool): seq<Row>
    requires !AnyAborts(rows, p, isSqlite)
  {
    assert forall k :: 0 <= k < |rows| ==> !Aborts(rows[k].invoice, p, isSqlite);
    seq(|rows|, k requires 0 <= k < |rows| => Migrated(rows[k], p, isSqlite))
  }

  class ProcurementTables {
    var rows: seq<Row>

    constructor (rows: seq<Row>)
      ensures this.rows == rows
    {
      this.rows := rows;
    }

    /** The timeline loop of one invoice. */
    method BackfillTimeline(blocks: seq<string>, created: int, p: Parsers, isSqlite: bool)
      returns (payments: seq<Payment>, last: Option<int>, aborted: bool)
      ensures payments == Stored(Parsed(blocks, created, p), isSqlite)
      ensures last == LastDate(Parsed(blocks, created, p))
      ensures aborted <==> !isSqlite && exists x :: x in Parsed(blocks, created, p) && !IsStorable(x.amount, false)
    {
      hide Parsed, Stored, Split, AmountText, TimeText, MeansOf;
      payments, last, aborted := [], None, false;
      assert blocks[..0] == [];
      NothingParsed(created, p, isSqlite);
      for n := 0 to |blocks|
        invariant payments == Stored(Parsed(blocks[..n], created, p), isSqlite)
        invariant last == LastDate(Parsed(blocks[..n], created, p))
        invariant aborted <==>
          !isSqlite && exists x :: x in Parsed(blocks[..n], created, p) && !IsStorable(x.amount, false)
      {
        ParsedNext(blocks, n, created, p);
        ghost var before := Parsed(blocks[..n], created, p);
        var parts := Split(blocks[n], '|');
        if |parts| >= 4 {
          var amount := p.amount(AmountText(parts[1]));
          if amount.Some? {
            var means := MeansOf(parts[2]);
            var parsedTime := p.time(TimeText(parts[3]));
            var time := if parsedTime.Some? then parsedTime.value else created;
            var note := if |parts| > 4 then parts[4] else "Initial Payment";
            last := Some(time);
            var payment := Payment(amount.value, means, time, note);
            assert ParseBlock(blocks[n], created, p) == Some(payment);
            StoredAppend(before, payment, isSqlite);
            if IsStorable(payment.amount, isSqlite) {
              payments := payments + [AsStored(payment, isSqlite)];
            } else {
              aborted := aborted || !isSqlite;
              assert payment in before + [payment];
            }
          }
        }
      }
      assert blocks[..|blocks|] == blocks;
    }

    lemma StoredOne(x: Payment, isSqlite: bool)
      ensures Stored([x], isSqlite) == if IsStorable(x.amount, isSqlite) then [AsStored(x, isSqlite)] else []
    {
      assert [x][..0] == [];
    }

    lemma NothingParsed(created: int, p: Parsers, isSqlite: bool)
      ensures Parsed([], created, p) == [] && Stored([], isSqlite) == []
    {
    }

    lemma ParsedNext(blocks: seq<string>, n: nat, created: int, p: Parsers)
      requires n < |blocks|
      ensures ParseBlock(blocks[n], created, p).None?
              ==> Parsed(blocks[..n + 1], created, p) == Parsed(blocks[..n], created, p)
      ensures ParseBlock(blocks[n], created, p).Some?
              ==> Parsed(blocks[..n + 1], created, p)
                  == Parsed(blocks[..n], created, p) + [ParseBlock(blocks[n], created, p).value]
    {
      assert blocks[..n + 1][..n] == blocks[..n];
    }

    lemma StoredAppend(payments: seq<Payment>, x: Payment, isSqlite: bool)
      ensures Stored(payments + [x], isSqlite)
           == Stored(payments, isSqlite) + if IsStorable(x.amount, isSqlite) then [AsStored(x, isSqlite)] else []
    {
      assert (payments + [x])[..|payments|] == payments;
    }

    /** An insert outside the timeline: a rejected one aborts. */
    method InsertPayment(x: Payment, isSqlite: bool) returns (payments: seq<Payment>, aborted: bool)
      requires x.amount > 0.0
      ensures payments == Stored([x], isSqlite)
      ensures aborted <==> !isSqlite && !IsStorable(x.amount, false)
    {
      StoredOne(x, isSqlite);
      if IsStorable(x.amount, isSqlite) {
        return [AsStored(x, isSqlite)], false;
      }
      return [], !isSqlite;
    }

    /** The body of the invoice loop. */
    method BackfillInvoice(i: Invoice, p: Parsers, isSqlite: bool)
      returns (columns: Columns, payments: seq<Payment>, aborted: bool)
      ensures aborted <==> Aborts(i, p, isSqlite)
      ensures Readable(i, p) ==> columns == ColumnsOf(i, p, isSqlite) && payments == Stored(Attempted(i, p), isSqlite)
    {
      hide FindAll, Parsed, Stored, Normalised, IsStorable, FitsColumn, Column;
      NothingParsed(i.created, p, isSqlite);
      var status, totalPaid, balanceDue := PAY_LATER, 0.0, i.amount;
      var last: Option<int>, completed: Option<int> := None, None;
      payments, aborted := [], false;
      if i.header.Some? {
        var paid, due := p.amount(AmountText(i.header.value.paid)), p.amount(AmountText(i.header.value.due));
        if paid.None? || due.None? {
          return Columns(status, totalPaid, balanceDue, last, completed), [], true;
        }
        totalPaid, balanceDue := paid.value, due.value;
        if i.header.value.status == "Fully paid" || i.header.value.status == "Fully Paid" {
          status := FULL_PAYMENT;
          completed := Some(i.created);
        } else if i.header.value.status == "Partially paid" || i.header.value.status == "Partially Paid" {
          status := PARTIAL_PAYMENT;
        } else {
          status := PAY_LATER;
        }
        var blocks := FindAll(i.remarks);
        if blocks != [] {
          payments, last, aborted := BackfillTimeline(blocks, i.created, p, isSqlite);
        } else if totalPaid > 0.0 {
          last := Some(i.created);
          payments, aborted :=
            InsertPayment(Payment(totalPaid, CASH, i.created, "Initial Legacy Migrated Payment"), isSqlite);
        }
      } else if IsCompleted(i) {
        status := FULL_PAYMENT;
        totalPaid := i.amount;
        balanceDue := 0.0;
        completed := Some(i.created);
        if totalPaid > 0.0 {
          last := Some(i.created);
          payments, aborted := InsertPayment(Payment(totalPaid, CASH, i.created, "Legacy Default Payment"), isSqlite);
        }
      } else {
        status, totalPaid, balanceDue := PAY_LATER, 0.0, i.amount;
      }
      columns := Columns(status, Column(totalPaid, isSqlite), Column(balanceDue, isSqlite), last, completed);
      if !isSqlite && (columns.balanceDue < 0.0 || !FitsColumn(totalPaid, false) || !FitsColumn(balanceDue, false)) {
        aborted := true;
      }
    }

    /** The migration: all invoices, or none. */
    method Upgrade(p: Parsers, isSqlite: bool) returns (committed: bool)
      modifies this
      ensures committed <==> !AnyAborts(old(rows), p, isSqlite)
      ensures committed ==> rows == AllMigrated(old(rows), p, isSqlite)
      ensures !committed ==> rows == old(rows)
      ensures committed ==> |rows| == |old(rows)| && forall k :: 0 <= k < |rows| ==>
                var before, after := old(rows[k]), rows[k];
                && after.invoice == before.invoice && Readable(before.invoice, p)
                && after.columns == Some(ColumnsOf(before.invoice, p, isSqlite))
                && after.payments == before.payments + Stored(Attempted(before.invoice, p), isSqlite)
    {
      hide ColumnsOf, Attempted, Stored, Sent, Readable;
      var updated := rows;
      for k := 0 to |rows|
        invariant rows == old(rows) && |updated| == |rows|
        invariant forall m :: 0 <= m < k ==>
          !Aborts(rows[m].invoice, p, isSqlite) && Readable(rows[m].invoice, p)
          && updated[m] == Migrated(rows[m], p, isSqlite)
        invariant forall m :: k <= m < |rows| ==> updated[m] == rows[m]
      {
        var columns, payments, aborted := BackfillInvoice(rows[k].invoice, p, isSqlite);
        if aborted {
          assert Aborts(rows[k].invoice, p, isSqlite);
          return false;
        }
        updated := updated[k := updated[k].(columns := Some(columns), payments := updated[k].payments + payments)];
      }
      rows := updated;
      return true;
    }
  }
}
