/** What the backfill promises: which payments documented remarks become, when they match the header, and what stops the
    migration. */
module LegacyPayments {
  import opened Common
  import opened LegacyRemarks
  import opened LegacyBackfill

  // ----- documented remarks -----

  /** Documented remarks: a readable header, and clean records with readable amounts, embedded in text without opening
      braces. */
  ghost predicate Documented(i: Invoice, texts: seq<string>, rs: seq<Record>, p: Parsers) {
    && i.header.Some? && Readable(i, p) && rs != [] && |texts| == |rs| + 1
    && i.remarks == Embed(texts, BlocksOf(rs))
    && (forall k :: 0 <= k < |texts| ==> '{' !in texts[k])
    && forall k :: 0 <= k < |rs| ==> CleanRecord(rs[k]) && p.amount(AmountText(rs[k].amount)).Some?
  }

  /** The amount and date of a record. */
  function AmountOf(r: Record, p: Parsers): real
    requires p.amount(AmountText(r.amount)).Some?
  {
    p.amount(AmountText(r.amount)).value
  }

  function DateOf(r: Record, created: int, p: Parsers): int {
    match p.time(TimeText(r.timestamp)) case Some(t) => t case None => created
  }

  function PaymentOf(r: Record, created: int, p: Parsers): Payment
    requires p.amount(AmountText(r.amount)).Some?
  {
    Payment(AmountOf(r, p), MeansOf(r.means), DateOf(r, created, p), r.note)
  }

  lemma {:induction false} ParsedRecords(blocks: seq<string>, rs: seq<Record>, created: int, p: Parsers)
    requires |blocks| == |rs|
    requires forall k :: 0 <= k < |rs| ==>
               Split(blocks[k], '|') == FieldsOf(rs[k]) && p.amount(AmountText(rs[k].amount)).Some?
    ensures |Parsed(blocks, created, p)| == |rs|
    ensures forall k :: 0 <= k < |rs| ==> Parsed(blocks, created, p)[k] == PaymentOf(rs[k], created, p)
  {
    if blocks != [] {
      var n := |blocks| - 1;
      ParsedRecords(blocks[..n], rs[..n], created, p);
      assert ParseBlock(blocks[n], created, p) == Some(PaymentOf(rs[n], created, p));
    }
  }

  /** Theorem: from documented remarks the backfill attempts exactly one payment per record, in order, with the record's
      amount, means, date and note, and dates the invoice by the last record. */
  lemma DocumentedRemarks(i: Invoice, texts: seq<string>, rs: seq<Record>, p: Parsers)
    requires Documented(i, texts, rs, p)
    ensures |Attempted(i, p)| == |rs|
    ensures forall k :: 0 <= k < |rs| ==> Attempted(i, p)[k] == PaymentOf(rs[k], i.created, p)
    ensures forall isSqlite :: ColumnsOf(i, p, isSqlite).lastPayment == Some(DateOf(rs[|rs| - 1], i.created, p))
  {
    hide FindAll, Embed, Parsed, BlocksOf;
    ParsingInvertsFormat(texts, rs);
    ParsedRecords(FindAll(i.remarks), rs, i.created, p);
  }

  /** What the stored payments of some records add up to: the records that are storable, as the column rounds them. */
  function RecordTotal(rs: seq<Record>, p: Parsers, isSqlite: bool): real
    requires forall r :: r in rs ==> p.amount(AmountText(r.amount)).Some?
  {
    if rs == [] then 0.0
    else
      var r := rs[|rs| - 1];
      RecordTotal(rs[..|rs| - 1], p, isSqlite)
      + if IsStorable(AmountOf(r, p), isSqlite) then Column(AmountOf(r, p), isSqlite) else 0.0
  }

  lemma {:induction false} SumOfRecords(payments: seq<Payment>, rs: seq<Record>, p: Parsers, isSqlite: bool)
    requires |payments| == |rs| && forall r :: r in rs ==> p.amount(AmountText(r.amount)).Some?
    requires forall k :: 0 <= k < |rs| ==> payments[k].amount == AmountOf(rs[k], p)
    ensures Sum(Stored(payments, isSqlite)) == RecordTotal(rs, p, isSqlite)
  {
    if rs != [] {
      var n := |rs| - 1;
      SumOfRecords(payments[..n], rs[..n], p, isSqlite);
      var front, last := Stored(payments[..n], isSqlite), AsStored(payments[n], isSqlite);
      assert payments[n].amount == AmountOf(rs[n], p);
      if IsStorable(payments[n].amount, isSqlite) {
        assert Stored(payments, isSqlite) == front + [last];
        TotalAppend(front, last, (p: Payment) => p.amount);
        assert last.amount == Column(AmountOf(rs[n], p), isSqlite);
      } else {
        assert Stored(payments, isSqlite) == front;
      }
    }
  }

  /** Theorem: from documented remarks the stored payments add up to the storable record amounts, each rounded on
      its own; so they add up to the paid total of the invoice exactly if the header states that sum. */
  lemma TimelineMatchesTotalIff(i: Invoice, texts: seq<string>, rs: seq<Record>, p: Parsers, isSqlite: bool)
    requires Documented(i, texts, rs, p)
    ensures Sum(Stored(Attempted(i, p), isSqlite)) == RecordTotal(rs, p, isSqlite)
    ensures Sum(Stored(Attempted(i, p), isSqlite)) == ColumnsOf(i, p, isSqlite).totalPaid
       <==> Column(PaidOf(i, p), isSqlite) == RecordTotal(rs, p, isSqlite)
  {
    hide FindAll, Embed, BlocksOf, Attempted, Stored;
    DocumentedRemarks(i, texts, rs, p);
    SumOfRecords(Attempted(i, p), rs, p, isSqlite);
  }

  /** Theorem: on SQLite a documented invoice is dated by a payment that was stored exactly if some record with a
      positive amount has the last record's date; the last record itself is stored exactly if its amount is
      positive. */
  lemma DatedByStoredPaymentIff(i: Invoice, texts: seq<string>, rs: seq<Record>, p: Parsers)
    requires Documented(i, texts, rs, p)
    ensures var last := rs[|rs| - 1]; var stored := Stored(Attempted(i, p), true);
      && (PaymentOf(last, i.created, p) in stored <==> AmountOf(last, p) > 0.0)
      && ((exists x :: x in stored && ColumnsOf(i, p, true).lastPayment == Some(x.date))
          <==> exists k :: 0 <= k < |rs| && AmountOf(rs[k], p) > 0.0
                           && DateOf(rs[k], i.created, p) == DateOf(last, i.created, p))
  {
    hide FindAll, Embed, BlocksOf, Attempted, Stored;
    DocumentedRemarks(i, texts, rs, p);
    var payments := Attempted(i, p);
    StoredContents(payments, true);
    assert forall x: Payment :: AsStored(x, true) == x;
    forall k | 0 <= k < |rs| && AmountOf(rs[k], p) > 0.0 ensures payments[k] in Stored(payments, true) {
      assert payments[k] in payments && IsStorable(payments[k].amount, true);
    }
    assert payments[|rs| - 1] == PaymentOf(rs[|rs| - 1], i.created, p);
  }

  // ----- columns and single payments -----

  /** The word in any mixture of cases. */
  predicate SpellsCompleted(s: string) {
    |s| == 9 && forall k :: 0 <= k < 9 ==>
      s[k] == "COMPLETED"[k] || s[k] as int == "COMPLETED"[k] as int + 32
  }

  lemma CompletedMeans(i: Invoice)
    ensures IsCompleted(i) <==> i.status.Some? && SpellsCompleted(i.status.value)
  {
    if i.status.Some? {
      var s, word := i.status.value, "COMPLETED";
      assert forall k :: 0 <= k < 9 ==> 'A' <= word[k] <= 'Z';
      if |s| == 9 {
        assert forall k :: 0 <= k < 9 ==>
          (Normalised(s)[k] == word[k] <==> s[k] == word[k] || s[k] as int == word[k] as int + 32);
      }
      if SpellsCompleted(s) {
        assert Normalised(s) == word;
      }
    }
  }

  /** Theorem: what the columns of an invoice say. With a header: its status by the literal texts, and its two
      numbers. Without one: fully paid if the row is completed, in any spelling, and not paid at all otherwise. The
      completion time is there exactly for full payment. */
  lemma ColumnsMean(i: Invoice, p: Parsers, isSqlite: bool)
    requires Readable(i, p)
    ensures var c := ColumnsOf(i, p, isSqlite);
      && (i.header.Some? ==>
            var h := i.header.value;
            && (c.status == FULL_PAYMENT <==> h.status == "Fully paid" || h.status == "Fully Paid")
            && (c.status == PARTIAL_PAYMENT <==> h.status == "Partially paid" || h.status == "Partially Paid")
            && p.amount(AmountText(h.paid)) == Some(PaidOf(i, p)) && c.totalPaid == Column(PaidOf(i, p), isSqlite)
            && p.amount(AmountText(h.due)) == Some(DueOf(i, p)) && c.balanceDue == Column(DueOf(i, p), isSqlite))
      && (i.header.None? ==>
            && (c.status == FULL_PAYMENT <==> i.status.Some? && SpellsCompleted(i.status.value))
            && (c.status != FULL_PAYMENT ==> c.status == PAY_LATER)
            && (if c.status == FULL_PAYMENT then c.totalPaid == Column(i.amount, isSqlite) && c.balanceDue == 0.0
                else c.totalPaid == 0.0 && c.balanceDue == Column(i.amount, isSqlite)))
      && c.completed == if c.status == FULL_PAYMENT then Some(i.created) else None
  {
    hide Normalised, FindAll, Parsed, SpellsCompleted, AmountText, IsCompleted;
    CompletedMeans(i);
    ColumnMeans(0.0);
  }

  /** Theorem: without a timeline a positive paid total becomes one cash payment at the creation time, and nothing
      else does. */
  lemma PlainPayments(i: Invoice, p: Parsers)
    requires Readable(i, p) && (i.header.Some? ==> FindAll(i.remarks) == [])
    ensures i.header.Some? ==>
              Attempted(i, p) == if PaidOf(i, p) > 0.0
                                 then [Payment(PaidOf(i, p), CASH, i.created, "Initial Legacy Migrated Payment")]
                                     else []
    ensures i.header.None? && i.status.Some? && SpellsCompleted(i.status.value) && i.amount > 0.0 ==>
              Attempted(i, p) == [Payment(i.amount, CASH, i.created, "Legacy Default Payment")]
    ensures i.header.None? && !(i.status.Some? && SpellsCompleted(i.status.value) && i.amount > 0.0) ==>
              Attempted(i, p) == []
    ensures forall isSqlite :: ColumnsOf(i, p, isSqlite).lastPayment == if Attempted(i, p)
        == [] then None else Some(i.created)
  {
    hide Normalised, FindAll, Parsed, SpellsCompleted, IsCompleted;
    CompletedMeans(i);
  }

  /** Theorem: a block of fewer than four fields, or with an unreadable amount, is no payment; a readable one takes
      amount, means and time from its second, third and fourth field, the creation time in place of an unreadable
      time, and its note from the fifth field, if it has one. */
  lemma BlockMeans(fields: seq<string>, created: int, p: Parsers)
    requires fields != [] && forall k :: 0 <= k < |fields| ==> '|' !in fields[k]
    ensures var payment := ParseBlock(Join(fields, "|"), created, p);
      && (payment.None? <==> |fields| < 4 || p.amount(AmountText(fields[1])) == None)
      && (payment.Some? ==>
            && Some(payment.value.amount) == p.amount(AmountText(fields[1]))
            && payment.value.means == MeansOf(fields[2])
            && (match p.time(TimeText(fields[3]))
                case Some(t) => payment.value.date == t
                case None => payment.value.date == created)
            && payment.value.note == if |fields| > 4 then fields[4] else "Initial Payment")
  {
    hide Split, Join, AmountText, TimeText, MeansOf;
    JoinSplit(fields, '|');
  }

  /** Theorem: amounts are read without their commas. */
  lemma AmountTextMeans(front: string, rest: string)
    requires ',' !in front
    ensures AmountText(front) == front
    ensures AmountText(front + "," + rest) == front + AmountText(rest)
  {
    NothingToReplace(front, ',', "");
    assert front + "," + rest == front + ([','] + rest);
    ReplaceConcat(front, ',', [','] + rest, "");
    ReplaceFirst(',', rest, "");
  }

  /** Theorem: a time in Zulu notation is read with the offset +00:00, any other as it is. */
  lemma TimeTextMeans(time: string)
    requires 'Z' !in time
    ensures TimeText(time) == time && TimeText(time + "Z") == time + "+00:00"
  {
    NothingToReplace(time, 'Z', "+00:00");
    ReplaceConcat(time, 'Z', "Z", "+00:00");
    assert ['Z'] + "" == "Z";
    ReplaceFirst('Z', "", "+00:00");
  }

  // ----- what stops the migration -----

  /** What makes PostgreSQL reject an amount of a payment, or a number of an invoice. */
  predicate BadAmount(x: real) { x < 0.005 || x >= LARGEST }

  predicate TooLarge(x: real) { x <= -LARGEST || x >= LARGEST }

  lemma {:induction false} ParsedContents(blocks: seq<string>, created: int, p: Parsers, x: Payment)
    ensures x in Parsed(blocks, created, p) <==> exists b :: b in blocks && ParseBlock(b, created, p) == Some(x)
  {
    hide ParseBlock;
    if blocks != [] {
      var n := |blocks| - 1;
      ParsedContents(blocks[..n], created, p, x);
      assert blocks == blocks[..n] + [blocks[n]];
    }
  }

  /** Theorem: exactly when an invoice stops the migration. On both databases: a header number that cannot be read. On
      PostgreSQL also: a balance of minus half a cent or less; a number that does not fit its column; a readable
      timeline block with an amount below half a cent or too large; or, without a timeline, a paid total that is
      positive but below half a cent. */
  lemma AbortsIff(i: Invoice, p: Parsers)
    ensures Aborts(i, p, true) <==> !Readable(i, p)
    ensures !Readable(i, p) ==> Aborts(i, p, false)
    ensures i.header.Some? && Readable(i, p) ==>
      (Aborts(i, p, false) <==>
       || DueOf(i, p) <= -0.005 || TooLarge(DueOf(i, p)) || TooLarge(PaidOf(i, p))
       || (FindAll(i.remarks) == [] && 0.0 < PaidOf(i, p) < 0.005)
       || exists b :: b in FindAll(i.remarks) && ParseBlock(b, i.created, p).Some?
                      && BadAmount(ParseBlock(b, i.created, p).value.amount))
    ensures i.header.None? ==>
      (Aborts(i, p, false) <==>
       TooLarge(i.amount) || if IsCompleted(i) then 0.0 < i.amount < 0.005 else i.amount <= -0.005)
  {
    hide FindAll, ParseBlock, IsStorable, Column, FitsColumn, Parsed, Normalised;
    StorableMeans();
    forall x: Payment ensures x in Parsed(FindAll(i.remarks), i.created, p) <==>
        exists b :: b in FindAll(i.remarks) && ParseBlock(b, i.created, p) == Some(x)
    {
      ParsedContents(FindAll(i.remarks), i.created, p, x);
    }
  }

  /** The header search accepts digits, dots and commas in any order, so it finds the balance `0.00.`, which is no
      number. */
  lemma UnreadableHeaderStops(i: Invoice, p: Parsers)
    requires i.header == Some(Header("Fully paid", "500.00", "0.00.")) && p.amount("0.00.") == None
    ensures Aborts(i, p, true) && Aborts(i, p, false)
  {
    NothingToReplace("0.00.", ',', "");
  }

  lemma StorableMeans()
    ensures forall x: real :: IsStorable(x, false) <==> !BadAmount(x)
    ensures forall x: real :: FitsColumn(x, false) <==> !TooLarge(x)
    ensures forall x: real :: Column(x, false) < 0.0 <==> x <= -0.005
  {
    forall x: real
      ensures (IsStorable(x, false) <==> !BadAmount(x)) && (FitsColumn(x, false) <==> !TooLarge(x))
              && (Column(x, false) < 0.0 <==> x <= -0.005)
    {
      ColumnMeans(x);
    }
  }

  /** Theorem: on PostgreSQL a migrated invoice has one payment for every attempted one, in order and equal up to
      half a cent, all of them positive; its balance is not negative, and its last payment date is that of the last
      stored payment. */
  lemma MigratedIsConsistent(i: Invoice, p: Parsers)
    requires !Aborts(i, p, false)
    ensures var stored := Stored(Attempted(i, p), false); var attempted := Attempted(i, p);
      && |stored| == |attempted|
      && (forall n :: 0 <= n < |stored| ==>
            && stored[n] == attempted[n].(amount := stored[n].amount) && stored[n].amount > 0.0
            && -0.005 <= stored[n].amount - attempted[n].amount <= 0.005)
      && ColumnsOf(i, p, false).balanceDue >= 0.0
      && ColumnsOf(i, p, false).lastPayment == LastDate(stored)
  {
    hide FindAll, Parsed, Stored, Normalised;
    var attempted := Attempted(i, p);
    StoredAll(attempted, false);
    forall n | 0 <= n < |attempted|
      ensures -0.005 <= Column(attempted[n].amount, false) - attempted[n].amount <= 0.005
    {
      ColumnMeans(attempted[n].amount);
    }
    assert forall n :: 0 <= n < |attempted| ==> attempted[n] in attempted;
  }

  /** Theorem: without a payment timeline the payments add up to the paid total exactly when that total is not
      negative and fits its column, and without a header paid and due add up to the invoice amount. */
  lemma PaymentsMatchTotal(i: Invoice, p: Parsers, isSqlite: bool)
    requires Readable(i, p) && (i.header.Some? ==> FindAll(i.remarks) == [])
    ensures var c := ColumnsOf(i, p, isSqlite);
      && (Sum(Stored(Attempted(i, p), isSqlite)) == c.totalPaid <==>
            c.totalPaid == 0.0 || (c.totalPaid > 0.0 && FitsColumn(Sent(i, p).0, isSqlite)))
      && (i.header.None? ==> c.totalPaid + c.balanceDue == Column(i.amount, isSqlite))
  {
    hide FindAll, Parsed, Normalised, FitsColumn;
    var payments := Attempted(i, p);
    assert Sum([]) == 0.0;
    if payments != [] {
      assert payments[..0] == [];
      SumOfOne(AsStored(payments[0], isSqlite));
    }
    ColumnMeans(Sent(i, p).0);
    ColumnMeans(0.0);
  }

  lemma SumOfOne(payment: Payment)
    ensures Sum([payment]) == payment.amount
  {
    TotalAppend([], payment, (p: Payment) => p.amount);
    assert [] + [payment] == [payment];
  }
}
