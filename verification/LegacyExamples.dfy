/** Two documented invoices whose payments do not match what the migration writes beside them. */
module LegacyExamples {
  import opened LegacyRemarks
  import opened LegacyBackfill
  import opened LegacyPayments
  import opened Common

  const FIRST: Record := Record("1", "50", "CASH", "a", "part")

  const SECOND: Record := Record("2", "0", "CASH", "b", "none")

  /** Reads the numbers and times of the examples. */
  const PLAIN: Parsers := Parsers(
    text => if text == "100" then Some(100.0)
            else if text == "50" then Some(50.0)
            else if text == "0" then Some(0.0) else None,
    text => if text == "a" then Some(1) else if text == "b" then Some(2) else None)

  /** An invoice whose header says that 100 was paid and nothing is due. */
  function Paid100(texts: seq<string>, rs: seq<Record>): Invoice
    requires |texts| == |rs| + 1
  {
    Invoice(100.0, None, 0, Embed(texts, BlocksOf(rs)), Some(Header("Fully paid", "100", "0")))
  }

  lemma PlainTexts()
    ensures AmountText("100") == "100" && AmountText("50") == "50" && AmountText("0") == "0"
    ensures TimeText("a") == "a" && TimeText("b") == "b"
  {
    NothingToReplace("100", ',', "");
    NothingToReplace("50", ',', "");
    NothingToReplace("0", ',', "");
    NothingToReplace("a", 'Z', "+00:00");
    NothingToReplace("b", 'Z', "+00:00");
  }

  lemma PlainRecords(r: Record)
    requires r == FIRST || r == SECOND
    ensures CleanRecord(r) && PLAIN.amount(AmountText(r.amount)).Some?
    ensures r == FIRST ==> AmountOf(r, PLAIN) == 50.0 && DateOf(r, 0, PLAIN) == 1
    ensures r == SECOND ==> AmountOf(r, PLAIN) == 0.0 && DateOf(r, 0, PLAIN) == 2
  {
    hide AmountText, TimeText;
    PlainTexts();
  }

  lemma Paid100IsDocumented(texts: seq<string>, rs: seq<Record>)
    requires |texts| == |rs| + 1 && forall k :: 0 <= k < |texts| ==> texts[k] == ""
    requires rs != [] && forall k :: 0 <= k < |rs| ==> rs[k] == FIRST || rs[k] == SECOND
    ensures Documented(Paid100(texts, rs), texts, rs, PLAIN)
    ensures PaidOf(Paid100(texts, rs), PLAIN) == 100.0 && DueOf(Paid100(texts, rs), PLAIN) == 0.0
  {
    hide Embed, BlocksOf, AmountText, TimeText, CleanRecord;
    PlainTexts();
    forall k | 0 <= k < |rs| ensures CleanRecord(rs[k]) && PLAIN.amount(AmountText(rs[k].amount)).Some? {
      PlainRecords(rs[k]);
    }
  }

  /** A header of 100 over a single record of 50 is migrated as it is, on either database. */
  lemma TotalsDisagree(isSqlite: bool)
    ensures var i := Paid100(["", ""], [FIRST]);
      && Documented(i, ["", ""], [FIRST], PLAIN) && !Aborts(i, PLAIN, isSqlite)
      && Sum(Stored(Attempted(i, PLAIN), isSqlite)) == 50.0 && ColumnsOf(i, PLAIN, isSqlite).totalPaid == 100.0
  {
    hide Embed, BlocksOf, FindAll, Parsed, Stored, Attempted, Documented, AmountText, TimeText, Readable, RecordTotal,
      PaidOf, DueOf, Paid100, AmountOf, DateOf;
    var texts, rs := ["", ""], [FIRST];
    var i := Paid100(texts, rs);
    PlainRecords(FIRST);
    Paid100IsDocumented(texts, rs);
    assert i.header.Some? && Readable(i, PLAIN) by { DocumentedIsReadable(i, texts, rs, PLAIN); }
    DocumentedRemarks(i, texts, rs, PLAIN);
    TimelineMatchesTotalIff(i, texts, rs, PLAIN, isSqlite);
    OneRecordTotal(FIRST, PLAIN, isSqlite);
    assert Cents(50.0) == 5000 && Cents(100.0) == 10000 && Cents(0.0) == 0;
    assert Attempted(i, PLAIN)[0].amount == 50.0;
  }

  lemma DocumentedIsReadable(i: Invoice, texts: seq<string>, rs: seq<Record>, p: Parsers)
    requires Documented(i, texts, rs, p)
    ensures i.header.Some? && Readable(i, p) && rs != []
    ensures forall r :: r in rs ==> p.amount(AmountText(r.amount)).Some?
  {
  }

  lemma OneRecordTotal(r: Record, p: Parsers, isSqlite: bool)
    requires p.amount(AmountText(r.amount)).Some?
    ensures RecordTotal([r], p, isSqlite)
         == if IsStorable(AmountOf(r, p), isSqlite) then Column(AmountOf(r, p), isSqlite) else 0.0
  {
    assert [r][..0] == [];
  }

  /** On SQLite a second record of 0 is not stored, and its date becomes the invoice's last payment date. */
  lemma DatedByUnstoredPayment()
    ensures var i := Paid100(["", "", ""], [FIRST, SECOND]);
      && Documented(i, ["", "", ""], [FIRST, SECOND], PLAIN) && !Aborts(i, PLAIN, true)
      && ColumnsOf(i, PLAIN, true).lastPayment == Some(2)
      && forall x :: x in Stored(Attempted(i, PLAIN), true) ==> x.date != 2
  {
    hide Embed, BlocksOf, FindAll, Parsed, Stored, Attempted, Documented, AmountText, TimeText, Readable, PaidOf, DueOf,
      Paid100, AmountOf, DateOf, ColumnsOf;
    var texts, rs := ["", "", ""], [FIRST, SECOND];
    var i := Paid100(texts, rs);
    PlainRecords(FIRST);
    PlainRecords(SECOND);
    Paid100IsDocumented(texts, rs);
    assert i.created == 0 by { Paid100IsNew(texts, rs); }
    DocumentedIsReadable(i, texts, rs, PLAIN);
    DocumentedRemarks(i, texts, rs, PLAIN);
    DatedByStoredPaymentIff(i, texts, rs, PLAIN);
    assert rs[0] == FIRST && rs[1] == SECOND;
  }

  lemma Paid100IsNew(texts: seq<string>, rs: seq<Record>)
    requires |texts| == |rs| + 1
    ensures Paid100(texts, rs).created == 0
  {
  }
}
