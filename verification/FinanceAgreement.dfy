/**
 * The ledger, the expected closing balance and the debtor report compute the same money
 * three ways; they agree in every state the invoice protocol can reach.
 */
module FinanceAgreement {
  import opened Wrappers
  import opened FeeMath
  import opened Sequences
  import opened StatementLedger
  import opened LedgerBalance
  import opened DebtorReport
  import InvoiceProtocol
  import InvoiceInvariant
  import ScriptedRuns

  /** When each row was written; the protocol does not depend on it. */
  datatype Times = Times(created: nat -> int, updated: nat -> int, paid: nat -> int, due: nat -> Option<int>)

  /** The invoices a query selects, by position in the table. */
  ghost predicate Selection(db: InvoiceProtocol.Db, picks: seq<nat>) {
    && (forall i | 0 <= i < |picks| :: picks[i] < |db.invoices|)
    && (forall i, j | 0 <= i < j < |picks| :: picks[i] != picks[j])
  }

  function LedgerRow(row: InvoiceProtocol.Invoice, id: nat, times: Times): LedgerInvoice {
    LedgerInvoice(id, row.total, row.discount, row.paid, row.status, times.created(id), times.updated(id))
  }

  function LedgerRows(db: InvoiceProtocol.Db, picks: seq<nat>, times: Times): (rows: seq<LedgerInvoice>)
    requires Selection(db, picks)
    ensures |rows| == |picks|
  {
    seq(|picks|, i requires 0 <= i < |picks| => LedgerRow(db.invoices[picks[i]], picks[i], times))
  }

  /** The payments of the selected invoices that are still on file. */
  function LedgerReceipts(ps: seq<InvoiceProtocol.Payment>, n: nat, picks: seq<nat>, times: Times): seq<LedgerPayment>
    requires n <= |ps|
  {
    if n == 0 then []
    else
      var p := ps[n - 1];
      if p.invoice in picks && p.status != InvoiceProtocol.SWEPT
      then LedgerReceipts(ps, n - 1, picks, times) + [LedgerPayment(p.invoice, p.amount, p.status, times.paid(n - 1))]
      else LedgerReceipts(ps, n - 1, picks, times)
  }

  /** The selected invoices whose status is in OWING_STATUSES. */
  function OwingRows(db: InvoiceProtocol.Db, picks: seq<nat>, n: nat, times: Times): seq<OwingInvoice>
    requires Selection(db, picks) && n <= |picks|
  {
    if n == 0 then []
    else
      var row := db.invoices[picks[n - 1]];
      if Owing(row.status)
      then OwingRows(db, picks, n - 1, times)
           + [OwingInvoice(row.student, row.total, row.discount, row.paid, times.due(picks[n - 1]))]
      else OwingRows(db, picks, n - 1, times)
  }

  lemma {:induction false} ReceiptsPaid(ps: seq<InvoiceProtocol.Payment>, n: nat, picks: seq<nat>, times: Times, id: nat)
    requires n <= |ps| && id in picks
    ensures var r := LedgerReceipts(ps, n, picks, times);
            PaidTo(r, |r|, id) == InvoiceProtocol.TotalsUpTo(ps, n, id).verified
  {
    if n > 0 {
      ReceiptsPaid(ps, n - 1, picks, times, id);
      var rest := LedgerReceipts(ps, n - 1, picks, times);
      PaidAgree(rest, LedgerReceipts(ps, n, picks, times), |rest|, id);
    }
  }

  lemma {:induction false} ReceiptsPositive(ps: seq<InvoiceProtocol.Payment>, n: nat, picks: seq<nat>, times: Times)
    requires n <= |ps| && forall k | 0 <= k < |ps| :: ps[k].amount > 0
    ensures forall p | p in LedgerReceipts(ps, n, picks, times) :: p.amount > 0
  {
    if n > 0 { ReceiptsPositive(ps, n - 1, picks, times); }
  }

  /** What the protocol keeps is what the statement needs. */
  lemma StatementRowsWellKept(db: InvoiceProtocol.Db, picks: seq<nat>, times: Times)
    requires InvoiceInvariant.DbOk(db) && Selection(db, picks)
    ensures WellKept(LedgerRows(db, picks, times), LedgerReceipts(db.payments, |db.payments|, picks, times))
  {
    var rows := LedgerRows(db, picks, times);
    var receipts := LedgerReceipts(db.payments, |db.payments|, picks, times);
    forall i | 0 <= i < |rows|
      ensures 0 <= rows[i].discount <= rows[i].total && rows[i].paid == PaidTo(receipts, |receipts|, rows[i].id)
    {
      ReceiptsPaid(db.payments, |db.payments|, picks, times, picks[i]);
      assert InvoiceInvariant.GoodRow(db.invoices[picks[i]], InvoiceProtocol.TotalsOf(db.payments, picks[i]));
    }
    ReceiptsPositive(db.payments, |db.payments|, picks, times);
    assert forall k | 0 <= k < |receipts| :: receipts[k] in receipts;
  }

  /** Counting a kept row by status or by decision gives the same money: PAID owes nothing. */
  lemma RowOwes(db: InvoiceProtocol.Db, id: nat)
    requires InvoiceInvariant.DbOk(db) && id < |db.invoices|
    ensures var row := db.invoices[id];
            (if Counted(row.status) then Balance(row.total, row.discount, row.paid) else 0)
            == (if Owing(row.status) then Balance(row.total, row.discount, row.paid) else 0)
  {
    var row := db.invoices[id];
    assert InvoiceInvariant.GoodRow(row, InvoiceProtocol.TotalsOf(db.payments, id));
    InvoiceInvariant.TotalsBounds(db.payments, |db.payments|, id);
    OwingIffBalance(row.total, row.discount, row.paid);
  }

  lemma OutstandingAppend(rest: seq<OwingInvoice>, added: OwingInvoice)
    ensures Outstanding(rest + [added]) == Outstanding(rest) + OwedOn(added)
  {
    SumConcat(rest, [added], Owed);
    SumAtMostOne([added], Owed);
  }

  lemma {:induction false} ExpectedIsOutstanding(db: InvoiceProtocol.Db, picks: seq<nat>, n: nat, times: Times)
    requires InvoiceInvariant.DbOk(db) && Selection(db, picks) && n <= |picks|
    ensures ExpectedClosing(LedgerRows(db, picks, times), n) == Outstanding(OwingRows(db, picks, n, times))
  {
    if n > 0 {
      ExpectedIsOutstanding(db, picks, n - 1, times);
      RowOwes(db, picks[n - 1]);
      var row := db.invoices[picks[n - 1]];
      OutstandingAppend(OwingRows(db, picks, n - 1, times),
                        OwingInvoice(row.student, row.total, row.discount, row.paid, times.due(picks[n - 1])));
    }
  }

  /**
   * After any interleaving of the invoice protocol, for any selection of invoices: the
   * statement closes at the expected balance less what was overpaid on live invoices;
   * the expected balance is the report's outstanding total; and the debtor rows of the
   * report add up to it.
   */
  lemma MoneyAgreesInEveryRun(events: seq<InvoiceProtocol.Event>, picks: seq<nat>, times: Times,
                              rows: map<nat, Debtor>, today: int)
    requires var db := InvoiceProtocol.Run(InvoiceProtocol.START, events).db;
             Selection(db, picks) && Grouped(rows, OwingRows(db, picks, |picks|, times),
                                             |OwingRows(db, picks, |picks|, times)|, today)
    ensures var db := InvoiceProtocol.Run(InvoiceProtocol.START, events).db;
            var invoices := LedgerRows(db, picks, times);
            var receipts := LedgerReceipts(db.payments, |db.payments|, picks, times);
            var expected := ExpectedClosing(invoices, |invoices|);
            && ClosingBalance(invoices, receipts) == expected - OverpaidTotal(invoices, |invoices|)
            && expected == Outstanding(OwingRows(db, picks, |picks|, times))
            && expected == SumOver(rows.Keys, (st: nat) => if st in rows then rows[st].totalOwed else 0)
  {
    var db := InvoiceProtocol.Run(InvoiceProtocol.START, events).db;
    InvoiceInvariant.EveryRunKeepsTheMoneyRight(events);
    StatementRowsWellKept(db, picks, times);
    StatementCloses(LedgerRows(db, picks, times), LedgerReceipts(db.payments, |db.payments|, picks, times));
    ExpectedIsOutstanding(db, picks, |picks|, times);
    GroupingConserves(rows, OwingRows(db, picks, |picks|, times), today);
  }

  /**
   * A discount granted after the money was paid leaves an overpaid invoice, and its
   * statement closes below zero by the whole discount: from the empty school, for any
   * bill, any discount on it and whatever dates the rows carry.
   */
  lemma LateDiscountDips(amount: nat, discount: nat, times: Times)
    requires 0 < discount <= amount
    ensures var db := InvoiceProtocol.Run(InvoiceProtocol.START, ScriptedRuns.LateDiscount(amount, discount)).db;
      && Selection(db, [0])
      && ClosingBalance(LedgerRows(db, [0], times), LedgerReceipts(db.payments, |db.payments|, [0], times)) == 0 - discount
  {
    var events := ScriptedRuns.LateDiscount(amount, discount);
    var db := InvoiceProtocol.Run(InvoiceProtocol.START, events).db;
    ScriptedRuns.LateDiscountRuns(amount, discount);
    InvoiceInvariant.EveryRunKeepsTheMoneyRight(events);
    OnlyBillOverpaid(db, amount, discount, times);
  }

  lemma OnlyBillOverpaid(db: InvoiceProtocol.Db, amount: nat, discount: nat, times: Times)
    requires InvoiceInvariant.DbOk(db) && |db.invoices| == 1 && 0 < discount <= amount
    requires db.invoices[0]
      == InvoiceProtocol.Invoice(0, 0, amount, discount, amount, DeriveStatus(amount, discount, amount, None))
    ensures Selection(db, [0])
    ensures ClosingBalance(LedgerRows(db, [0], times), LedgerReceipts(db.payments, |db.payments|, [0], times)) == 0 - discount
  {
    var rows := LedgerRows(db, [0], times);
    StatementRowsWellKept(db, [0], times);
    StatementCloses(rows, LedgerReceipts(db.payments, |db.payments|, [0], times));
    assert rows == [LedgerRow(db.invoices[0], 0, times)];
    assert ExpectedClosing(rows, 0) == 0 && ExpectedClosing(rows, 1) == 0;
    assert OverpaidTotal(rows, 0) == 0 && OverpaidTotal(rows, 1) == discount;
  }
}
