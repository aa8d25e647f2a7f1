/** Which entries a statement has, for which amounts and dates, and in what order, said of the bills and payments. */
module LedgerMeaning {
  import opened Wrappers
  import opened FeeMath
  import opened Sequences
  import opened StatementLedger
  import InvoiceProtocol

  /** A payment that counts towards the bill. */
  ghost predicate PaysFor(p: LedgerPayment, invoice: LedgerInvoice) {
    p.status == InvoiceProtocol.VERIFIED && p.invoice == invoice.id
  }

  /** When the bill was made, or when it was first paid if that is earlier. */
  ghost predicate PostedOn(invoice: LedgerInvoice, payments: seq<LedgerPayment>, date: int) {
    && date <= invoice.createdAt
    && (forall k | 0 <= k < |payments| && PaysFor(payments[k], invoice) :: date <= payments[k].paidAt)
    && (date == invoice.createdAt
        || exists k :: 0 <= k < |payments| && PaysFor(payments[k], invoice) && payments[k].paidAt == date)
  }

  /** The bill charges its total and takes off its discount when posted, and what is still owed when it is waived. */
  ghost predicate EntryOf(invoice: LedgerInvoice, payments: seq<LedgerPayment>, f: Fact) {
    && f.invoice == invoice.id
    && ((f.kind == INVOICE && PostedOn(invoice, payments, f.date) && f.debit == invoice.total && f.credit == 0)
        || (f.kind == DISCOUNT && invoice.discount > 0 && PostedOn(invoice, payments, f.date)
            && f.debit == 0 && f.credit == invoice.discount)
        || (f.kind == WAIVER && invoice.status == WAIVED && f.date == invoice.updatedAt && f.debit == 0
            && f.credit == Balance(invoice.total, invoice.discount, invoice.paid) > 0))
  }

  ghost predicate LiveBill(invoices: seq<LedgerInvoice>, i: int) {
    0 <= i < |invoices| && invoices[i].status != CANCELLED
  }

  ghost predicate PaidOn(invoices: seq<LedgerInvoice>, p: LedgerPayment) {
    p.status == InvoiceProtocol.VERIFIED && exists i :: LiveBill(invoices, i) && invoices[i].id == p.invoice
  }

  /** The entries there are to be. */
  ghost predicate Belongs(invoices: seq<LedgerInvoice>, payments: seq<LedgerPayment>, f: Fact) {
    || (exists i :: LiveBill(invoices, i) && EntryOf(invoices[i], payments, f))
    || (exists k :: 0 <= k < |payments| && PaidOn(invoices, payments[k])
                    && f == Fact(payments[k].paidAt, PAYMENT, 0, payments[k].amount, payments[k].invoice))
  }

  lemma {:induction false} LiveAre(invoices: seq<LedgerInvoice>, n: nat, invoice: LedgerInvoice)
    requires n <= |invoices|
    ensures invoice in LiveOf(invoices, n) <==> exists i :: i < n && LiveBill(invoices, i) && invoices[i] == invoice
  {
    if n > 0 { LiveAre(invoices, n - 1, invoice); }
  }

  lemma {:induction false} VerifiedAre(payments: seq<LedgerPayment>, n: nat, live: seq<LedgerInvoice>, p: LedgerPayment)
    requires n <= |payments|
    ensures p in VerifiedOf(payments, n, live) <==>
      HasId(live, p.invoice) && p.status == InvoiceProtocol.VERIFIED && exists k :: 0 <= k < n && payments[k] == p
  {
    if n > 0 { VerifiedAre(payments, n - 1, live, p); }
  }

  lemma HasIdIs(invoices: seq<LedgerInvoice>, id: nat)
    ensures HasId(LiveOf(invoices, |invoices|), id) <==> exists i :: LiveBill(invoices, i) && invoices[i].id == id
  {
    var live := LiveOf(invoices, |invoices|);
    if HasId(live, id) {
      var j :| 0 <= j < |live| && live[j].id == id;
      LiveAre(invoices, |invoices|, live[j]);
      assert live[j] in live;
    }
    if i :| LiveBill(invoices, i) && invoices[i].id == id {
      LiveAre(invoices, |invoices|, invoices[i]);
      var j :| 0 <= j < |live| && live[j] == invoices[i];
    }
  }

  lemma {:induction false} PostingIs(invoice: LedgerInvoice, verified: seq<LedgerPayment>, n: nat)
    requires n <= |verified|
    ensures var d := PostingDate(invoice, verified, n);
      && d <= invoice.createdAt
      && (forall k | 0 <= k < n && verified[k].invoice == invoice.id :: d <= verified[k].paidAt)
      && (d == invoice.createdAt || exists k :: 0 <= k < n && verified[k].invoice == invoice.id && verified[k].paidAt == d)
  {
    if n > 0 { PostingIs(invoice, verified, n - 1); }
  }

  /** The date the statement posts a live bill on is the one it should, and there is only one. */
  lemma PostedIs(invoices: seq<LedgerInvoice>, payments: seq<LedgerPayment>, i: nat, date: int)
    requires LiveBill(invoices, i)
    ensures var live := LiveOf(invoices, |invoices|);
      var verified := VerifiedOf(payments, |payments|, live);
      PostedOn(invoices[i], payments, date) <==> date == PostingDate(invoices[i], verified, |verified|)
  {
    var live := LiveOf(invoices, |invoices|);
    var verified := VerifiedOf(payments, |payments|, live);
    var d := PostingDate(invoices[i], verified, |verified|);
    PostingIs(invoices[i], verified, |verified|);
    HasIdIs(invoices, invoices[i].id);
    forall k | 0 <= k < |payments| && PaysFor(payments[k], invoices[i]) ensures d <= payments[k].paidAt {
      VerifiedAre(payments, |payments|, live, payments[k]);
      var j :| 0 <= j < |verified| && verified[j] == payments[k];
    }
    if d != invoices[i].createdAt {
      var j :| 0 <= j < |verified| && verified[j].invoice == invoices[i].id && verified[j].paidAt == d;
      assert verified[j] in verified;
      VerifiedAre(payments, |payments|, live, verified[j]);
      var k :| 0 <= k < |payments| && payments[k] == verified[j];
      assert PaysFor(payments[k], invoices[i]);
    }
    assert PostedOn(invoices[i], payments, d);
    if PostedOn(invoices[i], payments, date) { EarliestOnce(invoices[i], payments, date, d); }
  }

  lemma EarliestOnce(invoice: LedgerInvoice, payments: seq<LedgerPayment>, a: int, b: int)
    requires PostedOn(invoice, payments, a) && PostedOn(invoice, payments, b)
    ensures a == b
  {
  }

  lemma {:induction false} ChargesAre(live: seq<LedgerInvoice>, n: nat, verified: seq<LedgerPayment>, f: Fact)
    requires n <= |live|
    ensures f in ChargeFacts(live, n, verified) <==>
      exists i :: 0 <= i < n && f in InvoiceFacts(live[i], PostingDate(live[i], verified, |verified|))
  {
    hide InvoiceFacts, PostingDate;
    if n > 0 { ChargesAre(live, n - 1, verified, f); }
  }

  lemma {:induction false} PaymentsAre(verified: seq<LedgerPayment>, n: nat, f: Fact)
    requires n <= |verified|
    ensures f in PaymentFacts(verified, n) <==> exists i :: 0 <= i < n && f == PaymentFact(verified[i])
  {
    hide PaymentFact;
    if n > 0 { PaymentsAre(verified, n - 1, f); }
  }

  lemma EntriesAre(invoice: LedgerInvoice, payments: seq<LedgerPayment>, posted: int, f: Fact)
    requires forall d: int :: PostedOn(invoice, payments, d) <==> d == posted
    ensures f in InvoiceFacts(invoice, posted) <==> EntryOf(invoice, payments, f)
  {
    hide PostedOn;
  }

  lemma BillAt(invoices: seq<LedgerInvoice>, payments: seq<LedgerPayment>, i: nat, f: Fact)
    requires LiveBill(invoices, i)
    ensures var verified := VerifiedOf(payments, |payments|, LiveOf(invoices, |invoices|));
      f in InvoiceFacts(invoices[i], PostingDate(invoices[i], verified, |verified|)) <==> EntryOf(invoices[i], payments, f)
  {
    hide InvoiceFacts, PostingDate, EntryOf, PostedOn, LiveOf, VerifiedOf;
    var verified := VerifiedOf(payments, |payments|, LiveOf(invoices, |invoices|));
    var posted := PostingDate(invoices[i], verified, |verified|);
    forall d: int ensures PostedOn(invoices[i], payments, d) <==> d == posted { PostedIs(invoices, payments, i, d); }
    EntriesAre(invoices[i], payments, posted, f);
  }

  lemma BillEntriesAre(invoices: seq<LedgerInvoice>, payments: seq<LedgerPayment>, f: Fact)
    ensures var live := LiveOf(invoices, |invoices|);
      var verified := VerifiedOf(payments, |payments|, live);
      f in ChargeFacts(live, |live|, verified) <==> exists i :: LiveBill(invoices, i) && EntryOf(invoices[i], payments, f)
  {
    hide InvoiceFacts, PostingDate, EntryOf, LiveOf, VerifiedOf, ChargeFacts;
    var live := LiveOf(invoices, |invoices|);
    var verified := VerifiedOf(payments, |payments|, live);
    ChargesAre(live, |live|, verified, f);
    if i :| LiveBill(invoices, i) && EntryOf(invoices[i], payments, f) {
      BillAt(invoices, payments, i, f);
      LiveAre(invoices, |invoices|, invoices[i]);
      var j :| 0 <= j < |live| && live[j] == invoices[i];
    }
    if j :| 0 <= j < |live| && f in InvoiceFacts(live[j], PostingDate(live[j], verified, |verified|)) {
      assert live[j] in live;
      LiveAre(invoices, |invoices|, live[j]);
      var i :| i < |invoices| && LiveBill(invoices, i) && invoices[i] == live[j];
      BillAt(invoices, payments, i, f);
    }
  }

  lemma PaymentEntriesAre(invoices: seq<LedgerInvoice>, payments: seq<LedgerPayment>, f: Fact)
    ensures var live := LiveOf(invoices, |invoices|);
      var verified := VerifiedOf(payments, |payments|, live);
      f in PaymentFacts(verified, |verified|) <==>
        exists k :: 0 <= k < |payments| && PaidOn(invoices, payments[k])
                    && f == Fact(payments[k].paidAt, PAYMENT, 0, payments[k].amount, payments[k].invoice)
  {
    hide LiveBill, HasId;
    var live := LiveOf(invoices, |invoices|);
    var verified := VerifiedOf(payments, |payments|, live);
    PaymentsAre(verified, |verified|, f);
    forall k | 0 <= k < |payments|
      ensures payments[k] in verified <==> PaidOn(invoices, payments[k])
    {
      VerifiedAre(payments, |payments|, live, payments[k]);
      HasIdIs(invoices, payments[k].invoice);
    }
    if j :| 0 <= j < |verified| && f == PaymentFact(verified[j]) {
      assert verified[j] in verified;
      VerifiedAre(payments, |payments|, live, verified[j]);
      var k :| 0 <= k < |payments| && payments[k] == verified[j];
    }
  }

  /** A statement has exactly the entries its bills and payments call for. */
  lemma EntriesExactly(invoices: seq<LedgerInvoice>, payments: seq<LedgerPayment>, f: Fact)
    ensures f in Statement(invoices, payments) <==> Belongs(invoices, payments, f)
  {
    var facts := Facts(invoices, payments);
    BillEntriesAre(invoices, payments, f);
    PaymentEntriesAre(invoices, payments, f);
    hide Facts, EntryOf, PaidOn, LiveBill;
    assert f in multiset(Statement(invoices, payments)) <==> f in multiset(facts);
    FactsAre(invoices, payments);
  }

  lemma FactsAre(invoices: seq<LedgerInvoice>, payments: seq<LedgerPayment>)
    ensures var live := LiveOf(invoices, |invoices|);
      var verified := VerifiedOf(payments, |payments|, live);
      Facts(invoices, payments) == ChargeFacts(live, |live|, verified) + PaymentFacts(verified, |verified|)
  {
  }

  predicate Before(a: Kind, b: Kind) {
    || (a == INVOICE && b != INVOICE)
    || (a == DISCOUNT && (b == PAYMENT || b == WAIVER))
    || (a == PAYMENT && b == WAIVER)
  }

  /** By date, and on one date the charge, then what comes off it: its discount, payments, and what is waived. */
  lemma InOrder(invoices: seq<LedgerInvoice>, payments: seq<LedgerPayment>, i: nat, j: nat)
    requires i < j < |Statement(invoices, payments)|
    ensures var a, b := Statement(invoices, payments)[i], Statement(invoices, payments)[j];
      a.date < b.date || (a.date == b.date && (a.kind == b.kind || Before(a.kind, b.kind)))
  {
    SortSorts(Facts(invoices, payments), SortKey);
    var a, b := Statement(invoices, payments)[i], Statement(invoices, payments)[j];
    assert SortKey(a) <= SortKey(b);
  }
}
