/**
 * What the statement guarantees: its running balance never dips below zero while no
 * live invoice is overpaid, and it closes at what is genuinely outstanding.
 */
module LedgerBalance {
  import opened FeeMath
  import opened Sequences
  import opened StatementLedger
  import InvoiceProtocol

  // ---------------------------------------------------------------------------
  // One invoice's share of a statement
  // ---------------------------------------------------------------------------

  function DebitFor(id: nat): Fact -> int { (f: Fact) => if f.invoice == id then f.debit else 0 }

  function CreditFor(id: nat): Fact -> int { (f: Fact) => if f.invoice == id then f.credit else 0 }

  function NetFor(id: nat): Fact -> int { (f: Fact) => if f.invoice == id then NetOf(f) else 0 }

  /** The verified money received against one invoice. */
  function PaidTo(payments: seq<LedgerPayment>, n: nat, id: nat): int
    requires n <= |payments|
  {
    if n == 0 then 0
    else PaidTo(payments, n - 1, id)
         + if payments[n - 1].status == InvoiceProtocol.VERIFIED && payments[n - 1].invoice == id
           then payments[n - 1].amount else 0
  }

  ghost predicate DistinctIds(invoices: seq<LedgerInvoice>) {
    forall i, j | 0 <= i < j < |invoices| :: invoices[i].id != invoices[j].id
  }

  predicate Live(invoice: LedgerInvoice) { invoice.status != CANCELLED }

  /** What the invoice protocol keeps about the rows a statement is built from. */
  ghost predicate WellKept(invoices: seq<LedgerInvoice>, payments: seq<LedgerPayment>) {
    && DistinctIds(invoices)
    && (forall i | 0 <= i < |invoices| && Live(invoices[i]) ::
          && 0 <= invoices[i].discount <= invoices[i].total
          && invoices[i].paid == PaidTo(payments, |payments|, invoices[i].id))
    && (forall k | 0 <= k < |payments| :: payments[k].amount > 0)
  }

  lemma {:induction false} LiveFrom(invoices: seq<LedgerInvoice>, n: nat)
    requires n <= |invoices| && DistinctIds(invoices)
    ensures DistinctIds(LiveOf(invoices, n))
    ensures forall l | l in LiveOf(invoices, n) :: Live(l) && l in invoices[..n]
  {
    if n > 0 {
      LiveFrom(invoices, n - 1);
      var rest := LiveOf(invoices, n - 1);
      assert forall i | 0 <= i < |rest| :: rest[i] in rest && rest[i] in invoices[..n - 1];
      assert invoices[..n] == invoices[..n - 1] + [invoices[n - 1]];
    }
  }

  lemma {:induction false} VerifiedPaid(payments: seq<LedgerPayment>, n: nat, live: seq<LedgerInvoice>, id: nat)
    requires n <= |payments| && HasId(live, id)
    ensures var v := VerifiedOf(payments, n, live); PaidTo(v, |v|, id) == PaidTo(payments, n, id)
  {
    if n > 0 {
      VerifiedPaid(payments, n - 1, live, id);
      var rest := VerifiedOf(payments, n - 1, live);
      PaidAgree(rest, VerifiedOf(payments, n, live), |rest|, id);
    }
  }

  lemma {:induction false} PaidAgree(a: seq<LedgerPayment>, b: seq<LedgerPayment>, n: nat, id: nat)
    requires n <= |a| && n <= |b| && forall k | 0 <= k < n :: a[k] == b[k]
    ensures PaidTo(a, n, id) == PaidTo(b, n, id)
  {
    if n > 0 { PaidAgree(a, b, n - 1, id); }
  }

  lemma {:induction false} VerifiedFrom(payments: seq<LedgerPayment>, n: nat, live: seq<LedgerInvoice>)
    requires n <= |payments|
    ensures forall p | p in VerifiedOf(payments, n, live) ::
      p in payments && p.status == InvoiceProtocol.VERIFIED && HasId(live, p.invoice)
  {
    if n > 0 { VerifiedFrom(payments, n - 1, live); }
  }

  // ---------------------------------------------------------------------------
  // Debits and credits of the facts
  // ---------------------------------------------------------------------------

  lemma InvoiceFactSums(l: LedgerInvoice, posted: int, id: nat)
    ensures Sum(InvoiceFacts(l, posted), DebitFor(id)) == if l.id == id then l.total else 0
    ensures l.discount >= 0 ==>
      Sum(InvoiceFacts(l, posted), CreditFor(id)) == if l.id == id then l.discount + Forgiven(l) else 0
  {
    var charge := [Fact(posted, INVOICE, l.total, 0, l.id)];
    var discount := if l.discount > 0 then [Fact(posted, DISCOUNT, 0, l.discount, l.id)] else [];
    var waiver := if Forgiven(l) > 0 then [Fact(l.updatedAt, WAIVER, 0, Forgiven(l), l.id)] else [];
    assert InvoiceFacts(l, posted) == charge + discount + waiver;
    SumThree(charge, discount, waiver, DebitFor(id));
    SumThree(charge, discount, waiver, CreditFor(id));
    SumAtMostOne(charge, DebitFor(id));
    SumAtMostOne(discount, DebitFor(id));
    SumAtMostOne(waiver, DebitFor(id));
    SumAtMostOne(charge, CreditFor(id));
    SumAtMostOne(discount, CreditFor(id));
    SumAtMostOne(waiver, CreditFor(id));
  }

  lemma SumThree<T>(a: seq<T>, b: seq<T>, c: seq<T>, f: T -> int)
    ensures Sum(a + b + c, f) == Sum(a, f) + Sum(b, f) + Sum(c, f)
  {
    SumConcat(a + b, c, f);
    SumConcat(a, b, f);
  }

  lemma SumAtMostOne<T>(s: seq<T>, f: T -> int)
    requires |s| <= 1
    ensures Sum(s, f) == if |s| == 0 then 0 else f(s[0])
  {
    if |s| == 1 { assert SumUpTo(s, 0, f) == 0; }
  }

  lemma {:induction false} ChargeSums(live: seq<LedgerInvoice>, n: nat, verified: seq<LedgerPayment>, j: nat)
    requires n <= |live| && j < |live| && DistinctIds(live)
    requires forall i | 0 <= i < |live| :: live[i].discount >= 0
    ensures Sum(ChargeFacts(live, n, verified), DebitFor(live[j].id)) == if j < n then live[j].total else 0
    ensures Sum(ChargeFacts(live, n, verified), CreditFor(live[j].id))
            == if j < n then live[j].discount + Forgiven(live[j]) else 0
  {
    var id := live[j].id;
    if n > 0 {
      var posted := PostingDate(live[n - 1], verified, |verified|);
      ChargeSums(live, n - 1, verified, j);
      InvoiceFactSums(live[n - 1], posted, id);
      SumConcat(ChargeFacts(live, n - 1, verified), InvoiceFacts(live[n - 1], posted), DebitFor(id));
      SumConcat(ChargeFacts(live, n - 1, verified), InvoiceFacts(live[n - 1], posted), CreditFor(id));
    }
  }

  lemma {:induction false} PaymentSums(verified: seq<LedgerPayment>, n: nat, id: nat)
    requires n <= |verified| && forall p | p in verified :: p.status == InvoiceProtocol.VERIFIED
    ensures Sum(PaymentFacts(verified, n), DebitFor(id)) == 0
    ensures Sum(PaymentFacts(verified, n), CreditFor(id)) == PaidTo(verified, n, id)
  {
    if n > 0 {
      PaymentSums(verified, n - 1, id);
      var last := [PaymentFact(verified[n - 1])];
      SumConcat(PaymentFacts(verified, n - 1), last, DebitFor(id));
      SumConcat(PaymentFacts(verified, n - 1), last, CreditFor(id));
      SumAtMostOne(last, DebitFor(id));
      SumAtMostOne(last, CreditFor(id));
      assert verified[n - 1] in verified;
    }
  }

  lemma FactSums(live: seq<LedgerInvoice>, verified: seq<LedgerPayment>, j: nat)
    requires j < |live| && DistinctIds(live)
    requires forall i | 0 <= i < |live| :: live[i].discount >= 0
    requires forall p | p in verified :: p.status == InvoiceProtocol.VERIFIED
    ensures var facts := ChargeFacts(live, |live|, verified) + PaymentFacts(verified, |verified|);
            && Sum(facts, DebitFor(live[j].id)) == live[j].total
            && Sum(facts, CreditFor(live[j].id))
               == live[j].discount + Forgiven(live[j]) + PaidTo(verified, |verified|, live[j].id)
  {
    var id := live[j].id;
    var charges, received := ChargeFacts(live, |live|, verified), PaymentFacts(verified, |verified|);
    ChargeSums(live, |live|, verified, j);
    PaymentSums(verified, |verified|, id);
    SumConcat(charges, received, DebitFor(id));
    SumConcat(charges, received, CreditFor(id));
  }

  lemma StatementPermutes(invoices: seq<LedgerInvoice>, payments: seq<LedgerPayment>, f: Fact -> int)
    ensures Sum(Statement(invoices, payments), f) == Sum(Facts(invoices, payments), f)
    ensures forall e :: e in Statement(invoices, payments) <==> e in Facts(invoices, payments)
  {
    SumPermuted(Statement(invoices, payments), Facts(invoices, payments), f);
    forall e ensures e in Statement(invoices, payments) <==> e in Facts(invoices, payments) {
      assert e in multiset(Statement(invoices, payments)) <==> e in multiset(Facts(invoices, payments));
    }
  }

  ghost predicate BillSumsTo(s: seq<Fact>, l: LedgerInvoice) {
    Sum(s, DebitFor(l.id)) == l.total && Sum(s, CreditFor(l.id)) == l.discount + Forgiven(l) + l.paid
  }

  /** All of one live invoice's debits and credits, in whatever order they are listed. */
  lemma BillSums(invoices: seq<LedgerInvoice>, payments: seq<LedgerPayment>, j: nat)
    requires WellKept(invoices, payments) && j < |LiveOf(invoices, |invoices|)|
    ensures BillSumsTo(Statement(invoices, payments), LiveOf(invoices, |invoices|)[j])
  {
    var live := LiveOf(invoices, |invoices|);
    var verified := VerifiedOf(payments, |payments|, live);
    LiveFrom(invoices, |invoices|);
    assert forall i | 0 <= i < |live| :: live[i] in live;
    VerifiedFrom(payments, |payments|, live);
    FactSums(live, verified, j);
    VerifiedPaid(payments, |payments|, live, live[j].id);
    StatementPermutes(invoices, payments, DebitFor(live[j].id));
    StatementPermutes(invoices, payments, CreditFor(live[j].id));
  }

  // ---------------------------------------------------------------------------
  // Every fact belongs to one live invoice, and comes after its charge
  // ---------------------------------------------------------------------------

  function ChargeOf(l: LedgerInvoice, verified: seq<LedgerPayment>): Fact {
    Fact(PostingDate(l, verified, |verified|), INVOICE, l.total, 0, l.id)
  }

  /** A fact of this invoice is its charge, or a credit that sorts after the charge. */
  ghost predicate Follows(f: Fact, charge: Fact) {
    f.invoice == charge.invoice ==>
      f == charge || (f.debit == 0 && f.credit >= 0 && SortKey(charge) < SortKey(f))
  }

  lemma {:induction false} PostedEarly(l: LedgerInvoice, verified: seq<LedgerPayment>, n: nat)
    requires n <= |verified|
    ensures PostingDate(l, verified, n) <= l.createdAt
    ensures forall k | 0 <= k < n && verified[k].invoice == l.id :: PostingDate(l, verified, n) <= verified[k].paidAt
  {
    if n > 0 { PostedEarly(l, verified, n - 1); }
  }

  lemma BillFactsFollow(live: seq<LedgerInvoice>, k: nat, verified: seq<LedgerPayment>, j: nat)
    requires k < |live| && j < |live| && DistinctIds(live) && live[j].createdAt <= live[j].updatedAt
    ensures var added := InvoiceFacts(live[k], PostingDate(live[k], verified, |verified|));
      && (forall f | f in added :: Follows(f, ChargeOf(live[j], verified)) && HasId(live, f.invoice))
      && ChargeOf(live[k], verified) in added
  {
    PostedEarly(live[k], verified, |verified|);
    var added := InvoiceFacts(live[k], PostingDate(live[k], verified, |verified|));
    assert added[0] == ChargeOf(live[k], verified);
    forall f | f in added ensures Follows(f, ChargeOf(live[j], verified)) && HasId(live, f.invoice) {
      assert f.invoice == live[k].id;
    }
  }

  lemma {:induction false} ChargeFactsFollow(live: seq<LedgerInvoice>, n: nat, verified: seq<LedgerPayment>, j: nat)
    requires n <= |live| && j < |live| && DistinctIds(live) && live[j].createdAt <= live[j].updatedAt
    ensures forall f | f in ChargeFacts(live, n, verified) :: Follows(f, ChargeOf(live[j], verified)) && HasId(live, f.invoice)
    ensures j < n ==> ChargeOf(live[j], verified) in ChargeFacts(live, n, verified)
  {
    hide ChargeOf, Follows, HasId, InvoiceFacts, PostingDate;
    if n > 0 {
      ChargeFactsFollow(live, n - 1, verified, j);
      BillFactsFollow(live, n - 1, verified, j);
    }
  }

  lemma {:induction false} PaymentFactsFrom(verified: seq<LedgerPayment>, n: nat, f: Fact) returns (k: nat)
    requires n <= |verified| && f in PaymentFacts(verified, n)
    ensures k < n && f == PaymentFact(verified[k])
  {
    if f in PaymentFacts(verified, n - 1) { k := PaymentFactsFrom(verified, n - 1, f); } else { k := n - 1; }
  }

  lemma PaymentFollows(l: LedgerInvoice, verified: seq<LedgerPayment>, k: nat)
    requires k < |verified| && verified[k].amount > 0
    ensures Follows(PaymentFact(verified[k]), ChargeOf(l, verified))
  {
    PostedEarly(l, verified, |verified|);
  }

  lemma PaymentFactsFollow(l: LedgerInvoice, verified: seq<LedgerPayment>)
    requires forall p | p in verified :: p.amount > 0
    ensures forall f | f in PaymentFacts(verified, |verified|) :: Follows(f, ChargeOf(l, verified))
  {
    forall f | f in PaymentFacts(verified, |verified|) ensures Follows(f, ChargeOf(l, verified)) {
      var k := PaymentFactsFrom(verified, |verified|, f);
      assert verified[k] in verified;
      PaymentFollows(l, verified, k);
    }
  }

  /** The charge of a live invoice heads everything the statement lists for it. */
  ghost predicate Heads(charge: Fact, s: seq<Fact>) {
    charge in s && forall f | f in s :: Follows(f, charge)
  }

  lemma StatementFollows(invoices: seq<LedgerInvoice>, payments: seq<LedgerPayment>, j: nat)
    requires WellKept(invoices, payments) && j < |LiveOf(invoices, |invoices|)|
    requires forall i | 0 <= i < |invoices| :: invoices[i].createdAt <= invoices[i].updatedAt
    ensures var live := LiveOf(invoices, |invoices|);
            Heads(ChargeOf(live[j], VerifiedOf(payments, |payments|, live)), Statement(invoices, payments))
  {
    var live := LiveOf(invoices, |invoices|);
    var verified := VerifiedOf(payments, |payments|, live);
    LiveFrom(invoices, |invoices|);
    assert live[j] in live;
    VerifiedFrom(payments, |payments|, live);
    ChargeFactsFollow(live, |live|, verified, j);
    PaymentFactsFollow(live[j], verified);
    StatementPermutes(invoices, payments, Net);
  }

  lemma {:induction false} ChargeFactsOwned(live: seq<LedgerInvoice>, n: nat, verified: seq<LedgerPayment>)
    requires n <= |live|
    ensures forall f | f in ChargeFacts(live, n, verified) :: HasId(live, f.invoice)
  {
    if n > 0 {
      ChargeFactsOwned(live, n - 1, verified);
      forall f | f in InvoiceFacts(live[n - 1], PostingDate(live[n - 1], verified, |verified|))
        ensures HasId(live, f.invoice)
      {
        assert f.invoice == live[n - 1].id;
      }
    }
  }

  lemma FactsOwned(invoices: seq<LedgerInvoice>, payments: seq<LedgerPayment>)
    ensures forall f | f in Statement(invoices, payments) :: HasId(LiveOf(invoices, |invoices|), f.invoice)
  {
    var live := LiveOf(invoices, |invoices|);
    var verified := VerifiedOf(payments, |payments|, live);
    VerifiedFrom(payments, |payments|, live);
    ChargeFactsOwned(live, |live|, verified);
    forall f | f in Statement(invoices, payments) ensures HasId(live, f.invoice) {
      assert f in multiset(Statement(invoices, payments));
      assert f in Facts(invoices, payments);
      if f in PaymentFacts(verified, |verified|) {
        var k := PaymentFactsFrom(verified, |verified|, f);
        assert verified[k] in verified;
      }
    }
  }

  // ---------------------------------------------------------------------------
  // The running balance, invoice by invoice
  // ---------------------------------------------------------------------------

  /** The first i facts, summed one live invoice at a time. */
  function BillNets(live: seq<LedgerInvoice>, m: nat, s: seq<Fact>, i: nat): int
    requires m <= |live| && i <= |s|
  {
    if m == 0 then 0 else BillNets(live, m - 1, s, i) + SumUpTo(s, i, NetFor(live[m - 1].id))
  }

  lemma {:induction false} BillNetsStep(live: seq<LedgerInvoice>, m: nat, s: seq<Fact>, i: nat, j: nat)
    requires m <= |live| && i < |s| && j < |live| && DistinctIds(live) && live[j].id == s[i].invoice
    ensures BillNets(live, m, s, i + 1) == BillNets(live, m, s, i) + if j < m then NetOf(s[i]) else 0
  {
    if m > 0 { BillNetsStep(live, m - 1, s, i, j); }
  }

  lemma {:induction false} BillNetsNone(live: seq<LedgerInvoice>, m: nat, s: seq<Fact>)
    requires m <= |live|
    ensures BillNets(live, m, s, 0) == 0
  {
    if m > 0 { BillNetsNone(live, m - 1, s); }
  }

  lemma {:induction false} RunningByBill(live: seq<LedgerInvoice>, s: seq<Fact>, i: nat)
    requires DistinctIds(live) && i <= |s| && forall f | f in s :: HasId(live, f.invoice)
    ensures SumUpTo(s, i, Net) == BillNets(live, |live|, s, i)
  {
    if i == 0 {
      BillNetsNone(live, |live|, s);
    } else {
      RunningByBill(live, s, i - 1);
      assert s[i - 1] in s;
      var j :| 0 <= j < |live| && live[j].id == s[i - 1].invoice;
      BillNetsStep(live, |live|, s, i - 1, j);
    }
  }

  lemma NetIsDebitMinusCredit(s: seq<Fact>, i: nat, id: nat)
    requires i <= |s|
    ensures SumUpTo(s, i, NetFor(id)) == SumUpTo(s, i, DebitFor(id)) - SumUpTo(s, i, CreditFor(id))
  {
    SumMinus(s, i, DebitFor(id), CreditFor(id), NetFor(id));
  }

  /** Until its charge is reached, a bill has no entries. */
  lemma NothingBeforeCharge(s: seq<Fact>, i: nat, charge: Fact)
    requires i <= |s| && SortedBy(s, SortKey) && Heads(charge, s) && forall c | 0 <= c < i :: s[c] != charge
    ensures SumUpTo(s, i, DebitFor(charge.invoice)) == 0 && SumUpTo(s, i, CreditFor(charge.invoice)) == 0
  {
    var id := charge.invoice;
    var c :| 0 <= c < |s| && s[c] == charge;
    forall k | 0 <= k < i ensures s[k].invoice != id {
      assert s[k] in s && SortKey(s[k]) <= SortKey(s[c]);
    }
    SumZero(s, i, DebitFor(id));
    SumZero(s, i, CreditFor(id));
  }

  /**
   * In any sorted list where an invoice's credits follow its charge and do not exceed
   * it, what the invoice contributes is never negative, wherever the list is cut.
   */
  lemma BillNeverNegative(s: seq<Fact>, i: nat, charge: Fact)
    requires i <= |s| && SortedBy(s, SortKey) && charge.debit >= 0 && charge.credit == 0
    requires Heads(charge, s)
    requires Sum(s, CreditFor(charge.invoice)) <= Sum(s, DebitFor(charge.invoice)) == charge.debit
    ensures SumUpTo(s, i, NetFor(charge.invoice)) >= 0
  {
    var id := charge.invoice;
    assert forall k | 0 <= k < |s| :: s[k] in s;
    NetIsDebitMinusCredit(s, i, id);
    SumMonotone(s, i, |s|, CreditFor(id));
    if c :| 0 <= c < i && s[c] == charge {
      SumMonotone(s, c + 1, i, DebitFor(id));
      SumMonotone(s, 0, c, DebitFor(id));
    } else {
      NothingBeforeCharge(s, i, charge);
    }
  }

  /** No invoice was changed before it was made. */
  ghost predicate Dated(invoices: seq<LedgerInvoice>) {
    forall k | 0 <= k < |invoices| :: invoices[k].createdAt <= invoices[k].updatedAt
  }

  predicate WithinPayable(l: LedgerInvoice) { l.paid <= Payable(l.total, l.discount) }

  /** No live invoice has received more than is payable, and none was changed before it was made. */
  ghost predicate Unexceeded(invoices: seq<LedgerInvoice>) {
    Dated(invoices) && forall k | 0 <= k < |invoices| && Live(invoices[k]) :: WithinPayable(invoices[k])
  }

  lemma LiveBillNeverNegative(invoices: seq<LedgerInvoice>, payments: seq<LedgerPayment>, j: nat, i: nat)
    requires WellKept(invoices, payments) && Dated(invoices)
    requires j < |LiveOf(invoices, |invoices|)| && i <= |Statement(invoices, payments)|
    requires WithinPayable(LiveOf(invoices, |invoices|)[j])
    ensures SumUpTo(Statement(invoices, payments), i, NetFor(LiveOf(invoices, |invoices|)[j].id)) >= 0
  {
    var live := LiveOf(invoices, |invoices|);
    LiveFrom(invoices, |invoices|);
    assert live[j] in live;
    BillSums(invoices, payments, j);
    StatementFollows(invoices, payments, j);
    SortSorts(Facts(invoices, payments), SortKey);
    BillNeverNegative(Statement(invoices, payments), i, ChargeOf(live[j], VerifiedOf(payments, |payments|, live)));
  }

  /** What one bill has contributed to the balance, wherever the statement is cut. */
  ghost predicate NeverDips(s: seq<Fact>, id: nat) { forall i | 0 <= i <= |s| :: SumUpTo(s, i, NetFor(id)) >= 0 }

  /**
   * Bill by bill: what a live invoice contributes to the running balance never falls below
   * zero exactly when no more was paid on it than is payable.
   */
  lemma BillNeverDipsIff(invoices: seq<LedgerInvoice>, payments: seq<LedgerPayment>, j: nat)
    requires WellKept(invoices, payments) && Dated(invoices) && j < |LiveOf(invoices, |invoices|)|
    ensures var l := LiveOf(invoices, |invoices|)[j];
      NeverDips(Statement(invoices, payments), l.id) <==> WithinPayable(l)
  {
    var s, l := Statement(invoices, payments), LiveOf(invoices, |invoices|)[j];
    if WithinPayable(l) {
      forall i | 0 <= i <= |s| ensures SumUpTo(s, i, NetFor(l.id)) >= 0 {
        LiveBillNeverNegative(invoices, payments, j, i);
      }
    } else {
      LiveFrom(invoices, |invoices|);
      assert l in LiveOf(invoices, |invoices|);
      BillSums(invoices, payments, j);
      NetIsDebitMinusCredit(s, |s|, l.id);
      assert SumUpTo(s, |s|, NetFor(l.id)) < 0;
    }
  }

  lemma {:induction false} BillsNeverNegative(
      invoices: seq<LedgerInvoice>, payments: seq<LedgerPayment>, m: nat, i: nat)
    requires WellKept(invoices, payments) && Unexceeded(invoices)
    requires m <= |LiveOf(invoices, |invoices|)| && i <= |Statement(invoices, payments)|
    ensures BillNets(LiveOf(invoices, |invoices|), m, Statement(invoices, payments), i) >= 0
  {
    if m > 0 {
      BillsNeverNegative(invoices, payments, m - 1, i);
      LiveFrom(invoices, |invoices|);
      assert LiveOf(invoices, |invoices|)[m - 1] in LiveOf(invoices, |invoices|);
      LiveBillNeverNegative(invoices, payments, m - 1, i);
    }
  }

  /** While no live invoice is overpaid, the statement's balance is never negative. */
  lemma StatementNeverDips(invoices: seq<LedgerInvoice>, payments: seq<LedgerPayment>, i: nat)
    requires WellKept(invoices, payments) && Unexceeded(invoices)
    requires i <= |Statement(invoices, payments)|
    ensures SumUpTo(Statement(invoices, payments), i, Net) >= 0
  {
    var live := LiveOf(invoices, |invoices|);
    LiveFrom(invoices, |invoices|);
    FactsOwned(invoices, payments);
    RunningByBill(live, Statement(invoices, payments), i);
    BillsNeverNegative(invoices, payments, |live|, i);
  }

  // ---------------------------------------------------------------------------
  // The closing balance
  // ---------------------------------------------------------------------------

  predicate Counted(status: FeeStatus) { status != CANCELLED && status != WAIVED }

  /** expectedClosingBalance: what is outstanding on invoices neither cancelled nor waived. */
  function ExpectedClosing(invoices: seq<LedgerInvoice>, n: nat): int
    requires n <= |invoices|
  {
    if n == 0 then 0
    else ExpectedClosing(invoices, n - 1)
         + if Counted(invoices[n - 1].status)
           then Balance(invoices[n - 1].total, invoices[n - 1].discount, invoices[n - 1].paid) else 0
  }

  /** Money paid beyond what is payable, over the live invoices. */
  function OverpaidTotal(invoices: seq<LedgerInvoice>, n: nat): int
    requires n <= |invoices|
  {
    if n == 0 then 0
    else OverpaidTotal(invoices, n - 1)
         + if Live(invoices[n - 1])
           then Overpaid(invoices[n - 1].total, invoices[n - 1].discount, invoices[n - 1].paid) else 0
  }

  /** What one live invoice leaves on the statement. */
  function Residue(l: LedgerInvoice): int { l.total - l.discount - Forgiven(l) - l.paid }

  function ResidueSum(live: seq<LedgerInvoice>, m: nat): int
    requires m <= |live|
  {
    if m == 0 then 0 else ResidueSum(live, m - 1) + Residue(live[m - 1])
  }

  lemma {:induction false} ResidueAgree(a: seq<LedgerInvoice>, b: seq<LedgerInvoice>, m: nat)
    requires m <= |a| && m <= |b| && forall k | 0 <= k < m :: a[k] == b[k]
    ensures ResidueSum(a, m) == ResidueSum(b, m)
  {
    if m > 0 { ResidueAgree(a, b, m - 1); }
  }

  lemma {:induction false} ResidueIsOutstanding(invoices: seq<LedgerInvoice>, n: nat)
    requires n <= |invoices|
    requires forall i | 0 <= i < n && Live(invoices[i]) :: 0 <= invoices[i].discount <= invoices[i].total
    ensures var live := LiveOf(invoices, n);
            ResidueSum(live, |live|) == ExpectedClosing(invoices, n) - OverpaidTotal(invoices, n)
  {
    if n > 0 {
      ResidueIsOutstanding(invoices, n - 1);
      var rest := LiveOf(invoices, n - 1);
      ResidueAgree(rest, LiveOf(invoices, n), |rest|);
    }
  }

  lemma {:induction false} BillNetsClose(invoices: seq<LedgerInvoice>, payments: seq<LedgerPayment>, m: nat)
    requires WellKept(invoices, payments) && m <= |LiveOf(invoices, |invoices|)|
    ensures var live, s := LiveOf(invoices, |invoices|), Statement(invoices, payments);
            BillNets(live, m, s, |s|) == ResidueSum(live, m)
  {
    hide Statement, LiveOf, Forgiven, WellKept;
    if m > 0 {
      BillNetsClose(invoices, payments, m - 1);
      BillSums(invoices, payments, m - 1);
      var live, s := LiveOf(invoices, |invoices|), Statement(invoices, payments);
      NetIsDebitMinusCredit(s, |s|, live[m - 1].id);
    }
  }

  /** A statement closes at what is outstanding, less what was overpaid on live invoices. */
  lemma StatementCloses(invoices: seq<LedgerInvoice>, payments: seq<LedgerPayment>)
    requires WellKept(invoices, payments)
    ensures ClosingBalance(invoices, payments)
            == ExpectedClosing(invoices, |invoices|) - OverpaidTotal(invoices, |invoices|)
  {
    var live, s := LiveOf(invoices, |invoices|), Statement(invoices, payments);
    LiveFrom(invoices, |invoices|);
    FactsOwned(invoices, payments);
    RunningByBill(live, s, |s|);
    BillNetsClose(invoices, payments, |live|);
    ResidueIsOutstanding(invoices, |invoices|);
  }

  lemma {:induction false} OverpaidNonNegative(invoices: seq<LedgerInvoice>, n: nat)
    requires n <= |invoices|
    ensures OverpaidTotal(invoices, n) >= 0
    ensures OverpaidTotal(invoices, n) == 0 <==>
      forall k | 0 <= k < n && Live(invoices[k]) ::
        invoices[k].paid <= Payable(invoices[k].total, invoices[k].discount)
  {
    if n > 0 { OverpaidNonNegative(invoices, n - 1); }
  }

  /** The statement agrees with the expected closing balance exactly when no live invoice is overpaid. */
  lemma StatementClosesAsExpectedIff(invoices: seq<LedgerInvoice>, payments: seq<LedgerPayment>)
    requires WellKept(invoices, payments)
    ensures ClosingBalance(invoices, payments) == ExpectedClosing(invoices, |invoices|)
            <==> forall k | 0 <= k < |invoices| && Live(invoices[k]) ::
                   invoices[k].paid <= Payable(invoices[k].total, invoices[k].discount)
  {
    StatementCloses(invoices, payments);
    OverpaidNonNegative(invoices, |invoices|);
  }
}
