/**
 * The running-balance statement: every live invoice is a debit, every discount, waiver
 * and verified payment a credit, sorted by date and then by kind.
 */
module StatementLedger {
  import opened Wrappers
  import opened FeeMath
  import opened Sequences
  import InvoiceProtocol

  type PaymentStatus = InvoiceProtocol.PaymentStatus

  datatype LedgerInvoice = LedgerInvoice(
    id: nat, total: int, discount: int, paid: int, status: FeeStatus, createdAt: int, updatedAt: int)

  datatype LedgerPayment = LedgerPayment(invoice: nat, amount: int, status: PaymentStatus, paidAt: int)

  datatype Kind = INVOICE | DISCOUNT | PAYMENT | WAIVER

  /** A fact before balances are run; `invoice` is the bill it belongs to. */
  datatype Fact = Fact(date: int, kind: Kind, debit: int, credit: int, invoice: nat)

  datatype Entry = Entry(fact: Fact, balance: int)

  /** Credits land after the debit they settle when both share a timestamp. */
  function Order(kind: Kind): nat {
    match kind case INVOICE => 0 case DISCOUNT => 1 case PAYMENT => 2 case WAIVER => 3
  }

  /** Date first, then kind: the comparator as one number. */
  const SortKey: Fact -> int := (f: Fact) => f.date * 4 + Order(f.kind)

  function NetOf(f: Fact): int { f.debit - f.credit }

  const Net: Fact -> int := (f: Fact) => NetOf(f)

  // ---------------------------------------------------------------------------
  // The facts of a statement
  // ---------------------------------------------------------------------------

  function LiveOf(invoices: seq<LedgerInvoice>, n: nat): seq<LedgerInvoice>
    requires n <= |invoices|
  {
    if n == 0 then []
    else if invoices[n - 1].status == CANCELLED then LiveOf(invoices, n - 1)
    else LiveOf(invoices, n - 1) + [invoices[n - 1]]
  }

  predicate HasId(live: seq<LedgerInvoice>, id: nat) { exists i | 0 <= i < |live| :: live[i].id == id }

  function VerifiedOf(payments: seq<LedgerPayment>, n: nat, live: seq<LedgerInvoice>): seq<LedgerPayment>
    requires n <= |payments|
  {
    if n == 0 then []
    else if payments[n - 1].status == InvoiceProtocol.VERIFIED && HasId(live, payments[n - 1].invoice)
    then VerifiedOf(payments, n - 1, live) + [payments[n - 1]]
    else VerifiedOf(payments, n - 1, live)
  }

  /** A charge is posted no later than its earliest payment. */
  function PostingDate(invoice: LedgerInvoice, verified: seq<LedgerPayment>, n: nat): int
    requires n <= |verified|
  {
    if n == 0 then invoice.createdAt
    else
      var earliest := PostingDate(invoice, verified, n - 1);
      if verified[n - 1].invoice == invoice.id && verified[n - 1].paidAt < earliest
      then verified[n - 1].paidAt else earliest
  }

  function Forgiven(invoice: LedgerInvoice): nat {
    if invoice.status == WAIVED then Balance(invoice.total, invoice.discount, invoice.paid) else 0
  }

  function InvoiceFacts(invoice: LedgerInvoice, posted: int): seq<Fact> {
    [Fact(posted, INVOICE, invoice.total, 0, invoice.id)]
    + (if invoice.discount > 0 then [Fact(posted, DISCOUNT, 0, invoice.discount, invoice.id)] else [])
    + (if Forgiven(invoice) > 0 then [Fact(invoice.updatedAt, WAIVER, 0, Forgiven(invoice), invoice.id)] else [])
  }

  function ChargeFacts(live: seq<LedgerInvoice>, n: nat, verified: seq<LedgerPayment>): seq<Fact>
    requires n <= |live|
  {
    if n == 0 then []
    else ChargeFacts(live, n - 1, verified)
         + InvoiceFacts(live[n - 1], PostingDate(live[n - 1], verified, |verified|))
  }

  function PaymentFact(p: LedgerPayment): Fact { Fact(p.paidAt, PAYMENT, 0, p.amount, p.invoice) }

  function PaymentFacts(verified: seq<LedgerPayment>, n: nat): seq<Fact>
    requires n <= |verified|
  {
    if n == 0 then [] else PaymentFacts(verified, n - 1) + [PaymentFact(verified[n - 1])]
  }

  function Facts(invoices: seq<LedgerInvoice>, payments: seq<LedgerPayment>): seq<Fact> {
    var live := LiveOf(invoices, |invoices|);
    var verified := VerifiedOf(payments, |payments|, live);
    ChargeFacts(live, |live|, verified) + PaymentFacts(verified, |verified|)
  }

  /** The facts in statement order. */
  function Statement(invoices: seq<LedgerInvoice>, payments: seq<LedgerPayment>): seq<Fact> {
    Sort(Facts(invoices, payments), SortKey)
  }

  function ClosingBalance(invoices: seq<LedgerInvoice>, payments: seq<LedgerPayment>): int {
    Sum(Statement(invoices, payments), Net)
  }

  /** The loop of postingDate. */
  method FindPostingDate(invoice: LedgerInvoice, verified: seq<LedgerPayment>) returns (earliest: int)
    ensures earliest == PostingDate(invoice, verified, |verified|)
    ensures earliest <= invoice.createdAt
    ensures forall i | 0 <= i < |verified| && verified[i].invoice == invoice.id :: earliest <= verified[i].paidAt
    ensures earliest == invoice.createdAt
            || exists i :: 0 <= i < |verified| && verified[i].invoice == invoice.id && verified[i].paidAt == earliest
  {
    earliest := invoice.createdAt;
    for i := 0 to |verified|
      invariant earliest == PostingDate(invoice, verified, i)
      invariant earliest <= invoice.createdAt
      invariant forall j | 0 <= j < i && verified[j].invoice == invoice.id :: earliest <= verified[j].paidAt
      invariant earliest == invoice.createdAt
                || exists j :: 0 <= j < i && verified[j].invoice == invoice.id && verified[j].paidAt == earliest
    {
      if verified[i].invoice == invoice.id && verified[i].paidAt < earliest {
        earliest := verified[i].paidAt;
      }
    }
  }

  /** The filters at the top of buildLedger. */
  method SelectLive(invoices: seq<LedgerInvoice>, payments: seq<LedgerPayment>)
    returns (live: seq<LedgerInvoice>, verified: seq<LedgerPayment>)
    ensures live == LiveOf(invoices, |invoices|)
    ensures verified == VerifiedOf(payments, |payments|, live)
  {
    live, verified := [], [];
    for i := 0 to |invoices|
      invariant live == LiveOf(invoices, i)
    {
      if invoices[i].status != CANCELLED { live := live + [invoices[i]]; }
    }
    for i := 0 to |payments|
      invariant verified == VerifiedOf(payments, i, live)
    {
      if payments[i].status == InvoiceProtocol.VERIFIED && HasId(live, payments[i].invoice) {
        verified := verified + [payments[i]];
      }
    }
  }

  /** What one live invoice pushes. */
  method PushInvoice(raw: seq<Fact>, invoice: LedgerInvoice, verified: seq<LedgerPayment>) returns (r: seq<Fact>)
    ensures r == raw + InvoiceFacts(invoice, PostingDate(invoice, verified, |verified|))
  {
    var posted := FindPostingDate(invoice, verified);
    r := raw + [Fact(posted, INVOICE, invoice.total, 0, invoice.id)];
    if invoice.discount > 0 {
      r := r + [Fact(posted, DISCOUNT, 0, invoice.discount, invoice.id)];
    }
    if invoice.status == WAIVED {
      var forgiven := Balance(invoice.total, invoice.discount, invoice.paid);
      if forgiven > 0 { r := r + [Fact(invoice.updatedAt, WAIVER, 0, forgiven, invoice.id)]; }
    }
  }

  /** The final map: a running total over the sorted facts. */
  method RunBalance(raw: seq<Fact>) returns (entries: seq<Entry>, running: int)
    ensures |entries| == |raw| && running == Sum(raw, Net)
    ensures forall i | 0 <= i < |raw| :: entries[i] == Entry(raw[i], SumUpTo(raw, i + 1, Net))
  {
    entries, running := [], 0;
    for i := 0 to |raw|
      invariant running == SumUpTo(raw, i, Net) && |entries| == i
      invariant forall j | 0 <= j < i :: entries[j] == Entry(raw[j], SumUpTo(raw, j + 1, Net))
    {
      running := running + raw[i].debit - raw[i].credit;
      entries := entries + [Entry(raw[i], running)];
    }
  }

  method BuildLedger(invoices: seq<LedgerInvoice>, payments: seq<LedgerPayment>)
    returns (entries: seq<Entry>, closing: int)
    ensures |entries| == |Statement(invoices, payments)|
    ensures forall i | 0 <= i < |entries| ::
      entries[i] == Entry(Statement(invoices, payments)[i], SumUpTo(Statement(invoices, payments), i + 1, Net))
    ensures closing == ClosingBalance(invoices, payments)
  {
    var live, verified := SelectLive(invoices, payments);
    var raw: seq<Fact> := [];
    for i := 0 to |live|
      invariant raw == ChargeFacts(live, i, verified)
    {
      raw := PushInvoice(raw, live[i], verified);
    }
    ghost var charges := raw;
    for i := 0 to |verified|
      invariant raw == charges + PaymentFacts(verified, i)
    {
      raw := raw + [PaymentFact(verified[i])];
    }
    entries, closing := RunBalance(Sort(raw, SortKey));
  }
}
