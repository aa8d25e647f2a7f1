/**
 * The finance tables as the services update them: each statement of a transaction
 * changes the store in place, and each is proved to be the protocol step it stands for.
 * Verifying, rejecting and recording a payment are then put together from those
 * statements and proved to do what the office asked for.
 */
module InvoiceStore {
  import opened Wrappers
  import opened FeeMath
  import opened InvoiceProtocol
  import opened InvoiceInvariant
  import opened ReceiptOrder
  import opened Sequences
  import N = NumberSequence

  function VerifiedIn(inv: nat): Payment -> int {
    (p: Payment) => if p.invoice == inv && p.status == VERIFIED then p.amount else 0
  }

  function PendingIn(inv: nat): Payment -> int {
    (p: Payment) => if p.invoice == inv && p.status == PENDING then p.amount else 0
  }

  lemma {:induction false} TotalsAreSums(ps: seq<Payment>, n: nat, inv: nat)
    requires n <= |ps|
    ensures TotalsUpTo(ps, n, inv).verified == SumUpTo(ps, n, VerifiedIn(inv))
    ensures TotalsUpTo(ps, n, inv).pending == SumUpTo(ps, n, PendingIn(inv))
  {
    if n > 0 { TotalsAreSums(ps, n - 1, inv); }
  }

  /** sum(...) over the verified, or the pending, payments of one invoice. */
  method SumPayments(inv: nat, view: seq<Payment>) returns (sums: Totals)
    ensures sums == TotalsOf(view, inv)
    ensures sums.verified == Sum(view, VerifiedIn(inv)) && sums.pending == Sum(view, PendingIn(inv))
  {
    TotalsAreSums(view, |view|, inv);
    sums := Totals(0, 0, 0);
    for i := 0 to |view|
      invariant sums == TotalsUpTo(view, i, inv)
    {
      if view[i].invoice == inv {
        if view[i].status == VERIFIED {
          sums := Totals(sums.verified + view[i].amount, sums.pending, sums.live + 1);
        } else if view[i].status == PENDING {
          sums := Totals(sums.verified, sums.pending + view[i].amount, sums.live + 1);
        }
      }
    }
  }

  // ---------------------------------------------------------------------------
  // What an operation does to the tables
  // ---------------------------------------------------------------------------

  /** One invoice now says what its verified payments add up to; no other row has changed. */
  ghost predicate Resettled(a: Db, b: Db, inv: nat) {
    && inv < |a.invoices| == |b.invoices|
    && (forall i | 0 <= i < |a.invoices| && i != inv :: b.invoices[i] == a.invoices[i])
    && var row, was := b.invoices[inv], a.invoices[inv];
       && SameBill(row, was) && row.discount == was.discount
       && row.paid == TotalsOf(b.payments, inv).verified
       && (if Closed(was.status) then row.status == was.status
           else row.status == DeriveStatus(row.total, row.discount, row.paid, None))
  }

  /** Payment p has become `row`, and its invoice has followed. */
  ghost predicate PaymentBecame(a: Db, b: Db, p: nat, row: Payment) {
    && p < |a.payments| && row.invoice == a.payments[p].invoice
    && b.payments == a.payments[p := row] && b.prefix == a.prefix
    && Resettled(a, b, row.invoice)
  }

  /** The row a verification leaves: paid, with the receipt next in its year. */
  function Receipted(db: Db, p: nat): Payment
    requires p < |db.payments|
  {
    var row := db.payments[p];
    row.(status := VERIFIED, receipt := ReceiptNumber(db.prefix, row.year, Top(db.payments, row.year) + 1))
  }

  /** A payment that reject still accepts: on file, and not rejected already. */
  predicate Rejectable(ps: seq<Payment>, p: nat) {
    p < |ps| && (ps[p].status == PENDING || ps[p].status == VERIFIED)
  }

  /** An open invoice whose verified and pending payments leave room for the amount. */
  ghost predicate Fits(db: Db, inv: nat, amount: int) {
    && inv < |db.invoices| && !Closed(db.invoices[inv].status)
    && var t := TotalsOf(db.payments, inv);
       t.verified + t.pending + amount <= Payable(db.invoices[inv].total, db.invoices[inv].discount)
  }

  /** One invoice row has changed, keeping what was billed and paid; every other row is as it was. */
  ghost predicate InvoiceBecame(a: Db, b: Db, inv: nat, row: Invoice) {
    && inv < |a.invoices| && SameBill(row, a.invoices[inv]) && row.paid == a.invoices[inv].paid
    && b == a.(invoices := a.invoices[inv := row])
  }

  /** No payment of the invoice is pending or verified. */
  predicate NoLivePayment(ps: seq<Payment>, inv: nat) {
    forall k | 0 <= k < |ps| && ps[k].invoice == inv :: ps[k].status != PENDING && ps[k].status != VERIFIED
  }

  lemma {:induction false} NoneLiveUpTo(ps: seq<Payment>, n: nat, inv: nat)
    requires n <= |ps|
    ensures TotalsUpTo(ps, n, inv).live >= 0
    ensures TotalsUpTo(ps, n, inv).live == 0 <==>
      forall k | 0 <= k < n && ps[k].invoice == inv :: ps[k].status != PENDING && ps[k].status != VERIFIED
  {
    if n > 0 { NoneLiveUpTo(ps, n - 1, inv); }
  }

  /** Nobody else is inside a transaction. */
  predicate Idle(s: State) {
    s.locks == map[] && forall t | 0 <= t < |s.txs| :: !Holds(s.txs[t].pc)
  }

  /** s with one more transaction, which may hold `inv`. */
  ghost predicate Joined(s: State, n: State, op: Op) {
    && n.db == s.db && n.issued == s.issued
    && |n.txs| == |s.txs| + 1 && s.txs <= n.txs && n.txs[|s.txs|].op == op
    && n.locks == (if Holds(n.txs[|s.txs|].pc) then s.locks[n.txs[|s.txs|].pc.inv := |s.txs|] else s.locks)
  }

  /** The operation is over and its transaction with it: nobody is left inside. */
  ghost predicate Over(s: State, n: State) {
    Inv(n) && Idle(n) && n.db.prefix == s.db.prefix
  }

  lemma FreshNumberIsFree(db: Db, p: nat)
    requires p < |db.payments| && N.FourDigitYear(db.payments[p].year) && N.OneLine(db.prefix)
    ensures !ReceiptTaken(db.payments, Receipted(db, p).receipt)
  {
    PastTheTopIsFree(db.payments, db.prefix, db.payments[p].year, Top(db.payments, db.payments[p].year) + 1);
  }

  class FinanceStore {
    var invoices: seq<Invoice>
    var payments: seq<Payment>
    var prefix: string
    var locks: map<nat, nat>
    var txs: seq<Tx>
    var issued: seq<Issue>

    ghost function View(): State
      reads this
    {
      State(Db(invoices, payments, prefix), locks, txs, issued)
    }

    constructor ()
      ensures View() == START && Inv(View())
    {
      invoices, payments, prefix := [], [], DEFAULT_PREFIX;
      locks, txs, issued := map[], [], [];
    }

    /** The findMany on the year, then one past the highest sequence read. */
    method CountReceipts(year: nat) returns (sequence: nat)
      ensures sequence == Top(payments, year) + 1
      ensures forall k | 0 <= k < |payments| :: ReadSequence(payments[k].receipt, year) < sequence
    {
      var read: seq<string> := [];
      for i := 0 to |payments|
        invariant read == ReadIssued(payments, i, year)
      {
        if Contains(payments[i].receipt, YearText(year)) {
          read := read + [payments[i].receipt];
        }
      }
      sequence := N.NextSequence(read, year, N.RECEIPT_WIDTH);
      NextReceiptContinues(payments, year);
      forall k | 0 <= k < |payments| ensures ReadSequence(payments[k].receipt, year) < sequence {
        AtMostMax(Readings(payments, year), |payments|, k);
      }
    }

    method Begin(op: Op) returns (tid: nat)
      requires WellFormed(op)
      modifies this`txs
      ensures View() == Next(old(View()), Start(op)) && tid == |old(txs)|
    {
      tid := |txs|;
      txs := txs + [Tx(op, Pc.Begin, 0)];
    }

    /** The unlocked look at the payment that verify and reject begin with. */
    method ReadPayment(tid: nat)
      requires tid < |txs| && txs[tid].pc.Begin? && (txs[tid].op.Verify? || txs[tid].op.Reject?)
      modifies this`txs
      ensures View() == StepBegin(old(View()), tid)
    {
      var p := txs[tid].op.payment;
      var open := p < |payments| &&
        (payments[p].status == PENDING || (payments[p].status == VERIFIED && txs[tid].op.Reject?));
      if open {
        txs := txs[tid := txs[tid].(pc := Armed(payments[p].invoice, payments[p].year))];
      } else {
        txs := txs[tid := txs[tid].(pc := Failed)];
      }
    }

    method Rollback(tid: nat)
      requires tid < |txs|
      modifies this`txs, this`locks
      ensures View() == Aborted(old(View()), tid)
    {
      if Holds(txs[tid].pc) { locks := locks - {txs[tid].pc.inv}; }
      txs := txs[tid := txs[tid].(pc := Failed)];
    }

    method LockInvoice(tid: nat)
      requires tid < |txs| && txs[tid].pc.Armed?
      modifies this`txs, this`locks
      ensures View() == StepLock(old(View()), tid)
    {
      var Armed(inv, year) := txs[tid].pc;
      if inv >= |invoices| {
        txs := txs[tid := txs[tid].(pc := Failed)];
      } else if inv !in locks {
        locks := locks[inv := tid];
        txs := txs[tid := txs[tid].(pc := Locked(inv, year))];
      }
    }

    method CountYear(tid: nat)
      requires tid < |txs| && txs[tid].pc.Locked? && txs[tid].op.Verify?
      modifies this`txs
      ensures View() == StepLocked(old(View()), tid)
    {
      var Locked(inv, year) := txs[tid].pc;
      var sequence := CountReceipts(year);
      NextReceiptContinues(payments, year);
      txs := txs[tid := txs[tid].(pc := Counted(inv, year, sequence))];
    }

    /** The second read, of the settings, and the number printed with it. */
    method PrintNumber(tid: nat)
      requires tid < |txs| && txs[tid].pc.Counted?
      modifies this`txs
      ensures View() == StepCounted(old(View()), tid)
    {
      var Counted(inv, year, sequence) := txs[tid].pc;
      txs := txs[tid := txs[tid].(pc := Numbered(inv, year, ReceiptNumber(prefix, year, sequence)))];
    }

    /** The conditional update of verify, with the unique index behind it. */
    method MarkVerified(tid: nat)
      requires tid < |txs| && txs[tid].pc.Numbered? && txs[tid].op.Verify?
      modifies this`txs, this`locks
      ensures View() == StepNumbered(old(View()), tid)
    {
      var Tx(Verify(p), Numbered(inv, year, number), attempt) := txs[tid];
      if p >= |payments| || payments[p].status != PENDING {
        Rollback(tid);
      } else if ReceiptTaken(payments, number) {
        if attempt + 1 < RECEIPT_ATTEMPTS {
          locks := locks - {inv};
          txs := txs[tid := Tx(Verify(p), Armed(inv, year), attempt + 1)];
        } else {
          Rollback(tid);
        }
      } else if !NumberBuffered(txs, number) {
        var row := payments[p].(status := VERIFIED, receipt := number);
        txs := txs[tid := txs[tid].(pc := Marked(inv, Replace(p, row)))];
      }
    }

    /** Reject's check under the lock, and the update it buffers. */
    method MarkRejected(tid: nat)
      requires tid < |txs| && txs[tid].pc.Locked? && txs[tid].op.Reject?
      modifies this`txs, this`locks
      ensures View() == StepLocked(old(View()), tid)
    {
      var Tx(Reject(p), Locked(inv, _), _) := txs[tid];
      if p < |payments| && payments[p].status != REJECTED && payments[p].status != SWEPT {
        var row := payments[p].(status := PaymentStatus.REJECTED);
        txs := txs[tid := txs[tid].(pc := Marked(inv, Replace(p, row)))];
      } else {
        Rollback(tid);
      }
    }

    /** The invoice as read under the lock. */
    method ReadInvoice(tid: nat)
      requires tid < |txs| && (txs[tid].pc.Marked? || (txs[tid].pc.Locked? && !txs[tid].op.Verify? && !txs[tid].op.Reject?))
      modifies this`txs, this`locks
      ensures View() == StepTx(old(View()), tid)
    {
      var inv := txs[tid].pc.inv;
      var write := if txs[tid].pc.Marked? then txs[tid].pc.write else Keep;
      if inv < |invoices| {
        txs := txs[tid := txs[tid].(pc := HasRow(inv, write, invoices[inv]))];
      } else {
        Rollback(tid);
      }
    }

    /** mutateLocked: discount, waive and cancel on the row just read. */
    method MutateLocked(tid: nat)
      requires tid < |txs| && txs[tid].pc.HasRow? && txs[tid].pc.write == Keep
      requires txs[tid].op.Discount? || txs[tid].op.Waive? || txs[tid].op.Cancel?
      modifies this`txs, this`locks
      ensures View() == StepHasRow(old(View()), tid)
    {
      var op, row, inv := txs[tid].op, txs[tid].pc.row, txs[tid].pc.inv;
      var sums := SumPayments(inv, payments);
      var closed := row.status == WAIVED || row.status == CANCELLED;
      if op.Discount? {
        if closed || op.amount > row.total {
          Rollback(tid);
        } else {
          var status := DeriveStatus(row.total, op.amount, row.paid, None);
          txs := txs[tid := txs[tid].(pc := Ready(inv, Keep, row.(discount := op.amount, status := status)))];
        }
      } else if op.Waive? {
        if closed { Rollback(tid); } else {
          txs := txs[tid := txs[tid].(pc := Ready(inv, Keep, row.(status := WAIVED)))];
        }
      } else if row.status == CANCELLED || sums.live > 0 {
        Rollback(tid);
      } else {
        txs := txs[tid := txs[tid].(pc := Ready(inv, Keep, row.(status := CANCELLED)))];
      }
    }

    /** recalculateInvoice for verify and reject: re-derives the row from what is verified. */
    method RecalculateInvoice(tid: nat)
      requires tid < |txs| && txs[tid].pc.HasRow? && (txs[tid].op.Verify? || txs[tid].op.Reject?)
      requires Inv(View())
      modifies this`txs
      ensures View() == StepHasRow(old(View()), tid)
    {
      assert TxOk(View().db, locks, tid, txs[tid]);
      var HasRow(inv, write, row) := txs[tid].pc;
      var seen := payments[write.id := write.row];
      var sums := SumPayments(inv, seen);
      var status := DeriveStatus(row.total, row.discount, sums.verified, Some(row.status));
      txs := txs[tid := txs[tid].(pc := Ready(inv, write, row.(paid := sums.verified, status := status)))];
    }

    /** assertNotOverpaying, then the insert: pending payments count toward the ceiling. */
    method InsertPending(tid: nat)
      requires tid < |txs| && txs[tid].pc.HasRow? && txs[tid].op.Record? && txs[tid].pc.write == Keep
      modifies this`txs, this`locks
      ensures View() == StepHasRow(old(View()), tid)
    {
      var Tx(Record(_, amount, year, placeholder), HasRow(inv, _, row), _) := txs[tid];
      var sums := SumPayments(inv, payments);
      var outstanding := Payable(row.total, row.discount) - (row.paid + sums.pending);
      if row.status == CANCELLED || row.status == WAIVED || amount > outstanding {
        Rollback(tid);
      } else {
        var inserted := Payment(inv, amount, year, PENDING, placeholder);
        txs := txs[tid := txs[tid].(pc := Ready(inv, Insert(inserted), row))];
      }
    }

    /** Publishes the buffered rows and releases the lock; the invariant holds again at once. */
    method Commit(tid: nat)
      requires tid < |txs| && txs[tid].pc.Ready? && Inv(View())
      modifies this
      ensures View() == StepCommit(old(View()), tid)
      ensures Inv(View()) && DbOk(View().db)
    {
      ghost var before := View();
      assert TxOk(before.db, locks, tid, txs[tid]);
      var Ready(inv, write, row) := txs[tid].pc;
      match write {
        case Keep =>
        case Insert(inserted) => payments := payments + [inserted];
        case Replace(id, updated) =>
          payments := payments[id := updated];
          if txs[tid].op.Verify? { issued := issued + [Issue(id, updated.year, updated.receipt)]; }
      }
      invoices := invoices[inv := row];
      locks := locks - {inv};
      txs := txs[tid := txs[tid].(pc := Done)];
      CommitKeeps(before, tid);
    }

    /** The students who have no bill of the structure yet. */
    method PickTargets(tid: nat)
      requires tid < |txs| && txs[tid].pc.Begin? && txs[tid].op.Assign?
      modifies this`txs
      ensures View() == StepBegin(old(View()), tid)
    {
      var Assign(students, structure, _) := txs[tid].op;
      var targets: seq<nat> := [];
      for i := 0 to |students|
        invariant targets == Unbilled(students[..i], invoices, structure)
      {
        assert students[..i + 1] == students[..i] + [students[i]] && students[..i + 1][..i] == students[..i];
        if !Billed(invoices, students[i], structure) { targets := targets + [students[i]]; }
      }
      assert students[..|students|] == students;
      txs := txs[tid := txs[tid].(pc := Targeted(targets))];
    }

    /** The loop of assign: one invoice per student not yet billed, or none at all. */
    method IssueInvoices(tid: nat)
      requires tid < |txs| && txs[tid].pc.Targeted? && txs[tid].op.Assign?
      modifies this`txs, this`invoices
      ensures View() == StepBatch(old(View()), tid)
    {
      var Tx(Assign(_, structure, total), Targeted(targets), _) := txs[tid];
      if exists i | 0 <= i < |targets| :: Billed(invoices, targets[i], structure) {
        txs := txs[tid := txs[tid].(pc := Failed)];
      } else {
        var rows: seq<Invoice> := [];
        for i := 0 to |targets|
          invariant rows == NewInvoices(targets, structure, total)[..i]
        {
          rows := rows + [Invoice(targets[i], structure, total, 0, 0, if total == 0 then PAID else UNPAID)];
        }
        invoices := invoices + rows;
        txs := txs[tid := txs[tid].(pc := Done)];
      }
    }

    // -------------------------------------------------------------------------
    // Whole operations, with nobody else inside a transaction
    // -------------------------------------------------------------------------

    /** From a buffered payment row to the commit: read, recalculate, publish. */
    method Settle(tid: nat, ghost s: State)
      requires Inv(View()) && Idle(s) && tid == |s.txs| < |txs| && Joined(s, View(), txs[tid].op)
      requires txs[tid].pc.Marked? && (txs[tid].op.Verify? || txs[tid].op.Reject?)
      modifies this
      ensures Over(s, View())
      ensures var w := old(txs[tid].pc.write); w.Replace? && PaymentBecame(s.db, View().db, w.id, w.row)
      ensures var w := old(txs[tid].pc.write);
        issued == s.issued + if old(txs[tid].op.Verify?) then [Issue(w.id, w.row.year, w.row.receipt)] else []
    {
      ghost var v := View();
      assert TxOk(v.db, v.locks, tid, v.txs[tid]);
      ReadInvoice(tid);
      StepKeeps(v, tid);
      v := View();
      RecalculateInvoice(tid);
      StepKeeps(v, tid);
      Commit(tid);
    }

    /** The lock, the count under it, and the prefix. */
    method HoldNumber(tid: nat, p: nat, ghost s: State)
      requires Inv(View()) && Idle(s) && tid == |s.txs| && Joined(s, View(), Verify(p))
      requires Pending(s.db.payments, p)
      requires txs[tid].pc == Armed(s.db.payments[p].invoice, s.db.payments[p].year)
      modifies this`txs, this`locks
      ensures Inv(View()) && Joined(s, View(), Verify(p)) && txs[tid].attempt == old(txs[tid].attempt)
      ensures txs[tid].pc
        == Numbered(s.db.payments[p].invoice, s.db.payments[p].year, Receipted(s.db, p).receipt)
    {
      hide Inv, NextSequence, ReceiptNumber, Top;
      ghost var v := View();
      TargetExists(v, tid);
      LockInvoice(tid);
      StepKeeps(v, tid);
      v := View();
      NextReceiptContinues(payments, txs[tid].pc.year);
      CountYear(tid);
      StepKeeps(v, tid);
      v := View();
      PrintNumber(tid);
      StepKeeps(v, tid);
    }

    /** One pass of verify's retry loop: lock, choose a number, try to take it. */
    method TakeNumber(tid: nat, p: nat, ghost s: State)
      requires Inv(View()) && Idle(s) && tid == |s.txs| && Joined(s, View(), Verify(p))
      requires Pending(s.db.payments, p) && txs[tid].attempt < RECEIPT_ATTEMPTS
      requires txs[tid].pc == Armed(s.db.payments[p].invoice, s.db.payments[p].year)
      modifies this`txs, this`locks
      ensures Inv(View()) && Joined(s, View(), Verify(p))
      ensures var inv, row := s.db.payments[p].invoice, Receipted(s.db, p);
        if !ReceiptTaken(s.db.payments, row.receipt) then txs[tid].pc == Marked(inv, Replace(p, row))
        else if old(txs[tid].attempt) + 1 < RECEIPT_ATTEMPTS then
          txs[tid] == Tx(Verify(p), old(txs[tid].pc), old(txs[tid].attempt) + 1)
        else txs[tid].pc.Failed?
    {
      hide Inv, NextSequence, ReceiptNumber, Top, ReceiptTaken, NumberBuffered;
      HoldNumber(tid, p, s);
      ghost var v := View();
      NothingBuffered(s, v, tid);
      MarkVerified(tid);
      StepKeeps(v, tid);
    }

    /**
     * verify: a pending payment gets the next receipt of its year and moves its invoice;
     * anything else, or a number that stays taken through every attempt, changes nothing.
     */
    method VerifyPayment(p: nat) returns (verified: bool)
      requires Inv(View()) && Idle(View())
      modifies this
      ensures Over(old(View()), View())
      ensures verified <==>
        Pending(old(payments), p) && !ReceiptTaken(old(payments), Receipted(old(View().db), p).receipt)
      ensures Pending(old(payments), p) && N.FourDigitYear(old(payments)[p].year) && N.OneLine(prefix) ==> verified
      ensures verified ==>
        && PaymentBecame(old(View().db), View().db, p, Receipted(old(View().db), p))
        && issued == old(issued) + [Issue(p, payments[p].year, payments[p].receipt)]
      ensures !verified ==> View().db == old(View().db) && issued == old(issued)
    {
      hide Inv, TotalsOf, PaymentBecame, ReceiptTaken, ReceiptNumber, Top;
      ghost var s := View();
      if p < |payments| && N.FourDigitYear(payments[p].year) && N.OneLine(prefix) { FreshNumberIsFree(s.db, p); }
      var tid := Begin(Verify(p));
      NextKeeps(s, Start(Verify(p)));
      ghost var v := View();
      ReadPayment(tid);
      StepKeeps(v, tid);
      verified := false;
      while txs[tid].pc.Armed?
        invariant Inv(View()) && Joined(s, View(), Verify(p))
        invariant txs[tid].pc.Armed? || txs[tid].pc.Marked? || txs[tid].pc.Failed?
        invariant txs[tid].pc.Armed? ==>
          && Pending(s.db.payments, p) && txs[tid].attempt < RECEIPT_ATTEMPTS
          && txs[tid].pc == Armed(s.db.payments[p].invoice, s.db.payments[p].year)
        invariant txs[tid].pc.Marked? ==>
          && Pending(s.db.payments, p) && !ReceiptTaken(s.db.payments, Receipted(s.db, p).receipt)
          && txs[tid].pc == Marked(s.db.payments[p].invoice, Replace(p, Receipted(s.db, p)))
        invariant txs[tid].pc.Failed? && Pending(s.db.payments, p) ==>
          ReceiptTaken(s.db.payments, Receipted(s.db, p).receipt)
        decreases txs[tid].pc.Armed?, RECEIPT_ATTEMPTS - txs[tid].attempt
      {
        TakeNumber(tid, p, s);
      }
      if txs[tid].pc.Marked? {
        Settle(tid, s);
        verified := true;
      }
    }

    /** reject: a pending or verified payment is turned down, and a verified one is reversed. */
    method RejectPayment(p: nat) returns (rejected: bool)
      requires Inv(View()) && Idle(View())
      modifies this
      ensures Over(old(View()), View()) && issued == old(issued)
      ensures rejected <==> Rejectable(old(payments), p)
      ensures rejected ==>
        PaymentBecame(old(View().db), View().db, p, old(payments)[p].(status := PaymentStatus.REJECTED))
      ensures !rejected ==> View().db == old(View().db)
    {
      hide Inv, TotalsOf, PaymentBecame;
      ghost var s := View();
      var tid := Begin(Reject(p));
      NextKeeps(s, Start(Reject(p)));
      ghost var v := View();
      ReadPayment(tid);
      StepKeeps(v, tid);
      rejected := txs[tid].pc.Armed?;
      if rejected {
        v := View();
        TargetExists(v, tid);
        LockInvoice(tid);
        StepKeeps(v, tid);
        v := View();
        MarkRejected(tid);
        StepKeeps(v, tid);
        Settle(tid, s);
      }
    }

    /** assertNotOverpaying on the locked row, then the insert and the commit. */
    method RecordLocked(tid: nat, ghost s: State) returns (recorded: bool)
      requires Inv(View()) && Idle(s) && tid == |s.txs| < |txs| && Joined(s, View(), txs[tid].op)
      requires txs[tid].op.Record? && txs[tid].pc.Locked? && txs[tid].pc.inv == txs[tid].op.invoice
      modifies this
      ensures Over(s, View()) && issued == s.issued && invoices == s.db.invoices
      ensures var op := old(txs[tid].op);
        && (recorded <==> Fits(s.db, op.invoice, op.amount))
        && payments == s.db.payments
             + if recorded then [Payment(op.invoice, op.amount, op.year, PENDING, op.placeholder)] else []
    {
      hide DbOk, TxOk, TotalsOf;
      ghost var v := View();
      GoodInvoice(v, tid);
      ReadInvoice(tid);
      StepKeeps(v, tid);
      v := View();
      InsertPending(tid);
      StepKeeps(v, tid);
      recorded := txs[tid].pc.Ready?;
      if recorded { Commit(tid); }
    }

    /** record: an open invoice takes a payment of at most what is not yet paid or pending. */
    method RecordPayment(inv: nat, amount: int, year: nat, placeholder: string) returns (recorded: bool)
      requires Inv(View()) && Idle(View()) && WellFormed(Record(inv, amount, year, placeholder))
      modifies this
      ensures Over(old(View()), View()) && issued == old(issued) && invoices == old(invoices)
      ensures recorded <==> Fits(old(View().db), inv, amount)
      ensures payments == old(payments) + if recorded then [Payment(inv, amount, year, PENDING, placeholder)] else []
    {
      hide DbOk, TxOk, TotalsOf;
      ghost var s := View();
      var op := Record(inv, amount, year, placeholder);
      var tid := Begin(op);
      NextKeeps(s, Start(op));
      ghost var v := View();
      txs := txs[tid := txs[tid].(pc := Armed(inv, year))];
      StepKeeps(v, tid);
      v := View();
      LockInvoice(tid);
      StepKeeps(v, tid);
      recorded := false;
      if txs[tid].pc.Locked? {
        recorded := RecordLocked(tid, s);
      }
    }

    /** The decision on the locked row, and the commit. */
    method ChangeLocked(tid: nat, ghost s: State) returns (done: bool)
      requires Inv(View()) && Idle(s) && tid == |s.txs| < |txs| && Joined(s, View(), txs[tid].op)
      requires txs[tid].op.Discount? || txs[tid].op.Waive? || txs[tid].op.Cancel?
      requires txs[tid].pc.Locked? && txs[tid].pc.inv == txs[tid].op.invoice
      modifies this
      ensures Over(s, View()) && issued == s.issued
      ensures var op := old(txs[tid].op);
        && op.invoice < |s.db.invoices|
        && var decided := Decide(s.db, op, op.invoice, Keep, s.db.invoices[op.invoice]);
          && (done <==> decided.Some?)
          && View().db == if done then s.db.(invoices := s.db.invoices[op.invoice := decided.value.1]) else s.db
    {
      hide DbOk, TxOk, TotalsOf;
      ghost var v := View();
      GoodInvoice(v, tid);
      ReadInvoice(tid);
      StepKeeps(v, tid);
      v := View();
      MutateLocked(tid);
      StepKeeps(v, tid);
      done := txs[tid].pc.Ready?;
      if done { Commit(tid); }
    }

    /** mutateLocked from the request to the commit: the locked row decides, and nothing else changes. */
    method ChangeInvoice(op: Op, inv: nat, ghost s: State) returns (done: bool)
      requires s == View() && Inv(View()) && Idle(View()) && WellFormed(op)
      requires (op.Discount? || op.Waive? || op.Cancel?) && op.invoice == inv
      modifies this
      ensures Over(s, View()) && issued == s.issued
      ensures done <==> inv < |s.db.invoices| && Decide(s.db, op, inv, Keep, s.db.invoices[inv]).Some?
      ensures !done ==> View().db == s.db
      ensures done ==>
        View().db == s.db.(invoices := s.db.invoices[inv := Decide(s.db, op, inv, Keep, s.db.invoices[inv]).value.1])
    {
      hide DbOk, TxOk, TotalsOf;
      var tid := Begin(op);
      NextKeeps(s, Start(op));
      ghost var v := View();
      txs := txs[tid := txs[tid].(pc := Armed(inv, 0))];
      StepKeeps(v, tid);
      v := View();
      LockInvoice(tid);
      StepKeeps(v, tid);
      done := false;
      if txs[tid].pc.Locked? {
        done := ChangeLocked(tid, s);
      }
    }

    /** discount: an open invoice takes any discount up to its total, and its status follows. */
    method DiscountInvoice(inv: nat, amount: nat) returns (done: bool)
      requires Inv(View()) && Idle(View())
      modifies this
      ensures Over(old(View()), View()) && issued == old(issued)
      ensures done <==> inv < |old(invoices)| && !Closed(old(invoices)[inv].status) && amount <= old(invoices)[inv].total
      ensures !done ==> View().db == old(View().db)
      ensures done ==> var was := old(invoices)[inv];
        InvoiceBecame(old(View().db), View().db, inv,
          was.(discount := amount, status := DeriveStatus(was.total, amount, was.paid, None)))
    {
      hide Over, Inv;
      done := ChangeInvoice(Op.Discount(inv, amount), inv, View());
    }

    /** waive: an open invoice is WAIVED, with its amounts as they were. */
    method WaiveInvoice(inv: nat) returns (done: bool)
      requires Inv(View()) && Idle(View())
      modifies this
      ensures Over(old(View()), View()) && issued == old(issued)
      ensures done <==> inv < |old(invoices)| && !Closed(old(invoices)[inv].status)
      ensures !done ==> View().db == old(View().db)
      ensures done ==> InvoiceBecame(old(View().db), View().db, inv, old(invoices)[inv].(status := WAIVED))
    {
      hide Over, Inv;
      done := ChangeInvoice(Waive(inv), inv, View());
    }

    /** cancel: an invoice with no pending or verified payment is CANCELLED, once. */
    method CancelInvoice(inv: nat) returns (done: bool)
      requires Inv(View()) && Idle(View())
      modifies this
      ensures Over(old(View()), View()) && issued == old(issued)
      ensures done <==>
        inv < |old(invoices)| && old(invoices)[inv].status != CANCELLED && NoLivePayment(old(payments), inv)
      ensures !done ==> View().db == old(View().db)
      ensures done ==> InvoiceBecame(old(View().db), View().db, inv, old(invoices)[inv].(status := CANCELLED))
    {
      hide Over, Inv;
      NoneLiveUpTo(payments, |payments|, inv);
      done := ChangeInvoice(Cancel(inv), inv, View());
    }

    /** assign: each student without a bill of the structure gets one, for its total and unpaid unless that is nothing. */
    method AssignFee(students: seq<nat>, structure: nat, total: int)
      requires Inv(View()) && Idle(View()) && WellFormed(Assign(students, structure, total))
      modifies this
      ensures Over(old(View()), View()) && issued == old(issued) && payments == old(payments)
      ensures old(invoices) <= invoices
      ensures forall i | |old(invoices)| <= i < |invoices| ::
        && invoices[i] == Invoice(invoices[i].student, structure, total, 0, 0, if total == 0 then PAID else UNPAID)
        && invoices[i].student in students
        && forall k | 0 <= k < i :: invoices[k].student != invoices[i].student || invoices[k].structure != structure
      ensures forall st | st in students ::
        exists i :: 0 <= i < |invoices| && invoices[i].student == st && invoices[i].structure == structure
    {
      hide DbOk, TxOk, TotalsOf;
      ghost var s := View();
      var op := Assign(students, structure, total);
      var tid := Begin(op);
      NextKeeps(s, Start(op));
      ghost var v := View();
      PickTargets(tid);
      StepKeeps(v, tid);
      UnbilledAre(students, invoices, structure);
      UnbilledDistinct(students, invoices, structure);
      v := View();
      IssueInvoices(tid);
      StepKeeps(v, tid);
      AllBilled(students, s.db.invoices, structure, total);
    }
  }

  lemma {:induction false} UnbilledAre(students: seq<nat>, invoices: seq<Invoice>, structure: nat)
    ensures forall st :: st in Unbilled(students, invoices, structure) <==> st in students && !Billed(invoices, st, structure)
  {
    if students != [] {
      var front := students[..|students| - 1];
      UnbilledAre(front, invoices, structure);
      assert students == front + [students[|students| - 1]];
    }
  }

  lemma AllBilled(students: seq<nat>, invoices: seq<Invoice>, structure: nat, total: int)
    ensures var all := invoices + NewInvoices(Unbilled(students, invoices, structure), structure, total);
      forall st | st in students :: Billed(all, st, structure)
  {
    var targets := Unbilled(students, invoices, structure);
    var all := invoices + NewInvoices(targets, structure, total);
    UnbilledAre(students, invoices, structure);
    forall st | st in students ensures Billed(all, st, structure) {
      if Billed(invoices, st, structure) {
        var i :| 0 <= i < |invoices| && invoices[i].student == st && invoices[i].structure == structure;
        assert all[i] == invoices[i];
      } else {
        var k :| 0 <= k < |targets| && targets[k] == st;
        assert all[|invoices| + k] == NewInvoices(targets, structure, total)[k];
      }
    }
  }

  /** The invoice a verification or rejection has read is on file, so its lock can be asked for. */
  lemma TargetExists(s: State, tid: nat)
    requires Inv(s) && tid < |s.txs| && s.txs[tid].pc.Armed? && (s.txs[tid].op.Verify? || s.txs[tid].op.Reject?)
    ensures s.txs[tid].pc.inv < |s.db.invoices|
  {
    assert TxOk(s.db, s.locks, tid, s.txs[tid]);
  }

  /** The row under a held lock agrees with its payments. */
  lemma GoodInvoice(s: State, tid: nat)
    requires Inv(s) && tid < |s.txs| && Holds(s.txs[tid].pc)
    ensures s.txs[tid].pc.inv < |s.db.invoices|
    ensures s.db.invoices[s.txs[tid].pc.inv].paid == TotalsOf(s.db.payments, s.txs[tid].pc.inv).verified
  {
    assert TxOk(s.db, s.locks, tid, s.txs[tid]);
    assert GoodRow(s.db.invoices[s.txs[tid].pc.inv], TotalsOf(s.db.payments, s.txs[tid].pc.inv));
  }

  /** With nobody else inside, no number is waiting in another transaction's buffer. */
  lemma NothingBuffered(s: State, n: State, tid: nat)
    requires Idle(s) && tid == |s.txs| && |n.txs| == |s.txs| + 1 && s.txs <= n.txs && n.txs[tid].pc.Numbered?
    ensures !NumberBuffered(n.txs, n.txs[tid].pc.number)
  {
    forall t | 0 <= t < |n.txs| ensures !Buffers(n.txs[t].pc) {
      assert t < tid ==> n.txs[t] == s.txs[t];
    }
  }
}
