/**
 * What every interleaving keeps about the money: each invoice's amountPaid is the sum
 * of its verified payments, its status follows from its amounts, and verified plus
 * pending money never exceeds what was billed.
 */
module InvoiceInvariant {
  import opened Wrappers
  import opened FeeMath
  import opened InvoiceProtocol

  // ---------------------------------------------------------------------------
  // The invariant
  // ---------------------------------------------------------------------------

  /** What holds between an invoice row and the payments against it. */
  predicate GoodRow(row: Invoice, t: Totals) {
    && 0 <= row.discount <= row.total
    && row.paid == t.verified
    && (Closed(row.status) || row.status == DeriveStatus(row.total, row.discount, row.paid, None))
    && t.verified + t.pending <= row.total
    && (row.status == CANCELLED ==> t.live == 0)
  }

  ghost predicate DbOk(db: Db) {
    && (forall i | 0 <= i < |db.invoices| :: GoodRow(db.invoices[i], TotalsOf(db.payments, i)))
    && (forall k | 0 <= k < |db.payments| :: db.payments[k].invoice < |db.invoices| && db.payments[k].amount > 0)
    && (forall i, j | 0 <= i < j < |db.invoices| ::
          db.invoices[i].student != db.invoices[j].student || db.invoices[i].structure != db.invoices[j].structure)
  }

  predicate SameBill(a: Invoice, b: Invoice) {
    a.student == b.student && a.structure == b.structure && a.total == b.total
  }

  /** What a buffered payment write may be, for the operation that buffers it. */
  predicate WriteOk(ps: seq<Payment>, inv: nat, op: Op, w: Write) {
    match w
    case Keep => !op.Verify? && !op.Reject?
    case Insert(row) =>
      op.Record? && row.invoice == inv && row.amount > 0 && row.status == PENDING && '/' !in row.receipt
    case Replace(id, row) =>
      && id < |ps| && ps[id].invoice == inv
      && ((op == Verify(id) && ps[id].status == PENDING
           && row == ps[id].(status := VERIFIED, receipt := row.receipt))
          || (op == Reject(id) && (ps[id].status == PENDING || ps[id].status == VERIFIED)
              && row == ps[id].(status := REJECTED)))
  }

  /** Once committed, the buffered rows agree with each other. */
  ghost predicate ReadyOk(db: Db, inv: nat, op: Op, w: Write, row: Invoice)
    requires inv < |db.invoices|
  {
    && WriteOk(db.payments, inv, op, w)
    && SameBill(row, db.invoices[inv])
    && GoodRow(row, TotalsOf(Apply(db.payments, w), inv))
    && (op.Record? <==> w.Insert?)
    && (w.Insert? ==> FitsPayable(row, TotalsOf(Apply(db.payments, w), inv)))
  }

  predicate FitsPayable(row: Invoice, t: Totals) {
    t.verified + t.pending <= Payable(row.total, row.discount)
  }

  /** A payment's invoice never changes, so the lock chosen at the pre-read is the right one. */
  predicate TargetOk(db: Db, tx: Tx) {
    (tx.pc.Armed? || Holds(tx.pc)) ==>
      match tx.op
      case Verify(p) => p < |db.payments| && db.payments[p].invoice == tx.pc.inv
      case Reject(p) => p < |db.payments| && db.payments[p].invoice == tx.pc.inv
      case _ => true
  }

  ghost predicate TxOk(db: Db, locks: map<nat, nat>, tid: nat, tx: Tx) {
    && WellFormed(tx.op)
    && TargetOk(db, tx)
    && (Holds(tx.pc) ==> tx.pc.inv < |db.invoices| && tx.pc.inv in locks && locks[tx.pc.inv] == tid)
    && match tx.pc
       case Counted(_, _, _) => tx.op.Verify?
       case Numbered(_, _, _) => tx.op.Verify?
       case Marked(inv, w) => WriteOk(db.payments, inv, tx.op, w) && w.Replace?
       case HasRow(inv, w, row) =>
         WriteOk(db.payments, inv, tx.op, w) && !w.Insert? && row == db.invoices[inv]
       case Ready(inv, w, row) => ReadyOk(db, inv, tx.op, w, row)
       case Targeted(targets) => tx.op.Assign? && Distinct(targets)
       case _ => true
  }

  ghost predicate Inv(s: State) {
    && DbOk(s.db)
    && forall t | 0 <= t < |s.txs| :: TxOk(s.db, s.locks, t, s.txs[t])
  }

  // ---------------------------------------------------------------------------
  // Sums
  // ---------------------------------------------------------------------------

  lemma {:induction false} TotalsAgree(ps: seq<Payment>, qs: seq<Payment>, n: nat, inv: nat)
    requires n <= |ps| && n <= |qs| && forall k | 0 <= k < n :: ps[k] == qs[k]
    ensures TotalsUpTo(ps, n, inv) == TotalsUpTo(qs, n, inv)
  {
    if n > 0 { TotalsAgree(ps, qs, n - 1, inv); }
  }

  lemma TotalsAppend(ps: seq<Payment>, row: Payment, inv: nat)
    ensures TotalsOf(ps + [row], inv) == Plus(TotalsOf(ps, inv), Share(row, inv))
  {
    TotalsAgree(ps, ps + [row], |ps|, inv);
  }

  lemma {:induction false} TotalsUpdateUpTo(ps: seq<Payment>, k: nat, row: Payment, n: nat, inv: nat)
    requires k < n <= |ps|
    ensures TotalsUpTo(ps[k := row], n, inv) == Plus(Minus(TotalsUpTo(ps, n, inv), Share(ps[k], inv)), Share(row, inv))
  {
    if k == n - 1 {
      TotalsAgree(ps, ps[k := row], k, inv);
    } else {
      TotalsUpdateUpTo(ps, k, row, n - 1, inv);
    }
  }

  lemma TotalsUpdate(ps: seq<Payment>, k: nat, row: Payment, inv: nat)
    requires k < |ps|
    ensures TotalsOf(ps[k := row], inv) == Plus(Minus(TotalsOf(ps, inv), Share(ps[k], inv)), Share(row, inv))
  {
    TotalsUpdateUpTo(ps, k, row, |ps|, inv);
  }

  /** The change a buffered write makes to one invoice's totals. */
  function Change(ps: seq<Payment>, w: Write, inv: nat): Totals
    requires w.Replace? ==> w.id < |ps|
  {
    match w
    case Keep => Totals(0, 0, 0)
    case Insert(row) => Share(row, inv)
    case Replace(id, row) => Minus(Share(row, inv), Share(ps[id], inv))
  }

  lemma ApplyTotals(ps: seq<Payment>, w: Write, inv: nat)
    requires w.Replace? ==> w.id < |ps|
    ensures TotalsOf(Apply(ps, w), inv) == Plus(TotalsOf(ps, inv), Change(ps, w, inv))
  {
    match w
    case Keep =>
    case Insert(row) => TotalsAppend(ps, row, inv);
    case Replace(id, row) => TotalsUpdate(ps, id, row, inv);
  }

  lemma {:induction false} TotalsBounds(ps: seq<Payment>, n: nat, inv: nat)
    requires n <= |ps| && forall k | 0 <= k < n :: ps[k].amount > 0
    ensures var t := TotalsUpTo(ps, n, inv);
            t.verified >= 0 && t.pending >= 0 && t.live >= 0 && (t.live == 0 ==> t.verified == 0 && t.pending == 0)
  {
    if n > 0 { TotalsBounds(ps, n - 1, inv); }
  }

  lemma {:induction false} NoPaymentsYet(ps: seq<Payment>, n: nat, inv: nat)
    requires n <= |ps| && forall k | 0 <= k < n :: ps[k].invoice != inv
    ensures TotalsUpTo(ps, n, inv) == Totals(0, 0, 0)
  {
    if n > 0 { NoPaymentsYet(ps, n - 1, inv); }
  }

  /** A live payment shows in its invoice's totals. */
  lemma {:induction false} LiveCounted(ps: seq<Payment>, n: nat, k: nat)
    requires k < n <= |ps| && (ps[k].status == PENDING || ps[k].status == VERIFIED)
    ensures TotalsUpTo(ps, n, ps[k].invoice).live > 0
  {
    if k < n - 1 { LiveCounted(ps, n - 1, k); } else { LiveNonNegative(ps, k, ps[k].invoice); }
  }

  lemma {:induction false} LiveNonNegative(ps: seq<Payment>, n: nat, inv: nat)
    requires n <= |ps|
    ensures TotalsUpTo(ps, n, inv).live >= 0
  {
    if n > 0 { LiveNonNegative(ps, n - 1, inv); }
  }

  // ---------------------------------------------------------------------------
  // What other transactions may change under a held lock
  // ---------------------------------------------------------------------------

  /** Only abandoned pending payments may disappear from an invoice someone else holds. */
  ghost predicate Stable(a: Db, b: Db, inv: nat) {
    && inv < |a.invoices| <= |b.invoices| && a.invoices[inv] == b.invoices[inv]
    && |a.payments| <= |b.payments|
    && var ta, tb := TotalsOf(a.payments, inv), TotalsOf(b.payments, inv);
       tb.verified == ta.verified && tb.pending <= ta.pending && tb.live <= ta.live
  }

  /** Rows are never removed or moved to another invoice. */
  ghost predicate Grows(a: Db, b: Db) {
    && |a.payments| <= |b.payments|
    && forall k | 0 <= k < |a.payments| :: b.payments[k].invoice == a.payments[k].invoice
  }

  lemma FrameTx(a: Db, b: Db, locks: map<nat, nat>, locks': map<nat, nat>, tid: nat, tx: Tx)
    requires TxOk(a, locks, tid, tx) && Grows(a, b)
    requires Holds(tx.pc) ==> Stable(a, b, tx.pc.inv) && tx.pc.inv in locks' && locks'[tx.pc.inv] == tid
    requires Buffers(tx.pc) && tx.pc.write.Replace? ==>
      tx.pc.write.id < |b.payments| && b.payments[tx.pc.write.id] == a.payments[tx.pc.write.id]
    ensures TxOk(b, locks', tid, tx)
  {
    if tx.pc.Ready? {
      ApplyTotals(a.payments, tx.pc.write, tx.pc.inv);
      ApplyTotals(b.payments, tx.pc.write, tx.pc.inv);
      LiveNonNegative(Apply(b.payments, tx.pc.write), |Apply(b.payments, tx.pc.write)|, tx.pc.inv);
    }
  }

  /** Steps that leave the rows alone: only the transaction's own facts are new. */
  lemma KeepOthers(s: State, s': State, tid: nat)
    requires Inv(s) && tid < |s.txs| == |s'.txs|
    requires s'.db.invoices == s.db.invoices && s'.db.payments == s.db.payments
    requires forall t | 0 <= t < |s.txs| && t != tid :: s'.txs[t] == s.txs[t]
    requires forall t | 0 <= t < |s.txs| && t != tid && Holds(s.txs[t].pc) ::
      s.txs[t].pc.inv in s'.locks && s'.locks[s.txs[t].pc.inv] == t
    requires TxOk(s'.db, s'.locks, tid, s'.txs[tid])
    ensures Inv(s')
  {
    forall t | 0 <= t < |s'.txs| ensures TxOk(s'.db, s'.locks, t, s'.txs[t]) {
      if t != tid { FrameTx(s.db, s'.db, s.locks, s'.locks, t, s.txs[t]); }
    }
  }

  lemma AbortedKeeps(s: State, tid: nat)
    requires Inv(s) && tid < |s.txs|
    ensures Inv(Aborted(s, tid))
  {
    KeepOthers(s, Aborted(s, tid), tid);
  }

  // ---------------------------------------------------------------------------
  // Steps
  // ---------------------------------------------------------------------------

  lemma {:induction false} UnbilledDistinct(students: seq<nat>, invoices: seq<Invoice>, structure: nat)
    requires Distinct(students)
    ensures Distinct(Unbilled(students, invoices, structure))
    ensures forall x | x in Unbilled(students, invoices, structure) :: x in students
  {
    if students != [] {
      var n := |students| - 1;
      UnbilledDistinct(students[..n], invoices, structure);
      var rest := Unbilled(students[..n], invoices, structure);
      assert forall i | 0 <= i < |rest| :: rest[i] in rest && rest[i] in students[..n];
    }
  }

  lemma BeginKeeps(s: State, tid: nat)
    requires Inv(s) && tid < |s.txs| && s.txs[tid].pc.Begin?
    ensures Inv(StepBegin(s, tid))
  {
    var op := s.txs[tid].op;
    if op.Assign? { UnbilledDistinct(op.students, s.db.invoices, op.structure); }
    KeepOthers(s, StepBegin(s, tid), tid);
  }

  lemma LockKeeps(s: State, tid: nat)
    requires Inv(s) && tid < |s.txs| && s.txs[tid].pc.Armed?
    ensures Inv(StepLock(s, tid))
  {
    KeepOthers(s, StepLock(s, tid), tid);
  }

  lemma LockedKeeps(s: State, tid: nat)
    requires Inv(s) && tid < |s.txs| && s.txs[tid].pc.Locked?
    ensures Inv(StepLocked(s, tid))
  {
    assert TxOk(s.db, s.locks, tid, s.txs[tid]);
    KeepOthers(s, StepLocked(s, tid), tid);
  }

  lemma CountedKeeps(s: State, tid: nat)
    requires Inv(s) && tid < |s.txs| && s.txs[tid].pc.Counted? && s.txs[tid].op.Verify?
    ensures Inv(StepCounted(s, tid))
  {
    assert TxOk(s.db, s.locks, tid, s.txs[tid]);
    KeepOthers(s, StepCounted(s, tid), tid);
  }

  lemma NumberedKeeps(s: State, tid: nat)
    requires Inv(s) && tid < |s.txs| && s.txs[tid].pc.Numbered? && s.txs[tid].op.Verify?
    ensures Inv(StepNumbered(s, tid))
  {
    assert TxOk(s.db, s.locks, tid, s.txs[tid]);
    KeepOthers(s, StepNumbered(s, tid), tid);
  }

  lemma MarkedKeeps(s: State, tid: nat)
    requires Inv(s) && tid < |s.txs| && s.txs[tid].pc.Marked?
    ensures Inv(StepMarked(s, tid))
  {
    assert TxOk(s.db, s.locks, tid, s.txs[tid]);
    KeepOthers(s, StepMarked(s, tid), tid);
  }

  ghost predicate DecisionOk(db: Db, op: Op, inv: nat, write: Write)
    requires inv < |db.invoices| && (write.Replace? ==> write.id < |db.payments|)
  {
    match Decide(db, op, inv, write, db.invoices[inv])
    case None => true
    case Some((w, row)) => ReadyOk(db, inv, op, w, row)
  }

  lemma RecordDecision(db: Db, op: Op, inv: nat)
    requires DbOk(db) && inv < |db.invoices| && WellFormed(op) && op.Record?
    ensures DecisionOk(db, op, inv, Keep)
  {
    assert GoodRow(db.invoices[inv], TotalsOf(db.payments, inv));
    TotalsAppend(db.payments, Payment(inv, op.amount, op.year, PENDING, op.placeholder), inv);
  }

  lemma RecalculationDecision(db: Db, op: Op, inv: nat, write: Write)
    requires DbOk(db) && inv < |db.invoices| && (op.Verify? || op.Reject?)
    requires WriteOk(db.payments, inv, op, write)
    ensures DecisionOk(db, op, inv, write)
  {
    assert GoodRow(db.invoices[inv], TotalsOf(db.payments, inv));
    TotalsUpdate(db.payments, write.id, write.row, inv);
    LiveCounted(db.payments, |db.payments|, write.id);
    TotalsBounds(db.payments, |db.payments|, inv);
  }

  lemma InvoiceDecision(db: Db, op: Op, inv: nat)
    requires DbOk(db) && inv < |db.invoices| && WellFormed(op) && (op.Discount? || op.Waive? || op.Cancel?)
    ensures DecisionOk(db, op, inv, Keep)
  {
    assert GoodRow(db.invoices[inv], TotalsOf(db.payments, inv));
    TotalsBounds(db.payments, |db.payments|, inv);
  }

  /** The decision made from the locked row is right for the rows as they will be after it. */
  lemma DecisionGood(db: Db, op: Op, inv: nat, write: Write)
    requires DbOk(db) && inv < |db.invoices| && WellFormed(op)
    requires WriteOk(db.payments, inv, op, write) && !write.Insert?
    ensures DecisionOk(db, op, inv, write)
  {
    match op
    case Record(_, _, _, _) => RecordDecision(db, op, inv);
    case Verify(_) => RecalculationDecision(db, op, inv, write);
    case Reject(_) => RecalculationDecision(db, op, inv, write);
    case Assign(_, _, _) =>
    case _ => InvoiceDecision(db, op, inv);
  }

  lemma HasRowKeeps(s: State, tid: nat)
    requires Inv(s) && tid < |s.txs| && s.txs[tid].pc.HasRow?
    ensures Inv(StepHasRow(s, tid))
  {
    assert TxOk(s.db, s.locks, tid, s.txs[tid]);
    var HasRow(inv, write, row) := s.txs[tid].pc;
    DecisionGood(s.db, s.txs[tid].op, inv, write);
    KeepOthers(s, StepHasRow(s, tid), tid);
  }

  /** A write against one invoice leaves every other invoice's totals alone. */
  lemma ApplyElsewhere(ps: seq<Payment>, inv: nat, op: Op, w: Write, other: nat)
    requires WriteOk(ps, inv, op, w) && other != inv
    ensures TotalsOf(Apply(ps, w), other) == TotalsOf(ps, other)
  {
    ApplyTotals(ps, w, other);
  }

  lemma CommitKeeps(s: State, tid: nat)
    requires Inv(s) && tid < |s.txs| && s.txs[tid].pc.Ready?
    ensures Inv(StepCommit(s, tid))
  {
    assert TxOk(s.db, s.locks, tid, s.txs[tid]);
    var Ready(inv, w, row) := s.txs[tid].pc;
    var op := s.txs[tid].op;
    var s' := StepCommit(s, tid);
    forall i | 0 <= i < |s'.db.invoices| ensures GoodRow(s'.db.invoices[i], TotalsOf(s'.db.payments, i)) {
      if i != inv { ApplyElsewhere(s.db.payments, inv, op, w, i); }
    }
    forall t | 0 <= t < |s'.txs| ensures TxOk(s'.db, s'.locks, t, s'.txs[t]) {
      if t != tid {
        assert TxOk(s.db, s.locks, t, s.txs[t]);
        if Holds(s.txs[t].pc) { ApplyElsewhere(s.db.payments, inv, op, w, s.txs[t].pc.inv); }
        FrameTx(s.db, s'.db, s.locks, s'.locks, t, s.txs[t]);
      }
    }
  }

  lemma NewRowGood(db: Db, targets: seq<nat>, structure: nat, total: int, k: nat)
    requires DbOk(db) && total >= 0 && k < |targets|
    ensures GoodRow(NewInvoices(targets, structure, total)[k], TotalsOf(db.payments, |db.invoices| + k))
  {
    hide DbOk, GoodRow, TotalsOf;
    NothingPaid(db, |db.invoices| + k);
    FreshRowGood(targets[k], structure, total);
    NewRowIs(targets, structure, total, k);
  }

  lemma NewRowIs(targets: seq<nat>, structure: nat, total: int, k: nat)
    requires k < |targets|
    ensures NewInvoices(targets, structure, total)[k]
            == Invoice(targets[k], structure, total, 0, 0, if total == 0 then PAID else UNPAID)
  {
  }

  lemma NothingPaid(db: Db, inv: nat)
    requires DbOk(db) && inv >= |db.invoices|
    ensures TotalsOf(db.payments, inv) == Totals(0, 0, 0)
  {
    NoPaymentsYet(db.payments, |db.payments|, inv);
  }

  lemma FreshRowGood(student: nat, structure: nat, total: int)
    requires total >= 0
    ensures GoodRow(Invoice(student, structure, total, 0, 0, if total == 0 then PAID else UNPAID), Totals(0, 0, 0))
  {
  }

  lemma NewRowsApart(db: Db, targets: seq<nat>, structure: nat, total: int, i: nat, j: nat)
    requires DbOk(db) && Distinct(targets) && i < j < |db.invoices| + |targets|
    requires forall i | 0 <= i < |targets| :: !Billed(db.invoices, targets[i], structure)
    ensures var all := db.invoices + NewInvoices(targets, structure, total);
      all[i].student != all[j].student || all[i].structure != all[j].structure
  {
    hide GoodRow, TotalsOf;
    var n := |db.invoices|;
    assert i < n <= j ==> !Billed(db.invoices, targets[j - n], structure);
  }

  /** New bills carry no payments yet, and none repeats a bill already issued. */
  lemma BatchGood(db: Db, db': Db, targets: seq<nat>, structure: nat, total: int)
    requires DbOk(db) && Distinct(targets) && total >= 0
    requires forall i | 0 <= i < |targets| :: !Billed(db.invoices, targets[i], structure)
    requires db' == db.(invoices := db.invoices + NewInvoices(targets, structure, total))
    ensures DbOk(db')
  {
    hide GoodRow, TotalsOf, Billed;
    var n := |db.invoices|;
    forall i | 0 <= i < |db'.invoices| ensures GoodRow(db'.invoices[i], TotalsOf(db'.payments, i)) {
      if i >= n { NewRowGood(db, targets, structure, total, i - n); }
    }
    forall i, j | 0 <= i < j < |db'.invoices|
      ensures db'.invoices[i].student != db'.invoices[j].student
              || db'.invoices[i].structure != db'.invoices[j].structure
    {
      NewRowsApart(db, targets, structure, total, i, j);
    }
  }

  lemma BatchKeeps(s: State, tid: nat)
    requires Inv(s) && tid < |s.txs| && s.txs[tid].pc.Targeted? && s.txs[tid].op.Assign?
    ensures Inv(StepBatch(s, tid))
  {
    assert TxOk(s.db, s.locks, tid, s.txs[tid]);
    var Tx(Assign(_, structure, total), Targeted(targets), _) := s.txs[tid];
    var s' := StepBatch(s, tid);
    if s'.txs[tid].pc == Done { BatchGood(s.db, s'.db, targets, structure, total); }
    forall t | 0 <= t < |s'.txs| ensures TxOk(s'.db, s'.locks, t, s'.txs[t]) {
      if t != tid {
        assert TxOk(s.db, s.locks, t, s.txs[t]);
        FrameTx(s.db, s'.db, s.locks, s'.locks, t, s.txs[t]);
      }
    }
  }

  lemma SweepKeeps(s: State, payment: nat)
    requires Inv(s)
    ensures Inv(StepSweep(s, payment))
  {
    var s' := StepSweep(s, payment);
    if s' != s {
      var swept := s.db.payments[payment].(status := SWEPT);
      forall i: nat ensures TotalsOf(s'.db.payments, i)
        == Plus(Minus(TotalsOf(s.db.payments, i), Share(s.db.payments[payment], i)), Share(swept, i))
      {
        TotalsUpdate(s.db.payments, payment, swept, i);
      }
      LiveCounted(s.db.payments, |s.db.payments|, payment);
      forall t | 0 <= t < |s'.txs| ensures TxOk(s'.db, s'.locks, t, s'.txs[t]) {
        assert TxOk(s.db, s.locks, t, s.txs[t]);
        FrameTx(s.db, s'.db, s.locks, s'.locks, t, s.txs[t]);
      }
    }
  }

  /** A sweep of a pending payment that nobody is writing frees its money on its own invoice; any other changes nothing. */
  lemma SweepFrees(s: State, payment: nat)
    ensures var n := StepSweep(s, payment);
      if payment < |s.db.payments| && s.db.payments[payment].status == PENDING && !RowBuffered(s.txs, payment) then
        && n == s.(db := s.db.(payments := n.db.payments)) && |n.db.payments| == |s.db.payments|
        && (forall k | 0 <= k < |s.db.payments| && k != payment :: n.db.payments[k] == s.db.payments[k])
        && forall i: nat :: TotalsOf(n.db.payments, i)
              == if i == s.db.payments[payment].invoice
                 then Minus(TotalsOf(s.db.payments, i), Totals(0, s.db.payments[payment].amount, 1))
                 else TotalsOf(s.db.payments, i)
      else n == s
  {
    if payment < |s.db.payments| && s.db.payments[payment].status == PENDING && !RowBuffered(s.txs, payment) {
      forall i: nat
        ensures TotalsOf(StepSweep(s, payment).db.payments, i)
          == if i == s.db.payments[payment].invoice
             then Minus(TotalsOf(s.db.payments, i), Totals(0, s.db.payments[payment].amount, 1))
             else TotalsOf(s.db.payments, i)
      {
        TotalsUpdate(s.db.payments, payment, s.db.payments[payment].(status := SWEPT), i);
      }
    }
  }

  lemma StepKeeps(s: State, tid: nat)
    requires Inv(s) && tid < |s.txs|
    ensures Inv(StepTx(s, tid))
  {
    match s.txs[tid].pc
    case Begin => BeginKeeps(s, tid);
    case Armed(_, _) => LockKeeps(s, tid);
    case Locked(_, _) => LockedKeeps(s, tid);
    case Counted(_, _, _) => assert TxOk(s.db, s.locks, tid, s.txs[tid]); CountedKeeps(s, tid);
    case Numbered(_, _, _) => assert TxOk(s.db, s.locks, tid, s.txs[tid]); NumberedKeeps(s, tid);
    case Marked(_, _) => MarkedKeeps(s, tid);
    case HasRow(_, _, _) => HasRowKeeps(s, tid);
    case Ready(_, _, _) => CommitKeeps(s, tid);
    case Targeted(_) => assert TxOk(s.db, s.locks, tid, s.txs[tid]); BatchKeeps(s, tid);
    case Done =>
    case Failed =>
  }

  /** Every event keeps the invariant, whatever else is in flight. */
  lemma NextKeeps(s: State, e: Event)
    requires Inv(s)
    ensures Inv(Next(s, e))
  {
    match e
    case Start(op) =>
      var s' := Next(s, e);
      forall t | 0 <= t < |s'.txs| ensures TxOk(s'.db, s'.locks, t, s'.txs[t]) {
        if t < |s.txs| { assert TxOk(s.db, s.locks, t, s.txs[t]); }
      }
    case Advance(tid) => if tid < |s.txs| { StepKeeps(s, tid); }
    case Crash(tid) => if tid < |s.txs| { AbortedKeeps(s, tid); }
    case SetPrefix(prefix) =>
      var s' := Next(s, e);
      forall t | 0 <= t < |s'.txs| ensures TxOk(s'.db, s'.locks, t, s'.txs[t]) {
        assert TxOk(s.db, s.locks, t, s.txs[t]);
        FrameTx(s.db, s'.db, s.locks, s'.locks, t, s.txs[t]);
      }
    case Sweep(payment) => SweepKeeps(s, payment);
  }

  // ---------------------------------------------------------------------------
  // Every run
  // ---------------------------------------------------------------------------

  /**
   * In every interleaving, from the empty school, every committed invoice agrees with
   * its payments, and no student is billed twice for one structure.
   */
  lemma {:induction false} EveryRunKeepsTheMoneyRight(events: seq<Event>)
    ensures Inv(Run(START, events))
    ensures DbOk(Run(START, events).db)
  {
    if events != [] {
      EveryRunKeepsTheMoneyRight(events[..|events| - 1]);
      NextKeeps(Run(START, events[..|events| - 1]), events[|events| - 1]);
    }
  }

  /**
   * The moment a payment is recorded, verified and pending money together fit in what
   * is payable after the discount; a later discount may undo that, never the recording.
   */
  lemma RecordingFitsPayable(events: seq<Event>, tid: nat)
    requires var s := Run(START, events); tid < |s.txs| && s.txs[tid].pc.Ready? && s.txs[tid].op.Record?
    ensures Recorded(Run(START, events), Run(START, events + [Advance(tid)]), tid)
  {
    EveryRunKeepsTheMoneyRight(events);
    RunAppend(START, events, Advance(tid));
    RecordCommits(Run(START, events), tid);
  }

  ghost predicate Recorded(s: State, s': State, tid: nat)
    requires tid < |s.txs| && s.txs[tid].pc.Ready? && s.txs[tid].op.Record?
  {
    var inv := s.txs[tid].pc.inv;
    && tid < |s'.txs| && s'.txs[tid].pc == Done
    && |s'.db.payments| == |s.db.payments| + 1
    && inv < |s'.db.invoices|
    && FitsPayable(s'.db.invoices[inv], TotalsOf(s'.db.payments, inv))
  }

  lemma RecordCommits(s: State, tid: nat)
    requires Inv(s) && tid < |s.txs| && s.txs[tid].pc.Ready? && s.txs[tid].op.Record?
    ensures Recorded(s, Next(s, Advance(tid)), tid)
  {
    assert TxOk(s.db, s.locks, tid, s.txs[tid]);
  }

  lemma RunAppend(s: State, events: seq<Event>, e: Event)
    ensures Run(s, events + [e]) == Next(Run(s, events), e)
  {
    assert (events + [e])[..|events|] == events;
  }

  // ---------------------------------------------------------------------------
  // Assigning fees
  // ---------------------------------------------------------------------------

  /** Bills are never withdrawn: rows are only added, and keep their student and structure. */
  ghost predicate BillsStay(a: seq<Invoice>, b: seq<Invoice>) {
    |a| <= |b| && forall i | 0 <= i < |a| :: SameBill(b[i], a[i])
  }

  lemma BilledStays(a: seq<Invoice>, b: seq<Invoice>, student: nat, structure: nat)
    requires BillsStay(a, b) && Billed(a, student, structure)
    ensures Billed(b, student, structure)
  {
    var i :| 0 <= i < |a| && a[i].student == student && a[i].structure == structure;
    assert SameBill(b[i], a[i]);
  }

  lemma NextKeepsBills(s: State, e: Event)
    requires Inv(s)
    ensures BillsStay(s.db.invoices, Next(s, e).db.invoices)
  {
    if e.Advance? && e.tid < |s.txs| { assert TxOk(s.db, s.locks, e.tid, s.txs[e.tid]); }
  }

  /** The batch targets students asked for; whoever it leaves out, or has billed, has a bill. */
  ghost predicate RequestsMet(invoices: seq<Invoice>, tx: Tx) {
    tx.op.Assign? ==>
      && (tx.pc.Begin? || tx.pc.Targeted? || tx.pc.Done? || tx.pc.Failed?)
      && (tx.pc.Targeted? ==>
            && (forall x | x in tx.op.students :: x in tx.pc.targets || Billed(invoices, x, tx.op.structure))
            && (forall x | x in tx.pc.targets :: x in tx.op.students))
      && (tx.pc.Done? ==> forall x | x in tx.op.students :: Billed(invoices, x, tx.op.structure))
  }

  lemma {:induction false} UnbilledComplete(students: seq<nat>, invoices: seq<Invoice>, structure: nat, x: nat)
    requires x in students
    ensures x in Unbilled(students, invoices, structure) || Billed(invoices, x, structure)
  {
    var n := |students| - 1;
    if x != students[n] { UnbilledComplete(students[..n], invoices, structure, x); }
  }

  lemma TargetIsBilled(invoices: seq<Invoice>, targets: seq<nat>, structure: nat, total: int, x: nat)
    requires x in targets
    ensures Billed(invoices + NewInvoices(targets, structure, total), x, structure)
  {
    var k :| 0 <= k < |targets| && targets[k] == x;
    var all := invoices + NewInvoices(targets, structure, total);
    assert all[|invoices| + k].student == x && all[|invoices| + k].structure == structure;
  }

  lemma AssignStepMeets(s: State, tid: nat)
    requires Inv(s) && tid < |s.txs| && s.txs[tid].op.Assign?
    requires RequestsMet(s.db.invoices, s.txs[tid])
    ensures RequestsMet(StepTx(s, tid).db.invoices, StepTx(s, tid).txs[tid])
  {
    var Assign(students, structure, total) := s.txs[tid].op;
    forall x | x in students && s.txs[tid].pc.Begin?
      ensures x in Unbilled(students, s.db.invoices, structure) || Billed(s.db.invoices, x, structure)
    {
      UnbilledComplete(students, s.db.invoices, structure, x);
    }
    assert TxOk(s.db, s.locks, tid, s.txs[tid]);
    if s.txs[tid].pc.Begin? { UnbilledDistinct(students, s.db.invoices, structure); }
    var s' := StepTx(s, tid);
    if s.txs[tid].pc.Targeted? && s'.txs[tid].pc.Done? {
      forall x | x in students ensures Billed(s'.db.invoices, x, structure) {
        if x in s.txs[tid].pc.targets {
          TargetIsBilled(s.db.invoices, s.txs[tid].pc.targets, structure, total, x);
        } else {
          BilledStays(s.db.invoices, s'.db.invoices, x, structure);
        }
      }
    }
  }

  lemma RequestsStayMet(a: seq<Invoice>, b: seq<Invoice>, tx: Tx)
    requires BillsStay(a, b) && RequestsMet(a, tx)
    ensures RequestsMet(b, tx)
  {
    if tx.op.Assign? {
      forall x | Billed(a, x, tx.op.structure) ensures Billed(b, x, tx.op.structure) {
        BilledStays(a, b, x, tx.op.structure);
      }
    }
  }

  /** A step of another transaction leaves this one where it is, and a crash ends it. */
  lemma OthersStand(s: State, e: Event, t: nat)
    requires t < |s.txs| && e != Advance(t)
    ensures t < |Next(s, e).txs| && (Next(s, e).txs[t] == s.txs[t] || Next(s, e).txs[t] == s.txs[t].(pc := Failed))
  {
    hide Decide, NextSequence, Unbilled, NewInvoices, TotalsOf, ReceiptTaken, NumberBuffered, RowBuffered, Billed;
  }

  lemma AssignElsewhere(s: State, e: Event, t: nat)
    requires Inv(s) && t < |s.txs| && RequestsMet(s.db.invoices, s.txs[t]) && e != Advance(t)
    ensures t < |Next(s, e).txs| && RequestsMet(Next(s, e).db.invoices, Next(s, e).txs[t])
  {
    hide Next, Inv;
    NextKeepsBills(s, e);
    RequestsStayMet(s.db.invoices, Next(s, e).db.invoices, s.txs[t]);
    OthersStand(s, e, t);
  }

  lemma NewIsMet(s: State, e: Event, t: nat)
    requires |s.txs| <= t < |Next(s, e).txs|
    ensures Next(s, e).txs[t].pc.Begin?
  {
    hide Decide, NextSequence, Unbilled, NewInvoices, TotalsOf, ReceiptTaken, NumberBuffered, RowBuffered, Billed;
  }

  lemma OpStands(s: State, t: nat)
    requires t < |s.txs|
    ensures t < |StepTx(s, t).txs| && StepTx(s, t).txs[t].op == s.txs[t].op
  {
    hide Decide, NextSequence, Unbilled, NewInvoices, TotalsOf, ReceiptTaken, NumberBuffered, RowBuffered, Billed;
  }

  lemma NextMeets(s: State, e: Event, t: nat)
    requires Inv(s) && forall u | 0 <= u < |s.txs| :: RequestsMet(s.db.invoices, s.txs[u])
    requires t < |Next(s, e).txs|
    ensures RequestsMet(Next(s, e).db.invoices, Next(s, e).txs[t])
  {
    hide Inv, StepTx, StepSweep, Aborted;
    if t >= |s.txs| {
      NewIsMet(s, e, t);
    } else if e != Advance(t) {
      AssignElsewhere(s, e, t);
    } else if s.txs[t].op.Assign? {
      AssignStepMeets(s, t);
    } else {
      OpStands(s, t);
    }
  }

  lemma {:induction false} EveryRunMeetsRequests(events: seq<Event>)
    ensures forall t | 0 <= t < |Run(START, events).txs| ::
      RequestsMet(Run(START, events).db.invoices, Run(START, events).txs[t])
  {
    if events != [] {
      var before := events[..|events| - 1];
      EveryRunMeetsRequests(before);
      EveryRunKeepsTheMoneyRight(before);
      forall t | 0 <= t < |Run(START, events).txs|
        ensures RequestsMet(Run(START, events).db.invoices, Run(START, events).txs[t])
      {
        NextMeets(Run(START, before), events[|events| - 1], t);
      }
    }
  }

  /** Exactly one of the invoices bills this student for this structure. */
  ghost predicate BilledOnce(invoices: seq<Invoice>, student: nat, structure: nat) {
    exists i | 0 <= i < |invoices| ::
      && invoices[i].student == student && invoices[i].structure == structure
      && forall j | 0 <= j < |invoices| && j != i ::
           invoices[j].student != student || invoices[j].structure != structure
  }

  lemma BilledIsOnce(db: Db, student: nat, structure: nat)
    requires DbOk(db) && Billed(db.invoices, student, structure)
    ensures BilledOnce(db.invoices, student, structure)
  {
    hide GoodRow, TotalsOf;
    var i :| 0 <= i < |db.invoices| && db.invoices[i].student == student && db.invoices[i].structure == structure;
    forall j | 0 <= j < |db.invoices| && j != i
      ensures db.invoices[j].student != student || db.invoices[j].structure != structure
    {
      var a, b := if i < j then i else j, if i < j then j else i;
      assert db.invoices[a].student != db.invoices[b].student || db.invoices[a].structure != db.invoices[b].structure;
    }
  }

  /** Once a fee has been assigned, each student asked for has one bill, whoever else was billing. */
  lemma AssignedIsBilledOnce(events: seq<Event>, t: nat, student: nat)
    requires var s := Run(START, events);
             t < |s.txs| && s.txs[t].op.Assign? && s.txs[t].pc.Done? && student in s.txs[t].op.students
    ensures BilledOnce(Run(START, events).db.invoices, student, Run(START, events).txs[t].op.structure)
  {
    var s := Run(START, events);
    EveryRunMeetsRequests(events);
    EveryRunKeepsTheMoneyRight(events);
    assert RequestsMet(s.db.invoices, s.txs[t]);
    BilledIsOnce(s.db, student, s.txs[t].op.structure);
  }

  /** The batch bills everyone who was asked for and not yet billed, or nobody. */
  ghost predicate WholeOrNone(s: State, s': State, t: nat)
    requires t < |s.txs| && s.txs[t].op.Assign?
  {
    t < |s'.txs| &&
    if s'.txs[t].pc.Done? then
      && s.db.invoices <= s'.db.invoices && s'.db.payments == s.db.payments
      && (forall x | x in s.txs[t].op.students :: BilledOnce(s'.db.invoices, x, s.txs[t].op.structure))
      && (forall i | |s.db.invoices| <= i < |s'.db.invoices| ::
            && s'.db.invoices[i].student in s.txs[t].op.students
            && s'.db.invoices[i].structure == s.txs[t].op.structure
            && !Billed(s.db.invoices, s'.db.invoices[i].student, s.txs[t].op.structure))
    else s'.txs[t].pc.Failed? && s'.db == s.db
  }

  lemma BatchIsWholeOrNone(events: seq<Event>, t: nat)
    requires var s := Run(START, events); t < |s.txs| && s.txs[t].op.Assign? && s.txs[t].pc.Targeted?
    ensures WholeOrNone(Run(START, events), Run(START, events + [Advance(t)]), t)
  {
    hide Run, Billed, BilledOnce;
    var s, s' := Run(START, events), Run(START, events + [Advance(t)]);
    RunAppend(START, events, Advance(t));
    EveryRunMeetsRequests(events);
    if s'.txs[t].pc.Done? {
      forall x | x in s.txs[t].op.students ensures BilledOnce(s'.db.invoices, x, s.txs[t].op.structure) {
        AssignedIsBilledOnce(events + [Advance(t)], t, x);
      }
      var targets := s.txs[t].pc.targets;
      assert RequestsMet(s.db.invoices, s.txs[t]);
      forall i | |s.db.invoices| <= i < |s'.db.invoices|
        ensures s'.db.invoices[i].student in s.txs[t].op.students
          && s'.db.invoices[i].structure == s.txs[t].op.structure
          && !Billed(s.db.invoices, s'.db.invoices[i].student, s.txs[t].op.structure)
      {
        assert s'.db.invoices[i].student == targets[i - |s.db.invoices|];
      }
    }
  }

  /** Two transactions that both hold a lock never hold the same invoice. */
  lemma LocksExclude(events: seq<Event>, t: nat, u: nat)
    requires var s := Run(START, events);
             t < |s.txs| && u < |s.txs| && t != u && Holds(s.txs[t].pc) && Holds(s.txs[u].pc)
    ensures Run(START, events).txs[t].pc.inv != Run(START, events).txs[u].pc.inv
  {
    var s := Run(START, events);
    EveryRunKeepsTheMoneyRight(events);
    assert TxOk(s.db, s.locks, t, s.txs[t]) && TxOk(s.db, s.locks, u, s.txs[u]);
  }
}
