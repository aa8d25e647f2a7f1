/**
 * Runs of the invoice protocol written out event by event: one operation at a time, with
 * nothing in between, and the state each one leaves.
 */
module ScriptedRuns {
  import opened Wrappers
  import opened FeeMath
  import opened InvoiceProtocol
  import opened InvoiceInvariant
  import opened ReceiptOrder
  import N = NumberSequence

  // ---------------------------------------------------------------------------
  // Runs in pieces
  // ---------------------------------------------------------------------------

  lemma {:induction false} RunConcat(s: State, a: seq<Event>, b: seq<Event>)
    ensures Run(s, a + b) == Run(Run(s, a), b)
  {
    hide Next;
    if b == [] {
      assert a + b == a;
    } else {
      var n := |b| - 1;
      RunConcat(s, a, b[..n]);
      assert (a + b)[..|a + b| - 1] == a + b[..n];
    }
  }

  function Advances(t: nat, n: nat): seq<Event> { seq(n, i => Advance(t)) }

  lemma AdvancesStep(s: State, t: nat, n: nat)
    requires n > 0
    ensures Run(s, Advances(t, n)) == Run(Next(s, Advance(t)), Advances(t, n - 1))
  {
    hide Next;
    assert Advances(t, n) == [Advance(t)] + Advances(t, n - 1);
    RunConcat(s, [Advance(t)], Advances(t, n - 1));
    assert Run(s, []) == s;
    assert Run(s, [Advance(t)]) == Next(s, Advance(t));
  }

  lemma AdvancesNone(s: State, t: nat)
    ensures Run(s, Advances(t, 0)) == s
  {
  }

  /** One operation started and advanced n times, with nothing in between. */
  function Alone(op: Op, t: nat, n: nat): seq<Event> { [Start(op)] + Advances(t, n) }

  function With(s: State, op: Op, pc: Pc): State { s.(txs := s.txs + [Tx(op, pc, 0)]) }

  lemma AloneStarts(s: State, op: Op, n: nat)
    requires WellFormed(op)
    ensures Run(s, Alone(op, |s.txs|, n)) == Run(With(s, op, Begin), Advances(|s.txs|, n))
  {
    RunConcat(s, [Start(op)], Advances(|s.txs|, n));
    assert Run(s, []) == s;
    assert Run(s, [Start(op)]) == Next(s, Start(op));
  }

  lemma MovedLast(s: State, op: Op, a: Pc, b: Pc)
    ensures Moved(With(s, op, a), |s.txs|, b) == With(s, op, b)
  {
    assert With(s, op, a).txs[|s.txs| := Tx(op, b, 0)] == With(s, op, b).txs;
  }

  function Held(s: State, inv: nat, t: nat): State { s.(locks := s.locks[inv := t]) }

  lemma HeldReleased(s: State, inv: nat, t: nat)
    requires inv !in s.locks
    ensures Held(s, inv, t).locks - {inv} == s.locks
  {
  }

  // ---------------------------------------------------------------------------
  // A fresh bill, a payment for it, and its number
  // ---------------------------------------------------------------------------

  function Bill(structure: nat, amount: nat): Op { Assign([0], structure, amount) }

  function Charge(structure: nat, amount: nat): Invoice { Invoice(0, structure, amount, 0, 0, UNPAID) }

  function Billing(s: State, structure: nat, amount: nat): State {
    With(s.(db := s.db.(invoices := s.db.invoices + [Charge(structure, amount)])), Bill(structure, amount), Done)
  }

  lemma OneUnbilled(invoices: seq<Invoice>, structure: nat)
    requires !Billed(invoices, 0, structure)
    ensures Unbilled([0], invoices, structure) == [0]
  {
    hide Billed;
    assert [0][..0] == [];
  }

  lemma BillTargets(s: State, structure: nat, amount: nat)
    requires amount > 0 && !Billed(s.db.invoices, 0, structure)
    ensures Next(With(s, Bill(structure, amount), Begin), Advance(|s.txs|)) == With(s, Bill(structure, amount), Targeted([0]))
  {
    hide Billed, Unbilled;
    OneUnbilled(s.db.invoices, structure);
    MovedLast(s, Bill(structure, amount), Begin, Targeted([0]));
  }

  lemma BillCommits(s: State, structure: nat, amount: nat)
    requires amount > 0 && !Billed(s.db.invoices, 0, structure)
    ensures Next(With(s, Bill(structure, amount), Targeted([0])), Advance(|s.txs|)) == Billing(s, structure, amount)
  {
    assert NewInvoices([0], structure, amount) == [Charge(structure, amount)];
    MovedLast(s.(db := s.db.(invoices := s.db.invoices + [Charge(structure, amount)])), Bill(structure, amount), Targeted([0]), Done);
  }

  lemma BillRuns(s: State, structure: nat, amount: nat)
    requires amount > 0 && !Billed(s.db.invoices, 0, structure)
    ensures Run(s, Alone(Bill(structure, amount), |s.txs|, 2)) == Billing(s, structure, amount)
  {
    hide Next, Run, With, Billing, Advances, Alone;
    var t, op := |s.txs|, Bill(structure, amount);
    AloneStarts(s, op, 2);
    AdvancesStep(With(s, op, Begin), t, 2);
    BillTargets(s, structure, amount);
    AdvancesStep(With(s, op, Targeted([0])), t, 1);
    BillCommits(s, structure, amount);
    AdvancesNone(Billing(s, structure, amount), t);
  }

  function Paid(inv: nat, amount: nat, year: nat): Op { Record(inv, amount, year, "") }

  function Deposit(inv: nat, amount: nat, year: nat): Payment { Payment(inv, amount, year, PENDING, "") }

  function Paying(s: State, inv: nat, amount: nat, year: nat): State {
    With(s.(db := s.db.(payments := s.db.payments + [Deposit(inv, amount, year)])), Paid(inv, amount, year), Done)
  }

  /** An untouched bill that nobody holds. */
  ghost predicate Untouched(s: State, inv: nat, amount: nat) {
    && inv < |s.db.invoices| && inv !in s.locks
    && s.db.invoices[inv] == Charge(s.db.invoices[inv].structure, amount)
    && TotalsOf(s.db.payments, inv) == Totals(0, 0, 0)
  }

  /** An operation on one free invoice goes from its request to the lock. */
  lemma Locks(s: State, op: Op, inv: nat, year: nat)
    requires inv < |s.db.invoices| && inv !in s.locks
    ensures Next(With(s, op, Armed(inv, year)), Advance(|s.txs|))
            == With(Held(s, inv, |s.txs|), op, Locked(inv, year))
  {
    MovedLast(Held(s, inv, |s.txs|), op, Armed(inv, year), Locked(inv, year));
  }

  lemma PayArms(s: State, inv: nat, amount: nat, year: nat)
    ensures Next(With(s, Paid(inv, amount, year), Begin), Advance(|s.txs|)) == With(s, Paid(inv, amount, year), Armed(inv, year))
  {
    MovedLast(s, Paid(inv, amount, year), Begin, Armed(inv, year));
  }

  lemma PayReads(s: State, inv: nat, amount: nat, year: nat)
    requires inv < |s.db.invoices|
    ensures Next(With(s, Paid(inv, amount, year), Locked(inv, year)), Advance(|s.txs|))
            == With(s, Paid(inv, amount, year), HasRow(inv, Keep, s.db.invoices[inv]))
  {
    MovedLast(s, Paid(inv, amount, year), Locked(inv, year), HasRow(inv, Keep, s.db.invoices[inv]));
  }

  lemma PayDecides(s: State, inv: nat, amount: nat, year: nat)
    requires amount > 0 && Untouched(s, inv, amount)
    ensures Decide(s.db, Paid(inv, amount, year), inv, Keep, s.db.invoices[inv])
            == Some((Insert(Deposit(inv, amount, year)), s.db.invoices[inv]))
  {
  }

  function PayReady(s: State, inv: nat, amount: nat, year: nat): Pc
    requires inv < |s.db.invoices|
  {
    Ready(inv, Insert(Deposit(inv, amount, year)), s.db.invoices[inv])
  }

  lemma PayBuffers(s: State, inv: nat, amount: nat, year: nat)
    requires amount > 0 && Untouched(s, inv, amount)
    ensures var h := Held(s, inv, |s.txs|);
      Next(With(h, Paid(inv, amount, year), HasRow(inv, Keep, s.db.invoices[inv])), Advance(|s.txs|))
      == With(h, Paid(inv, amount, year), PayReady(s, inv, amount, year))
  {
    hide Decide, TotalsOf;
    PayDecides(s, inv, amount, year);
    MovedLast(Held(s, inv, |s.txs|), Paid(inv, amount, year), HasRow(inv, Keep, s.db.invoices[inv]), PayReady(s, inv, amount, year));
  }

  lemma PayCommits(s: State, inv: nat, amount: nat, year: nat)
    requires amount > 0 && Untouched(s, inv, amount)
    ensures Next(With(Held(s, inv, |s.txs|), Paid(inv, amount, year), PayReady(s, inv, amount, year)), Advance(|s.txs|))
            == Paying(s, inv, amount, year)
  {
    HeldReleased(s, inv, |s.txs|);
    assert s.db.invoices[inv := s.db.invoices[inv]] == s.db.invoices;
    MovedLast(s.(db := s.db.(payments := s.db.payments + [Deposit(inv, amount, year)])), Paid(inv, amount, year),
      PayReady(s, inv, amount, year), Done);
  }

  lemma PayRuns(s: State, inv: nat, amount: nat, year: nat)
    requires amount > 0 && Untouched(s, inv, amount)
    ensures Run(s, Alone(Paid(inv, amount, year), |s.txs|, 5)) == Paying(s, inv, amount, year)
  {
    hide TotalsOf, Next, Run, With, Paying, Advances, Alone;
    var t, op, h := |s.txs|, Paid(inv, amount, year), Held(s, inv, |s.txs|);
    AloneStarts(s, op, 5);
    AdvancesStep(With(s, op, Begin), t, 5);
    PayArms(s, inv, amount, year);
    AdvancesStep(With(s, op, Armed(inv, year)), t, 4);
    Locks(s, op, inv, year);
    AdvancesStep(With(h, op, Locked(inv, year)), t, 3);
    PayReads(h, inv, amount, year);
    AdvancesStep(With(h, op, HasRow(inv, Keep, s.db.invoices[inv])), t, 2);
    PayBuffers(s, inv, amount, year);
    AdvancesStep(With(h, op, PayReady(s, inv, amount, year)), t, 1);
    PayCommits(s, inv, amount, year);
    AdvancesNone(Paying(s, inv, amount, year), t);
  }

  /** The number printed when the prefix is read with the receipts. */
  function NextReceiptNumber(db: Db, year: nat): string {
    ReceiptNumber(db.prefix, year, NextSequence(db.payments, year))
  }

  /** The verification of payment p holds its invoice and has counted the receipts of the year. */
  function Counting(s: State, inv: nat, p: nat, year: nat): State {
    With(Held(s, inv, |s.txs|), Verify(p), Counted(inv, year, NextSequence(s.db.payments, year)))
  }

  /** ... and has read the prefix too. */
  function Numbering(s: State, inv: nat, p: nat, year: nat): State {
    With(Held(s, inv, |s.txs|), Verify(p), Numbered(inv, year, NextReceiptNumber(s.db, year)))
  }

  lemma NumberArms(s: State, p: nat)
    requires Pending(s.db.payments, p)
    ensures Next(With(s, Verify(p), Begin), Advance(|s.txs|))
            == With(s, Verify(p), Armed(s.db.payments[p].invoice, s.db.payments[p].year))
  {
    MovedLast(s, Verify(p), Begin, Armed(s.db.payments[p].invoice, s.db.payments[p].year));
  }

  lemma NumberCounts(s: State, inv: nat, p: nat, year: nat)
    ensures Next(With(Held(s, inv, |s.txs|), Verify(p), Locked(inv, year)), Advance(|s.txs|))
            == Counting(s, inv, p, year)
  {
    MovedLast(Held(s, inv, |s.txs|), Verify(p), Locked(inv, year),
      Counted(inv, year, NextSequence(s.db.payments, year)));
  }

  lemma NumberChooses(s: State, inv: nat, p: nat, year: nat)
    ensures Next(Counting(s, inv, p, year), Advance(|s.txs|)) == Numbering(s, inv, p, year)
  {
    hide NextSequence;
    MovedLast(Held(s, inv, |s.txs|), Verify(p), Counted(inv, year, NextSequence(s.db.payments, year)),
      Numbered(inv, year, NextReceiptNumber(s.db, year)));
  }

  lemma CountRuns(s: State, inv: nat, p: nat, year: nat)
    requires inv < |s.db.invoices| && inv !in s.locks && Pending(s.db.payments, p)
    requires s.db.payments[p].invoice == inv && s.db.payments[p].year == year
    ensures Run(s, Alone(Verify(p), |s.txs|, 3)) == Counting(s, inv, p, year)
  {
    hide Next, Run, With, Counting, Advances, Alone;
    var t, op := |s.txs|, Verify(p);
    AloneStarts(s, op, 3);
    AdvancesStep(With(s, op, Begin), t, 3);
    NumberArms(s, p);
    AdvancesStep(With(s, op, Armed(inv, year)), t, 2);
    Locks(s, op, inv, year);
    AdvancesStep(With(Held(s, inv, t), op, Locked(inv, year)), t, 1);
    NumberCounts(s, inv, p, year);
    AdvancesNone(Counting(s, inv, p, year), t);
  }

  lemma AloneSplits(s: State, op: Op, n: nat, m: nat)
    ensures Run(s, Alone(op, |s.txs|, n + m)) == Run(Run(s, Alone(op, |s.txs|, n)), Advances(|s.txs|, m))
  {
    assert Alone(op, |s.txs|, n + m) == Alone(op, |s.txs|, n) + Advances(|s.txs|, m);
    RunConcat(s, Alone(op, |s.txs|, n), Advances(|s.txs|, m));
  }

  lemma NumberRuns(s: State, inv: nat, p: nat, year: nat)
    requires inv < |s.db.invoices| && inv !in s.locks && Pending(s.db.payments, p)
    requires s.db.payments[p].invoice == inv && s.db.payments[p].year == year
    ensures Run(s, Alone(Verify(p), |s.txs|, 4)) == Numbering(s, inv, p, year)
  {
    hide Next, Run, With, Counting, Numbering, Advances, Alone;
    AloneSplits(s, Verify(p), 3, 1);
    CountRuns(s, inv, p, year);
    AdvancesStep(Counting(s, inv, p, year), |s.txs|, 1);
    NumberChooses(s, inv, p, year);
    AdvancesNone(Numbering(s, inv, p, year), |s.txs|);
  }

  // ---------------------------------------------------------------------------
  // Finishing a verification
  // ---------------------------------------------------------------------------

  /** Transaction t has issued `row`, and nothing else has moved. */
  ghost predicate Finished(s: State, n: State, t: nat, id: nat, row: Payment) {
    && id < |s.db.payments|
    && n.issued == s.issued + [Issue(id, row.year, row.receipt)]
    && n.db.payments == s.db.payments[id := row] && n.db.prefix == s.db.prefix
    && t < |n.txs| == |s.txs| && n.txs[t].pc.Done?
    && forall u | 0 <= u < |s.txs| && u != t :: n.txs[u] == s.txs[u]
  }

  /** Steps left to the commit. */
  function Left(pc: Pc): nat
    requires Buffers(pc)
  {
    if pc.Marked? then 3 else if pc.HasRow? then 2 else 1
  }

  lemma FinishStep(s: State, t: nat)
    requires Inv(s) && t < |s.txs| && Verifying(s.txs[t]) && Left(s.txs[t].pc) > 1
    ensures var n := Next(s, Advance(t));
      && |n.txs| == |s.txs| && n.db == s.db && n.issued == s.issued
      && Verifying(n.txs[t]) && n.txs[t].pc.write == s.txs[t].pc.write
      && Left(n.txs[t].pc) == Left(s.txs[t].pc) - 1
      && forall u | 0 <= u < |s.txs| && u != t :: n.txs[u] == s.txs[u]
  {
    assert TxOk(s.db, s.locks, t, s.txs[t]);
  }

  lemma FinishCommit(s: State, t: nat)
    requires Inv(s) && t < |s.txs| && Verifying(s.txs[t]) && s.txs[t].pc.Ready?
    ensures Finished(s, Next(s, Advance(t)), t, s.txs[t].pc.write.id, s.txs[t].pc.write.row)
  {
    assert TxOk(s.db, s.locks, t, s.txs[t]);
  }

  /** A buffered verification is never refused any more: left alone, it commits. */
  lemma {:induction false} Finishes(s: State, t: nat)
    requires Inv(s) && t < |s.txs| && Verifying(s.txs[t])
    ensures Finished(s, Run(s, Advances(t, Left(s.txs[t].pc))), t, s.txs[t].pc.write.id, s.txs[t].pc.write.row)
    decreases Left(s.txs[t].pc)
  {
    hide Next, Run, Inv;
    var n := Next(s, Advance(t));
    AdvancesStep(s, t, Left(s.txs[t].pc));
    if s.txs[t].pc.Ready? {
      FinishCommit(s, t);
      AdvancesNone(n, t);
    } else {
      NextKeeps(s, Advance(t));
      FinishStep(s, t);
      Finishes(n, t);
    }
  }

  /** A number held for a payment still pending, on no row and in nobody's buffer. */
  ghost predicate CanMark(s: State, t: nat) {
    && t < |s.txs| && s.txs[t].op.Verify? && s.txs[t].pc.Numbered?
    && Pending(s.db.payments, s.txs[t].op.payment)
    && !ReceiptTaken(s.db.payments, s.txs[t].pc.number) && !NumberBuffered(s.txs, s.txs[t].pc.number)
  }

  function Marking(s: State, t: nat): Payment
    requires CanMark(s, t)
  {
    s.db.payments[s.txs[t].op.payment].(status := VERIFIED, receipt := s.txs[t].pc.number)
  }

  lemma Marks(s: State, t: nat)
    requires CanMark(s, t)
    ensures Next(s, Advance(t)) == Moved(s, t, Marked(s.txs[t].pc.inv, Replace(s.txs[t].op.payment, Marking(s, t))))
  {
  }

  lemma NumberedFinishes(s: State, t: nat)
    requires Inv(s) && CanMark(s, t)
    ensures Finished(s, Run(s, Advances(t, 4)), t, s.txs[t].op.payment, Marking(s, t))
  {
    hide Next, Inv, ReceiptTaken, NumberBuffered, Run;
    AdvancesStep(s, t, 4);
    Marks(s, t);
    NextKeeps(s, Advance(t));
    Finishes(Next(s, Advance(t)), t);
  }

  // ---------------------------------------------------------------------------
  // A verification and a discount, exactly
  // ---------------------------------------------------------------------------

  /** The bill is paid in full, with the number its verification had chosen. */
  function Receipting(s: State, inv: nat, p: nat): State
    requires inv < |s.db.invoices| && p < |s.db.payments|
  {
    var row := s.db.payments[p].(status := VERIFIED, receipt := NextReceiptNumber(s.db, s.db.payments[p].year));
    var bill := s.db.invoices[inv].(paid := row.amount, status := PAID);
    With(s.(db := s.db.(invoices := s.db.invoices[inv := bill], payments := s.db.payments[p := row]),
            issued := s.issued + [Issue(p, row.year, row.receipt)]), Verify(p), Done)
  }

  /** A payment that covers an untouched bill, under a number that is free. */
  ghost predicate Covering(s: State, inv: nat, p: nat) {
    && Inv(s) && Pending(s.db.payments, p) && s.db.payments[p].invoice == inv && inv !in s.locks
    && inv < |s.db.invoices| && s.db.invoices[inv] == Charge(s.db.invoices[inv].structure, s.db.payments[p].amount)
    && TotalsOf(s.db.payments, inv).verified == 0
    && !ReceiptTaken(s.db.payments, NextReceiptNumber(s.db, s.db.payments[p].year))
    && !NumberBuffered(s.txs, NextReceiptNumber(s.db, s.db.payments[p].year))
  }

  lemma CoveredRow(s: State, inv: nat, p: nat, row: Payment)
    requires Covering(s, inv, p) && row == s.db.payments[p].(status := VERIFIED, receipt := row.receipt)
    ensures Recalculated(s.db.invoices[inv], TotalsOf(s.db.payments[p := row], inv).verified)
            == s.db.invoices[inv].(paid := row.amount, status := PAID)
  {
    TotalsUpdate(s.db.payments, p, row, inv);
  }

  lemma HeldCanMark(s: State, inv: nat, p: nat)
    requires Covering(s, inv, p)
    ensures CanMark(Numbering(s, inv, p, s.db.payments[p].year), |s.txs|)
  {
    hide NextReceiptNumber, ReceiptTaken, TotalsOf, Inv;
    var n, number := Numbering(s, inv, p, s.db.payments[p].year), NextReceiptNumber(s.db, s.db.payments[p].year);
    forall t | 0 <= t < |n.txs| && Buffers(n.txs[t].pc) && n.txs[t].pc.write.Replace?
      ensures n.txs[t].pc.write.row.receipt != number
    {
      assert t < |s.txs| ==> n.txs[t] == s.txs[t];
    }
  }

  lemma MarksHeld(s: State, inv: nat, p: nat, row: Payment)
    requires Covering(s, inv, p)
    requires row == s.db.payments[p].(status := VERIFIED, receipt := NextReceiptNumber(s.db, s.db.payments[p].year))
    ensures Next(Numbering(s, inv, p, s.db.payments[p].year), Advance(|s.txs|))
            == With(Held(s, inv, |s.txs|), Verify(p), Marked(inv, Replace(p, row)))
  {
    hide NextReceiptNumber, Next, Inv, TotalsOf, ReceiptTaken, NumberBuffered;
    var year := s.db.payments[p].year;
    HeldCanMark(s, inv, p);
    Marks(Numbering(s, inv, p, year), |s.txs|);
    MovedLast(Held(s, inv, |s.txs|), Verify(p), Numbered(inv, year, row.receipt), Marked(inv, Replace(p, row)));
  }

  lemma ReadsMarked(s: State, inv: nat, p: nat, row: Payment)
    requires inv < |s.db.invoices|
    ensures Next(With(s, Verify(p), Marked(inv, Replace(p, row))), Advance(|s.txs|))
            == With(s, Verify(p), HasRow(inv, Replace(p, row), s.db.invoices[inv]))
  {
    MovedLast(s, Verify(p), Marked(inv, Replace(p, row)), HasRow(inv, Replace(p, row), s.db.invoices[inv]));
  }

  lemma Recalculates(s: State, inv: nat, p: nat, row: Payment, bill: Invoice)
    requires inv < |s.db.invoices| && p < |s.db.payments|
    requires bill == Recalculated(s.db.invoices[inv], TotalsOf(s.db.payments[p := row], inv).verified)
    ensures Next(With(s, Verify(p), HasRow(inv, Replace(p, row), s.db.invoices[inv])), Advance(|s.txs|))
            == With(s, Verify(p), Ready(inv, Replace(p, row), bill))
  {
    hide TotalsOf, Recalculated;
    MovedLast(s, Verify(p), HasRow(inv, Replace(p, row), s.db.invoices[inv]), Ready(inv, Replace(p, row), bill));
  }

  lemma CommitsVerified(s: State, inv: nat, p: nat, row: Payment, bill: Invoice)
    requires inv < |s.db.invoices| && p < |s.db.payments| && inv !in s.locks
    ensures Next(With(Held(s, inv, |s.txs|), Verify(p), Ready(inv, Replace(p, row), bill)), Advance(|s.txs|))
            == With(s.(db := s.db.(invoices := s.db.invoices[inv := bill], payments := s.db.payments[p := row]),
                       issued := s.issued + [Issue(p, row.year, row.receipt)]), Verify(p), Done)
  {
    HeldReleased(s, inv, |s.txs|);
    MovedLast(s.(db := s.db.(invoices := s.db.invoices[inv := bill], payments := s.db.payments[p := row]),
                 issued := s.issued + [Issue(p, row.year, row.receipt)]),
      Verify(p), Ready(inv, Replace(p, row), bill), Done);
  }

  lemma VerifyRuns(s: State, inv: nat, p: nat)
    requires Covering(s, inv, p)
    ensures Run(s, Alone(Verify(p), |s.txs|, 8)) == Receipting(s, inv, p)
  {
    hide Next, Run, With, Numbering, Advances, Alone, NextReceiptNumber, ReceiptTaken, NumberBuffered, TotalsOf, Inv,
      Recalculated;
    var t, op, h, year := |s.txs|, Verify(p), Held(s, inv, |s.txs|), s.db.payments[p].year;
    var row := s.db.payments[p].(status := VERIFIED, receipt := NextReceiptNumber(s.db, year));
    var bill := s.db.invoices[inv].(paid := row.amount, status := PAID);
    AloneSplits(s, op, 4, 4);
    NumberRuns(s, inv, p, year);
    AdvancesStep(Numbering(s, inv, p, year), t, 4);
    MarksHeld(s, inv, p, row);
    AdvancesStep(With(h, op, Marked(inv, Replace(p, row))), t, 3);
    ReadsMarked(h, inv, p, row);
    AdvancesStep(With(h, op, HasRow(inv, Replace(p, row), s.db.invoices[inv])), t, 2);
    CoveredRow(s, inv, p, row);
    Recalculates(h, inv, p, row, bill);
    AdvancesStep(With(h, op, Ready(inv, Replace(p, row), bill)), t, 1);
    CommitsVerified(s, inv, p, row, bill);
    AdvancesNone(Receipting(s, inv, p), t);
  }

  /** A discount on an open invoice. */
  function Discounting(s: State, inv: nat, amount: nat): State
    requires inv < |s.db.invoices|
  {
    var was := s.db.invoices[inv];
    var row := was.(discount := amount, status := DeriveStatus(was.total, amount, was.paid, None));
    With(s.(db := s.db.(invoices := s.db.invoices[inv := row])), Op.Discount(inv, amount), Done)
  }

  lemma DiscountReads(s: State, inv: nat, amount: nat)
    requires inv < |s.db.invoices|
    ensures Next(With(s, Op.Discount(inv, amount), Begin), Advance(|s.txs|))
            == With(s, Op.Discount(inv, amount), Armed(inv, 0))
    ensures Next(With(s, Op.Discount(inv, amount), Locked(inv, 0)), Advance(|s.txs|))
            == With(s, Op.Discount(inv, amount), HasRow(inv, Keep, s.db.invoices[inv]))
  {
    MovedLast(s, Op.Discount(inv, amount), Begin, Armed(inv, 0));
    MovedLast(s, Op.Discount(inv, amount), Locked(inv, 0), HasRow(inv, Keep, s.db.invoices[inv]));
  }

  lemma DiscountDecides(s: State, inv: nat, amount: nat, row: Invoice)
    requires inv < |s.db.invoices| && !Closed(s.db.invoices[inv].status) && amount <= s.db.invoices[inv].total
    requires row == s.db.invoices[inv].(discount := amount,
      status := DeriveStatus(s.db.invoices[inv].total, amount, s.db.invoices[inv].paid, None))
    ensures Next(With(s, Op.Discount(inv, amount), HasRow(inv, Keep, s.db.invoices[inv])), Advance(|s.txs|))
            == With(s, Op.Discount(inv, amount), Ready(inv, Keep, row))
  {
    hide TotalsOf, DeriveStatus;
    MovedLast(s, Op.Discount(inv, amount), HasRow(inv, Keep, s.db.invoices[inv]), Ready(inv, Keep, row));
  }

  lemma DiscountCommits(s: State, inv: nat, amount: nat, row: Invoice)
    requires inv < |s.db.invoices| && inv !in s.locks
    ensures Next(With(Held(s, inv, |s.txs|), Op.Discount(inv, amount), Ready(inv, Keep, row)), Advance(|s.txs|))
            == With(s.(db := s.db.(invoices := s.db.invoices[inv := row])), Op.Discount(inv, amount), Done)
  {
    HeldReleased(s, inv, |s.txs|);
    MovedLast(s.(db := s.db.(invoices := s.db.invoices[inv := row])), Op.Discount(inv, amount), Ready(inv, Keep, row), Done);
  }

  lemma DiscountRuns(s: State, inv: nat, amount: nat)
    requires inv < |s.db.invoices| && inv !in s.locks
    requires !Closed(s.db.invoices[inv].status) && amount <= s.db.invoices[inv].total
    ensures Run(s, Alone(Op.Discount(inv, amount), |s.txs|, 5)) == Discounting(s, inv, amount)
  {
    hide Next, Run, With, Advances, Alone, DeriveStatus;
    var t, op, h, was := |s.txs|, Op.Discount(inv, amount), Held(s, inv, |s.txs|), s.db.invoices[inv];
    var row := was.(discount := amount, status := DeriveStatus(was.total, amount, was.paid, None));
    AloneStarts(s, op, 5);
    AdvancesStep(With(s, op, Begin), t, 5);
    DiscountReads(s, inv, amount);
    AdvancesStep(With(s, op, Armed(inv, 0)), t, 4);
    Locks(s, op, inv, 0);
    AdvancesStep(With(h, op, Locked(inv, 0)), t, 3);
    DiscountReads(h, inv, amount);
    AdvancesStep(With(h, op, HasRow(inv, Keep, was)), t, 2);
    DiscountDecides(h, inv, amount, row);
    AdvancesStep(With(h, op, Ready(inv, Keep, row)), t, 1);
    DiscountCommits(s, inv, amount, row);
    AdvancesNone(Discounting(s, inv, amount), t);
  }

  // ---------------------------------------------------------------------------
  // Billed, paid in full and then discounted
  // ---------------------------------------------------------------------------

  /** The only bill of the school is billed, paid, verified and then discounted. */
  function LateDiscount(amount: nat, discount: nat): seq<Event> {
    Alone(Bill(0, amount), 0, 2) + Alone(Paid(0, amount, 2025), 1, 5) + Alone(Verify(0), 2, 8)
    + Alone(Op.Discount(0, discount), 3, 5)
  }

  lemma FirstPayment(amount: nat)
    requires amount > 0
    ensures Untouched(Billing(START, 0, amount), 0, amount)
  {
  }

  lemma NextIsFree(s: State, year: nat)
    requires N.OneLine(s.db.prefix) && N.FourDigitYear(year)
    requires forall t | 0 <= t < |s.txs| :: !Buffers(s.txs[t].pc)
    ensures !ReceiptTaken(s.db.payments, NextReceiptNumber(s.db, year))
    ensures !NumberBuffered(s.txs, NextReceiptNumber(s.db, year))
  {
    hide NextSequence, ReceiptNumber, Top;
    NextReceiptContinues(s.db.payments, year);
    PastTheTopIsFree(s.db.payments, s.db.prefix, year, Top(s.db.payments, year) + 1);
  }

  lemma FirstCovers(amount: nat)
    requires amount > 0 && Inv(Paying(Billing(START, 0, amount), 0, amount, 2025))
    ensures Covering(Paying(Billing(START, 0, amount), 0, amount, 2025), 0, 0)
  {
    hide NextReceiptNumber, Inv, ReceiptTaken, NumberBuffered;
    var s := Paying(Billing(START, 0, amount), 0, amount, 2025);
    assert s.db.payments == [Deposit(0, amount, 2025)];
    TotalsAppend([], Deposit(0, amount, 2025), 0);
    assert [] + [Deposit(0, amount, 2025)] == s.db.payments;
    NextIsFree(s, 2025);
  }

  lemma LateDiscountRuns(amount: nat, discount: nat)
    requires 0 < amount && discount <= amount
    ensures var db := Run(START, LateDiscount(amount, discount)).db;
      && |db.invoices| == |db.payments| == 1
      && db.invoices[0] == Invoice(0, 0, amount, discount, amount, DeriveStatus(amount, discount, amount, None))
      && db.payments[0] == Deposit(0, amount, 2025).(status := VERIFIED, receipt := db.payments[0].receipt)
  {
    hide Run, Alone, Next, NextReceiptNumber, DeriveStatus, Inv, TotalsOf;
    var a, b, c, d := Alone(Bill(0, amount), 0, 2), Alone(Paid(0, amount, 2025), 1, 5), Alone(Verify(0), 2, 8),
      Alone(Op.Discount(0, discount), 3, 5);
    RunConcat(START, a + b + c, d);
    RunConcat(START, a + b, c);
    RunConcat(START, a, b);
    BillRuns(START, 0, amount);
    FirstPayment(amount);
    PayRuns(Billing(START, 0, amount), 0, amount, 2025);
    var paid := Paying(Billing(START, 0, amount), 0, amount, 2025);
    EveryRunKeepsTheMoneyRight(a + b);
    FirstCovers(amount);
    VerifyRuns(paid, 0, 0);
    DiscountRuns(Receipting(paid, 0, 0), 0, discount);
  }
}
