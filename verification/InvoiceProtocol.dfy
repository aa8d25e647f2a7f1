/**
 * Payments and invoice changes as concurrent transactions over shared rows.
 *
 * Every transaction is a small program of steps: an unlocked read, the row lock, the
 * reads and buffered writes made under it, and the commit. An event advances one
 * transaction by one step, so a sequence of events is an interleaving. Writes are
 * buffered until the commit publishes them, which is what the other transactions
 * see at READ COMMITTED.
 */
module InvoiceProtocol {
  import opened Wrappers
  import opened FeeMath
  import NumberSequence

  datatype Invoice = Invoice(student: nat, structure: nat, total: int, discount: int, paid: int, status: FeeStatus)

  /** SWEPT marks a row that was deleted; ids are positions and are not reused. */
  datatype PaymentStatus = PENDING | VERIFIED | REJECTED | SWEPT

  datatype Payment = Payment(invoice: nat, amount: int, year: nat, status: PaymentStatus, receipt: string)

  /** The committed rows, and the receipt prefix from the school's settings. */
  datatype Db = Db(invoices: seq<Invoice>, payments: seq<Payment>, prefix: string)

  datatype Op =
    | Record(invoice: nat, amount: int, year: nat, placeholder: string)
    | Verify(payment: nat)
    | Reject(payment: nat)
    | Discount(invoice: nat, amount: int)
    | Waive(invoice: nat)
    | Cancel(invoice: nat)
    | Assign(students: seq<nat>, structure: nat, total: int)

  /** A buffered write to the payments table. */
  datatype Write = Keep | Insert(row: Payment) | Replace(id: nat, row: Payment)

  /** Where a transaction stands, with what it has read and buffered so far. */
  datatype Pc =
    | Begin
    | Armed(inv: nat, year: nat)
    | Locked(inv: nat, year: nat)
    | Counted(inv: nat, year: nat, sequence: nat)
    | Numbered(inv: nat, year: nat, number: string)
    | Marked(inv: nat, write: Write)
    | HasRow(inv: nat, write: Write, row: Invoice)
    | Ready(inv: nat, write: Write, row: Invoice)
    | Targeted(targets: seq<nat>)
    | Done
    | Failed

  datatype Tx = Tx(op: Op, pc: Pc, attempt: nat)

  /** One receipt issued: the payment, the year it counts in and the number printed. */
  datatype Issue = Issue(payment: nat, year: nat, number: string)

  /** `issued` records the receipts in commit order. */
  datatype State = State(db: Db, locks: map<nat, nat>, txs: seq<Tx>, issued: seq<Issue>)

  datatype Event =
    | Start(op: Op)
    | Advance(tid: nat)
    | Crash(tid: nat)
    | SetPrefix(prefix: string)
    | Sweep(payment: nat)

  const RECEIPT_ATTEMPTS: nat := 5

  // ---------------------------------------------------------------------------
  // Reads
  // ---------------------------------------------------------------------------

  /** What one invoice's payments add up to. */
  datatype Totals = Totals(verified: int, pending: int, live: int)

  function Plus(a: Totals, b: Totals): Totals {
    Totals(a.verified + b.verified, a.pending + b.pending, a.live + b.live)
  }

  function Minus(a: Totals, b: Totals): Totals {
    Totals(a.verified - b.verified, a.pending - b.pending, a.live - b.live)
  }

  function Share(p: Payment, inv: nat): Totals {
    if p.invoice == inv && p.status == VERIFIED then Totals(p.amount, 0, 1)
    else if p.invoice == inv && p.status == PENDING then Totals(0, p.amount, 1)
    else Totals(0, 0, 0)
  }

  function TotalsUpTo(ps: seq<Payment>, n: nat, inv: nat): Totals
    requires n <= |ps|
  {
    if n == 0 then Totals(0, 0, 0) else Plus(TotalsUpTo(ps, n - 1, inv), Share(ps[n - 1], inv))
  }

  function TotalsOf(ps: seq<Payment>, inv: nat): Totals { TotalsUpTo(ps, |ps|, inv) }

  function Apply(ps: seq<Payment>, w: Write): seq<Payment>
    requires w.Replace? ==> w.id < |ps|
  {
    match w
    case Keep => ps
    case Insert(row) => ps + [row]
    case Replace(id, row) => ps[id := row]
  }

  predicate OccursAt(s: string, text: string, i: nat) {
    i + |text| <= |s| && s[i..i + |text|] == text
  }

  /** `contains: text` */
  predicate Contains(s: string, text: string) {
    exists i | 0 <= i <= |s| :: OccursAt(s, text, i)
  }

  function YearText(year: nat): string { "/" + NumberSequence.Digits(year) + "/" }

  /** The receipts `nextReceiptNumber` reads: matched on the year, whatever the prefix. */
  function ReadIssued(ps: seq<Payment>, n: nat, year: nat): seq<string>
    requires n <= |ps|
  {
    if n == 0 then []
    else
      var rest := ReadIssued(ps, n - 1, year);
      if Contains(ps[n - 1].receipt, YearText(year)) then rest + [ps[n - 1].receipt] else rest
  }

  function ReceiptNumber(prefix: string, year: nat, sequence: nat): string {
    NumberSequence.FormatNumber(prefix, year, sequence, NumberSequence.RECEIPT_WIDTH)
  }

  /** nextReceiptSequence over the receipts read. */
  function NextSequence(ps: seq<Payment>, year: nat): nat {
    NumberSequence.Highest(ReadIssued(ps, |ps|, year), year, NumberSequence.RECEIPT_WIDTH) + 1
  }

  predicate ReceiptTaken(ps: seq<Payment>, number: string) {
    exists k | 0 <= k < |ps| :: ps[k].receipt == number
  }

  predicate Billed(invoices: seq<Invoice>, student: nat, structure: nat) {
    exists i | 0 <= i < |invoices| :: invoices[i].student == student && invoices[i].structure == structure
  }

  function Unbilled(students: seq<nat>, invoices: seq<Invoice>, structure: nat): seq<nat> {
    if students == [] then []
    else
      var rest := Unbilled(students[..|students| - 1], invoices, structure);
      var last := students[|students| - 1];
      if Billed(invoices, last, structure) then rest else rest + [last]
  }

  function NewInvoices(targets: seq<nat>, structure: nat, total: int): (rows: seq<Invoice>)
    ensures |rows| == |targets|
  {
    seq(|targets|, i requires 0 <= i < |targets| =>
      Invoice(targets[i], structure, total, 0, 0, if total == 0 then PAID else UNPAID))
  }

  // ---------------------------------------------------------------------------
  // Locks and buffers
  // ---------------------------------------------------------------------------

  predicate Holds(pc: Pc) { pc.Locked? || pc.Counted? || pc.Numbered? || pc.Marked? || pc.HasRow? || pc.Ready? }

  predicate Buffers(pc: Pc) { pc.Marked? || pc.HasRow? || pc.Ready? }

  /** Another transaction has an uncommitted row with this receipt in the unique index. */
  predicate NumberBuffered(txs: seq<Tx>, number: string) {
    exists t | 0 <= t < |txs| ::
      Buffers(txs[t].pc) && txs[t].pc.write.Replace? && txs[t].pc.write.row.receipt == number
  }

  /** Another transaction has updated this payment row and not yet committed. */
  predicate RowBuffered(txs: seq<Tx>, payment: nat) {
    exists t | 0 <= t < |txs| ::
      Buffers(txs[t].pc) && txs[t].pc.write.Replace? && txs[t].pc.write.id == payment
  }

  function Moved(s: State, tid: nat, pc: Pc): State
    requires tid < |s.txs|
  {
    s.(txs := s.txs[tid := s.txs[tid].(pc := pc)])
  }

  /** Rolls the transaction back: its buffer is dropped and its lock released. */
  function Aborted(s: State, tid: nat): State
    requires tid < |s.txs|
  {
    var pc := s.txs[tid].pc;
    Moved(if Holds(pc) then s.(locks := s.locks - {pc.inv}) else s, tid, Failed)
  }

  // ---------------------------------------------------------------------------
  // Steps
  // ---------------------------------------------------------------------------

  /** The unlocked pre-read of verify, reject and assign; the others go straight to the lock. */
  function StepBegin(s: State, tid: nat): State
    requires tid < |s.txs| && s.txs[tid].pc.Begin?
  {
    match s.txs[tid].op
    case Verify(p) =>
      if p < |s.db.payments| && s.db.payments[p].status == PENDING
      then Moved(s, tid, Armed(s.db.payments[p].invoice, s.db.payments[p].year))
      else Moved(s, tid, Failed)
    case Reject(p) =>
      if p < |s.db.payments| && s.db.payments[p].status != REJECTED && s.db.payments[p].status != SWEPT
      then Moved(s, tid, Armed(s.db.payments[p].invoice, s.db.payments[p].year))
      else Moved(s, tid, Failed)
    case Assign(students, structure, _) =>
      Moved(s, tid, Targeted(Unbilled(students, s.db.invoices, structure)))
    case Record(inv, _, year, _) => Moved(s, tid, Armed(inv, year))
    case Discount(inv, _) => Moved(s, tid, Armed(inv, 0))
    case Waive(inv) => Moved(s, tid, Armed(inv, 0))
    case Cancel(inv) => Moved(s, tid, Armed(inv, 0))
  }

  /** SELECT ... FOR UPDATE: waits while another transaction holds the row. */
  function StepLock(s: State, tid: nat): State
    requires tid < |s.txs| && s.txs[tid].pc.Armed?
  {
    var Armed(inv, year) := s.txs[tid].pc;
    if inv >= |s.db.invoices| then Moved(s, tid, Failed)
    else if inv in s.locks then s
    else Moved(s.(locks := s.locks[inv := tid]), tid, Locked(inv, year))
  }

  /** The first statement under the lock. */
  function StepLocked(s: State, tid: nat): State
    requires tid < |s.txs| && s.txs[tid].pc.Locked?
  {
    var Locked(inv, year) := s.txs[tid].pc;
    match s.txs[tid].op
    case Verify(_) => Moved(s, tid, Counted(inv, year, NextSequence(s.db.payments, year)))
    case Reject(p) =>
      if p < |s.db.payments| && s.db.payments[p].status != REJECTED && s.db.payments[p].status != SWEPT
      then Moved(s, tid, Marked(inv, Replace(p, s.db.payments[p].(status := REJECTED))))
      else Aborted(s, tid)
    case _ =>
      if inv < |s.db.invoices| then Moved(s, tid, HasRow(inv, Keep, s.db.invoices[inv])) else Aborted(s, tid)
  }

  /** The settings are a second read, outside the transaction: the prefix may have changed since the count. */
  function StepCounted(s: State, tid: nat): State
    requires tid < |s.txs| && s.txs[tid].pc.Counted?
  {
    var Counted(inv, year, sequence) := s.txs[tid].pc;
    Moved(s, tid, Numbered(inv, year, ReceiptNumber(s.db.prefix, year, sequence)))
  }

  /**
   * Verify's conditional update. A committed duplicate number aborts the attempt and
   * the loop tries again; an uncommitted one makes this transaction wait.
   */
  function StepNumbered(s: State, tid: nat): State
    requires tid < |s.txs| && s.txs[tid].pc.Numbered? && s.txs[tid].op.Verify?
  {
    var Tx(Verify(p), Numbered(inv, year, number), attempt) := s.txs[tid];
    if p >= |s.db.payments| || s.db.payments[p].status != PENDING then Aborted(s, tid)
    else if ReceiptTaken(s.db.payments, number) then
      if attempt + 1 < RECEIPT_ATTEMPTS
      then s.(locks := s.locks - {inv}, txs := s.txs[tid := Tx(Verify(p), Armed(inv, year), attempt + 1)])
      else Aborted(s, tid)
    else if NumberBuffered(s.txs, number) then s
    else Moved(s, tid, Marked(inv, Replace(p, s.db.payments[p].(status := VERIFIED, receipt := number))))
  }

  function StepMarked(s: State, tid: nat): State
    requires tid < |s.txs| && s.txs[tid].pc.Marked?
  {
    var Marked(inv, write) := s.txs[tid].pc;
    if inv < |s.db.invoices| then Moved(s, tid, HasRow(inv, write, s.db.invoices[inv])) else Aborted(s, tid)
  }

  /** recalculateInvoice: rebuilt from the verified payments the transaction sees. */
  function Recalculated(row: Invoice, verified: int): Invoice {
    row.(paid := verified, status := DeriveStatus(row.total, row.discount, verified, Some(row.status)))
  }

  predicate Closed(status: FeeStatus) { status == WAIVED || status == CANCELLED }

  /** What the transaction decides from the locked row; None is a refusal. */
  function Decide(db: Db, op: Op, inv: nat, write: Write, row: Invoice): Option<(Write, Invoice)>
    requires write.Replace? ==> write.id < |db.payments|
  {
    var now := TotalsOf(db.payments, inv);
    match op
    case Record(_, amount, year, placeholder) =>
      if Closed(row.status) then None
      else if amount > Payable(row.total, row.discount) - (row.paid + now.pending) then None
      else Some((Insert(Payment(inv, amount, year, PENDING, placeholder)), row))
    case Verify(_) => Some((write, Recalculated(row, TotalsOf(Apply(db.payments, write), inv).verified)))
    case Reject(_) => Some((write, Recalculated(row, TotalsOf(Apply(db.payments, write), inv).verified)))
    case Discount(_, amount) =>
      if Closed(row.status) || amount > row.total then None
      else Some((Keep, row.(discount := amount, status := DeriveStatus(row.total, amount, row.paid, None))))
    case Waive(_) => if Closed(row.status) then None else Some((Keep, row.(status := WAIVED)))
    case Cancel(_) =>
      if row.status == CANCELLED || now.live > 0 then None else Some((Keep, row.(status := CANCELLED)))
    case Assign(_, _, _) => None
  }

  function StepHasRow(s: State, tid: nat): State
    requires tid < |s.txs| && s.txs[tid].pc.HasRow?
  {
    var HasRow(inv, write, row) := s.txs[tid].pc;
    if write.Replace? && write.id >= |s.db.payments| then Aborted(s, tid)
    else match Decide(s.db, s.txs[tid].op, inv, write, row)
      case None => Aborted(s, tid)
      case Some((w, r)) => Moved(s, tid, Ready(inv, w, r))
  }

  function StepCommit(s: State, tid: nat): State
    requires tid < |s.txs| && s.txs[tid].pc.Ready?
  {
    var Ready(inv, write, row) := s.txs[tid].pc;
    if inv >= |s.db.invoices| || (write.Replace? && write.id >= |s.db.payments|) then Aborted(s, tid)
    else
      var db := s.db.(invoices := s.db.invoices[inv := row], payments := Apply(s.db.payments, write));
      var issued := if s.txs[tid].op.Verify? && write.Replace?
                    then s.issued + [Issue(write.id, write.row.year, write.row.receipt)] else s.issued;
      Moved(s.(db := db, locks := s.locks - {inv}, issued := issued), tid, Done)
  }

  /** Assign's batch: one duplicate bill fails the whole batch. */
  function StepBatch(s: State, tid: nat): State
    requires tid < |s.txs| && s.txs[tid].pc.Targeted? && s.txs[tid].op.Assign?
  {
    var Tx(Assign(_, structure, total), Targeted(targets), _) := s.txs[tid];
    if exists i | 0 <= i < |targets| :: Billed(s.db.invoices, targets[i], structure) then Moved(s, tid, Failed)
    else Moved(s.(db := s.db.(invoices := s.db.invoices + NewInvoices(targets, structure, total))), tid, Done)
  }

  function StepTx(s: State, tid: nat): State
    requires tid < |s.txs|
  {
    match s.txs[tid].pc
    case Begin => StepBegin(s, tid)
    case Armed(_, _) => StepLock(s, tid)
    case Locked(_, _) => StepLocked(s, tid)
    case Counted(_, _, _) => if s.txs[tid].op.Verify? then StepCounted(s, tid) else s
    case Numbered(_, _, _) => if s.txs[tid].op.Verify? then StepNumbered(s, tid) else s
    case Marked(_, _) => StepMarked(s, tid)
    case HasRow(_, _, _) => StepHasRow(s, tid)
    case Ready(_, _, _) => StepCommit(s, tid)
    case Targeted(_) => if s.txs[tid].op.Assign? then StepBatch(s, tid) else s
    case Done => s
    case Failed => s
  }

  predicate Distinct(xs: seq<nat>) { forall i, j | 0 <= i < j < |xs| :: xs[i] != xs[j] }

  /** What request validation and the fee structure guarantee about a new operation. */
  predicate WellFormed(op: Op) {
    match op
    case Record(_, amount, _, placeholder) => amount > 0 && '/' !in placeholder
    case Discount(_, amount) => amount >= 0
    case Assign(students, _, total) => Distinct(students) && total >= 0
    case _ => true
  }

  /** Deletes an abandoned online payment while it is still PENDING; takes no invoice lock. */
  function StepSweep(s: State, payment: nat): State {
    if payment < |s.db.payments| && s.db.payments[payment].status == PENDING && !RowBuffered(s.txs, payment)
    then s.(db := s.db.(payments := s.db.payments[payment := s.db.payments[payment].(status := SWEPT)]))
    else s
  }

  function Next(s: State, e: Event): State {
    match e
    case Start(op) => if WellFormed(op) then s.(txs := s.txs + [Tx(op, Begin, 0)]) else s
    case Advance(tid) => if tid < |s.txs| then StepTx(s, tid) else s
    case Crash(tid) =>
      if tid < |s.txs| && !s.txs[tid].pc.Done? && !s.txs[tid].pc.Failed? then Aborted(s, tid) else s
    case SetPrefix(prefix) =>
      if NumberSequence.OneLine(prefix) then s.(db := s.db.(prefix := prefix)) else s
    case Sweep(payment) => StepSweep(s, payment)
  }

  const DEFAULT_PREFIX := "RCP"

  const START := State(Db([], [], DEFAULT_PREFIX), map[], [], [])

  function Run(s: State, events: seq<Event>): State {
    if events == [] then s else Next(Run(s, events[..|events| - 1]), events[|events| - 1])
  }
}
