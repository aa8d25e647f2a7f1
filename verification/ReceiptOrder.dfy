/**
 * Receipt numbers in every interleaving. A verification counts the year's receipts and
 * reads the prefix in two steps. As long as the prefix is changed only while none holds a
 * number it can still commit, or a count that the change would let through again, the
 * receipts of a year are numbered 1, 2, 3, ... in the order they are committed, and a
 * receipt once issued stays with its payment. PrefixChange shows that the proviso is exact.
 */
module ReceiptOrder {
  import opened Wrappers
  import opened InvoiceProtocol
  import opened InvoiceInvariant
  import N = NumberSequence

  // ---------------------------------------------------------------------------
  // What is counted
  // ---------------------------------------------------------------------------

  function SequenceOf(number: string, year: nat): nat {
    N.SequenceIn(number, year, N.RECEIPT_WIDTH)
  }

  /** How many of the first n receipts belong to `year`. */
  function YearCount(issued: seq<Issue>, n: nat, year: nat): nat
    requires n <= |issued|
  {
    if n == 0 then 0 else YearCount(issued, n - 1, year) + if issued[n - 1].year == year then 1 else 0
  }

  /** The sequence numbers of one year's receipts, in commit order. */
  function YearSequences(issued: seq<Issue>, n: nat, year: nat): seq<nat>
    requires n <= |issued|
  {
    if n == 0 then []
    else
      var rest := YearSequences(issued, n - 1, year);
      if issued[n - 1].year == year then rest + [SequenceOf(issued[n - 1].number, year)] else rest
  }

  ghost predicate InOrder(issued: seq<Issue>) {
    forall i | 0 <= i < |issued| && N.FourDigitYear(issued[i].year) ::
      SequenceOf(issued[i].number, issued[i].year) == YearCount(issued, i, issued[i].year) + 1
  }

  /** What one receipt on file contributes to the next number of `year`. */
  function ReadSequence(receipt: string, year: nat): nat {
    if Contains(receipt, YearText(year)) then SequenceOf(receipt, year) else 0
  }

  function Readings(ps: seq<Payment>, year: nat): (r: seq<nat>)
    ensures |r| == |ps|
  {
    seq(|ps|, i requires 0 <= i < |ps| => ReadSequence(ps[i].receipt, year))
  }

  function MaxUpTo(xs: seq<nat>, n: nat): nat
    requires n <= |xs|
  {
    if n == 0 then 0 else N.Max(MaxUpTo(xs, n - 1), xs[n - 1])
  }

  /** The highest sequence of `year` among the receipts on file. */
  function Top(ps: seq<Payment>, year: nat): nat { MaxUpTo(Readings(ps, year), |ps|) }

  lemma HighestStep(ps: seq<Payment>, n: nat, year: nat, m: nat)
    requires 0 < n <= |ps| && N.Highest(ReadIssued(ps, n - 1, year), year, N.RECEIPT_WIDTH) == m
    ensures N.Highest(ReadIssued(ps, n, year), year, N.RECEIPT_WIDTH) == N.Max(m, ReadSequence(ps[n - 1].receipt, year))
  {
    N.HighestAppend(ReadIssued(ps, n - 1, year), ps[n - 1].receipt, year, N.RECEIPT_WIDTH);
  }

  lemma MaxStep(ps: seq<Payment>, n: nat, year: nat)
    requires 0 < n <= |ps|
    ensures MaxUpTo(Readings(ps, year), n)
            == N.Max(MaxUpTo(Readings(ps, year), n - 1), ReadSequence(ps[n - 1].receipt, year))
  {
    hide ReadSequence;
  }

  lemma {:induction false} HighestIsMax(ps: seq<Payment>, n: nat, year: nat)
    requires n <= |ps|
    ensures N.Highest(ReadIssued(ps, n, year), year, N.RECEIPT_WIDTH) == MaxUpTo(Readings(ps, year), n)
  {
    if n > 0 {
      HighestIsMax(ps, n - 1, year);
      HighestStep(ps, n, year, MaxUpTo(Readings(ps, year), n - 1));
      MaxStep(ps, n, year);
    }
  }

  lemma {:induction false} MaxAgree(xs: seq<nat>, ys: seq<nat>, n: nat)
    requires n <= |xs| && n <= |ys| && forall k | 0 <= k < n :: xs[k] == ys[k]
    ensures MaxUpTo(xs, n) == MaxUpTo(ys, n)
  {
    if n > 0 { MaxAgree(xs, ys, n - 1); }
  }

  lemma {:induction false} MaxUpdate(xs: seq<nat>, k: nat, x: nat, n: nat)
    requires k < n <= |xs| && xs[k] == 0
    ensures MaxUpTo(xs[k := x], n) == N.Max(MaxUpTo(xs, n), x)
  {
    if k == n - 1 { MaxAgree(xs, xs[k := x], k); } else { MaxUpdate(xs, k, x, n - 1); }
  }

  lemma {:induction false} MaxOfZeros(xs: seq<nat>, m: nat, n: nat)
    requires m <= n <= |xs| && forall k | m <= k < n :: xs[k] == 0
    ensures MaxUpTo(xs, n) == MaxUpTo(xs, m)
    decreases n
  {
    if m < n { MaxOfZeros(xs, m, n - 1); }
  }

  lemma TopUpdate(ps: seq<Payment>, k: nat, row: Payment, year: nat)
    requires k < |ps| && '/' !in ps[k].receipt
    ensures Top(ps[k := row], year) == N.Max(Top(ps, year), ReadSequence(row.receipt, year))
  {
    PlaceholderReadsZero(ps[k].receipt, year);
    MaxUpdate(Readings(ps, year), k, ReadSequence(row.receipt, year), |ps|);
    assert Readings(ps[k := row], year) == Readings(ps, year)[k := ReadSequence(row.receipt, year)];
  }

  /** Placeholders added at the end, and receipts otherwise untouched. */
  lemma TopGrown(ps: seq<Payment>, qs: seq<Payment>, year: nat)
    requires |ps| <= |qs| && forall k | 0 <= k < |ps| :: qs[k].receipt == ps[k].receipt
    requires forall k | |ps| <= k < |qs| :: '/' !in qs[k].receipt
    ensures Top(qs, year) == Top(ps, year)
  {
    forall k | |ps| <= k < |qs| ensures Readings(qs, year)[k] == 0 {
      PlaceholderReadsZero(qs[k].receipt, year);
    }
    MaxOfZeros(Readings(qs, year), |ps|, |qs|);
    MaxAgree(Readings(ps, year), Readings(qs, year), |ps|);
  }

  // ---------------------------------------------------------------------------
  // Number facts
  // ---------------------------------------------------------------------------

  /** A printed receipt counts in its own year only, and the year search finds it. */
  ghost predicate PrintedFor(number: string, year: nat) {
    && '/' in number
    && (N.FourDigitYear(year) ==> Contains(number, YearText(year)))
    && forall other | N.FourDigitYear(other) && other != year :: SequenceOf(number, other) == 0
  }

  lemma ReceiptPrinted(prefix: string, year: nat, sequence: nat)
    requires N.OneLine(prefix)
    ensures PrintedFor(ReceiptNumber(prefix, year, sequence), year)
    ensures N.FourDigitYear(year) ==> SequenceOf(ReceiptNumber(prefix, year, sequence), year) == sequence
  {
    var number := ReceiptNumber(prefix, year, sequence);
    assert number[|prefix|] == '/';
    assert OccursAt(number, YearText(year), |prefix|) by {
      assert number[|prefix|..|prefix| + |YearText(year)|] == YearText(year);
    }
    if N.FourDigitYear(year) {
      N.FormatSequence(prefix, year, sequence, N.RECEIPT_WIDTH, year);
    }
    forall other | N.FourDigitYear(other) && other != year ensures SequenceOf(number, other) == 0 {
      if N.FourDigitYear(year) {
        N.FormatSequence(prefix, year, sequence, N.RECEIPT_WIDTH, other);
      } else {
        N.OffPatternYear(prefix, year, sequence, N.RECEIPT_WIDTH);
      }
    }
  }

  lemma PlaceholderReadsZero(receipt: string, year: nat)
    requires '/' !in receipt
    ensures ReadSequence(receipt, year) == 0
  {
    forall i: nat ensures !OccursAt(receipt, YearText(year), i) {
      if i + |YearText(year)| <= |receipt| { assert receipt[i..i + |YearText(year)|][0] == receipt[i]; }
    }
  }

  /** The next sequence continues the year from the highest on file. */
  lemma NextReceiptContinues(ps: seq<Payment>, year: nat)
    ensures NextSequence(ps, year) == Top(ps, year) + 1
  {
    HighestIsMax(ps, |ps|, year);
  }

  lemma {:induction false} AtMostMax(xs: seq<nat>, n: nat, i: nat)
    requires i < n <= |xs|
    ensures xs[i] <= MaxUpTo(xs, n)
  {
    if i < n - 1 { AtMostMax(xs, n - 1, i); }
  }

  /** A number past the highest sequence on file is on no payment, under any prefix. */
  lemma PastTheTopIsFree(ps: seq<Payment>, prefix: string, year: nat, sequence: nat)
    requires N.OneLine(prefix) && N.FourDigitYear(year) && sequence > Top(ps, year)
    ensures !ReceiptTaken(ps, ReceiptNumber(prefix, year, sequence))
  {
    var number := ReceiptNumber(prefix, year, sequence);
    ReceiptPrinted(prefix, year, sequence);
    forall k | 0 <= k < |ps| ensures ps[k].receipt != number {
      AtMostMax(Readings(ps, year), |ps|, k);
      assert ReadSequence(number, year) == sequence;
    }
  }

  // ---------------------------------------------------------------------------
  // The invariant
  // ---------------------------------------------------------------------------

  predicate Verifying(tx: Tx) { tx.op.Verify? && Buffers(tx.pc) && tx.pc.write.Replace? }

  function Count(s: State, year: nat): nat { YearCount(s.issued, |s.issued|, year) }

  predicate Pending(ps: seq<Payment>, payment: nat) { payment < |ps| && ps[payment].status == PENDING }

  /** A number chosen but not yet buffered is next in line, or can no longer be committed. */
  ghost predicate ChosenOk(s: State, payment: nat, year: nat, number: string) {
    && PrintedFor(number, year)
    && (N.FourDigitYear(year) && Pending(s.db.payments, payment) && !ReceiptTaken(s.db.payments, number) ==>
          BufferedOk(s, year, number))
  }

  /** A buffered number is next in line. */
  ghost predicate BufferedOk(s: State, year: nat, number: string) {
    && PrintedFor(number, year)
    && (N.FourDigitYear(year) ==>
          && number == ReceiptNumber(s.db.prefix, year, SequenceOf(number, year))
          && SequenceOf(number, year) == Count(s, year) + 1)
  }

  /** A count not yet printed is still the next, or its number is taken under the prefix there is. */
  ghost predicate CountedOk(s: State, payment: nat, year: nat, sequence: nat) {
    && sequence > 0
    && (N.FourDigitYear(year) && Pending(s.db.payments, payment)
        && !ReceiptTaken(s.db.payments, ReceiptNumber(s.db.prefix, year, sequence)) ==>
          sequence == Count(s, year) + 1)
  }

  ghost predicate NumberOk(s: State, tx: Tx) {
    && (tx.op.Verify? && (tx.pc.Armed? || tx.pc.Locked? || tx.pc.Counted? || tx.pc.Numbered?) ==>
          tx.op.payment < |s.db.payments| && s.db.payments[tx.op.payment].year == tx.pc.year)
    && (tx.op.Verify? && tx.pc.Counted? ==> CountedOk(s, tx.op.payment, tx.pc.year, tx.pc.sequence))
    && (tx.op.Verify? && tx.pc.Numbered? ==> ChosenOk(s, tx.op.payment, tx.pc.year, tx.pc.number))
    && (Verifying(tx) ==> BufferedOk(s, tx.pc.write.row.year, tx.pc.write.row.receipt))
  }

  ghost predicate NumbersDistinct(txs: seq<Tx>) {
    forall t, u | 0 <= t < u < |txs| && Verifying(txs[t]) && Verifying(txs[u]) ::
      txs[t].pc.write.row.receipt != txs[u].pc.write.row.receipt
  }

  /** The receipts on file are exactly the ones issued, one to a payment. */
  ghost predicate Filed(ps: seq<Payment>, issued: seq<Issue>) {
    && (forall i | 0 <= i < |issued| :: FiledAt(ps, issued[i]))
    && (forall i, j | 0 <= i < j < |issued| :: issued[i].payment != issued[j].payment)
    && (forall k | 0 <= k < |ps| && ps[k].status == VERIFIED :: WasIssued(issued, k))
  }

  predicate FiledAt(ps: seq<Payment>, issue: Issue) {
    && issue.payment < |ps|
    && ps[issue.payment].receipt == issue.number
    && ps[issue.payment].year == issue.year
    && (ps[issue.payment].status == VERIFIED || ps[issue.payment].status == REJECTED)
  }

  predicate WasIssued(issued: seq<Issue>, payment: nat) {
    exists i | 0 <= i < |issued| :: issued[i].payment == payment
  }

  ghost predicate PendingUnnumbered(ps: seq<Payment>) {
    forall k | 0 <= k < |ps| && ps[k].status == PENDING :: '/' !in ps[k].receipt
  }

  ghost predicate CountsMatch(s: State) {
    forall year | N.FourDigitYear(year) :: Top(s.db.payments, year) == Count(s, year)
  }

  ghost predicate ReceiptInv(s: State) {
    && N.OneLine(s.db.prefix)
    && CountsMatch(s)
    && InOrder(s.issued)
    && PendingUnnumbered(s.db.payments)
    && NumbersDistinct(s.txs)
    && Filed(s.db.payments, s.issued)
    && forall t | 0 <= t < |s.txs| :: NumberOk(s, s.txs[t])
  }

  // ---------------------------------------------------------------------------
  // Steps
  // ---------------------------------------------------------------------------

  /** Rows, prefix and log unchanged; only transaction `tid` has moved. */
  lemma KeepsNumbers(s: State, s': State, tid: nat)
    requires ReceiptInv(s) && tid < |s.txs| == |s'.txs|
    requires s'.db == s.db && s'.issued == s.issued
    requires forall t | 0 <= t < |s.txs| && t != tid :: s'.txs[t] == s.txs[t]
    requires NumberOk(s, s'.txs[tid])
    requires Verifying(s'.txs[tid]) && (!Verifying(s.txs[tid]) || s'.txs[tid].pc.write != s.txs[tid].pc.write) ==>
      !NumberBuffered(s.txs, s'.txs[tid].pc.write.row.receipt)
    ensures ReceiptInv(s')
  {
    forall t | 0 <= t < |s'.txs| ensures NumberOk(s', s'.txs[t]) {
      assert NumberOk(s, s'.txs[t]);
    }
  }

  lemma QuietStepKeepsNumbers(s: State, tid: nat)
    requires Inv(s) && ReceiptInv(s) && tid < |s.txs|
    requires !s.txs[tid].pc.Ready? && !s.txs[tid].pc.Targeted? && !s.txs[tid].pc.Locked?
    requires !s.txs[tid].pc.Counted? && !s.txs[tid].pc.Numbered?
    ensures ReceiptInv(StepTx(s, tid))
  {
    assert TxOk(s.db, s.locks, tid, s.txs[tid]) && NumberOk(s, s.txs[tid]);
    KeepsNumbers(s, StepTx(s, tid), tid);
  }

  lemma LockedStepKeepsNumbers(s: State, tid: nat)
    requires Inv(s) && ReceiptInv(s) && tid < |s.txs| && s.txs[tid].pc.Locked?
    ensures ReceiptInv(StepTx(s, tid))
  {
    assert TxOk(s.db, s.locks, tid, s.txs[tid]) && NumberOk(s, s.txs[tid]);
    NextReceiptContinues(s.db.payments, s.txs[tid].pc.year);
    KeepsNumbers(s, StepTx(s, tid), tid);
  }

  lemma CountedStepKeepsNumbers(s: State, tid: nat)
    requires Inv(s) && ReceiptInv(s) && tid < |s.txs| && s.txs[tid].pc.Counted?
    ensures ReceiptInv(StepTx(s, tid))
  {
    hide ReceiptNumber, SequenceOf, PrintedFor, ReceiptTaken;
    assert TxOk(s.db, s.locks, tid, s.txs[tid]) && NumberOk(s, s.txs[tid]);
    ReceiptPrinted(s.db.prefix, s.txs[tid].pc.year, s.txs[tid].pc.sequence);
    KeepsNumbers(s, StepTx(s, tid), tid);
  }

  lemma NumberedStepKeepsNumbers(s: State, tid: nat)
    requires Inv(s) && ReceiptInv(s) && tid < |s.txs| && s.txs[tid].pc.Numbered?
    ensures ReceiptInv(StepTx(s, tid))
  {
    assert TxOk(s.db, s.locks, tid, s.txs[tid]) && NumberOk(s, s.txs[tid]);
    KeepsNumbers(s, StepTx(s, tid), tid);
  }

  lemma AbortKeepsNumbers(s: State, tid: nat)
    requires ReceiptInv(s) && tid < |s.txs|
    ensures ReceiptInv(Aborted(s, tid))
  {
    KeepsNumbers(s, Aborted(s, tid), tid);
  }

  /** Payments may be appended or change status, but no number moves and none is issued. */
  lemma RowsChangeKeepsNumbers(s: State, s': State)
    requires ReceiptInv(s)
    requires s'.db.prefix == s.db.prefix && s'.issued == s.issued
    requires |s.db.payments| <= |s'.db.payments|
    requires forall k | 0 <= k < |s.db.payments| ::
      && s'.db.payments[k].receipt == s.db.payments[k].receipt && s'.db.payments[k].year == s.db.payments[k].year
      && (s'.db.payments[k].status == s.db.payments[k].status
          || s'.db.payments[k].status == REJECTED
          || (s.db.payments[k].status == PENDING && s'.db.payments[k].status == SWEPT))
    requires forall k | |s.db.payments| <= k < |s'.db.payments| ::
      s'.db.payments[k].status == PENDING && '/' !in s'.db.payments[k].receipt
    requires |s'.txs| == |s.txs|
    requires forall t | 0 <= t < |s.txs| :: s'.txs[t] == s.txs[t] || s'.txs[t].pc.Done? || s'.txs[t].pc.Failed?
    ensures ReceiptInv(s')
  {
    forall year | N.FourDigitYear(year)
      ensures Top(s'.db.payments, year) == Count(s', year)
    {
      TopGrown(s.db.payments, s'.db.payments, year);
    }
    forall i | 0 <= i < |s'.issued| ensures FiledAt(s'.db.payments, s'.issued[i]) {
      assert FiledAt(s.db.payments, s.issued[i]);
    }
    forall t | 0 <= t < |s'.txs| ensures NumberOk(s', s'.txs[t]) {
      assert NumberOk(s, s.txs[t]);
      TakenStays(s, s', s.txs[t]);
    }
  }

  /** What a transaction counted or chose stays taken when receipts stay on their rows. */
  lemma TakenStays(s: State, s': State, tx: Tx)
    requires |s.db.payments| <= |s'.db.payments| && s'.db.prefix == s.db.prefix
    requires forall k | 0 <= k < |s.db.payments| :: s'.db.payments[k].receipt == s.db.payments[k].receipt
    ensures tx.pc.Numbered? && ReceiptTaken(s.db.payments, tx.pc.number) ==> ReceiptTaken(s'.db.payments, tx.pc.number)
    ensures tx.pc.Counted? ==>
      var number := ReceiptNumber(s.db.prefix, tx.pc.year, tx.pc.sequence);
      ReceiptTaken(s.db.payments, number) ==> ReceiptTaken(s'.db.payments, number)
  {
    hide ReceiptNumber;
    forall number: string | ReceiptTaken(s.db.payments, number) ensures ReceiptTaken(s'.db.payments, number) {
      var k :| 0 <= k < |s.db.payments| && s.db.payments[k].receipt == number;
      assert s'.db.payments[k].receipt == number;
    }
  }

  lemma {:induction false} CountAgree(a: seq<Issue>, b: seq<Issue>, n: nat, year: nat)
    requires n <= |a| && n <= |b| && forall i | 0 <= i < n :: a[i] == b[i]
    ensures YearCount(a, n, year) == YearCount(b, n, year)
  {
    if n > 0 { CountAgree(a, b, n - 1, year); }
  }

  /** What committing a verification does to the rows and the log. */
  ghost predicate Issues(s: State, s': State, id: nat, row: Payment) {
    && id < |s.db.payments| && s.db.payments[id].status == PENDING
    && row == s.db.payments[id].(status := VERIFIED, receipt := row.receipt)
    && s'.db.payments == s.db.payments[id := row] && s'.db.prefix == s.db.prefix
    && s'.issued == s.issued + [Issue(id, row.year, row.receipt)]
    && BufferedOk(s, row.year, row.receipt)
  }

  lemma CommitIssues(s: State, tid: nat)
    requires Inv(s) && ReceiptInv(s) && tid < |s.txs| && s.txs[tid].pc.Ready? && Verifying(s.txs[tid])
    ensures Issues(s, StepCommit(s, tid), s.txs[tid].pc.write.id, s.txs[tid].pc.write.row)
  {
    assert TxOk(s.db, s.locks, tid, s.txs[tid]) && NumberOk(s, s.txs[tid]);
  }

  lemma IssueCounts(s: State, s': State, id: nat, row: Payment, year: nat)
    requires Issues(s, s', id, row)
    ensures Count(s', year) == Count(s, year) + if year == row.year then 1 else 0
  {
    CountAgree(s.issued, s'.issued, |s.issued|, year);
  }

  lemma IssueKeepsCounts(s: State, s': State, id: nat, row: Payment)
    requires Issues(s, s', id, row) && CountsMatch(s) && PendingUnnumbered(s.db.payments)
    ensures CountsMatch(s')
  {
    forall year | N.FourDigitYear(year) ensures Top(s'.db.payments, year) == Count(s', year) {
      IssueCounts(s, s', id, row, year);
      TopUpdate(s.db.payments, id, row, year);
      assert ReadSequence(row.receipt, year) == if year == row.year then Count(s, year) + 1 else 0;
    }
  }

  /** Committing a verification issues exactly the next number of its year. */
  lemma IssueKeepsOrder(s: State, s': State, id: nat, row: Payment)
    requires Issues(s, s', id, row) && InOrder(s.issued)
    ensures InOrder(s'.issued)
  {
    hide SequenceOf, ReceiptNumber, PrintedFor;
    var n := |s.issued|;
    forall i | 0 <= i < |s'.issued| && N.FourDigitYear(s'.issued[i].year)
      ensures SequenceOf(s'.issued[i].number, s'.issued[i].year) == YearCount(s'.issued, i, s'.issued[i].year) + 1
    {
      CountAgree(s.issued, s'.issued, i, s'.issued[i].year);
      if i < n { assert s'.issued[i] == s.issued[i]; } else { assert s'.issued[i] == Issue(id, row.year, row.receipt); }
    }
  }

  lemma IssueKeepsFiled(s: State, s': State, id: nat, row: Payment)
    requires Issues(s, s', id, row) && Filed(s.db.payments, s.issued) && PendingUnnumbered(s.db.payments)
    ensures Filed(s'.db.payments, s'.issued) && PendingUnnumbered(s'.db.payments)
  {
    forall k | 0 <= k < |s'.db.payments| && s'.db.payments[k].status == VERIFIED ensures WasIssued(s'.issued, k) {
      if k == id {
        assert s'.issued[|s.issued|].payment == k;
      } else {
        var i :| 0 <= i < |s.issued| && s.issued[i].payment == k;
        assert s'.issued[i].payment == k;
      }
    }
    forall i | 0 <= i < |s'.issued| ensures FiledAt(s'.db.payments, s'.issued[i]) {
      if i < |s.issued| { assert FiledAt(s.db.payments, s.issued[i]); }
    }
  }

  /** After another verification commits, a chosen number is still next or has been taken. */
  lemma IssueKeepsChosen(s: State, s': State, id: nat, row: Payment, payment: nat, year: nat, number: string)
    requires Issues(s, s', id, row) && PendingUnnumbered(s.db.payments) && ChosenOk(s, payment, year, number)
    ensures ChosenOk(s', payment, year, number)
  {
    hide ReceiptNumber, SequenceOf;
    IssueCounts(s, s', id, row, year);
    if N.FourDigitYear(year) {
      if ReceiptTaken(s.db.payments, number) {
        var k :| 0 <= k < |s.db.payments| && s.db.payments[k].receipt == number;
        assert k != id;
        assert s'.db.payments[k].receipt == number;
      } else if year == row.year {
        assert s'.db.payments[id].receipt == row.receipt;
      }
    }
  }

  /** After another verification commits, a count is still the next or its number has been taken. */
  lemma IssueKeepsCounted(s: State, s': State, id: nat, row: Payment, payment: nat, year: nat, sequence: nat)
    requires Issues(s, s', id, row) && PendingUnnumbered(s.db.payments) && CountedOk(s, payment, year, sequence)
    requires N.OneLine(s.db.prefix)
    ensures CountedOk(s', payment, year, sequence)
  {
    hide ReceiptNumber, SequenceOf, PrintedFor;
    IssueCounts(s, s', id, row, year);
    var number := ReceiptNumber(s.db.prefix, year, sequence);
    ReceiptPrinted(s.db.prefix, year, sequence);
    if ReceiptTaken(s.db.payments, number) {
      var k :| 0 <= k < |s.db.payments| && s.db.payments[k].receipt == number;
      PrintedHasSlash(number, year);
      assert k != id;
      assert s'.db.payments[k].receipt == number;
    } else if year == row.year {
      assert s'.db.payments[id].receipt == row.receipt;
    }
  }

  lemma PrintedHasSlash(number: string, year: nat)
    requires PrintedFor(number, year)
    ensures '/' in number
  {
  }

  lemma IssueKeepsBuffered(s: State, s': State, id: nat, row: Payment, year: nat, number: string)
    requires Issues(s, s', id, row) && BufferedOk(s, year, number) && number != row.receipt
    ensures BufferedOk(s', year, number)
  {
    IssueCounts(s, s', id, row, year);
  }

  lemma IssueKeepsOther(s: State, tid: nat, t: nat)
    requires Inv(s) && ReceiptInv(s) && tid < |s.txs| && s.txs[tid].pc.Ready? && Verifying(s.txs[tid])
    requires t < |s.txs| && t != tid
    ensures NumberOk(StepCommit(s, tid), s.txs[t])
  {
    CommitIssues(s, tid);
    assert NumberOk(s, s.txs[t]);
    var s', w := StepCommit(s, tid), s.txs[tid].pc.write;
    var tx := s.txs[t];
    if tx.op.Verify? && tx.pc.Counted? {
      IssueKeepsCounted(s, s', w.id, w.row, tx.op.payment, tx.pc.year, tx.pc.sequence);
    }
    if tx.op.Verify? && tx.pc.Numbered? { IssueKeepsChosen(s, s', w.id, w.row, tx.op.payment, tx.pc.year, tx.pc.number); }
    if Verifying(tx) { IssueKeepsBuffered(s, s', w.id, w.row, tx.pc.write.row.year, tx.pc.write.row.receipt); }
  }

  lemma CommitKeepsNumbers(s: State, tid: nat)
    requires Inv(s) && ReceiptInv(s) && tid < |s.txs| && s.txs[tid].pc.Ready?
    ensures ReceiptInv(StepCommit(s, tid))
  {
    assert TxOk(s.db, s.locks, tid, s.txs[tid]);
    if Verifying(s.txs[tid]) {
      var s', w := StepCommit(s, tid), s.txs[tid].pc.write;
      CommitIssues(s, tid);
      IssueKeepsCounts(s, s', w.id, w.row);
      IssueKeepsOrder(s, s', w.id, w.row);
      IssueKeepsFiled(s, s', w.id, w.row);
      forall t | 0 <= t < |s'.txs| ensures NumberOk(s', s'.txs[t]) {
        if t != tid { IssueKeepsOther(s, tid, t); }
      }
    } else {
      RowsChangeKeepsNumbers(s, StepCommit(s, tid));
    }
  }

  lemma StepKeepsNumbers(s: State, tid: nat)
    requires Inv(s) && ReceiptInv(s) && tid < |s.txs|
    ensures ReceiptInv(StepTx(s, tid))
  {
    match s.txs[tid].pc
    case Locked(_, _) => LockedStepKeepsNumbers(s, tid);
    case Counted(_, _, _) => CountedStepKeepsNumbers(s, tid);
    case Numbered(_, _, _) => NumberedStepKeepsNumbers(s, tid);
    case Ready(_, _, _) => CommitKeepsNumbers(s, tid);
    case Targeted(_) => RowsChangeKeepsNumbers(s, StepTx(s, tid));
    case _ => QuietStepKeepsNumbers(s, tid);
  }

  /** A verification holding a four-digit year's number that it has not committed and still can. */
  predicate Viable(s: State, tx: Tx) {
    tx.op.Verify? &&
    if tx.pc.Numbered? then
      && N.FourDigitYear(tx.pc.year)
      && Pending(s.db.payments, tx.op.payment)
      && !ReceiptTaken(s.db.payments, tx.pc.number)
    else Verifying(tx) && N.FourDigitYear(tx.pc.write.row.year)
  }

  predicate NoneViable(s: State) { forall t | 0 <= t < |s.txs| :: !Viable(s, s.txs[t]) }

  /**
   * A verification whose count has been overtaken: its sequence is on file, but under
   * `prefix` its number would not be.
   */
  predicate Stale(s: State, prefix: string, tx: Tx) {
    && tx.op.Verify? && tx.pc.Counted?
    && N.FourDigitYear(tx.pc.year)
    && Pending(s.db.payments, tx.op.payment)
    && tx.pc.sequence <= Top(s.db.payments, tx.pc.year)
    && !ReceiptTaken(s.db.payments, ReceiptNumber(prefix, tx.pc.year, tx.pc.sequence))
  }

  predicate NoneStale(s: State, prefix: string) { forall t | 0 <= t < |s.txs| :: !Stale(s, prefix, s.txs[t]) }

  /** A change of prefix that is refused, changes nothing, or lets no sequence through again. */
  predicate Settled(s: State, prefix: string) {
    !N.OneLine(prefix) || prefix == s.db.prefix || (NoneViable(s) && NoneStale(s, prefix))
  }

  /** A count that is not stale under the new prefix is next in line, or its number is taken. */
  lemma NotStaleCounted(s: State, prefix: string, tx: Tx)
    requires ReceiptInv(s) && NumberOk(s, tx) && tx.op.Verify? && tx.pc.Counted? && !Stale(s, prefix, tx)
    ensures CountedOk(s.(db := s.db.(prefix := prefix)), tx.op.payment, tx.pc.year, tx.pc.sequence)
  {
    hide ReceiptNumber, Top, InOrder, Filed, NumbersDistinct;
    if N.FourDigitYear(tx.pc.year) && tx.pc.sequence > Top(s.db.payments, tx.pc.year) {
      PastTheTopIsFree(s.db.payments, s.db.prefix, tx.pc.year, tx.pc.sequence);
    }
  }

  lemma SetPrefixKeepsNumbers(s: State, prefix: string)
    requires ReceiptInv(s) && Settled(s, prefix)
    ensures ReceiptInv(Next(s, SetPrefix(prefix)))
  {
    var s' := Next(s, SetPrefix(prefix));
    forall t | 0 <= t < |s'.txs| ensures NumberOk(s', s'.txs[t]) {
      var tx := s.txs[t];
      assert NumberOk(s, tx);
      if prefix != s.db.prefix && N.OneLine(prefix) {
        assert !Viable(s, tx) && !Stale(s, prefix, tx);
        if tx.op.Verify? && tx.pc.Counted? { NotStaleCounted(s, prefix, tx); }
      }
    }
  }

  lemma NextKeepsNumbers(s: State, e: Event)
    requires Inv(s) && ReceiptInv(s) && (e.SetPrefix? ==> Settled(s, e.prefix))
    ensures ReceiptInv(Next(s, e))
  {
    match e
    case Start(op) =>
      var s' := Next(s, e);
      forall t | 0 <= t < |s'.txs| ensures NumberOk(s', s'.txs[t]) {
        if t < |s.txs| { assert NumberOk(s, s.txs[t]); }
      }
    case Advance(tid) => if tid < |s.txs| { StepKeepsNumbers(s, tid); }
    case Crash(tid) => if tid < |s.txs| { AbortKeepsNumbers(s, tid); }
    case SetPrefix(prefix) => SetPrefixKeepsNumbers(s, prefix);
    case Sweep(payment) => RowsChangeKeepsNumbers(s, StepSweep(s, payment));
  }

  // ---------------------------------------------------------------------------
  // Every run
  // ---------------------------------------------------------------------------

  /** The prefix never changes under a number that can still be committed. */
  ghost predicate PrefixSettled(events: seq<Event>) {
    forall i | 0 <= i < |events| && events[i].SetPrefix? :: Settled(Run(START, events[..i]), events[i].prefix)
  }

  lemma {:induction false} EveryRunKeepsReceipts(events: seq<Event>)
    requires PrefixSettled(events)
    ensures ReceiptInv(Run(START, events))
  {
    if events != [] {
      var before := events[..|events| - 1];
      assert forall i | 0 <= i < |before| :: events[..i] == before[..i];
      EveryRunKeepsReceipts(before);
      EveryRunKeepsTheMoneyRight(before);
      NextKeepsNumbers(Run(START, before), events[|events| - 1]);
    }
  }

  lemma {:induction false} InOrderMeansConsecutive(issued: seq<Issue>, n: nat, year: nat)
    requires InOrder(issued) && n <= |issued| && N.FourDigitYear(year)
    ensures |YearSequences(issued, n, year)| == YearCount(issued, n, year)
    ensures forall i | 0 <= i < YearCount(issued, n, year) :: YearSequences(issued, n, year)[i] == i + 1
  {
    if n > 0 { InOrderMeansConsecutive(issued, n - 1, year); }
  }

  /** One year's receipts are numbered 1, 2, 3, ... in the order they were committed. */
  ghost predicate Consecutive(issued: seq<Issue>, year: nat) {
    var sequences := YearSequences(issued, |issued|, year);
    forall i | 0 <= i < |sequences| :: sequences[i] == i + 1
  }

  /**
   * The receipts issued for a four-digit year are exactly 1..k in commit order: no gap,
   * no duplicate and no reuse, whatever was aborted, retried, crashed or rejected.
   */
  lemma ReceiptsAreConsecutive(events: seq<Event>, year: nat)
    requires PrefixSettled(events) && N.FourDigitYear(year)
    ensures Consecutive(Run(START, events).issued, year)
  {
    EveryRunKeepsReceipts(events);
    var issued := Run(START, events).issued;
    InOrderMeansConsecutive(issued, |issued|, year);
  }

  lemma NextIssues(s: State, e: Event)
    ensures s.issued <= Next(s, e).issued
  {
  }

  /** The log only grows. */
  lemma {:induction false} IssuedGrows(events: seq<Event>, more: seq<Event>)
    ensures Run(START, events).issued <= Run(START, events + more).issued
  {
    hide StepTx, StepSweep, Aborted;
    if more == [] {
      assert events + more == events;
    } else {
      var n := |more| - 1;
      NextIssues(Run(START, events + more[..n]), more[n]);
      IssuedGrows(events, more[..n]);
      assert (events + more)[..|events + more| - 1] == events + more[..n];
    }
  }

  /**
   * A receipt stays with its payment for ever: after any further events, including the
   * rejection of that very payment, the row still carries the number it was issued.
   */
  lemma ReceiptNeverMoves(events: seq<Event>, more: seq<Event>, i: nat)
    requires PrefixSettled(events + more) && i < |Run(START, events).issued|
    ensures FiledAt(Run(START, events + more).db.payments, Run(START, events).issued[i])
  {
    IssuedGrows(events, more);
    EveryRunKeepsReceipts(events + more);
  }
}
