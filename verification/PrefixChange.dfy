/**
 * When the receipt prefix may be changed. The unique index compares whole numbers, so the
 * same sequence under two prefixes does not clash. After the change every year stays
 * 1, 2, 3, ... exactly when no verification still holds a number it can commit, and none
 * has counted a sequence that is on file since and would get a free number under the new
 * prefix.
 */
module PrefixChange {
  import opened Wrappers
  import opened FeeMath
  import opened InvoiceProtocol
  import opened InvoiceInvariant
  import opened ReceiptOrder
  import opened ScriptedRuns
  import N = NumberSequence

  // ---------------------------------------------------------------------------
  // Numbers under two prefixes
  // ---------------------------------------------------------------------------

  lemma TailsCancel(p: string, q: string, tail: string)
    requires p + tail == q + tail
    ensures p == q
  {
    assert |p| == |q|;
    assert p == (p + tail)[..|p|] && q == (q + tail)[..|q|];
  }

  lemma FormatsDiffer(p: string, q: string, year: nat, sequence: nat)
    requires p != q
    ensures ReceiptNumber(p, year, sequence) != ReceiptNumber(q, year, sequence)
  {
    var digits, padded := N.Digits(year), N.PadStart(N.Digits(sequence), N.RECEIPT_WIDTH);
    var tail := "/" + digits + "/" + padded;
    Regroup(p, digits, padded);
    Regroup(q, digits, padded);
    if p + tail == q + tail { TailsCancel(p, q, tail); }
  }

  lemma Regroup(p: string, digits: string, padded: string)
    ensures p + "/" + digits + "/" + padded == p + ("/" + digits + "/" + padded)
  {
  }

  // ---------------------------------------------------------------------------
  // A number held
  // ---------------------------------------------------------------------------

  /** Bill, pay and number a payment of one naira: ids are positions. */
  function ToNumber(inv: nat, p: nat, t: nat, year: nat, structure: nat): seq<Event> {
    Alone(Bill(structure, 1), t, 2) + Alone(Paid(inv, 1, year), t + 1, 5) + Alone(Verify(p), t + 2, 4)
  }

  /** Everything a fresh bill, payment and number add to a state. */
  ghost predicate Holding(s: State, n: State, year: nat, structure: nat) {
    && n.db.invoices == s.db.invoices + [Charge(structure, 1)]
    && n.db.payments == s.db.payments + [Deposit(|s.db.invoices|, 1, year)]
    && n.db.prefix == s.db.prefix && n.issued == s.issued
    && n.locks.Keys == s.locks.Keys + {|s.db.invoices|}
    && |n.txs| == |s.txs| + 3 && s.txs <= n.txs
    && n.txs[|s.txs|].pc.Done? && n.txs[|s.txs| + 1].pc.Done?
    && n.txs[|s.txs| + 2] == Tx(Verify(|s.db.payments|), Numbered(|s.db.invoices|, year,
         ReceiptNumber(s.db.prefix, year, Top(s.db.payments, year) + 1)), 0)
  }

  /** A structure nobody has billed student 0 for, and no lock past the last invoice. */
  ghost predicate Room(s: State, structure: nat) {
    Inv(s) && !Billed(s.db.invoices, 0, structure) && |s.db.invoices| !in s.locks
  }

  lemma NumberContinues(db: Db, inv: nat, year: nat)
    ensures NextReceiptNumber(db.(payments := db.payments + [Deposit(inv, 1, year)]), year)
            == ReceiptNumber(db.prefix, year, Top(db.payments, year) + 1)
  {
    var ps := db.payments + [Deposit(inv, 1, year)];
    NextReceiptContinues(ps, year);
    TopGrown(db.payments, ps, year);
  }

  lemma NumberContinuesIn(s: State, inv: nat, year: nat, structure: nat)
    ensures NextReceiptNumber(Paying(Billing(s, structure, 1), inv, 1, year).db, year)
            == ReceiptNumber(s.db.prefix, year, Top(s.db.payments, year) + 1)
  {
    hide NextReceiptNumber, ReceiptNumber, Top;
    NumberContinues(Billing(s, structure, 1).db, inv, year);
  }

  lemma ToNumberRuns(s: State, year: nat, structure: nat)
    requires Room(s, structure)
    ensures Holding(s, Run(s, ToNumber(|s.db.invoices|, |s.db.payments|, |s.txs|, year, structure)), year, structure)
  {
    hide NextReceiptNumber, ReceiptNumber, Top, Next, Alone, Run, TotalsOf, DbOk, TxOk, Billed;
    var inv, p, t := |s.db.invoices|, |s.db.payments|, |s.txs|;
    var a, b, c := Alone(Bill(structure, 1), t, 2), Alone(Paid(inv, 1, year), t + 1, 5), Alone(Verify(p), t + 2, 4);
    RunConcat(s, a + b, c);
    RunConcat(s, a, b);
    BillRuns(s, structure, 1);
    var s1 := Billing(s, structure, 1);
    NothingPaid(s.db, inv);
    PayRuns(s1, inv, 1, year);
    var s2 := Paying(s1, inv, 1, year);
    NumberRuns(s2, inv, p, year);
    NumberContinuesIn(s, inv, year, structure);
  }

  // ---------------------------------------------------------------------------
  // Just after a change of prefix
  // ---------------------------------------------------------------------------

  /** s with the prefix changed, where s kept the receipts in order. */
  ghost predicate Changed(s: State, n: State) {
    && Inv(s) && ReceiptInv(s) && N.OneLine(n.db.prefix) && n.db.prefix != s.db.prefix
    && n == s.(db := s.db.(prefix := n.db.prefix))
  }

  function Coming(n: State, year: nat): string { ReceiptNumber(n.db.prefix, year, Top(n.db.payments, year) + 1) }

  lemma VerifyingBuffersOther(s: State, n: State, u: nat, year: nat, sequence: nat)
    requires Changed(s, n) && N.FourDigitYear(year) && sequence > 0 && u < |s.txs| && Verifying(s.txs[u])
    ensures s.txs[u].pc.write.row.receipt != ReceiptNumber(n.db.prefix, year, sequence)
  {
    hide ReceiptNumber, Inv, InOrder, Filed, NumbersDistinct, CountsMatch;
    assert NumberOk(s, s.txs[u]);
    var row := s.txs[u].pc.write.row;
    ReceiptPrinted(n.db.prefix, year, sequence);
    FormatsDiffer(s.db.prefix, n.db.prefix, year, sequence);
    assert row.year != year ==> SequenceOf(row.receipt, year) == 0;
  }

  /** A number under the new prefix that is on no row is in nobody's buffer. */
  lemma NewIsUnbuffered(s: State, n: State, year: nat, sequence: nat)
    requires Changed(s, n) && N.FourDigitYear(year) && sequence > 0
    requires !ReceiptTaken(n.db.payments, ReceiptNumber(n.db.prefix, year, sequence))
    ensures !NumberBuffered(n.txs, ReceiptNumber(n.db.prefix, year, sequence))
  {
    hide ReceiptNumber, ReceiptTaken;
    var number := ReceiptNumber(n.db.prefix, year, sequence);
    forall u | 0 <= u < |n.txs| && Buffers(n.txs[u].pc) && n.txs[u].pc.write.Replace?
      ensures n.txs[u].pc.write.row.receipt != number
    {
      if Verifying(n.txs[u]) {
        VerifyingBuffersOther(s, n, u, year, sequence);
      } else {
        RejectingKeepsItsNumber(s, u, number);
      }
    }
  }

  /** The next number under the new prefix is on no row and in nobody's buffer. */
  lemma ComingIsFree(s: State, n: State, year: nat)
    requires Changed(s, n) && N.FourDigitYear(year)
    ensures !ReceiptTaken(n.db.payments, Coming(n, year)) && !NumberBuffered(n.txs, Coming(n, year))
  {
    hide ReceiptNumber, Top, ReceiptTaken, NumberBuffered;
    PastTheTopIsFree(n.db.payments, n.db.prefix, year, Top(n.db.payments, year) + 1);
    NewIsUnbuffered(s, n, year, Top(n.db.payments, year) + 1);
  }

  lemma RejectingKeepsItsNumber(s: State, u: nat, number: string)
    requires Inv(s) && u < |s.txs| && Buffers(s.txs[u].pc) && s.txs[u].pc.write.Replace? && !Verifying(s.txs[u])
    requires !ReceiptTaken(s.db.payments, number)
    ensures s.txs[u].pc.write.row.receipt != number
  {
    assert TxOk(s.db, s.locks, u, s.txs[u]);
  }

  /** The events that issue a fresh receipt. */
  function ToReceipt(n: State, year: nat, structure: nat): seq<Event> {
    ToNumber(|n.db.invoices|, |n.db.payments|, |n.txs|, year, structure) + Advances(|n.txs| + 2, 4)
  }

  /** What issuing a fresh receipt adds: the others stand where they stood. */
  ghost predicate Issued(n: State, m: State, year: nat, number: string) {
    && Inv(m) && m.db.prefix == n.db.prefix
    && m.issued == n.issued + [Issue(|n.db.payments|, year, number)]
    && |m.db.payments| == |n.db.payments| + 1 && n.db.payments <= m.db.payments
    && m.db.payments[|n.db.payments|].receipt == number
    && |m.txs| == |n.txs| + 3 && n.txs <= m.txs
    && forall u | |n.txs| <= u < |m.txs| :: m.txs[u].pc.Done?
  }

  lemma {:induction false} RunKeeps(s: State, events: seq<Event>)
    requires Inv(s)
    ensures Inv(Run(s, events))
  {
    hide Next, Inv;
    if events != [] {
      RunKeeps(s, events[..|events| - 1]);
      NextKeeps(Run(s, events[..|events| - 1]), events[|events| - 1]);
    }
  }

  lemma FreshCanMark(n: State, h: State, year: nat, structure: nat)
    requires Holding(n, h, year, structure)
    requires !ReceiptTaken(n.db.payments, Coming(n, year)) && !NumberBuffered(n.txs, Coming(n, year))
    requires '/' in Coming(n, year)
    ensures CanMark(h, |n.txs| + 2)
  {
    hide ReceiptNumber, Top;
    var number, t := Coming(n, year), |n.txs|;
    forall k | 0 <= k < |h.db.payments| ensures h.db.payments[k].receipt != number {
      assert k < |n.db.payments| ==> h.db.payments[k] == n.db.payments[k];
    }
    forall u | 0 <= u < |h.txs| && Buffers(h.txs[u].pc) && h.txs[u].pc.write.Replace?
      ensures h.txs[u].pc.write.row.receipt != number
    {
      assert u < |n.txs| || u == t || u == t + 1 || u == t + 2;
      assert u < |n.txs| ==> h.txs[u] == n.txs[u];
    }
  }

  lemma FreshReceipt(s: State, n: State, year: nat, structure: nat)
    requires Changed(s, n) && N.FourDigitYear(year) && Room(n, structure)
    ensures Issued(n, Run(n, ToReceipt(n, year, structure)), year, Coming(n, year))
  {
    hide ReceiptNumber, Top, Next, ToNumber, Advances, ReceiptTaken, NumberBuffered, Billed, Run, Inv;
    var first := ToNumber(|n.db.invoices|, |n.db.payments|, |n.txs|, year, structure);
    var h := Run(n, first);
    RunConcat(n, first, Advances(|n.txs| + 2, 4));
    ToNumberRuns(n, year, structure);
    RunKeeps(n, first);
    RunKeeps(n, ToReceipt(n, year, structure));
    ComingIsFree(s, n, year);
    ReceiptPrinted(n.db.prefix, year, Top(n.db.payments, year) + 1);
    FreshCanMark(n, h, year, structure);
    NumberedFinishes(h, |n.txs| + 2);
  }

  // ---------------------------------------------------------------------------
  // The sequence given out twice
  // ---------------------------------------------------------------------------

  lemma SequencesExtend(issued: seq<Issue>, all: seq<Issue>, year: nat)
    requires issued <= all
    ensures YearSequences(all, |issued|, year) == YearSequences(issued, |issued|, year)
  {
    SequencesAgree(issued, all, |issued|, year);
  }

  lemma {:induction false} SequencesAgree(a: seq<Issue>, b: seq<Issue>, n: nat, year: nat)
    requires n <= |a| && n <= |b| && forall i | 0 <= i < n :: a[i] == b[i]
    ensures YearSequences(a, n, year) == YearSequences(b, n, year)
  {
    if n > 0 { SequencesAgree(a, b, n - 1, year); }
  }

  lemma TwiceIsNotConsecutive(issued: seq<Issue>, a: Issue, b: Issue, year: nat)
    requires a.year == b.year == year && SequenceOf(a.number, year) == SequenceOf(b.number, year)
    ensures !Consecutive(issued + [a] + [b], year)
  {
    hide SequenceOf;
    var all := issued + [a] + [b];
    var before, n := YearSequences(issued, |issued|, year), |issued|;
    SequencesExtend(issued, all, year);
    assert all[n] == a && all[n + 1] == b;
    var x, y := SequenceOf(a.number, year), SequenceOf(b.number, year);
    assert YearSequences(all, n + 1, year) == before + [x];
    assert YearSequences(all, n + 2, year) == before + [x] + [y];
    var q := before + [x] + [y];
    assert q[|before|] == q[|before| + 1];
  }

  /** The year in which a viable number counts. */
  function YearOf(tx: Tx): nat
    requires tx.pc.Numbered? || (Buffers(tx.pc) && tx.pc.write.Replace?)
  {
    if tx.pc.Numbered? then tx.pc.year else tx.pc.write.row.year
  }

  /** Steps a viable verification still needs. */
  function ToCommit(tx: Tx): nat
    requires tx.pc.Numbered? || Buffers(tx.pc)
  {
    if tx.pc.Numbered? then 4 else Left(tx.pc)
  }

  /** Viable, and not made to wait for somebody else's number. */
  ghost predicate Unhindered(s: State, t: nat) {
    && t < |s.txs| && Viable(s, s.txs[t])
    && (s.txs[t].pc.Numbered? ==> !NumberBuffered(s.txs, s.txs[t].pc.number))
  }

  /** A viable number that has to wait waits for a viable one that does not. */
  lemma SomeoneUnhindered(s: State, t: nat) returns (u: nat)
    requires Inv(s) && ReceiptInv(s) && t < |s.txs| && Viable(s, s.txs[t])
    ensures Unhindered(s, u)
  {
    u := t;
    if s.txs[t].pc.Numbered? && NumberBuffered(s.txs, s.txs[t].pc.number) {
      var number := s.txs[t].pc.number;
      u :| 0 <= u < |s.txs| && Buffers(s.txs[u].pc) && s.txs[u].pc.write.Replace?
        && s.txs[u].pc.write.row.receipt == number;
      assert NumberOk(s, s.txs[t]) && NumberOk(s, s.txs[u]);
      if !Verifying(s.txs[u]) { RejectingKeepsItsNumber(s, u, number); }
    }
  }

  /** The old number commits after the new one of the same sequence. */
  lemma OldNumberFollows(s: State, n: State, m: State, t: nat)
    requires Changed(s, n) && Unhindered(s, t) && Issued(n, m, YearOf(s.txs[t]), Coming(n, YearOf(s.txs[t])))
    ensures var f := Run(m, Advances(t, ToCommit(s.txs[t])));
      exists b: Issue :: f.issued == m.issued + [b] && b.year == YearOf(s.txs[t])
        && SequenceOf(b.number, b.year) == Count(s, b.year) + 1
  {
    hide Next, Advances, Run, Top, ReceiptNumber;
    var tx, year := s.txs[t], YearOf(s.txs[t]);
    assert m.txs[t] == tx;
    assert NumberOk(s, tx) && TxOk(s.db, s.locks, t, tx);
    if tx.pc.Numbered? {
      OldCanMark(s, n, m, t);
      NumberedFinishes(m, t);
    } else {
      Finishes(m, t);
    }
    var f := Run(m, Advances(t, ToCommit(tx)));
    var b := f.issued[|m.issued|];
    assert f.issued == m.issued + [b];
  }

  lemma OldCanMark(s: State, n: State, m: State, t: nat)
    requires Changed(s, n) && Unhindered(s, t) && s.txs[t].pc.Numbered?
    requires Issued(n, m, s.txs[t].pc.year, Coming(n, s.txs[t].pc.year))
    ensures CanMark(m, t)
  {
    hide ReceiptNumber, Top, Inv, NumbersDistinct, InOrder, Filed;
    var tx := s.txs[t];
    assert NumberOk(s, tx) && m.txs[t] == tx;
    var number, year := tx.pc.number, tx.pc.year;
    FormatsDiffer(s.db.prefix, n.db.prefix, year, Top(n.db.payments, year) + 1);
    forall k | 0 <= k < |m.db.payments| ensures m.db.payments[k].receipt != number {
      assert k < |s.db.payments| ==> m.db.payments[k] == s.db.payments[k];
    }
    forall u | 0 <= u < |m.txs| && Buffers(m.txs[u].pc) && m.txs[u].pc.write.Replace?
      ensures m.txs[u].pc.write.row.receipt != number
    {
      assert u < |s.txs| ==> m.txs[u] == s.txs[u];
    }
  }

  /** Bill, pay and verify afresh under the new prefix, then let t commit. */
  function Repeating(n: State, t: nat, structure: nat): seq<Event>
    requires t < |n.txs| && (n.txs[t].pc.Numbered? || (Buffers(n.txs[t].pc) && n.txs[t].pc.write.Replace?))
  {
    ToReceipt(n, YearOf(n.txs[t]), structure) + Advances(t, ToCommit(n.txs[t]))
  }

  lemma SequenceRepeats(s: State, n: State, t: nat, structure: nat)
    requires Changed(s, n) && Unhindered(s, t) && Room(n, structure)
    ensures !Consecutive(Run(n, Repeating(n, t, structure)).issued, YearOf(s.txs[t]))
  {
    hide Next, Advances, Run, Top, ToReceipt, ReceiptNumber, Billed, ReceiptTaken, Consecutive;
    var year := YearOf(s.txs[t]);
    var first, last := ToReceipt(n, year, structure), Advances(t, ToCommit(s.txs[t]));
    RunConcat(n, first, last);
    FreshReceipt(s, n, year, structure);
    var m := Run(n, first);
    OldNumberFollows(s, n, m, t);
    var b: Issue :| Run(m, last).issued == m.issued + [b] && b.year == year
      && SequenceOf(b.number, b.year) == Count(s, b.year) + 1;
    ReceiptPrinted(n.db.prefix, year, Top(n.db.payments, year) + 1);
    TwiceIsNotConsecutive(n.issued, Issue(|n.db.payments|, year, Coming(n, year)), b, year);
  }

  /** What the two commits issue, when the old number had only been chosen. */
  lemma BothIssued(s: State, n: State, t: nat, structure: nat)
    requires Changed(s, n) && Unhindered(s, t) && Room(n, structure) && s.txs[t].pc.Numbered?
    ensures var tx := s.txs[t];
      Run(n, Repeating(n, t, structure)).issued
      == n.issued + [Issue(|n.db.payments|, tx.pc.year, Coming(n, tx.pc.year))]
         + [Issue(tx.op.payment, tx.pc.year, tx.pc.number)]
  {
    hide Next, Advances, Run, Top, ToReceipt, ReceiptNumber, Billed, ReceiptTaken, NumberBuffered;
    var tx := s.txs[t];
    var first, last := ToReceipt(n, tx.pc.year, structure), Advances(t, 4);
    RunConcat(n, first, last);
    FreshReceipt(s, n, tx.pc.year, structure);
    var m := Run(n, first);
    assert m.txs[t] == tx && NumberOk(s, tx);
    OldCanMark(s, n, m, t);
    NumberedFinishes(m, t);
  }

  // ---------------------------------------------------------------------------
  // A count overtaken
  // ---------------------------------------------------------------------------

  lemma OvertakenIsNotConsecutive(issued: seq<Issue>, a: Issue)
    requires InOrder(issued) && N.FourDigitYear(a.year) && SequenceOf(a.number, a.year) <= YearCount(issued, |issued|, a.year)
    ensures !Consecutive(issued + [a], a.year)
  {
    hide SequenceOf;
    var all, before := issued + [a], YearSequences(issued, |issued|, a.year);
    InOrderMeansConsecutive(issued, |issued|, a.year);
    SequencesExtend(issued, all, a.year);
    assert all[|issued|] == a;
    assert YearSequences(all, |all|, a.year) == before + [SequenceOf(a.number, a.year)];
    assert (before + [SequenceOf(a.number, a.year)])[|before|] == SequenceOf(a.number, a.year);
  }

  lemma Prints(s: State, t: nat)
    requires t < |s.txs| && s.txs[t].op.Verify? && s.txs[t].pc.Counted?
    ensures var tx := s.txs[t];
      Next(s, Advance(t))
      == Moved(s, t, Numbered(tx.pc.inv, tx.pc.year, ReceiptNumber(s.db.prefix, tx.pc.year, tx.pc.sequence)))
  {
  }

  lemma PrintedCanMark(n: State, h: State, t: nat, number: string)
    requires t < |n.txs| && n.txs[t].op.Verify? && n.txs[t].pc.Counted? && Pending(n.db.payments, n.txs[t].op.payment)
    requires !ReceiptTaken(n.db.payments, number) && !NumberBuffered(n.txs, number)
    requires h == Moved(n, t, Numbered(n.txs[t].pc.inv, n.txs[t].pc.year, number))
    ensures CanMark(h, t)
  {
    hide ReceiptTaken;
    forall u | 0 <= u < |h.txs| && Buffers(h.txs[u].pc) && h.txs[u].pc.write.Replace?
      ensures h.txs[u].pc.write.row.receipt != number
    {
      assert u != t ==> h.txs[u] == n.txs[u];
    }
  }

  /** From a count whose number is free under the prefix there is, the verification commits. */
  lemma CountedFinishes(n: State, t: nat)
    requires Inv(n) && t < |n.txs| && n.txs[t].op.Verify? && n.txs[t].pc.Counted?
    requires Pending(n.db.payments, n.txs[t].op.payment)
    requires var number := ReceiptNumber(n.db.prefix, n.txs[t].pc.year, n.txs[t].pc.sequence);
      !ReceiptTaken(n.db.payments, number) && !NumberBuffered(n.txs, number)
    ensures Run(n, Advances(t, 5)).issued == n.issued
      + [Issue(n.txs[t].op.payment, n.db.payments[n.txs[t].op.payment].year,
               ReceiptNumber(n.db.prefix, n.txs[t].pc.year, n.txs[t].pc.sequence))]
  {
    hide Next, Advances, Run, ReceiptNumber, ReceiptTaken, NumberBuffered, Inv;
    var tx, h := n.txs[t], Next(n, Advance(t));
    AdvancesStep(n, t, 5);
    Prints(n, t);
    NextKeeps(n, Advance(t));
    PrintedCanMark(n, h, t, ReceiptNumber(n.db.prefix, tx.pc.year, tx.pc.sequence));
    NumberedFinishes(h, t);
  }

  lemma StaleBreaks(s: State, n: State, t: nat)
    requires Changed(s, n) && Inv(n) && t < |s.txs| && Stale(s, n.db.prefix, s.txs[t])
    ensures !Consecutive(Run(n, Advances(t, 5)).issued, s.txs[t].pc.year)
  {
    hide Next, Advances, Run, Top, ReceiptNumber, ReceiptTaken, NumberBuffered, Consecutive, Inv, SequenceOf;
    var tx := s.txs[t];
    assert NumberOk(s, tx);
    NewIsUnbuffered(s, n, tx.pc.year, tx.pc.sequence);
    CountedFinishes(n, t);
    ReceiptPrinted(n.db.prefix, tx.pc.year, tx.pc.sequence);
    OvertakenIsNotConsecutive(n.issued,
      Issue(tx.op.payment, tx.pc.year, ReceiptNumber(n.db.prefix, tx.pc.year, tx.pc.sequence)));
  }

  // ---------------------------------------------------------------------------
  // Exactly when the prefix may change
  // ---------------------------------------------------------------------------

  lemma {:induction false} LocksAreOnRows(events: seq<Event>)
    ensures forall i | i in Run(START, events).locks :: i < |Run(START, events).db.invoices|
  {
    if events != [] {
      var before := events[..|events| - 1];
      LocksAreOnRows(before);
      EveryRunKeepsTheMoneyRight(before);
      NextLocksRows(Run(START, before), events[|events| - 1]);
    }
  }

  lemma NextLocksRows(s: State, e: Event)
    requires Inv(s) && forall i | i in s.locks :: i < |s.db.invoices|
    ensures forall i | i in Next(s, e).locks :: i < |Next(s, e).db.invoices|
  {
    NextKeepsBills(s, e);
  }

  function StructuresBelow(invoices: seq<Invoice>): (top: nat)
    ensures forall i | 0 <= i < |invoices| :: invoices[i].structure < top
  {
    if invoices == [] then 0
    else
      var n := |invoices| - 1;
      N.Max(StructuresBelow(invoices[..n]), invoices[n].structure + 1)
  }

  predicate NoPrefixChange(events: seq<Event>) { forall i | 0 <= i < |events| :: !events[i].SetPrefix? }

  /** Whatever follows without another change of prefix, every year stays 1, 2, 3, ... */
  ghost predicate StaysConsecutive(events: seq<Event>) {
    forall more: seq<Event>, year: nat | NoPrefixChange(more) && N.FourDigitYear(year) ::
      Consecutive(Run(START, events + more).issued, year)
  }

  lemma SettledStays(events: seq<Event>, prefix: string, more: seq<Event>)
    requires PrefixSettled(events) && NoPrefixChange(more)
    requires NoneViable(Run(START, events)) && NoneStale(Run(START, events), prefix)
    ensures PrefixSettled(events + [SetPrefix(prefix)] + more)
  {
    hide Run, NoneViable, NoneStale;
    var all := events + [SetPrefix(prefix)] + more;
    forall i | 0 <= i < |all| && all[i].SetPrefix? ensures Settled(Run(START, all[..i]), all[i].prefix) {
      if i < |events| {
        assert all[..i] == events[..i] && all[i] == events[i];
      } else if i == |events| {
        assert all[..i] == events;
      } else {
        MoreAt(events + [SetPrefix(prefix)], more, i);
        assert false;
      }
    }
  }

  lemma MoreAt(a: seq<Event>, more: seq<Event>, i: nat)
    requires |a| <= i < |a + more| && NoPrefixChange(more)
    ensures !(a + more)[i].SetPrefix?
  {
  }

  lemma FreshNoPrefixChange(n: State, t: nat, structure: nat)
    requires t < |n.txs| && (n.txs[t].pc.Numbered? || (Buffers(n.txs[t].pc) && n.txs[t].pc.write.Replace?))
    ensures NoPrefixChange(Repeating(n, t, structure))
  {
  }

  lemma ViableBreaks(s: State, n: State, t: nat) returns (more: seq<Event>, year: nat)
    requires Changed(s, n) && Inv(n) && forall i | i in n.locks :: i < |n.db.invoices|
    requires t < |s.txs| && Viable(s, s.txs[t])
    ensures NoPrefixChange(more) && N.FourDigitYear(year) && !Consecutive(Run(n, more).issued, year)
  {
    hide Run, Viable, ReceiptInv, Inv, Consecutive, Repeating, Billed, NoPrefixChange, Changed, Room, Unhindered;
    var structure := StructuresBelow(n.db.invoices);
    var u := ChangedUnhindered(s, n, t);
    UnhinderedHasYear(s, u);
    FreshRoom(n, structure);
    SequenceRepeats(s, n, u, structure);
    FreshNoPrefixChange(n, u, structure);
    more, year := Repeating(n, u, structure), YearOf(s.txs[u]);
  }

  lemma ChangedUnhindered(s: State, n: State, t: nat) returns (u: nat)
    requires Changed(s, n) && t < |s.txs| && Viable(s, s.txs[t])
    ensures Unhindered(s, u) && n.txs == s.txs
  {
    hide Inv, ReceiptInv, Viable;
    u := SomeoneUnhindered(s, t);
  }

  lemma RunIsChanged(events: seq<Event>, prefix: string)
    requires PrefixSettled(events) && N.OneLine(prefix) && prefix != Run(START, events).db.prefix
    ensures var n := Run(START, events + [SetPrefix(prefix)]);
      Changed(Run(START, events), n) && Inv(n) && forall i | i in n.locks :: i < |n.db.invoices|
  {
    hide Run, ReceiptInv, Inv, PrefixSettled;
    EveryRunKeepsTheMoneyRight(events);
    EveryRunKeepsTheMoneyRight(events + [SetPrefix(prefix)]);
    EveryRunKeepsReceipts(events);
    RunAppend(START, events, SetPrefix(prefix));
    LocksAreOnRows(events + [SetPrefix(prefix)]);
    PrefixOnly(Run(START, events), prefix);
  }

  lemma ViableRepeats(events: seq<Event>, prefix: string, t: nat)
    requires PrefixSettled(events) && N.OneLine(prefix) && prefix != Run(START, events).db.prefix
    requires t < |Run(START, events).txs| && Viable(Run(START, events), Run(START, events).txs[t])
    ensures !StaysConsecutive(events + [SetPrefix(prefix)])
  {
    hide Run, Viable, Inv, Changed, Consecutive, NoPrefixChange;
    var all := events + [SetPrefix(prefix)];
    RunIsChanged(events, prefix);
    var more, year := ViableBreaks(Run(START, events), Run(START, all), t);
    RunConcat(START, all, more);
    assert !Consecutive(Run(START, all + more).issued, year);
  }

  lemma StaleRepeats(events: seq<Event>, prefix: string, t: nat)
    requires PrefixSettled(events) && N.OneLine(prefix) && prefix != Run(START, events).db.prefix
    requires t < |Run(START, events).txs| && Stale(Run(START, events), prefix, Run(START, events).txs[t])
    ensures !StaysConsecutive(events + [SetPrefix(prefix)])
  {
    hide Run, Inv, ReceiptInv, Consecutive, ReceiptTaken, Top, ReceiptNumber;
    var all, year := events + [SetPrefix(prefix)], Run(START, events).txs[t].pc.year;
    RunIsChanged(events, prefix);
    RunAppend(START, events, SetPrefix(prefix));
    PrefixOnly(Run(START, events), prefix);
    StaleBreaks(Run(START, events), Run(START, all), t);
    RunConcat(START, all, Advances(t, 5));
    AdvancesKeepPrefix(t, 5);
    assert !Consecutive(Run(START, all + Advances(t, 5)).issued, year);
  }

  lemma AdvancesKeepPrefix(t: nat, n: nat)
    ensures NoPrefixChange(Advances(t, n))
  {
  }

  lemma UnhinderedHasYear(s: State, u: nat)
    requires Unhindered(s, u)
    ensures u < |s.txs|
    ensures s.txs[u].pc.Numbered? || (Buffers(s.txs[u].pc) && s.txs[u].pc.write.Replace?)
    ensures N.FourDigitYear(YearOf(s.txs[u]))
  {
  }

  lemma FreshRoom(n: State, structure: nat)
    requires Inv(n) && forall i | i in n.locks :: i < |n.db.invoices|
    requires forall i | 0 <= i < |n.db.invoices| :: n.db.invoices[i].structure < structure
    ensures Room(n, structure)
  {
  }

  /**
   * In any reachable state, changing to another prefix leaves every continuation with
   * consecutive receipts exactly when no verification holds a number that it can commit,
   * and none has been overtaken at a sequence whose number is free under the new prefix.
   */
  lemma PrefixMayChangeIff(events: seq<Event>, prefix: string)
    requires PrefixSettled(events) && N.OneLine(prefix) && prefix != Run(START, events).db.prefix
    ensures StaysConsecutive(events + [SetPrefix(prefix)])
            <==> NoneViable(Run(START, events)) && NoneStale(Run(START, events), prefix)
  {
    hide Run, Viable, Stale, Consecutive;
    var s, all := Run(START, events), events + [SetPrefix(prefix)];
    if NoneViable(s) && NoneStale(s, prefix) {
      forall more: seq<Event>, year: nat | NoPrefixChange(more) && N.FourDigitYear(year)
        ensures Consecutive(Run(START, all + more).issued, year)
      {
        SettledStays(events, prefix, more);
        ReceiptsAreConsecutive(all + more, year);
      }
    } else if NoneViable(s) {
      var t :| 0 <= t < |s.txs| && Stale(s, prefix, s.txs[t]);
      StaleRepeats(events, prefix, t);
    } else {
      var t :| 0 <= t < |s.txs| && Viable(s, s.txs[t]);
      ViableRepeats(events, prefix, t);
    }
  }

  // ---------------------------------------------------------------------------
  // The shortest stories
  // ---------------------------------------------------------------------------

  const HELD := ToNumber(0, 0, 0, 2025, 0)

  /** One number held, the prefix changed, another receipt issued, and the first committed. */
  const REPEATED := HELD + [SetPrefix("NEW")] + (ToNumber(1, 1, 3, 2025, 1) + Advances(5, 4) + Advances(2, 4))

  lemma HeldNumber()
    ensures PrefixSettled(HELD) && Holding(START, Run(START, HELD), 2025, 0)
  {
    hide Run, ToNumber, Room, Holding, PrefixSettled, NoPrefixChange;
    StartRoom();
    ToNumberRuns(START, 2025, 0);
    HeldChangesNothing();
    NoPrefixSettled(HELD);
  }

  lemma FirstNumber(n: State)
    requires Holding(START, n, 2025, 0)
    ensures n.txs[2].pc.number == ReceiptNumber("RCP", 2025, 1) && Top(n.db.payments, 2025) == 0
  {
    hide ReceiptNumber, Top;
    NothingOnFile();
    TopGrown([], n.db.payments, 2025);
  }

  lemma StartRoom()
    ensures Room(START, 0)
  {
    EveryRunKeepsTheMoneyRight([]);
    assert Run(START, []) == START;
  }

  lemma NothingOnFile()
    ensures Top([], 2025) == 0
  {
    assert Readings([], 2025) == [];
  }

  lemma HeldChangesNothing()
    ensures NoPrefixChange(HELD)
  {
  }

  lemma NoPrefixSettled(events: seq<Event>)
    requires NoPrefixChange(events)
    ensures PrefixSettled(events)
  {
  }

  lemma RepeatingHeld(n: State)
    requires |n.db.invoices| == 1 && |n.db.payments| == 1 && |n.txs| == 3
    requires n.txs[2].pc.Numbered? && n.txs[2].pc.year == 2025
    ensures Repeating(n, 2, 1) == ToNumber(1, 1, 3, 2025, 1) + Advances(5, 4) + Advances(2, 4)
  {
  }

  /** Both receipts of 2025 are number one, and the index let them through. */
  lemma PrefixChangeRepeatsASequence()
    ensures Run(START, REPEATED).issued
            == [Issue(1, 2025, ReceiptNumber("NEW", 2025, 1)), Issue(0, 2025, ReceiptNumber("RCP", 2025, 1))]
    ensures !Consecutive(Run(START, REPEATED).issued, 2025)
  {
    hide Run, ReceiptNumber, Top, Advances, ToNumber, ReceiptInv, Consecutive, Next, Inv, Billed, ReceiptTaken;
    var s, n := Run(START, HELD), Run(START, HELD + [SetPrefix("NEW")]);
    HeldNumber();
    FirstNumber(s);
    EveryRunKeepsTheMoneyRight(HELD);
    EveryRunKeepsReceipts(HELD);
    LocksAreOnRows(HELD);
    RunAppend(START, HELD, SetPrefix("NEW"));
    NextKeeps(s, SetPrefix("NEW"));
    PrefixOnly(s, "NEW");
    FreshRoom(n, 1);
    HeldUnhindered(s);
    RepeatingHeld(n);
    RunConcat(START, HELD + [SetPrefix("NEW")], Repeating(n, 2, 1));
    SequenceRepeats(s, n, 2, 1);
    BothIssued(s, n, 2, 1);
  }

  lemma PrefixOnly(s: State, prefix: string)
    requires N.OneLine(prefix)
    ensures Next(s, SetPrefix(prefix)) == s.(db := s.db.(prefix := prefix))
  {
  }

  lemma HeldUnhindered(s: State)
    requires Inv(s) && ReceiptInv(s) && Holding(START, s, 2025, 0)
    requires s.txs[2].pc.number == ReceiptNumber("RCP", 2025, 1)
    ensures Unhindered(s, 2)
  {
    hide ReceiptNumber, Inv, ReceiptInv, Top;
    ReceiptPrinted("RCP", 2025, 1);
    assert s.db.payments[0] == Deposit(0, 1, 2025);
  }

  /** Bill, pay and count a payment of one naira. */
  function ToCount(inv: nat, p: nat, t: nat, year: nat, structure: nat): seq<Event> {
    Alone(Bill(structure, 1), t, 2) + Alone(Paid(inv, 1, year), t + 1, 5) + Alone(Verify(p), t + 2, 3)
  }

  /** One verification counts; a second one, from its bill on, commits the year's first receipt. */
  function Overtaking(year: nat): seq<Event> {
    ToCount(0, 0, 0, year, 0)
    + (Alone(Bill(1, 1), 3, 2) + Alone(Paid(1, 1, year), 4, 5) + Alone(Verify(1), 5, 8))
  }

  /** The first verification's count is overtaken, and nothing is buffered. */
  ghost predicate Overtaken(s: State, year: nat) {
    && |s.txs| == 6 && s.db.prefix == DEFAULT_PREFIX
    && s.txs[2] == Tx(Verify(0), Counted(0, year, 1), 0)
    && (forall t | 0 <= t < 6 && t != 2 :: s.txs[t].pc.Done?)
    && |s.db.payments| == 2 && s.db.payments[0] == Deposit(0, 1, year)
    && s.db.payments[1].receipt == ReceiptNumber(DEFAULT_PREFIX, year, 1)
    && s.issued == [Issue(1, year, ReceiptNumber(DEFAULT_PREFIX, year, 1))]
  }

  lemma FirstSequence(ps: seq<Payment>, year: nat)
    requires forall k | 0 <= k < |ps| :: '/' !in ps[k].receipt
    ensures NextSequence(ps, year) == 1
  {
    hide Top;
    NextReceiptContinues(ps, year);
    TopGrown([], ps, year);
    assert Top([], year) == 0 by { NothingCounted(year); }
  }

  lemma NothingCounted(year: nat)
    ensures Top([], year) == 0
  {
    assert Readings([], year) == [];
  }

  /** The state once the first verification has counted. */
  function FirstCount(s: State, year: nat): State { Counting(Paying(Billing(s, 0, 1), 0, 1, year), 0, 0, year) }

  lemma FirstCountRuns(s: State, year: nat)
    requires s == START
    ensures Run(s, ToCount(0, 0, 0, year, 0)) == FirstCount(s, year)
  {
    hide Run, Alone, Next, NextSequence, TotalsOf, DbOk;
    var a, b, c := Alone(Bill(0, 1), 0, 2), Alone(Paid(0, 1, year), 1, 5), Alone(Verify(0), 2, 3);
    RunConcat(s, a + b, c);
    RunConcat(s, a, b);
    BillRuns(s, 0, 1);
    FirstPayment(1);
    PayRuns(Billing(s, 0, 1), 0, 1, year);
    CountRuns(Paying(Billing(s, 0, 1), 0, 1, year), 0, 0, year);
  }

  lemma SecondCovers(s: State, f: State, year: nat)
    requires s == START && f == Paying(Billing(FirstCount(s, year), 1, 1), 1, 1, year) && N.FourDigitYear(year) && Inv(f)
    ensures Covering(f, 1, 1)
  {
    hide NextReceiptNumber, Inv, ReceiptTaken, NumberBuffered, NextSequence, TotalsOf;
    NextIsFree(f, year);
    SecondTotals(f.db.payments, year);
  }

  lemma SecondTotals(ps: seq<Payment>, year: nat)
    requires |ps| == 2 && ps[0] == Deposit(0, 1, year) && ps[1] == Deposit(1, 1, year)
    ensures TotalsOf(ps, 1).verified == 0
  {
    assert ps == [ps[0]] + [ps[1]];
    NoPaymentsYet([ps[0]], 1, 1);
    TotalsAppend([ps[0]], ps[1], 1);
  }

  lemma OvertakingRuns(s: State, year: nat)
    requires s == START && N.FourDigitYear(year)
    ensures Overtaken(Run(s, Overtaking(year)), year)
  {
    hide Run, Alone, Next, NextSequence, TotalsOf, ReceiptNumber, Inv, ToCount;
    var f := FirstCount(s, year);
    var a, b, c := Alone(Bill(1, 1), 3, 2), Alone(Paid(1, 1, year), 4, 5), Alone(Verify(1), 5, 8);
    FirstCountRuns(s, year);
    RunConcat(s, ToCount(0, 0, 0, year, 0), a + b + c);
    RunConcat(f, a + b, c);
    RunConcat(f, a, b);
    BillRuns(f, 1, 1);
    var g := Billing(f, 1, 1);
    NothingForSecond(g, year);
    PayRuns(g, 1, 1, year);
    var h := Paying(g, 1, 1, year);
    RunConcat(s, ToCount(0, 0, 0, year, 0), a + b);
    EveryRunKeepsTheMoneyRight(ToCount(0, 0, 0, year, 0) + (a + b));
    SecondCovers(s, h, year);
    VerifyRuns(h, 1, 1);
    FirstSequence([Deposit(0, 1, year)], year);
    FirstSequence([Deposit(0, 1, year), Deposit(1, 1, year)], year);
    assert [] + [Deposit(0, 1, year)] == [Deposit(0, 1, year)];
    assert h.db.payments == [Deposit(0, 1, year), Deposit(1, 1, year)];
  }

  lemma NothingForSecond(g: State, year: nat)
    requires g.db.payments == [Deposit(0, 1, year)] && |g.db.invoices| == 2 && g.db.invoices[1] == Charge(1, 1)
    requires 1 !in g.locks
    ensures Untouched(g, 1, 1)
  {
    NoPaymentsYet(g.db.payments, 1, 1);
  }

  /** Nobody holds a number when the prefix changes, and still the sequence is given out again. */
  lemma OvertakenCountRepeatsASequence(year: nat)
    requires N.FourDigitYear(year)
    ensures NoneViable(Run(START, Overtaking(year)))
    ensures var events := Overtaking(year) + [SetPrefix("NEW")] + Advances(2, 5);
      && Run(START, events).issued
         == [Issue(1, year, ReceiptNumber("RCP", year, 1)), Issue(0, year, ReceiptNumber("NEW", year, 1))]
      && !Consecutive(Run(START, events).issued, year)
  {
    hide Run, ReceiptNumber, Overtaking, Advances, Consecutive, Next, Inv, SequenceOf, NumberBuffered;
    var all := Overtaking(year) + [SetPrefix("NEW")];
    OvertakingRuns(START, year);
    RunAppend(START, Overtaking(year), SetPrefix("NEW"));
    PrefixOnly(Run(START, Overtaking(year)), "NEW");
    EveryRunKeepsTheMoneyRight(all);
    RunConcat(START, all, Advances(2, 5));
    var n := Run(START, all);
    FormatsDiffer("RCP", "NEW", year, 1);
    ReceiptPrinted("RCP", year, 1);
    ReceiptPrinted("NEW", year, 1);
    NothingBuffers(n, ReceiptNumber("NEW", year, 1));
    CountedFinishes(n, 2);
    var a, b := Issue(1, year, ReceiptNumber("RCP", year, 1)), Issue(0, year, ReceiptNumber("NEW", year, 1));
    assert [] + [a] + [b] == [a, b];
    TwiceIsNotConsecutive([], a, b, year);
  }

  lemma NothingBuffers(n: State, number: string)
    requires forall t | 0 <= t < |n.txs| :: !Buffers(n.txs[t].pc)
    ensures !NumberBuffered(n.txs, number)
  {
  }
}
