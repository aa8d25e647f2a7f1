/** The debtor report: what each student still owes, and the school's total. */
module DebtorReport {
  import opened Wrappers
  import opened FeeMath
  import opened Sequences

  datatype OwingInvoice = OwingInvoice(student: nat, total: int, discount: int, paid: int, due: Option<int>)

  datatype Debtor = Debtor(totalOwed: int, invoiceCount: nat, earliestDue: Option<int>, isOverdue: bool)

  function OwedOn(i: OwingInvoice): nat { Balance(i.total, i.discount, i.paid) }

  const Owed: OwingInvoice -> int := (i: OwingInvoice) => OwedOn(i)

  /** outstandingTotal: the balances of the invoices that still owe. */
  function Outstanding(invoices: seq<OwingInvoice>): int { Sum(invoices, Owed) }

  function Earlier(a: Option<int>, b: Option<int>): Option<int> {
    if a.None? then b else if b.None? then a else if a.value < b.value then a else b
  }

  predicate OverdueAt(due: Option<int>, today: int) { due.Some? && due.value < today }

  /** Invoice i counts towards this student's debt. */
  predicate Counts(i: OwingInvoice, student: nat) { i.student == student && OwedOn(i) != 0 }

  /** Everything one student owes on the first n invoices. */
  function DebtOf(invoices: seq<OwingInvoice>, n: nat, student: nat, today: int): Debtor
    requires n <= |invoices|
  {
    if n == 0 then Debtor(0, 0, None, false)
    else
      var before := DebtOf(invoices, n - 1, student, today);
      var i := invoices[n - 1];
      if Counts(i, student)
      then Debtor(before.totalOwed + OwedOn(i), before.invoiceCount + 1,
                  Earlier(before.earliestDue, i.due), before.isOverdue || OverdueAt(i.due, today))
      else before
  }

  /** The grouping of the first n invoices: one row for each student who owes anything. */
  ghost predicate Grouped(m: map<nat, Debtor>, invoices: seq<OwingInvoice>, n: nat, today: int)
    requires n <= |invoices|
  {
    && (forall st: nat :: st in m <==> DebtOf(invoices, n, st, today).invoiceCount > 0)
    && (forall st | st in m :: m[st] == DebtOf(invoices, n, st, today))
  }

  // ---------------------------------------------------------------------------
  // What a row says of the invoices
  // ---------------------------------------------------------------------------

  /** The student's invoices, among the first n, with a balance. */
  function OwingOf(invoices: seq<OwingInvoice>, n: nat, student: nat): set<nat>
    requires n <= |invoices|
  {
    set k | 0 <= k < n && invoices[k].student == student
            && Balance(invoices[k].total, invoices[k].discount, invoices[k].paid) > 0
  }

  function OwedIf(student: nat): OwingInvoice -> int {
    (i: OwingInvoice) => if i.student == student then Balance(i.total, i.discount, i.paid) else 0
  }

  /** The due date is one of theirs and no later than any, or none of them has one. */
  ghost predicate EarliestOf(invoices: seq<OwingInvoice>, owing: set<nat>, earliest: Option<int>)
    requires forall k | k in owing :: k < |invoices|
  {
    if earliest.None? then forall k | k in owing :: invoices[k].due.None?
    else
      && (exists k :: k in owing && invoices[k].due == earliest)
      && forall k | k in owing && invoices[k].due.Some? :: earliest.value <= invoices[k].due.value
  }

  /** One of them was due before today. */
  ghost predicate SomeOverdue(invoices: seq<OwingInvoice>, owing: set<nat>, today: int)
    requires forall k | k in owing :: k < |invoices|
  {
    exists k :: k in owing && invoices[k].due.Some? && invoices[k].due.value < today
  }

  ghost predicate DebtSays(d: Debtor, invoices: seq<OwingInvoice>, n: nat, student: nat, today: int)
    requires n <= |invoices|
  {
    var owing := OwingOf(invoices, n, student);
    && d.invoiceCount == |owing|
    && d.totalOwed == SumUpTo(invoices, n, OwedIf(student))
    && EarliestOf(invoices, owing, d.earliestDue)
    && (d.isOverdue <==> SomeOverdue(invoices, owing, today))
  }

  lemma NextOwing(invoices: seq<OwingInvoice>, n: nat, student: nat)
    requires 0 < n <= |invoices|
    ensures OwingOf(invoices, n, student)
            == OwingOf(invoices, n - 1, student) + (if Counts(invoices[n - 1], student) then {n - 1} else {})
    ensures n - 1 !in OwingOf(invoices, n - 1, student)
  {
  }

  lemma EarliestNext(invoices: seq<OwingInvoice>, owing: set<nat>, n: nat, earliest: Option<int>)
    requires n < |invoices| && (forall k | k in owing :: k < n) && EarliestOf(invoices, owing, earliest)
    ensures EarliestOf(invoices, owing + {n}, Earlier(earliest, invoices[n].due))
  {
    var more := owing + {n};
    assert n in more;
    if earliest.Some? {
      var k :| k in owing && invoices[k].due == earliest;
      assert k in more;
    }
  }

  lemma OverdueNext(invoices: seq<OwingInvoice>, owing: set<nat>, n: nat, today: int)
    requires n < |invoices| && forall k | k in owing :: k < n
    ensures SomeOverdue(invoices, owing + {n}, today)
            <==> SomeOverdue(invoices, owing, today) || OverdueAt(invoices[n].due, today)
  {
    var more := owing + {n};
    assert n in more;
    if SomeOverdue(invoices, owing, today) {
      var k :| k in owing && invoices[k].due.Some? && invoices[k].due.value < today;
      assert k in more;
    }
  }

  lemma OwingOfNone(invoices: seq<OwingInvoice>, student: nat)
    ensures OwingOf(invoices, 0, student) == {}
  {
  }

  lemma OwingBelow(invoices: seq<OwingInvoice>, n: nat, student: nat)
    requires n <= |invoices|
    ensures forall k | k in OwingOf(invoices, n, student) :: k < n
  {
  }

  lemma {:induction false} DebtIsSaid(invoices: seq<OwingInvoice>, n: nat, student: nat, today: int)
    requires n <= |invoices|
    ensures DebtSays(DebtOf(invoices, n, student, today), invoices, n, student, today)
  {
    hide OwingOf, EarliestOf, SomeOverdue, Earlier, OverdueAt;
    OwingBelow(invoices, n, student);
    if n == 0 {
      OwingOfNone(invoices, student);
      NothingOwing(invoices, today);
    } else {
      DebtIsSaid(invoices, n - 1, student, today);
      NextOwing(invoices, n, student);
      OwingBelow(invoices, n - 1, student);
      var before := OwingOf(invoices, n - 1, student);
      if Counts(invoices[n - 1], student) {
        EarliestNext(invoices, before, n - 1, DebtOf(invoices, n - 1, student, today).earliestDue);
        OverdueNext(invoices, before, n - 1, today);
      } else {
        assert before + {} == before;
      }
    }
  }

  lemma NothingOwing(invoices: seq<OwingInvoice>, today: int)
    ensures EarliestOf(invoices, {}, None) && !SomeOverdue(invoices, {}, today)
  {
  }

  /** A row for each student with a balance, saying how much, on how many invoices, due when at the earliest. */
  ghost predicate DebtorsSay(m: map<nat, Debtor>, invoices: seq<OwingInvoice>, today: int) {
    && (forall st: nat :: st in m <==> OwingOf(invoices, |invoices|, st) != {})
    && (forall st | st in m :: DebtSays(m[st], invoices, |invoices|, st, today))
  }

  lemma GroupedSays(m: map<nat, Debtor>, invoices: seq<OwingInvoice>, today: int)
    requires Grouped(m, invoices, |invoices|, today)
    ensures DebtorsSay(m, invoices, today)
  {
    hide DebtOf, OwingOf, EarliestOf;
    forall st: nat ensures DebtSays(DebtOf(invoices, |invoices|, st, today), invoices, |invoices|, st, today) {
      DebtIsSaid(invoices, |invoices|, st, today);
    }
  }

  method GroupByStudent(invoices: seq<OwingInvoice>, today: int) returns (byStudent: map<nat, Debtor>)
    ensures Grouped(byStudent, invoices, |invoices|, today)
    ensures DebtorsSay(byStudent, invoices, today)
  {
    hide DebtorsSay;
    byStudent := map[];
    for n := 0 to |invoices|
      invariant Grouped(byStudent, invoices, n, today)
    {
      var invoice := invoices[n];
      var owed := OwedOn(invoice);
      if owed != 0 {
        NoDebtYet(invoices, n, invoice.student, today);
        var st := invoice.student;
        var overdue := OverdueAt(invoice.due, today);
        if st in byStudent {
          var existing := byStudent[st];
          byStudent := byStudent[st := Debtor(existing.totalOwed + owed, existing.invoiceCount + 1,
                                              Earlier(existing.earliestDue, invoice.due),
                                              existing.isOverdue || overdue)];
        } else {
          byStudent := byStudent[st := Debtor(owed, 1, invoice.due, overdue)];
        }
      }
    }
    GroupedSays(byStudent, invoices, today);
  }

  lemma {:induction false} NoDebtYet(invoices: seq<OwingInvoice>, n: nat, student: nat, today: int)
    requires n <= |invoices|
    ensures DebtOf(invoices, n, student, today).invoiceCount == 0 ==>
      DebtOf(invoices, n, student, today) == Debtor(0, 0, None, false)
  {
    if n > 0 { NoDebtYet(invoices, n - 1, student, today); }
  }

  function OwedBy(invoices: seq<OwingInvoice>, n: nat, today: int): nat -> int
    requires n <= |invoices|
  {
    (st: nat) => DebtOf(invoices, n, st, today).totalOwed
  }

  /** The students' debts add up to the school's total, over any set of students that holds every debtor. */
  lemma {:induction false} DebtsAddUp(students: set<nat>, invoices: seq<OwingInvoice>, n: nat, today: int)
    requires n <= |invoices| && forall k | 0 <= k < n && OwedOn(invoices[k]) != 0 :: invoices[k].student in students
    ensures SumOver(students, OwedBy(invoices, n, today)) == SumUpTo(invoices, n, Owed)
  {
    if n == 0 {
      SumOverZero(students, OwedBy(invoices, 0, today));
    } else {
      DebtsAddUp(students, invoices, n - 1, today);
      var before, after := OwedBy(invoices, n - 1, today), OwedBy(invoices, n, today);
      if OwedOn(invoices[n - 1]) != 0 {
        SumOverChange(students, before, after, invoices[n - 1].student);
      } else {
        SumOverAgree(students, before, after);
      }
    }
  }

  lemma {:induction false} SumOverZero(s: set<nat>, f: nat -> int)
    requires forall k | k in s :: f(k) == 0
    ensures SumOver(s, f) == 0
    decreases |s|
  {
    if s != {} {
      var x :| x in s;
      SumOverPick(s, f, x);
      SumOverZero(s - {x}, f);
    }
  }

  lemma {:induction false} DebtorCounted(invoices: seq<OwingInvoice>, n: nat, k: nat, today: int)
    requires k < n <= |invoices| && OwedOn(invoices[k]) != 0
    ensures DebtOf(invoices, n, invoices[k].student, today).invoiceCount > 0
  {
    if k < n - 1 { DebtorCounted(invoices, n - 1, k, today); }
  }

  /** Whatever list the report groups, its rows sum to the outstanding total of that list. */
  lemma GroupingConserves(m: map<nat, Debtor>, invoices: seq<OwingInvoice>, today: int)
    requires Grouped(m, invoices, |invoices|, today)
    ensures SumOver(m.Keys, (st: nat) => if st in m then m[st].totalOwed else 0) == Outstanding(invoices)
  {
    forall k | 0 <= k < |invoices| && OwedOn(invoices[k]) != 0 ensures invoices[k].student in m.Keys {
      DebtorCounted(invoices, |invoices|, k, today);
    }
    DebtsAddUp(m.Keys, invoices, |invoices|, today);
    SumOverAgree(m.Keys, (st: nat) => if st in m then m[st].totalOwed else 0, OwedBy(invoices, |invoices|, today));
  }
}
