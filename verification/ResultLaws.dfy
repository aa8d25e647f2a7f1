/** What the computed results mean, and that they do not depend on the order of the inputs. */
module ResultLaws {
  import opened Wrappers
  import opened Sequences
  import opened Grading
  import opened Ranking
  import opened ComputeResults

  // ---------------------------------------------------------------------------
  // Missing scores
  // ---------------------------------------------------------------------------

  lemma {:induction false} AbsentExactly(input: Input, st: nat, su: nat, n: nat, c: nat)
    requires n <= |input.components|
    ensures c in Absent(input, st, su, n) <==>
      exists i :: 0 <= i < n && input.components[i].id == c && Parts(input, st, su)[i] == None
  {
    if n > 0 { AbsentExactly(input, st, su, n - 1, c); }
  }

  predicate Lists(m: Missing, st: nat, su: nat, c: nat) { m.student == st && m.subject == su && c in m.components }

  predicate Listed(missing: seq<Missing>, st: nat, su: nat, c: nat) {
    exists m | m in missing :: Lists(m, st, su, c)
  }

  lemma ListedConcat(a: seq<Missing>, b: seq<Missing>, st: nat, su: nat, c: nat)
    ensures Listed(a + b, st, su, c) <==> Listed(a, st, su, c) || Listed(b, st, su, c)
  {
    if Listed(a, st, su, c) {
      var m :| m in a && Lists(m, st, su, c);
      assert m in a + b;
    }
    if Listed(b, st, su, c) {
      var m :| m in b && Lists(m, st, su, c);
      assert m in a + b;
    }
  }

  lemma {:induction false} MissingForExactly(input: Input, st: nat, taken: seq<Subject>, n: nat, su: nat, c: nat)
    requires n <= |taken|
    ensures Listed(MissingFor(input, st, taken, n), st, su, c) <==>
      exists k :: 0 <= k < n && taken[k].id == su && c in AllAbsent(input, st, su)
    ensures forall m | m in MissingFor(input, st, taken, n) :: m.student == st
  {
    if n > 0 {
      MissingForExactly(input, st, taken, n - 1, su, c);
      var absent := AllAbsent(input, st, taken[n - 1].id);
      var last := Missing(st, taken[n - 1].id, absent);
      ListedConcat(MissingFor(input, st, taken, n - 1), [last], st, su, c);
      assert Listed([last], st, su, c) <==> Lists(last, st, su, c) by { assert last in [last]; }
    }
  }

  /** The student lacks a score the subject needs. */
  ghost predicate Lacks(input: Input, st: nat, su: nat, c: nat) {
    && (exists x :: x in AllTaken(input, st) && x.id == su)
    && (exists i :: 0 <= i < |input.components| && input.components[i].id == c && Parts(input, st, su)[i] == None)
  }

  lemma {:induction false} AllMissingExactly(input: Input, n: nat, st: nat, su: nat, c: nat)
    requires n <= |input.students|
    ensures Listed(AllMissing(input, n), st, su, c) <==> st in input.students[..n] && Lacks(input, st, su, c)
  {
    if n > 0 {
      var last := input.students[n - 1];
      var taken := AllTaken(input, last);
      var mine := MissingFor(input, last, taken, |taken|);
      AllMissingExactly(input, n - 1, st, su, c);
      MissingForExactly(input, last, taken, |taken|, su, c);
      ListedConcat(AllMissing(input, n - 1), mine, st, su, c);
      AbsentExactly(input, last, su, |input.components|, c);
      assert input.students[..n] == input.students[..n - 1] + [last];
      if exists x :: x in taken && x.id == su {
        var x :| x in taken && x.id == su;
        var k :| 0 <= k < |taken| && taken[k] == x;
        assert taken[k].id == su;
      }
    }
  }

  /** The missing list holds exactly the components a rostered student lacks in a subject taken. */
  lemma MissingExactly(input: Input, st: nat, su: nat, c: nat)
    ensures Listed(Compute(input).missing, st, su, c) <==> st in input.students && Lacks(input, st, su, c)
  {
    AllMissingExactly(input, |input.students|, st, su, c);
    assert input.students[..|input.students|] == input.students;
  }

  lemma {:induction false} EveryEntryListsFor(input: Input, st: nat, taken: seq<Subject>, n: nat, m: Missing)
    requires n <= |taken| && m in MissingFor(input, st, taken, n)
    ensures m.components != []
  {
    if m in MissingFor(input, st, taken, n - 1) { EveryEntryListsFor(input, st, taken, n - 1, m); }
  }

  /** An entry of the missing list names at least one component. */
  lemma {:induction false} EveryEntryLists(input: Input, n: nat, m: Missing)
    requires n <= |input.students| && m in AllMissing(input, n)
    ensures m.components != []
  {
    var taken := AllTaken(input, input.students[n - 1]);
    if m in AllMissing(input, n - 1) {
      EveryEntryLists(input, n - 1, m);
    } else {
      EveryEntryListsFor(input, input.students[n - 1], taken, |taken|, m);
    }
  }

  // ---------------------------------------------------------------------------
  // Statistics
  // ---------------------------------------------------------------------------

  lemma TimesMonotone(a: int, b: int, d: nat)
    requires a <= b
    ensures a * d <= b * d
  {
    assert (b - a) * d >= 0;
  }

  lemma QuotientBetween(y: int, d: int, lo: int, hi: int)
    requires d > 0 && lo * d <= y < (hi + 1) * d
    ensures lo <= y / d <= hi
  {
    var q := y / d;
    assert q * d <= y < q * d + d;
    if q < lo { TimesMonotone(q + 1, lo, d); }
    if q > hi { TimesMonotone(hi + 1, q, d); }
  }

  /** A quotient between two whole hundredths stays between them after rounding. */
  lemma RoundBetween(x: int, n: nat, lo: int, hi: int)
    requires n > 0 && lo * n <= x <= hi * n
    ensures lo <= RoundHalfUp(x, n) <= hi
  {
    assert lo * (2 * n) == 2 * (lo * n) && (hi + 1) * (2 * n) == 2 * (hi * n) + 2 * n;
    if x >= 0 {
      QuotientBetween(2 * x + n, 2 * n, lo, hi);
    } else {
      assert -hi * (2 * n) == -2 * (hi * n) && (-lo + 1) * (2 * n) == -2 * (lo * n) + 2 * n;
      QuotientBetween(2 * -x + n, 2 * n, -hi, -lo);
    }
  }

  lemma {:induction false} Extremes(xs: seq<int>, n: nat)
    requires 0 < n <= |xs|
    ensures forall i | 0 <= i < n :: MinOf(xs, n) <= xs[i] <= MaxOf(xs, n)
  {
    if n > 1 { Extremes(xs, n - 1); }
  }

  lemma {:induction false} SumBetween(xs: seq<int>, n: nat)
    requires 0 < n <= |xs|
    ensures MinOf(xs, n) * n <= SumUpTo(xs, n, Itself) <= MaxOf(xs, n) * n
  {
    if n == 1 {
      assert SumUpTo(xs, 0, Itself) == 0;
    } else {
      SumBetween(xs, n - 1);
      TimesMonotone(MinOf(xs, n), MinOf(xs, n - 1), n - 1);
      TimesMonotone(MaxOf(xs, n - 1), MaxOf(xs, n), n - 1);
      assert MinOf(xs, n) * n == MinOf(xs, n) * (n - 1) + MinOf(xs, n);
      assert MaxOf(xs, n) * n == MaxOf(xs, n) * (n - 1) + MaxOf(xs, n);
    }
  }

  /** Rounding never takes a subject's average outside its lowest and highest totals. */
  lemma AverageBetween(su: nat, totals: seq<int>)
    requires |totals| > 0
    ensures var s := StatsOf(su, totals); s.lowest <= s.average <= s.highest
  {
    SumBetween(totals, |totals|);
    RoundBetween(Sum(totals, Itself), |totals|, MinOf(totals, |totals|), MaxOf(totals, |totals|));
  }

  /** A statistics row speaks of the takers of one offered subject, and of nobody else. */
  ghost predicate StatsFor(input: Input, s: Stats, su: Subject) {
    var totals := TakerTotals(input, su, |input.students|);
    && s.subject == su.id && s.count == |totals| > 0
    && s.lowest <= s.average <= s.highest
    && (forall i | 0 <= i < |totals| :: s.lowest <= totals[i] <= s.highest)
  }

  lemma StatsOfTakers(input: Input, su: Subject)
    requires TakerTotals(input, su, |input.students|) != []
    ensures StatsFor(input, StatsOf(su.id, TakerTotals(input, su, |input.students|)), su)
  {
    var totals := TakerTotals(input, su, |input.students|);
    AverageBetween(su.id, totals);
    Extremes(totals, |totals|);
  }

  /** What the n-th subject adds to the statistics. */
  lemma StatsNext(input: Input, n: nat, s: Stats)
    requires 0 < n <= |input.subjects|
    ensures var su := input.subjects[n - 1];
      var totals := TakerTotals(input, su, |input.students|);
      s in AllStats(input, n) <==> s in AllStats(input, n - 1) || (totals != [] && s == StatsOf(su.id, totals))
  {
  }

  /** Every statistics row belongs to one of the first n subjects. */
  lemma {:induction false} StatsOwned(input: Input, n: nat, s: Stats) returns (i: nat)
    requires n <= |input.subjects| && s in AllStats(input, n)
    ensures i < n && StatsFor(input, s, input.subjects[i])
  {
    hide StatsOf, TakerTotals, StatsFor;
    StatsNext(input, n, s);
    if s in AllStats(input, n - 1) {
      i := StatsOwned(input, n - 1, s);
    } else {
      i := n - 1;
      StatsOfTakers(input, input.subjects[i]);
    }
  }

  lemma {:induction false} StatsStay(input: Input, m: nat, n: nat, s: Stats)
    requires m <= n <= |input.subjects| && s in AllStats(input, m)
    ensures s in AllStats(input, n)
  {
    hide StatsOf, TakerTotals;
    if m < n {
      StatsStay(input, m, n - 1, s);
      StatsNext(input, n, s);
    }
  }

  lemma StatsPresent(input: Input, n: nat, i: nat)
    requires i < n <= |input.subjects| && TakerTotals(input, input.subjects[i], |input.students|) != []
    ensures StatsOf(input.subjects[i].id, TakerTotals(input, input.subjects[i], |input.students|)) in AllStats(input, n)
  {
    hide StatsOf, TakerTotals, AllStats;
    var s := StatsOf(input.subjects[i].id, TakerTotals(input, input.subjects[i], |input.students|));
    StatsNext(input, i + 1, s);
    StatsStay(input, i + 1, n, s);
  }

  /** recompute's lookup: a subject that anybody takes has a statistics row. */
  lemma StatsDefinedForTaken(input: Input, i: nat, su: Subject)
    requires i < |input.students| && su in AllTaken(input, input.students[i])
    ensures exists s :: s in Compute(input).stats && StatsFor(input, s, su)
  {
    TakenFrom(input, input.students[i], |input.subjects|);
    TakersFrom(input, su, |input.students|);
    var k :| 0 <= k < |input.subjects| && input.subjects[k] == su;
    assert i in Takers(input, su, |input.students|);
    StatsPresent(input, |input.subjects|, k);
    StatsOfTakers(input, su);
  }

  // ---------------------------------------------------------------------------
  // Places as counts over the roster
  // ---------------------------------------------------------------------------

  /** 1 when the student takes the subject with a strictly greater total. */
  function BetterIn(input: Input, su: Subject, v: int): nat -> int {
    (st: nat) => if Takes(input, st, su) && SubjectTotal(input, st, su.id) > v then 1 else 0
  }

  /** 1 when the student is ranked with a strictly greater average. */
  function BetterOverall(input: Input, v: int): nat -> int {
    (st: nat) => if AllTaken(input, st) != [] && Average(input, st) > v then 1 else 0
  }

  lemma {:induction false} CountAppend(values: seq<int>, x: int, v: int)
    ensures CountGreater(values + [x], v) == CountGreater(values, v) + if x > v then 1 else 0
  {
    var all := values + [x];
    SumAgree(Indices(|values|), Indices(|all|), |values|, Beats(values, v), Beats(all, v));
    assert Indices(|all|)[|values|] == |values|;
  }

  lemma {:induction false} SubjectCount(input: Input, su: Subject, n: nat, v: int)
    requires n <= |input.students|
    ensures CountGreater(TakerTotals(input, su, n), v) == SumUpTo(input.students, n, BetterIn(input, su, v))
  {
    if n == 0 {
      assert TakerTotals(input, su, 0) == [];
    } else {
      SubjectCount(input, su, n - 1, v);
      var st := input.students[n - 1];
      if Takes(input, st, su) {
        assert TakerTotals(input, su, n) == TakerTotals(input, su, n - 1) + [SubjectTotal(input, st, su.id)];
        CountAppend(TakerTotals(input, su, n - 1), SubjectTotal(input, st, su.id), v);
      } else {
        assert TakerTotals(input, su, n) == TakerTotals(input, su, n - 1);
      }
    }
  }

  lemma {:induction false} ClassCount(input: Input, n: nat, v: int)
    requires n <= |input.students|
    ensures CountGreater(RankedAverages(input, n), v) == SumUpTo(input.students, n, BetterOverall(input, v))
  {
    if n == 0 {
      assert RankedAverages(input, 0) == [];
    } else {
      ClassCount(input, n - 1, v);
      var st := input.students[n - 1];
      if AllTaken(input, st) != [] {
        assert RankedAverages(input, n) == RankedAverages(input, n - 1) + [Average(input, st)];
        CountAppend(RankedAverages(input, n - 1), Average(input, st), v);
      } else {
        assert RankedAverages(input, n) == RankedAverages(input, n - 1);
      }
    }
  }

  /** A student's place is one more than the number of students strictly ahead. */
  lemma PlacesCountStudents(input: Input, st: nat, su: Subject)
    ensures SubjectPlace(input, st, su)
            == 1 + Sum(input.students, BetterIn(input, su, SubjectTotal(input, st, su.id)))
    ensures AllTaken(input, st) != [] ==>
      ClassPlace(input, st) == Some(1 + Sum(input.students, BetterOverall(input, Average(input, st))))
  {
    SubjectCount(input, su, |input.students|, SubjectTotal(input, st, su.id));
    ClassCount(input, |input.students|, Average(input, st));
  }

  // ---------------------------------------------------------------------------
  // Order of the inputs
  // ---------------------------------------------------------------------------

  /** The unique index on scores. */
  ghost predicate DistinctCells(scores: seq<ScoreRow>) {
    forall a, b | a in scores && b in scores && Cell(a, b.student, b.subject, b.component) :: a == b
  }

  /** The same facts, listed in another order. */
  ghost predicate Reordered(a: Input, b: Input) {
    && multiset(a.students) == multiset(b.students)
    && a.subjects == b.subjects && a.components == b.components
    && multiset(a.scores) == multiset(b.scores) && DistinctCells(a.scores)
    && multiset(a.bands) == multiset(b.bands) && ValidScale(a.bands)
  }

  lemma {:induction false} ScoreOfFinds(scores: seq<ScoreRow>, n: nat, st: nat, su: nat, c: nat)
    requires n <= |scores|
    ensures match ScoreOf(scores, n, st, su, c)
            case Some(x) => ScoreRow(st, su, c, x) in scores[..n]
            case None => forall row | row in scores[..n] :: !Cell(row, st, su, c)
  {
    if n > 0 {
      ScoreOfFinds(scores, n - 1, st, su, c);
      assert scores[..n] == scores[..n - 1] + [scores[n - 1]];
    }
  }

  lemma SameScores(a: Input, b: Input, st: nat, su: nat, c: nat)
    requires Reordered(a, b)
    ensures ScoreOf(a.scores, |a.scores|, st, su, c) == ScoreOf(b.scores, |b.scores|, st, su, c)
  {
    ScoreOfFinds(a.scores, |a.scores|, st, su, c);
    ScoreOfFinds(b.scores, |b.scores|, st, su, c);
    assert a.scores[..|a.scores|] == a.scores && b.scores[..|b.scores|] == b.scores;
    SameRows(a, b);
  }

  lemma SameRows(a: Input, b: Input)
    requires multiset(a.scores) == multiset(b.scores)
    ensures forall row :: row in a.scores <==> row in b.scores
  {
    forall row ensures row in a.scores <==> row in b.scores {
      assert row in multiset(a.scores) <==> row in multiset(b.scores);
    }
  }

  lemma SameTakes(a: Input, b: Input, st: nat, su: Subject)
    requires Reordered(a, b)
    ensures Takes(a, st, su) <==> Takes(b, st, su)
  {
    SameRows(a, b);
    if Touched(a.scores, st, su.id) {
      var row :| row in a.scores && row.student == st && row.subject == su.id;
      assert row in b.scores;
    }
    if Touched(b.scores, st, su.id) {
      var row :| row in b.scores && row.student == st && row.subject == su.id;
      assert row in a.scores;
    }
  }

  lemma SameParts(a: Input, b: Input, st: nat, su: nat)
    requires Reordered(a, b)
    ensures Parts(a, st, su) == Parts(b, st, su)
    ensures SubjectTotal(a, st, su) == SubjectTotal(b, st, su)
  {
    forall i | 0 <= i < |a.components| ensures Parts(a, st, su)[i] == Parts(b, st, su)[i] {
      SameScores(a, b, st, su, a.components[i].id);
    }
  }

  lemma {:induction false} SameAbsent(a: Input, b: Input, st: nat, su: nat, n: nat)
    requires Reordered(a, b) && n <= |a.components|
    ensures Absent(a, st, su, n) == Absent(b, st, su, n)
  {
    if n > 0 {
      SameAbsent(a, b, st, su, n - 1);
      SameParts(a, b, st, su);
    }
  }

  lemma {:induction false} SameTaken(a: Input, b: Input, st: nat, n: nat)
    requires Reordered(a, b) && n <= |a.subjects|
    ensures Taken(a, st, n) == Taken(b, st, n)
  {
    if n > 0 {
      SameTaken(a, b, st, n - 1);
      SameTakes(a, b, st, a.subjects[n - 1]);
    }
  }

  lemma {:induction false} SameTotalOver(a: Input, b: Input, st: nat, taken: seq<Subject>, n: nat)
    requires Reordered(a, b) && n <= |taken|
    ensures TotalOver(a, st, taken, n) == TotalOver(b, st, taken, n)
  {
    if n > 0 {
      SameTotalOver(a, b, st, taken, n - 1);
      SameParts(a, b, st, taken[n - 1].id);
    }
  }

  lemma SameAverage(a: Input, b: Input, st: nat)
    requires Reordered(a, b)
    ensures AllTaken(a, st) == AllTaken(b, st)
    ensures StudentTotal(a, st) == StudentTotal(b, st) && Average(a, st) == Average(b, st)
  {
    SameTaken(a, b, st, |a.subjects|);
    SameTotalOver(a, b, st, AllTaken(a, st), |AllTaken(a, st)|);
  }

  lemma SameSubjectPlace(a: Input, b: Input, st: nat, su: Subject)
    requires Reordered(a, b)
    ensures SubjectPlace(a, st, su) == SubjectPlace(b, st, su)
  {
    PlacesCountStudents(a, st, su);
    PlacesCountStudents(b, st, su);
    SameParts(a, b, st, su.id);
    var v := SubjectTotal(a, st, su.id);
    forall x: nat ensures BetterIn(a, su, v)(x) == BetterIn(b, su, v)(x) {
      SameTakes(a, b, x, su);
      SameParts(a, b, x, su.id);
    }
    SumPermuted<nat>(a.students, b.students, BetterIn(a, su, v));
    SumAgree<nat>(b.students, b.students, |b.students|, BetterIn(a, su, v), BetterIn(b, su, v));
  }

  lemma SameClassPlace(a: Input, b: Input, st: nat)
    requires Reordered(a, b)
    ensures ClassPlace(a, st) == ClassPlace(b, st)
  {
    SameAverage(a, b, st);
    var v := Average(a, st);
    ClassCount(a, |a.students|, v);
    ClassCount(b, |b.students|, v);
    forall x: nat ensures BetterOverall(a, v)(x) == BetterOverall(b, v)(x) {
      SameAverage(a, b, x);
    }
    SumPermuted<nat>(a.students, b.students, BetterOverall(a, v));
    SumAgree<nat>(b.students, b.students, |b.students|, BetterOverall(a, v), BetterOverall(b, v));
  }

  lemma SameLineOn(a: Input, b: Input, st: nat, su: Subject, position: int)
    requires Reordered(a, b)
    ensures LineOn(a, st, su, position) == LineOn(b, st, su, position)
  {
    SameParts(a, b, st, su.id);
    SameAbsent(a, b, st, su.id, |a.components|);
    GradeIgnoresOrder(SubjectTotal(a, st, su.id), a.bands, b.bands);
  }

  /** A student's results do not depend on the order students, scores or bands are listed in. */
  lemma LinesIgnoreOrder(a: Input, b: Input, st: nat)
    requires Reordered(a, b)
    ensures LineFor(a, st) == LineFor(b, st)
  {
    SameAverage(a, b, st);
    SameClassPlace(a, b, st);
    var taken := AllTaken(a, st);
    forall k | 0 <= k < |taken|
      ensures LinesAt(a, st, |a.subjects|)[k] == LinesAt(b, st, |b.subjects|)[k]
    {
      SameSubjectPlace(a, b, st, taken[k]);
      SameLineOn(a, b, st, taken[k], SubjectPlace(a, st, taken[k]));
      SameLineOn(a, b, st, taken[k], 0);
    }
    assert LinesAt(a, st, |a.subjects|) == LinesAt(b, st, |b.subjects|);
    forall su | su in taken ensures AllAbsent(a, st, su.id) == AllAbsent(b, st, su.id) {
      SameAbsent(a, b, st, su.id, |a.components|);
    }
  }

  // ---------------------------------------------------------------------------
  // The class's figures in another order
  // ---------------------------------------------------------------------------

  /** The student's total when taking the subject, and nothing otherwise. */
  function TotalIn(input: Input, su: Subject): nat -> int {
    (st: nat) => if Takes(input, st, su) then SubjectTotal(input, st, su.id) else 0
  }

  function TakesOne(input: Input, su: Subject): nat -> int { (st: nat) => if Takes(input, st, su) then 1 else 0 }

  function RankedOne(input: Input): nat -> int { (st: nat) => if AllTaken(input, st) != [] then 1 else 0 }

  predicate TakenWith(input: Input, su: Subject, st: nat, v: int) {
    Takes(input, st, su) && SubjectTotal(input, st, su.id) == v
  }

  lemma SumOfAppend(values: seq<int>, x: int)
    ensures Sum(values + [x], Itself) == Sum(values, Itself) + x
  {
    SumAgree(values, values + [x], |values|, Itself, Itself);
  }

  /** A subject's totals, one student at a time. */
  lemma TotalsNext(input: Input, su: Subject, n: nat)
    requires 0 < n <= |input.students|
    ensures var st, rest := input.students[n - 1], TakerTotals(input, su, n - 1);
      TakerTotals(input, su, n) == if Takes(input, st, su) then rest + [SubjectTotal(input, st, su.id)] else rest
  {
  }

  lemma {:induction false} TotalsOverRoster(input: Input, su: Subject, n: nat)
    requires n <= |input.students|
    ensures Sum(TakerTotals(input, su, n), Itself) == SumUpTo(input.students, n, TotalIn(input, su))
    ensures |TakerTotals(input, su, n)| == SumUpTo(input.students, n, TakesOne(input, su))
  {
    hide TakerTotals, Takes, SubjectTotal;
    if n == 0 {
      NoTotals(input, su);
    } else {
      TotalsOverRoster(input, su, n - 1);
      TotalsNext(input, su, n);
      SumOfAppend(TakerTotals(input, su, n - 1), SubjectTotal(input, input.students[n - 1], su.id));
    }
  }

  lemma NoTotals(input: Input, su: Subject)
    ensures TakerTotals(input, su, 0) == []
  {
  }

  /** A total is among the takers' exactly when a student on the roster has it. */
  lemma {:induction false} TotalsAreTheirs(input: Input, su: Subject, n: nat, v: int)
    requires n <= |input.students|
    ensures v in TakerTotals(input, su, n) <==> exists i :: 0 <= i < n && TakenWith(input, su, input.students[i], v)
  {
    hide TakerTotals, Takes, SubjectTotal;
    if n == 0 {
      NoTotals(input, su);
    } else {
      TotalsAreTheirs(input, su, n - 1, v);
      TotalsNext(input, su, n);
      if TakenWith(input, su, input.students[n - 1], v) {
        assert TakerTotals(input, su, n)[|TakerTotals(input, su, n)| - 1] == v;
      }
    }
  }

  lemma SameTotalsHeld(a: Input, b: Input, su: Subject, v: int)
    requires multiset(a.students) == multiset(b.students)
    requires forall st :: TakenWith(a, su, st, v) <==> TakenWith(b, su, st, v)
    ensures v in TakerTotals(a, su, |a.students|) ==> v in TakerTotals(b, su, |b.students|)
  {
    hide TakerTotals, TakenWith;
    TotalsAreTheirs(a, su, |a.students|, v);
    TotalsAreTheirs(b, su, |b.students|, v);
    if v in TakerTotals(a, su, |a.students|) {
      var i :| 0 <= i < |a.students| && TakenWith(a, su, a.students[i], v);
      assert a.students[i] in multiset(b.students);
      var j :| 0 <= j < |b.students| && b.students[j] == a.students[i];
      assert TakenWith(b, su, b.students[j], v);
    }
  }

  lemma {:induction false} ExtremesAreThere(xs: seq<int>, n: nat)
    requires 0 < n <= |xs|
    ensures MaxOf(xs, n) in xs && MinOf(xs, n) in xs
  {
    if n > 1 { ExtremesAreThere(xs, n - 1); }
  }

  lemma ExtremesBound(xs: seq<int>, v: int)
    requires v in xs
    ensures MinOf(xs, |xs|) <= v <= MaxOf(xs, |xs|)
  {
    Extremes(xs, |xs|);
  }

  /** Two lists that hold the same values have the same highest and lowest. */
  lemma SameExtremes(xs: seq<int>, ys: seq<int>)
    requires |xs| > 0 && |ys| > 0 && forall v :: v in xs <==> v in ys
    ensures MaxOf(xs, |xs|) == MaxOf(ys, |ys|) && MinOf(xs, |xs|) == MinOf(ys, |ys|)
  {
    ExtremesAreThere(xs, |xs|);
    ExtremesAreThere(ys, |ys|);
    ExtremesBound(xs, MaxOf(ys, |ys|));
    ExtremesBound(xs, MinOf(ys, |ys|));
    ExtremesBound(ys, MaxOf(xs, |xs|));
    ExtremesBound(ys, MinOf(xs, |xs|));
  }

  lemma SameTotals(a: Input, b: Input, su: Subject)
    requires Reordered(a, b)
    ensures var x, y := TakerTotals(a, su, |a.students|), TakerTotals(b, su, |b.students|);
      |x| == |y| && Sum(x, Itself) == Sum(y, Itself) && forall v :: v in x <==> v in y
  {
    hide TakerTotals, Takes, SubjectTotal;
    TotalsOverRoster(a, su, |a.students|);
    TotalsOverRoster(b, su, |b.students|);
    forall st: nat ensures TotalIn(a, su)(st) == TotalIn(b, su)(st) && TakesOne(a, su)(st) == TakesOne(b, su)(st) {
      SameTakes(a, b, st, su);
      SameParts(a, b, st, su.id);
    }
    SumPermuted<nat>(a.students, b.students, TotalIn(a, su));
    SumAgree<nat>(b.students, b.students, |b.students|, TotalIn(a, su), TotalIn(b, su));
    SumPermuted<nat>(a.students, b.students, TakesOne(a, su));
    SumAgree<nat>(b.students, b.students, |b.students|, TakesOne(a, su), TakesOne(b, su));
    forall v ensures v in TakerTotals(a, su, |a.students|) <==> v in TakerTotals(b, su, |b.students|) {
      forall st ensures TakenWith(a, su, st, v) <==> TakenWith(b, su, st, v) {
        SameTakes(a, b, st, su);
        SameParts(a, b, st, su.id);
      }
      SameTotalsHeld(a, b, su, v);
      SameTotalsHeld(b, a, su, v);
    }
  }

  lemma SameStatsOf(su: nat, x: seq<int>, y: seq<int>)
    requires |x| == |y| > 0 && Sum(x, Itself) == Sum(y, Itself) && forall v :: v in x <==> v in y
    ensures StatsOf(su, x) == StatsOf(su, y)
  {
    SameExtremes(x, y);
  }

  lemma {:induction false} SameStats(a: Input, b: Input, n: nat)
    requires Reordered(a, b) && n <= |a.subjects|
    ensures AllStats(a, n) == AllStats(b, n)
  {
    hide StatsOf, TakerTotals, Reordered;
    if n > 0 {
      SameStats(a, b, n - 1);
      StatsTogether(a, b, n);
    }
  }

  lemma StatsTogether(a: Input, b: Input, n: nat)
    requires Reordered(a, b) && 0 < n <= |a.subjects|
    ensures b.subjects == a.subjects
    ensures var su := a.subjects[n - 1];
      var x, y := TakerTotals(a, su, |a.students|), TakerTotals(b, su, |b.students|);
      (x == [] <==> y == []) && (x != [] ==> StatsOf(su.id, x) == StatsOf(su.id, y))
  {
    hide StatsOf, TakerTotals;
    var su := a.subjects[n - 1];
    var x, y := TakerTotals(a, su, |a.students|), TakerTotals(b, su, |b.students|);
    SameTotals(a, b, su);
    if x != [] { SameStatsOf(su.id, x, y); }
  }

  lemma {:induction false} RankedOverRoster(input: Input, n: nat)
    requires n <= |input.students|
    ensures |Ranked(input, n)| == SumUpTo(input.students, n, RankedOne(input))
  {
    if n > 0 { RankedOverRoster(input, n - 1); }
  }

  lemma SameRankedCount(a: Input, b: Input)
    requires Reordered(a, b)
    ensures |Ranked(a, |a.students|)| == |Ranked(b, |b.students|)|
  {
    RankedOverRoster(a, |a.students|);
    RankedOverRoster(b, |b.students|);
    forall st: nat ensures RankedOne(a)(st) == RankedOne(b)(st) { SameAverage(a, b, st); }
    SumPermuted<nat>(a.students, b.students, RankedOne(a));
    SumAgree<nat>(b.students, b.students, |b.students|, RankedOne(a), RankedOne(b));
  }

  lemma SameMissing(a: Input, b: Input, st: nat, su: nat, c: nat)
    requires Reordered(a, b)
    ensures Listed(Compute(a).missing, st, su, c) <==> Listed(Compute(b).missing, st, su, c)
  {
    hide Compute, Listed;
    MissingExactly(a, st, su, c);
    MissingExactly(b, st, su, c);
    SameAverage(a, b, st);
    SameParts(a, b, st, su);
    assert st in multiset(a.students) <==> st in multiset(b.students);
  }

  /**
   * Nothing that is computed depends on the order students, scores or bands are listed in:
   * the students' lines, the subjects' statistics, the scores missing and the number ranked.
   */
  lemma ResultsIgnoreOrder(a: Input, b: Input)
    requires Reordered(a, b)
    ensures forall st :: LineFor(a, st) == LineFor(b, st)
    ensures Compute(a).stats == Compute(b).stats && Compute(a).rankedCount == Compute(b).rankedCount
    ensures forall st, su, c :: Listed(Compute(a).missing, st, su, c) <==> Listed(Compute(b).missing, st, su, c)
  {
    hide LineFor, AllStats, AllMissing, Listed, Ranked, Lines;
    forall st ensures LineFor(a, st) == LineFor(b, st) { LinesIgnoreOrder(a, b, st); }
    SameStats(a, b, |a.subjects|);
    SameRankedCount(a, b);
    forall st: nat, su: nat, c: nat
      ensures Listed(Compute(a).missing, st, su, c) <==> Listed(Compute(b).missing, st, su, c)
    {
      SameMissing(a, b, st, su, c);
    }
  }
}
