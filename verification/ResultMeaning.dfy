/**
 * What a class's computed results say, read off their own fields and the raw rows: which
 * scores a line carries, how they add up, how averages round, who is placed before whom,
 * and what the statistics and the list of missing scores hold.
 */
module ResultMeaning {
  import opened Wrappers
  import opened Sequences
  import opened Grading
  import opened Ranking
  import opened ComputeResults
  import opened ResultLaws

  // ---------------------------------------------------------------------------
  // Reading the fields
  // ---------------------------------------------------------------------------

  /** The last row of a cell, or none. */
  ghost predicate Scored(scores: seq<ScoreRow>, n: nat, st: nat, su: nat, c: nat, part: Option<int>)
    requires n <= |scores|
  {
    if part.None? then
      forall r | 0 <= r < n :: !(scores[r].student == st && scores[r].subject == su && scores[r].component == c)
    else
      exists r ::
        && 0 <= r < n && scores[r] == ScoreRow(st, su, c, part.value)
        && forall q | r < q < n :: !(scores[q].student == st && scores[q].subject == su && scores[q].component == c)
  }

  /** A part that is absent adds nothing. */
  function AddUp(parts: seq<Option<int>>, n: nat): int
    requires n <= |parts|
  {
    if n == 0 then 0
    else if parts[n - 1].Some? then AddUp(parts, n - 1) + parts[n - 1].value
    else AddUp(parts, n - 1)
  }

  function TotalsUp(lines: seq<SubjectLine>, n: nat): int
    requires n <= |lines|
  {
    if n == 0 then 0 else TotalsUp(lines, n - 1) + lines[n - 1].total
  }

  /** q is x / n to the nearest whole hundredth, a half going away from zero. */
  predicate NearestHalfUp(x: int, n: nat, q: int) {
    if x >= 0 then 2 * n * q <= 2 * x + n < 2 * n * q + 2 * n
    else 2 * n * -q <= -2 * x + n < 2 * n * -q + 2 * n
  }

  /** Whole marks stand within a band. */
  predicate Within(b: Band, marks: int) { b.min <= marks && marks <= b.max }

  /** The first band that holds these marks, if one does. */
  ghost predicate FirstHolding(bands: seq<Band>, marks: int, grade: Option<Band>) {
    if grade.None? then forall k | 0 <= k < |bands| :: !Within(bands[k], marks)
    else
      exists k ::
        && 0 <= k < |bands| && bands[k] == grade.value && Within(bands[k], marks)
        && forall j | 0 <= j < k :: !Within(bands[j], marks)
  }

  /** The grade is that of the total with its part of a mark cut off. */
  ghost predicate Graded(bands: seq<Band>, total: int, grade: Option<Band>) {
    FirstHolding(bands, total - total % 100, grade)
  }

  predicate HasRow(scores: seq<ScoreRow>, st: nat, su: nat) {
    exists r | 0 <= r < |scores| :: scores[r].student == st && scores[r].subject == su
  }

  ghost predicate LineSays(input: Input, st: nat, line: SubjectLine) {
    && |line.parts| == |input.components|
    && (forall j | 0 <= j < |line.parts| ::
          Scored(input.scores, |input.scores|, st, line.subject, input.components[j].id, line.parts[j]))
    && line.total == AddUp(line.parts, |line.parts|)
    && Graded(input.bands, line.total, line.grade)
    && (line.complete <==> forall j | 0 <= j < |line.parts| :: line.parts[j].Some?)
  }

  /** A line for every compulsory subject and every elective with a score, in the order they are offered. */
  ghost predicate Covering(input: Input, st: nat, lines: seq<SubjectLine>) {
    && (forall a | 0 <= a < |input.subjects| ::
          (exists k :: 0 <= k < |lines| && lines[k].subject == input.subjects[a].id) <==>
          input.subjects[a].compulsory || HasRow(input.scores, st, input.subjects[a].id))
    && (forall k | 0 <= k < |lines| :: exists a :: 0 <= a < |input.subjects| && input.subjects[a].id == lines[k].subject)
    && (forall j, k, a, b | 0 <= j < k < |lines| && 0 <= a < |input.subjects| && 0 <= b < |input.subjects|
          && input.subjects[a].id == lines[j].subject && input.subjects[b].id == lines[k].subject :: a < b)
  }

  ghost predicate StudentSays(input: Input, st: nat, line: StudentLine) {
    && line.student == st && Covering(input, st, line.subjects)
    && (forall k | 0 <= k < |line.subjects| :: LineSays(input, st, line.subjects[k]))
    && line.total == TotalsUp(line.subjects, |line.subjects|)
    && (line.subjects == [] ==> line.average == 0)
    && (line.subjects != [] ==> NearestHalfUp(line.total, |line.subjects|, line.average))
    && (line.complete <==> forall k | 0 <= k < |line.subjects| :: line.subjects[k].complete)
  }

  predicate AheadIn(line: StudentLine, su: nat, total: int) {
    exists k | 0 <= k < |line.subjects| :: line.subjects[k].subject == su && line.subjects[k].total > total
  }

  /** The students with a greater total in the subject. */
  function SubjectAhead(lines: seq<StudentLine>, su: nat, total: int): set<nat> {
    set i | 0 <= i < |lines| && AheadIn(lines[i], su, total)
  }

  /** The students with a subject and a greater average. */
  function ClassAhead(lines: seq<StudentLine>, average: int): set<nat> {
    set i | 0 <= i < |lines| && lines[i].subjects != [] && lines[i].average > average
  }

  function WithSubjects(lines: seq<StudentLine>): set<nat> { set i | 0 <= i < |lines| && lines[i].subjects != [] }

  ghost predicate PlacesSay(lines: seq<StudentLine>, line: StudentLine) {
    && (forall k | 0 <= k < |line.subjects| ::
          line.subjects[k].position == 1 + |SubjectAhead(lines, line.subjects[k].subject, line.subjects[k].total)|)
    && line.position == if line.subjects == [] then None else Some(1 + |ClassAhead(lines, line.average)|)
  }

  /** The totals of the lines in one subject, in roster order. */
  function TotalsIn(lines: seq<StudentLine>, n: nat, su: nat): seq<int>
    requires n <= |lines|
  {
    if n == 0 then []
    else TotalsIn(lines, n - 1, su) + EntryTotals(lines[n - 1].subjects, |lines[n - 1].subjects|, su)
  }

  ghost predicate StatsSay(totals: seq<int>, s: Stats) {
    && s.count == |totals| > 0
    && s.highest in totals && s.lowest in totals
    && (forall k | 0 <= k < |totals| :: s.lowest <= totals[k] <= s.highest)
    && NearestHalfUp(Sum(totals, Itself), s.count, s.average)
  }

  ghost predicate AllStatsSay(input: Input, out: Outcome) {
    && (forall s | s in out.stats :: StatsSay(TotalsIn(out.students, |out.students|, s.subject), s))
    && (forall a | 0 <= a < |input.subjects| ::
          (exists s :: s in out.stats && s.subject == input.subjects[a].id) <==>
          TotalsIn(out.students, |out.students|, input.subjects[a].id) != [])
    && (forall s | s in out.stats :: exists a :: 0 <= a < |input.subjects| && input.subjects[a].id == s.subject)
    && (forall i, j, a, b | 0 <= i < j < |out.stats| && 0 <= a < |input.subjects| && 0 <= b < |input.subjects|
          && input.subjects[a].id == out.stats[i].subject && input.subjects[b].id == out.stats[j].subject :: a < b)
  }

  /** A line of the student's has no score for the component. */
  ghost predicate Blank(input: Input, lines: seq<StudentLine>, st: nat, su: nat, c: nat) {
    exists i, k, j ::
      && 0 <= i < |lines| && lines[i].student == st
      && 0 <= k < |lines[i].subjects| && lines[i].subjects[k].subject == su
      && 0 <= j < |lines[i].subjects[k].parts| && j < |input.components| && input.components[j].id == c
      && lines[i].subjects[k].parts[j] == None
  }

  // ---------------------------------------------------------------------------
  // Averages
  // ---------------------------------------------------------------------------

  lemma QuotientIs(y: nat, d: nat)
    requires d > 0
    ensures d * (y / d) <= y < d * (y / d) + d
  {
  }

  lemma RoundsHalfUp(x: int, n: nat)
    requires n > 0
    ensures NearestHalfUp(x, n, RoundHalfUp(x, n))
  {
    if x >= 0 { QuotientIs(2 * x + n, 2 * n); } else { QuotientIs(-2 * x + n, 2 * n); }
  }

  // ---------------------------------------------------------------------------
  // One student's line
  // ---------------------------------------------------------------------------

  lemma {:induction false} ScoresAre(scores: seq<ScoreRow>, n: nat, st: nat, su: nat, c: nat)
    requires n <= |scores|
    ensures Scored(scores, n, st, su, c, ScoreOf(scores, n, st, su, c))
  {
    if n > 0 && !Cell(scores[n - 1], st, su, c) { ScoresAre(scores, n - 1, st, su, c); }
  }

  lemma {:induction false} PartsAddUp(parts: seq<Option<int>>, n: nat)
    requires n <= |parts|
    ensures SumUpTo(parts, n, Marks) == AddUp(parts, n)
  {
    if n > 0 { PartsAddUp(parts, n - 1); }
  }

  lemma {:induction false} GradesAre(total: int, bands: seq<Band>)
    ensures FirstHolding(bands, WholeMarks(total) * MARK, GradeFor(total, bands))
  {
    var marks := WholeMarks(total) * MARK;
    if bands != [] {
      if Covers(bands[0], WholeMarks(total)) {
        assert Within(bands[0], marks);
      } else {
        var rest, grade := bands[1..], GradeFor(total, bands);
        GradesAre(total, rest);
        assert forall k | 0 < k < |bands| :: bands[k] == rest[k - 1];
        if grade.Some? {
          var k :| 0 <= k < |rest| && rest[k] == grade.value && Within(rest[k], marks)
            && forall j | 0 <= j < k :: !Within(rest[j], marks);
          assert bands[k + 1] == rest[k];
        }
      }
    }
  }

  lemma GradedRight(bands: seq<Band>, total: int)
    ensures Graded(bands, total, GradeFor(total, bands))
  {
    GradesAre(total, bands);
    assert total - total % 100 == WholeMarks(total) * MARK;
  }

  lemma LineIsSaid(input: Input, st: nat, su: Subject, position: int)
    ensures LineSays(input, st, LineOn(input, st, su, position))
  {
    hide Scored, Graded, ScoreOf, GradeFor;
    var parts := Parts(input, st, su.id);
    forall j | 0 <= j < |parts| ensures Scored(input.scores, |input.scores|, st, su.id, input.components[j].id, parts[j]) {
      ScoresAre(input.scores, |input.scores|, st, su.id, input.components[j].id);
    }
    PartsAddUp(parts, |parts|);
    GradedRight(input.bands, SubjectTotal(input, st, su.id));
    NoneAbsent(input, st, su.id, |input.components|);
  }

  lemma {:induction false} NoneAbsent(input: Input, st: nat, su: nat, n: nat)
    requires n <= |input.components|
    ensures Absent(input, st, su, n) == [] <==> forall j | 0 <= j < n :: Parts(input, st, su)[j].Some?
  {
    hide Parts;
    if n > 0 { NoneAbsent(input, st, su, n - 1); }
  }

  /** The line the k-th subject taken gets. */
  lemma LineOfTaken(input: Input, st: nat, k: nat)
    requires k < |AllTaken(input, st)|
    ensures AllTaken(input, st)[k] in input.subjects && Takes(input, st, AllTaken(input, st)[k])
    ensures LineFor(input, st).subjects[k]
            == LineOn(input, st, AllTaken(input, st)[k], SubjectPlace(input, st, AllTaken(input, st)[k]))
  {
    hide LineOn, SubjectPlace, StudentTotal, Average, Complete, ClassPlace;
    TakenFrom(input, st, |input.subjects|);
    var su := AllTaken(input, st)[k];
    assert su in AllTaken(input, st);
    var i :| 0 <= i < |input.subjects| && input.subjects[i] == su;
    assert Among(input.subjects, |input.subjects|, su);
  }

  lemma {:induction false} TotalsAddUp(input: Input, st: nat, n: nat)
    requires n <= |AllTaken(input, st)|
    ensures TotalsUp(LineFor(input, st).subjects, n) == TotalOver(input, st, AllTaken(input, st), n)
  {
    hide LineFor, AllTaken, SubjectTotal;
    if n > 0 {
      TotalsAddUp(input, st, n - 1);
      LineOfTaken(input, st, n - 1);
    }
  }

  /** Subjects are taken in the order they are offered. */
  lemma {:induction false} TakenInOrder(input: Input, st: nat, n: nat, j: nat, k: nat, a: nat, b: nat)
    requires n <= |input.subjects| && DistinctSubjects(input)
    requires j < k < |Taken(input, st, n)| && a < |input.subjects| && b < |input.subjects|
    requires input.subjects[a].id == Taken(input, st, n)[j].id && input.subjects[b].id == Taken(input, st, n)[k].id
    ensures a < b
  {
    TakenDistinct(input, st, n);
    assert Taken(input, st, n)[j] in Taken(input, st, n);
    var i :| 0 <= i < n && input.subjects[i] == Taken(input, st, n)[j];
    assert i == a;
    if k < |Taken(input, st, n - 1)| {
      TakenInOrder(input, st, n - 1, j, k, a, b);
    } else {
      TakenDistinct(input, st, n - 1);
      assert Taken(input, st, n)[k] == input.subjects[n - 1];
      assert Taken(input, st, n)[j] in Taken(input, st, n - 1);
    }
  }

  lemma TakesIsSaid(input: Input, st: nat, su: Subject)
    ensures Takes(input, st, su) <==> su.compulsory || HasRow(input.scores, st, su.id)
  {
    if Touched(input.scores, st, su.id) {
      var row :| row in input.scores && row.student == st && row.subject == su.id;
      var r :| 0 <= r < |input.scores| && input.scores[r] == row;
    }
    if HasRow(input.scores, st, su.id) {
      var r :| 0 <= r < |input.scores| && input.scores[r].student == st && input.scores[r].subject == su.id;
      assert input.scores[r] in input.scores;
    }
  }

  /** Whose lines have a subject, and with what total. */
  lemma LineIn(input: Input, st: nat, su: Subject)
    requires DistinctSubjects(input) && su in input.subjects
    ensures var lines := LineFor(input, st).subjects;
      && ((exists k :: 0 <= k < |lines| && lines[k].subject == su.id) <==> Takes(input, st, su))
      && (forall k | 0 <= k < |lines| && lines[k].subject == su.id ::
            lines[k].total == SubjectTotal(input, st, su.id))
  {
    hide LineFor, SubjectTotal;
    var taken, lines := AllTaken(input, st), LineFor(input, st).subjects;
    TakenFrom(input, st, |input.subjects|);
    LineLength(input, st);
    forall k | 0 <= k < |lines| && lines[k].subject == su.id
      ensures Takes(input, st, su) && lines[k].total == SubjectTotal(input, st, su.id)
    {
      LineOfTaken(input, st, k);
      SameId(input, taken[k], su);
    }
    if Takes(input, st, su) {
      var i :| 0 <= i < |input.subjects| && input.subjects[i] == su;
      assert su in taken;
      var k :| 0 <= k < |taken| && taken[k] == su;
      LineOfTaken(input, st, k);
    }
  }

  lemma LineLength(input: Input, st: nat)
    ensures |LineFor(input, st).subjects| == |AllTaken(input, st)|
  {
  }

  lemma LineCovers(input: Input, st: nat)
    requires DistinctSubjects(input)
    ensures Covering(input, st, LineFor(input, st).subjects)
  {
    hide LineFor, HasRow, SubjectTotal, LineOn;
    var lines, taken := LineFor(input, st).subjects, AllTaken(input, st);
    LineLength(input, st);
    forall a | 0 <= a < |input.subjects|
      ensures (exists k :: 0 <= k < |lines| && lines[k].subject == input.subjects[a].id) <==>
        input.subjects[a].compulsory || HasRow(input.scores, st, input.subjects[a].id)
    {
      LineIn(input, st, input.subjects[a]);
      TakesIsSaid(input, st, input.subjects[a]);
    }
    forall k | 0 <= k < |lines|
      ensures lines[k].subject == taken[k].id
      ensures exists a :: 0 <= a < |input.subjects| && input.subjects[a].id == lines[k].subject
    {
      LineOfTaken(input, st, k);
      LineOnSubject(input, st, taken[k], SubjectPlace(input, st, taken[k]));
      var a :| 0 <= a < |input.subjects| && input.subjects[a] == taken[k];
    }
    forall j, k, a, b | 0 <= j < k < |lines| && 0 <= a < |input.subjects| && 0 <= b < |input.subjects|
      && input.subjects[a].id == lines[j].subject && input.subjects[b].id == lines[k].subject
      ensures a < b
    {
      TakenInOrder(input, st, |input.subjects|, j, k, a, b);
    }
  }

  lemma LineOnSubject(input: Input, st: nat, su: Subject, position: int)
    ensures LineOn(input, st, su, position).subject == su.id
  {
  }

  lemma StudentIsSaid(input: Input, st: nat)
    requires DistinctSubjects(input)
    ensures StudentSays(input, st, LineFor(input, st))
  {
    hide Covering, LineSays, NearestHalfUp, LineOn;
    var line, taken := LineFor(input, st), AllTaken(input, st);
    LineCovers(input, st);
    LineLength(input, st);
    TotalsAddUp(input, st, |taken|);
    if taken != [] { RoundsHalfUp(StudentTotal(input, st), |taken|); }
    forall k | 0 <= k < |line.subjects|
      ensures LineSays(input, st, line.subjects[k])
      ensures line.subjects[k].complete <==> AllAbsent(input, st, taken[k].id) == []
    {
      LineOfTaken(input, st, k);
      LineIsSaid(input, st, taken[k], SubjectPlace(input, st, taken[k]));
      CompleteOn(input, st, taken[k], SubjectPlace(input, st, taken[k]));
    }
    assert line.complete <==> forall k | 0 <= k < |taken| :: AllAbsent(input, st, taken[k].id) == [] by {
      assert forall k | 0 <= k < |taken| :: taken[k] in taken;
    }
  }

  lemma CompleteOn(input: Input, st: nat, su: Subject, position: int)
    ensures LineOn(input, st, su, position).complete <==> AllAbsent(input, st, su.id) == []
  {
  }

  // ---------------------------------------------------------------------------
  // Places
  // ---------------------------------------------------------------------------

  /** A sum of ones and noughts counts the ones. */
  lemma {:induction false} SumCounts(xs: seq<nat>, n: nat, f: nat -> int, ones: set<nat>)
    requires n <= |xs| && forall i | i in ones :: i < n
    requires forall i | 0 <= i < n :: f(xs[i]) == if i in ones then 1 else 0
    ensures SumUpTo(xs, n, f) == |ones|
  {
    if n == 0 {
      assert ones == {};
    } else {
      SumCounts(xs, n - 1, f, ones - {n - 1});
    }
  }

  lemma AheadIs(input: Input, st: nat, su: Subject, total: int)
    requires DistinctSubjects(input) && su in input.subjects
    ensures AheadIn(LineFor(input, st), su.id, total) <==> Takes(input, st, su) && SubjectTotal(input, st, su.id) > total
  {
    hide LineFor, Takes, SubjectTotal;
    LineIn(input, st, su);
  }

  lemma SubjectPlaceIs(input: Input, su: Subject, total: int)
    requires DistinctSubjects(input) && su in input.subjects
    ensures Sum(input.students, BetterIn(input, su, total)) == |SubjectAhead(Lines(input), su.id, total)|
  {
    hide LineFor, AheadIn, Takes, SubjectTotal;
    forall i | 0 <= i < |input.students|
      ensures AheadIn(Lines(input)[i], su.id, total) <==>
        Takes(input, input.students[i], su) && SubjectTotal(input, input.students[i], su.id) > total
    {
      AheadIs(input, input.students[i], su, total);
    }
    SumCounts(input.students, |input.students|, BetterIn(input, su, total), SubjectAhead(Lines(input), su.id, total));
  }

  lemma LineAverage(input: Input, st: nat)
    ensures LineFor(input, st).average == Average(input, st)
    ensures LineFor(input, st).subjects != [] <==> AllTaken(input, st) != []
    ensures LineFor(input, st).position == ClassPlace(input, st)
  {
  }

  lemma ClassPlaceIs(input: Input, average: int)
    ensures Sum(input.students, BetterOverall(input, average)) == |ClassAhead(Lines(input), average)|
  {
    hide LineFor, Average, AllTaken;
    forall i | 0 <= i < |input.students|
      ensures i in ClassAhead(Lines(input), average) <==>
        AllTaken(input, input.students[i]) != [] && Average(input, input.students[i]) > average
    {
      LineAverage(input, input.students[i]);
    }
    SumCounts(input.students, |input.students|, BetterOverall(input, average), ClassAhead(Lines(input), average));
  }

  lemma PlacesAreSaid(input: Input, st: nat)
    requires DistinctSubjects(input)
    ensures PlacesSay(Lines(input), LineFor(input, st))
  {
    hide LineFor, SubjectAhead, ClassAhead, Lines, Average, AllTaken, SubjectPlace, SubjectTotal, BetterIn, BetterOverall, Sum;
    var line := LineFor(input, st);
    LineLength(input, st);
    forall k | 0 <= k < |line.subjects|
      ensures line.subjects[k].position
              == 1 + |SubjectAhead(Lines(input), line.subjects[k].subject, line.subjects[k].total)|
    {
      LineOfTaken(input, st, k);
      var su := AllTaken(input, st)[k];
      PlacesCountStudents(input, st, su);
      SubjectPlaceIs(input, su, SubjectTotal(input, st, su.id));
    }
    LineAverage(input, st);
    if line.subjects != [] {
      PlacesCountStudents(input, st, Subject(0, true));
      ClassPlaceIs(input, line.average);
    }
  }

  lemma RankedAre(input: Input)
    ensures |Ranked(input, |input.students|)| == |WithSubjects(Lines(input))|
  {
    hide LineFor, AllTaken;
    RankedOverRoster(input, |input.students|);
    forall i | 0 <= i < |input.students|
      ensures i in WithSubjects(Lines(input)) <==> AllTaken(input, input.students[i]) != []
    {
      LineAverage(input, input.students[i]);
    }
    SumCounts(input.students, |input.students|, RankedOne(input), WithSubjects(Lines(input)));
  }

  // ---------------------------------------------------------------------------
  // Statistics
  // ---------------------------------------------------------------------------

  lemma {:induction false} TotalsAre(input: Input, su: Subject, n: nat)
    requires DistinctSubjects(input) && su in input.subjects && n <= |input.students|
    ensures TotalsIn(Lines(input), n, su.id) == TakerTotals(input, su, n)
  {
    hide LineFor, TakerTotals, EntryTotals, SubjectTotal, Takes;
    if n == 0 {
      NoTotals(input, su);
    } else {
      var st := input.students[n - 1];
      TotalsAre(input, su, n - 1);
      TotalsNext(input, su, n);
      EntriesOfLine(input, st, su);
    }
  }

  lemma EntriesOfLine(input: Input, st: nat, su: Subject)
    requires DistinctSubjects(input) && su in input.subjects
    ensures EntryTotals(LineFor(input, st).subjects, |LineFor(input, st).subjects|, su.id)
            == if Takes(input, st, su) then [SubjectTotal(input, st, su.id)] else []
  {
    hide EntryTotals, Takes, SubjectTotal, LinesAt;
    EntriesOfTaker(input, st, |input.subjects|, su);
  }

  lemma StatsAreSaid(su: nat, totals: seq<int>)
    requires totals != []
    ensures StatsSay(totals, StatsOf(su, totals)) && StatsOf(su, totals).subject == su
  {
    hide NearestHalfUp, MaxOf, MinOf, Sum;
    ExtremesAreThere(totals, |totals|);
    Extremes(totals, |totals|);
    RoundsHalfUp(Sum(totals, Itself), |totals|);
  }

  lemma {:induction false} StatsAre(input: Input, n: nat, s: Stats) returns (a: nat)
    requires n <= |input.subjects| && s in AllStats(input, n)
    ensures a < n && TakerTotals(input, input.subjects[a], |input.students|) != []
    ensures s == StatsOf(input.subjects[a].id, TakerTotals(input, input.subjects[a], |input.students|))
  {
    hide StatsOf, TakerTotals;
    StatsNext(input, n, s);
    if s in AllStats(input, n - 1) { a := StatsAre(input, n - 1, s); } else { a := n - 1; }
  }

  lemma StatsSubject(su: nat, totals: seq<int>)
    requires totals != []
    ensures StatsOf(su, totals).subject == su
  {
  }

  /** The rows come in the order the subjects are offered. */
  lemma {:induction false} StatsInOrder(input: Input, n: nat, i: nat, j: nat, a: nat, b: nat)
    requires n <= |input.subjects| && DistinctSubjects(input) && i < j < |AllStats(input, n)|
    requires a < |input.subjects| && b < |input.subjects|
    requires input.subjects[a].id == AllStats(input, n)[i].subject && input.subjects[b].id == AllStats(input, n)[j].subject
    ensures a < b
  {
    hide StatsOf, TakerTotals;
    if j < |AllStats(input, n - 1)| {
      StatsInOrder(input, n - 1, i, j, a, b);
    } else {
      StatsSubject(input.subjects[n - 1].id, TakerTotals(input, input.subjects[n - 1], |input.students|));
      assert AllStats(input, n)[i] in AllStats(input, n - 1);
      var c := StatsAre(input, n - 1, AllStats(input, n)[i]);
      StatsSubject(input.subjects[c].id, TakerTotals(input, input.subjects[c], |input.students|));
    }
  }

  lemma HasStats(input: Input, a: nat)
    requires DistinctSubjects(input) && a < |input.subjects|
    ensures (exists s :: s in AllStats(input, |input.subjects|) && s.subject == input.subjects[a].id) <==>
      TakerTotals(input, input.subjects[a], |input.students|) != []
  {
    hide StatsOf, TakerTotals, AllStats;
    var totals := TakerTotals(input, input.subjects[a], |input.students|);
    if totals != [] {
      StatsPresent(input, |input.subjects|, a);
      StatsSubject(input.subjects[a].id, totals);
    }
    if s :| s in AllStats(input, |input.subjects|) && s.subject == input.subjects[a].id {
      var c := StatsAre(input, |input.subjects|, s);
      StatsSubject(input.subjects[c].id, TakerTotals(input, input.subjects[c], |input.students|));
    }
  }

  lemma AllStatsAreSaid(input: Input)
    requires DistinctSubjects(input)
    ensures AllStatsSay(input, Compute(input))
  {
    hide StatsOf, TakerTotals, TotalsIn, AllStats, StatsSay, AllMissing, Ranked, Lines;
    var out, n := Compute(input), |input.students|;
    forall s | s in out.stats
      ensures StatsSay(TotalsIn(out.students, n, s.subject), s)
      ensures exists a :: 0 <= a < |input.subjects| && input.subjects[a].id == s.subject
    {
      var a := StatsAre(input, |input.subjects|, s);
      TotalsAre(input, input.subjects[a], n);
      StatsAreSaid(input.subjects[a].id, TakerTotals(input, input.subjects[a], n));
    }
    forall i, j, a, b | 0 <= i < j < |out.stats| && 0 <= a < |input.subjects| && 0 <= b < |input.subjects|
      && input.subjects[a].id == out.stats[i].subject && input.subjects[b].id == out.stats[j].subject
      ensures a < b
    {
      StatsInOrder(input, |input.subjects|, i, j, a, b);
    }
    forall a | 0 <= a < |input.subjects|
      ensures (exists s :: s in out.stats && s.subject == input.subjects[a].id) <==>
        TotalsIn(out.students, n, input.subjects[a].id) != []
    {
      TotalsAre(input, input.subjects[a], n);
      HasStats(input, a);
    }
  }

  // ---------------------------------------------------------------------------
  // Missing scores
  // ---------------------------------------------------------------------------

  lemma PartsOfLine(input: Input, st: nat, k: nat)
    requires k < |LineFor(input, st).subjects|
    ensures k < |AllTaken(input, st)| && LineFor(input, st).subjects[k].subject == AllTaken(input, st)[k].id
    ensures LineFor(input, st).subjects[k].parts == Parts(input, st, AllTaken(input, st)[k].id)
  {
    hide Parts;
    LineOfTaken(input, st, k);
  }

  lemma MissingAreBlank(input: Input, st: nat, su: nat, c: nat)
    ensures Listed(Compute(input).missing, st, su, c) <==> Blank(input, Lines(input), st, su, c)
  {
    hide LineFor, AllTaken, Parts, Listed, Compute;
    var lines := Lines(input);
    MissingExactly(input, st, su, c);
    if Blank(input, lines, st, su, c) {
      var i, k, j :| 0 <= i < |lines| && lines[i].student == st
        && 0 <= k < |lines[i].subjects| && lines[i].subjects[k].subject == su
        && 0 <= j < |lines[i].subjects[k].parts| && j < |input.components| && input.components[j].id == c
        && lines[i].subjects[k].parts[j] == None;
      LineStudent(input, input.students[i]);
      PartsOfLine(input, st, k);
      assert AllTaken(input, st)[k] in AllTaken(input, st);
    }
    if st in input.students && Lacks(input, st, su, c) {
      var i :| 0 <= i < |input.students| && input.students[i] == st;
      var x :| x in AllTaken(input, st) && x.id == su;
      var k :| 0 <= k < |AllTaken(input, st)| && AllTaken(input, st)[k] == x;
      var j :| 0 <= j < |input.components| && input.components[j].id == c && Parts(input, st, su)[j] == None;
      LineStudent(input, st);
      LineLength(input, st);
      PartsOfLine(input, st, k);
      assert lines[i].subjects[k].parts[j] == None;
    }
  }

  lemma LineStudent(input: Input, st: nat)
    ensures LineFor(input, st).student == st
  {
  }

  // ---------------------------------------------------------------------------
  // The outcome
  // ---------------------------------------------------------------------------

  ghost predicate OutcomeSays(input: Input, out: Outcome) {
    && |out.students| == |input.students|
    && (forall i | 0 <= i < |out.students| ::
          StudentSays(input, input.students[i], out.students[i]) && PlacesSay(out.students, out.students[i]))
    && AllStatsSay(input, out)
    && out.rankedCount == |WithSubjects(out.students)|
    && (forall st, su, c :: Listed(out.missing, st, su, c) <==> Blank(input, out.students, st, su, c))
  }

  /**
   * What is computed says this of the raw rows: a line's parts are the last scores of its
   * cells and its total their sum; a student's total is the sum of the lines, and the
   * average that total over the number of lines, rounded half up; places count those
   * strictly ahead; a subject's statistics are those of its lines' totals; and missing is
   * what is blank on a line.
   */
  lemma ComputeSays(input: Input)
    requires DistinctSubjects(input)
    ensures OutcomeSays(input, Compute(input))
  {
    hide StudentSays, PlacesSay, AllStatsSay, LineFor, WithSubjects, Blank, Listed, AllStats, AllMissing, Ranked;
    forall i | 0 <= i < |input.students|
      ensures StudentSays(input, input.students[i], Lines(input)[i]) && PlacesSay(Lines(input), Lines(input)[i])
    {
      StudentIsSaid(input, input.students[i]);
      PlacesAreSaid(input, input.students[i]);
    }
    AllStatsAreSaid(input);
    RankedAre(input);
    forall st: nat, su: nat, c: nat
      ensures Listed(Compute(input).missing, st, su, c) <==> Blank(input, Lines(input), st, su, c)
    {
      MissingAreBlank(input, st, su, c);
    }
  }
}
