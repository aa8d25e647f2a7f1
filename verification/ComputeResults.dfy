/**
 * A class arm's term results from raw scores. Marks are hundredths; averages are rounded
 * half up to a hundredth.
 */
module ComputeResults {
  import opened Wrappers
  import opened Sequences
  import opened Grading
  import opened Ranking

  datatype Subject = Subject(id: nat, compulsory: bool)

  datatype Component = Component(id: nat, max: int)

  datatype ScoreRow = ScoreRow(student: nat, subject: nat, component: nat, score: int)

  datatype Input = Input(
    students: seq<nat>, subjects: seq<Subject>, components: seq<Component>, scores: seq<ScoreRow>, bands: seq<Band>)

  datatype SubjectLine = SubjectLine(
    subject: nat, parts: seq<Option<int>>, total: int, grade: Option<Band>, position: int, complete: bool)

  datatype StudentLine = StudentLine(
    student: nat, subjects: seq<SubjectLine>, total: int, average: int, position: Option<int>, complete: bool)

  datatype Stats = Stats(subject: nat, highest: int, lowest: int, average: int, count: nat)

  datatype Missing = Missing(student: nat, subject: nat, components: seq<nat>)

  datatype Outcome = Outcome(students: seq<StudentLine>, stats: seq<Stats>, missing: seq<Missing>, rankedCount: nat)

  /** x.div(n) to two places, ROUND_HALF_UP: a half goes away from zero. */
  function RoundHalfUp(x: int, n: nat): int
    requires n > 0
  {
    if x >= 0 then (2 * x + n) / (2 * n) else -((2 * -x + n) / (2 * n))
  }

  // ---------------------------------------------------------------------------
  // Scores
  // ---------------------------------------------------------------------------

  predicate Cell(row: ScoreRow, st: nat, su: nat, c: nat) {
    row.student == st && row.subject == su && row.component == c
  }

  /** What the score map holds after the first n rows: the last row of a cell wins. */
  function ScoreOf(scores: seq<ScoreRow>, n: nat, st: nat, su: nat, c: nat): Option<int>
    requires n <= |scores|
  {
    if n == 0 then None
    else if Cell(scores[n - 1], st, su, c) then Some(scores[n - 1].score)
    else ScoreOf(scores, n - 1, st, su, c)
  }

  predicate Touched(scores: seq<ScoreRow>, st: nat, su: nat) {
    exists row | row in scores :: row.student == st && row.subject == su
  }

  /** A compulsory subject counts for everybody, an elective for those with a score in it. */
  predicate Takes(input: Input, st: nat, su: Subject) { su.compulsory || Touched(input.scores, st, su.id) }

  function Taken(input: Input, st: nat, n: nat): seq<Subject>
    requires n <= |input.subjects|
  {
    if n == 0 then []
    else if Takes(input, st, input.subjects[n - 1]) then Taken(input, st, n - 1) + [input.subjects[n - 1]]
    else Taken(input, st, n - 1)
  }

  function AllTaken(input: Input, st: nat): seq<Subject> { Taken(input, st, |input.subjects|) }

  function Parts(input: Input, st: nat, su: nat): (parts: seq<Option<int>>)
    ensures |parts| == |input.components|
  {
    seq(|input.components|, i requires 0 <= i < |input.components| =>
      ScoreOf(input.scores, |input.scores|, st, su, input.components[i].id))
  }

  function Mark(part: Option<int>): int { match part case Some(x) => x case None => 0 }

  const Marks: Option<int> -> int := (part: Option<int>) => Mark(part)

  function SubjectTotal(input: Input, st: nat, su: nat): int { Sum(Parts(input, st, su), Marks) }

  function Absent(input: Input, st: nat, su: nat, n: nat): seq<nat>
    requires n <= |input.components|
  {
    if n == 0 then []
    else if Parts(input, st, su)[n - 1] == None then Absent(input, st, su, n - 1) + [input.components[n - 1].id]
    else Absent(input, st, su, n - 1)
  }

  function AllAbsent(input: Input, st: nat, su: nat): seq<nat> { Absent(input, st, su, |input.components|) }

  function TotalOver(input: Input, st: nat, taken: seq<Subject>, n: nat): int
    requires n <= |taken|
  {
    if n == 0 then 0 else TotalOver(input, st, taken, n - 1) + SubjectTotal(input, st, taken[n - 1].id)
  }

  function StudentTotal(input: Input, st: nat): int {
    TotalOver(input, st, AllTaken(input, st), |AllTaken(input, st)|)
  }

  /** Total over the subjects taken, so fewer electives are no penalty. */
  function Average(input: Input, st: nat): int {
    if AllTaken(input, st) == [] then 0 else RoundHalfUp(StudentTotal(input, st), |AllTaken(input, st)|)
  }

  // ---------------------------------------------------------------------------
  // Places
  // ---------------------------------------------------------------------------

  /** The positions of the students, among the first n, who take this subject. */
  function Takers(input: Input, su: Subject, n: nat): (who: seq<nat>)
    requires n <= |input.students|
    ensures forall k | 0 <= k < |who| :: who[k] < n
  {
    if n == 0 then []
    else if Takes(input, input.students[n - 1], su) then Takers(input, su, n - 1) + [n - 1]
    else Takers(input, su, n - 1)
  }

  function TakerTotals(input: Input, su: Subject, n: nat): seq<int>
    requires n <= |input.students|
  {
    var who := Takers(input, su, n);
    seq(|who|, k requires 0 <= k < |who| => SubjectTotal(input, input.students[who[k]], su.id))
  }

  /** Those taking at least one subject are ranked. */
  function Ranked(input: Input, n: nat): (who: seq<nat>)
    requires n <= |input.students|
    ensures forall k | 0 <= k < |who| :: who[k] < n
  {
    if n == 0 then []
    else if AllTaken(input, input.students[n - 1]) != [] then Ranked(input, n - 1) + [n - 1]
    else Ranked(input, n - 1)
  }

  function RankedAverages(input: Input, n: nat): seq<int>
    requires n <= |input.students|
  {
    var who := Ranked(input, n);
    seq(|who|, k requires 0 <= k < |who| => Average(input, input.students[who[k]]))
  }

  function SubjectPlace(input: Input, st: nat, su: Subject): int {
    Place(TakerTotals(input, su, |input.students|), SubjectTotal(input, st, su.id))
  }

  function ClassPlace(input: Input, st: nat): Option<int> {
    if AllTaken(input, st) == [] then None
    else Some(Place(RankedAverages(input, |input.students|), Average(input, st)))
  }

  // ---------------------------------------------------------------------------
  // Lines, statistics and missing scores
  // ---------------------------------------------------------------------------

  function LineOn(input: Input, st: nat, su: Subject, position: int): SubjectLine {
    var total := SubjectTotal(input, st, su.id);
    SubjectLine(su.id, Parts(input, st, su.id), total, GradeFor(total, input.bands), position,
                AllAbsent(input, st, su.id) == [])
  }

  predicate Among(subjects: seq<Subject>, n: nat, su: Subject)
    requires n <= |subjects|
  {
    exists i | 0 <= i < n :: subjects[i] == su
  }

  /** The student's subject lines when the first n subjects have their positions. */
  function LinesAt(input: Input, st: nat, n: nat): (lines: seq<SubjectLine>)
    requires n <= |input.subjects|
    ensures |lines| == |AllTaken(input, st)|
  {
    var taken := AllTaken(input, st);
    seq(|taken|, k requires 0 <= k < |taken| =>
      LineOn(input, st, taken[k], if Among(input.subjects, n, taken[k]) then SubjectPlace(input, st, taken[k]) else 0))
  }

  function Complete(input: Input, st: nat): bool {
    forall su | su in AllTaken(input, st) :: AllAbsent(input, st, su.id) == []
  }

  function LineAt(input: Input, st: nat, n: nat, position: Option<int>): StudentLine
    requires n <= |input.subjects|
  {
    StudentLine(st, LinesAt(input, st, n), StudentTotal(input, st), Average(input, st), position, Complete(input, st))
  }

  /** One student's results. */
  function LineFor(input: Input, st: nat): StudentLine {
    LineAt(input, st, |input.subjects|, ClassPlace(input, st))
  }

  function MaxOf(xs: seq<int>, n: nat): int
    requires 0 < n <= |xs|
  {
    if n == 1 then xs[0] else if MaxOf(xs, n - 1) >= xs[n - 1] then MaxOf(xs, n - 1) else xs[n - 1]
  }

  function MinOf(xs: seq<int>, n: nat): int
    requires 0 < n <= |xs|
  {
    if n == 1 then xs[0] else if MinOf(xs, n - 1) <= xs[n - 1] then MinOf(xs, n - 1) else xs[n - 1]
  }

  const Itself: int -> int := (x: int) => x

  function StatsOf(su: nat, totals: seq<int>): Stats
    requires |totals| > 0
  {
    Stats(su, MaxOf(totals, |totals|), MinOf(totals, |totals|), RoundHalfUp(Sum(totals, Itself), |totals|), |totals|)
  }

  function AllStats(input: Input, n: nat): seq<Stats>
    requires n <= |input.subjects|
  {
    if n == 0 then []
    else
      var totals := TakerTotals(input, input.subjects[n - 1], |input.students|);
      if totals == [] then AllStats(input, n - 1)
      else AllStats(input, n - 1) + [StatsOf(input.subjects[n - 1].id, totals)]
  }

  function MissingFor(input: Input, st: nat, taken: seq<Subject>, n: nat): seq<Missing>
    requires n <= |taken|
  {
    if n == 0 then []
    else
      var absent := AllAbsent(input, st, taken[n - 1].id);
      if absent == [] then MissingFor(input, st, taken, n - 1)
      else MissingFor(input, st, taken, n - 1) + [Missing(st, taken[n - 1].id, absent)]
  }

  function AllMissing(input: Input, n: nat): seq<Missing>
    requires n <= |input.students|
  {
    if n == 0 then []
    else
      var st := input.students[n - 1];
      AllMissing(input, n - 1) + MissingFor(input, st, AllTaken(input, st), |AllTaken(input, st)|)
  }

  function Lines(input: Input): (lines: seq<StudentLine>)
    ensures |lines| == |input.students|
  {
    seq(|input.students|, i requires 0 <= i < |input.students| => LineFor(input, input.students[i]))
  }

  /** What computeResults computes: every position is one plus the number of strictly better ones. */
  function Compute(input: Input): Outcome {
    Outcome(Lines(input), AllStats(input, |input.subjects|), AllMissing(input, |input.students|),
            |Ranked(input, |input.students|)|)
  }

  /** The unique index on a class's subjects. */
  ghost predicate DistinctSubjects(input: Input) {
    forall i, j | 0 <= i < j < |input.subjects| :: input.subjects[i].id != input.subjects[j].id
  }

  // ---------------------------------------------------------------------------
  // The imperative computation
  // ---------------------------------------------------------------------------

  /** The score map agrees with the rows. */
  ghost predicate Mapped(scoreOf: map<(nat, nat, nat), int>, scores: seq<ScoreRow>, n: nat)
    requires n <= |scores|
  {
    forall st: nat, su: nat, c: nat ::
      ScoreOf(scores, n, st, su, c) == if (st, su, c) in scoreOf then Some(scoreOf[(st, su, c)]) else None
  }

  ghost predicate TouchedIn(touched: set<(nat, nat)>, scores: seq<ScoreRow>) {
    forall st: nat, su: nat :: (st, su) in touched <==> Touched(scores, st, su)
  }

  method ReadScores(scores: seq<ScoreRow>) returns (scoreOf: map<(nat, nat, nat), int>, touched: set<(nat, nat)>)
    ensures Mapped(scoreOf, scores, |scores|)
    ensures TouchedIn(touched, scores)
  {
    scoreOf, touched := map[], {};
    for i := 0 to |scores|
      invariant Mapped(scoreOf, scores, i)
      invariant TouchedIn(touched, scores[..i])
    {
      var row := scores[i];
      scoreOf := scoreOf[(row.student, row.subject, row.component) := row.score];
      assert scores[..i + 1] == scores[..i] + [row];
      touched := touched + {(row.student, row.subject)};
    }
    assert scores[..|scores|] == scores;
  }

  method ReadParts(input: Input, scoreOf: map<(nat, nat, nat), int>, st: nat, su: nat)
    returns (parts: seq<Option<int>>, absent: seq<nat>, total: int)
    requires Mapped(scoreOf, input.scores, |input.scores|)
    ensures parts == Parts(input, st, su) && absent == AllAbsent(input, st, su) && total == SubjectTotal(input, st, su)
  {
    parts, absent, total := [], [], 0;
    for i := 0 to |input.components|
      invariant parts == Parts(input, st, su)[..i]
      invariant absent == Absent(input, st, su, i)
      invariant total == SumUpTo(Parts(input, st, su), i, Marks)
    {
      var key := (st, su, input.components[i].id);
      var part := if key in scoreOf then Some(scoreOf[key]) else None;
      assert part == Parts(input, st, su)[i];
      parts := parts + [part];
      if part == None { absent := absent + [input.components[i].id]; }
      total := total + Mark(part);
    }
  }

  /** One student's draft line and missing scores, before any position is known. */
  method ComputeStudent(input: Input, scoreOf: map<(nat, nat, nat), int>, touched: set<(nat, nat)>, st: nat)
    returns (line: StudentLine, missing: seq<Missing>)
    requires Mapped(scoreOf, input.scores, |input.scores|)
    requires TouchedIn(touched, input.scores)
    ensures line == LineAt(input, st, 0, None)
    ensures missing == MissingFor(input, st, AllTaken(input, st), |AllTaken(input, st)|)
  {
    var taken: seq<Subject> := [];
    for i := 0 to |input.subjects|
      invariant taken == Taken(input, st, i)
    {
      if input.subjects[i].compulsory || (st, input.subjects[i].id) in touched {
        taken := taken + [input.subjects[i]];
      }
    }
    var lines: seq<SubjectLine> := [];
    var total, complete := 0, true;
    missing := [];
    for k := 0 to |taken|
      invariant lines == LinesAt(input, st, 0)[..k]
      invariant total == TotalOver(input, st, taken, k)
      invariant complete <==> forall j | 0 <= j < k :: AllAbsent(input, st, taken[j].id) == []
      invariant missing == MissingFor(input, st, taken, k)
    {
      var parts, absent, subtotal := ReadParts(input, scoreOf, st, taken[k].id);
      if |absent| > 0 {
        missing := missing + [Missing(st, taken[k].id, absent)];
        complete := false;
      }
      var line' := SubjectLine(taken[k].id, parts, subtotal, GradeFor(subtotal, input.bands), 0, absent == []);
      assert line' == LinesAt(input, st, 0)[k];
      lines := lines + [line'];
      total := total + subtotal;
    }
    var average := if |lines| == 0 then 0 else RoundHalfUp(total, |lines|);
    line := StudentLine(st, lines, total, average, None, complete);
  }

  /** entry.position = ... for the student's line in one subject. */
  function Assign(line: StudentLine, su: nat, position: int): StudentLine {
    line.(subjects := seq(|line.subjects|, k requires 0 <= k < |line.subjects| =>
      if line.subjects[k].subject == su then line.subjects[k].(position := position) else line.subjects[k]))
  }

  lemma {:induction false} TakenFrom(input: Input, st: nat, n: nat)
    requires n <= |input.subjects|
    ensures forall x | x in Taken(input, st, n) :: x in input.subjects && Takes(input, st, x)
    ensures forall i | 0 <= i < n && Takes(input, st, input.subjects[i]) :: input.subjects[i] in Taken(input, st, n)
  {
    if n > 0 { TakenFrom(input, st, n - 1); }
  }

  lemma AmongNext(input: Input, n: nat, x: Subject)
    requires n < |input.subjects| && DistinctSubjects(input) && x in input.subjects
    ensures Among(input.subjects, n + 1, x) <==> Among(input.subjects, n, x) || x.id == input.subjects[n].id
    ensures x.id == input.subjects[n].id <==> x == input.subjects[n]
  {
    if Among(input.subjects, n, x) {
      var i :| 0 <= i < n && input.subjects[i] == x;
      assert input.subjects[i] == x;
    }
    assert Among(input.subjects, n + 1, input.subjects[n]);
  }

  /** Assigning subject n moves a taker's line on by one subject. */
  lemma AssignMovesOn(input: Input, st: nat, n: nat, position: Option<int>)
    requires n < |input.subjects| && DistinctSubjects(input)
    ensures Assign(LineAt(input, st, n, position), input.subjects[n].id, SubjectPlace(input, st, input.subjects[n]))
            == LineAt(input, st, n + 1, position)
  {
    var su, taken := input.subjects[n], AllTaken(input, st);
    var line := Assign(LineAt(input, st, n, position), su.id, SubjectPlace(input, st, su));
    TakenFrom(input, st, |input.subjects|);
    forall k | 0 <= k < |taken| ensures line.subjects[k] == LinesAt(input, st, n + 1)[k] {
      assert taken[k] in taken;
      AmongNext(input, n, taken[k]);
    }
    assert line.subjects == LinesAt(input, st, n + 1);
  }

  /** A subject the student does not take leaves the line as it is. */
  lemma SkipMovesOn(input: Input, st: nat, n: nat, position: Option<int>)
    requires n < |input.subjects| && DistinctSubjects(input) && !Takes(input, st, input.subjects[n])
    ensures LineAt(input, st, n + 1, position) == LineAt(input, st, n, position)
  {
    var taken := AllTaken(input, st);
    TakenFrom(input, st, |input.subjects|);
    forall k | 0 <= k < |taken| ensures LinesAt(input, st, n + 1)[k] == LinesAt(input, st, n)[k] {
      assert taken[k] in taken;
      AmongNext(input, n, taken[k]);
    }
    assert LinesAt(input, st, n + 1) == LinesAt(input, st, n);
  }

  /** Every student's line, with the positions of the first n subjects and the class positions of `placed`. */
  ghost predicate StagedAt(input: Input, computed: seq<StudentLine>, n: nat, placed: seq<nat>)
    requires n <= |input.subjects|
  {
    && |computed| == |input.students|
    && forall i | 0 <= i < |computed| ::
         computed[i] == LineAt(input, input.students[i], n, if i in placed then ClassPlace(input, input.students[i]) else None)
  }

  lemma {:induction false} RankedFrom(input: Input, n: nat)
    requires n <= |input.students|
    ensures forall i: nat :: i in Ranked(input, n) <==> i < n && AllTaken(input, input.students[i]) != []
  {
    if n > 0 { RankedFrom(input, n - 1); }
  }

  lemma {:induction false} TakersFrom(input: Input, su: Subject, n: nat)
    requires n <= |input.students|
    ensures forall i: nat :: i in Takers(input, su, n) <==> i < n && Takes(input, input.students[i], su)
    ensures forall j, k | 0 <= j < k < |Takers(input, su, n)| :: Takers(input, su, n)[j] != Takers(input, su, n)[k]
  {
    if n > 0 { TakersFrom(input, su, n - 1); }
  }

  lemma RankedNext(input: Input, i: nat)
    requires i < |input.students|
    ensures var st := input.students[i];
      && Ranked(input, i + 1) == Ranked(input, i) + (if AllTaken(input, st) != [] then [i] else [])
      && RankedAverages(input, i + 1)
         == RankedAverages(input, i) + (if AllTaken(input, st) != [] then [Average(input, st)] else [])
  {
  }

  method CollectRanked(input: Input, drafts: seq<StudentLine>) returns (who: seq<nat>, averages: seq<int>)
    requires StagedAt(input, drafts, 0, [])
    ensures who == Ranked(input, |input.students|) && averages == RankedAverages(input, |input.students|)
  {
    hide StudentTotal, SubjectTotal, Complete;
    who, averages := [], [];
    for i := 0 to |drafts|
      invariant who == Ranked(input, i) && averages == RankedAverages(input, i)
    {
      RankedNext(input, i);
      assert drafts[i] == LineAt(input, input.students[i], 0, None);
      if |drafts[i].subjects| > 0 {
        who, averages := who + [i], averages + [drafts[i].average];
      }
    }
  }

  lemma PlaceNextInClass(input: Input, computed: seq<StudentLine>, who: seq<nat>, k: nat, rank: int)
    requires who == Ranked(input, |input.students|) && k < |who| && StagedAt(input, computed, 0, who[..k])
    requires rank == Place(RankedAverages(input, |input.students|), Average(input, input.students[who[k]]))
    ensures StagedAt(input, computed[who[k] := computed[who[k]].(position := Some(rank))], 0, who[..k + 1])
  {
    RankedFrom(input, |input.students|);
    assert who[k] in who;
    var after := computed[who[k] := computed[who[k]].(position := Some(rank))];
    forall i | 0 <= i < |after|
      ensures after[i] == LineAt(input, input.students[i], 0, if i in who[..k + 1] then ClassPlace(input, input.students[i]) else None)
    {
      PlacedNow(who, k, i);
      assert computed[i] == LineAt(input, input.students[i], 0, if i in who[..k] then ClassPlace(input, input.students[i]) else None);
    }
  }

  lemma PlacedNow(who: seq<nat>, k: nat, i: nat)
    requires k < |who|
    ensures i in who[..k + 1] <==> i in who[..k] || i == who[k]
  {
    assert who[..k + 1] == who[..k] + [who[k]];
  }

  /** The class positions, by average. */
  method RankClass(input: Input, drafts: seq<StudentLine>) returns (computed: seq<StudentLine>, rankedCount: nat)
    requires StagedAt(input, drafts, 0, [])
    ensures StagedAt(input, computed, 0, Ranked(input, |input.students|))
    ensures rankedCount == |Ranked(input, |input.students|)|
  {
    var who, averages := CollectRanked(input, drafts);
    var ranks := CompetitionRank(averages);
    computed, rankedCount := drafts, |who|;
    for k := 0 to |who|
      invariant StagedAt(input, computed, 0, who[..k])
    {
      assert averages[k] == Average(input, input.students[who[k]]);
      PlaceNextInClass(input, computed, who, k, ranks[k]);
      computed := computed[who[k] := computed[who[k]].(position := Some(ranks[k]))];
    }
    assert who[..|who|] == who;
  }

  /** The lines when the first k takers of subject n have their positions in it. */
  ghost predicate Assigning(input: Input, computed: seq<StudentLine>, n: nat, who: seq<nat>, k: nat, placed: seq<nat>)
    requires n < |input.subjects| && k <= |who|
  {
    && |computed| == |input.students|
    && forall i | 0 <= i < |computed| ::
         computed[i] == LineAt(input, input.students[i], if i in who[..k] then n + 1 else n,
                               if i in placed then ClassPlace(input, input.students[i]) else None)
  }

  lemma AssignNext(input: Input, computed: seq<StudentLine>, n: nat, who: seq<nat>, k: nat, placed: seq<nat>, rank: int)
    requires n < |input.subjects| && DistinctSubjects(input) && k < |who| && who[k] < |input.students|
    requires who[k] !in who[..k] && Assigning(input, computed, n, who, k, placed)
    requires rank == SubjectPlace(input, input.students[who[k]], input.subjects[n])
    ensures Assigning(input, computed[who[k] := Assign(computed[who[k]], input.subjects[n].id, rank)], n, who, k + 1, placed)
  {
    hide LineAt, ClassPlace, SubjectPlace, Assign;
    var i := who[k];
    AssignMovesOn(input, input.students[i], n, if i in placed then ClassPlace(input, input.students[i]) else None);
    forall j: nat ensures j in who[..k + 1] <==> j in who[..k] || j == i { PlacedNow(who, k, j); }
  }

  lemma AllAssigned(input: Input, computed: seq<StudentLine>, n: nat, placed: seq<nat>)
    requires n < |input.subjects| && DistinctSubjects(input)
    requires var who := Takers(input, input.subjects[n], |input.students|); Assigning(input, computed, n, who, |who|, placed)
    ensures StagedAt(input, computed, n + 1, placed)
  {
    var who := Takers(input, input.subjects[n], |input.students|);
    TakersFrom(input, input.subjects[n], |input.students|);
    assert who[..|who|] == who;
    forall i | 0 <= i < |computed|
      ensures computed[i] == LineAt(input, input.students[i], n + 1, if i in placed then ClassPlace(input, input.students[i]) else None)
    {
      if i !in who {
        SkipMovesOn(input, input.students[i], n, if i in placed then ClassPlace(input, input.students[i]) else None);
      }
    }
  }

  /** The totals of a line's entries in one subject. */
  function EntryTotals(lines: seq<SubjectLine>, n: nat, su: nat): seq<int>
    requires n <= |lines|
  {
    if n == 0 then []
    else if lines[n - 1].subject == su then EntryTotals(lines, n - 1, su) + [lines[n - 1].total]
    else EntryTotals(lines, n - 1, su)
  }

  lemma {:induction false} TakenDistinct(input: Input, st: nat, n: nat)
    requires n <= |input.subjects| && DistinctSubjects(input)
    ensures forall j, k | 0 <= j < k < |Taken(input, st, n)| :: Taken(input, st, n)[j].id != Taken(input, st, n)[k].id
    ensures forall x | x in Taken(input, st, n) :: exists i :: 0 <= i < n && input.subjects[i] == x
  {
    if n > 0 {
      TakenDistinct(input, st, n - 1);
      var shorter := Taken(input, st, n - 1);
      forall j | 0 <= j < |shorter| ensures shorter[j].id != input.subjects[n - 1].id {
        assert shorter[j] in shorter;
      }
    }
  }

  lemma OneSubject(input: Input, st: nat, a: Subject, b: Subject)
    requires DistinctSubjects(input) && a in AllTaken(input, st) && b in AllTaken(input, st) && a.id == b.id
    ensures a == b
  {
    TakenDistinct(input, st, |input.subjects|);
    var taken := AllTaken(input, st);
    var i :| 0 <= i < |taken| && taken[i] == a;
    var j :| 0 <= j < |taken| && taken[j] == b;
  }

  lemma SameId(input: Input, a: Subject, b: Subject)
    requires DistinctSubjects(input) && a in input.subjects && b in input.subjects
    ensures a.id == b.id ==> a == b
  {
    var i :| 0 <= i < |input.subjects| && input.subjects[i] == a;
    var j :| 0 <= j < |input.subjects| && input.subjects[j] == b;
  }

  lemma {:induction false} EntriesUpTo(input: Input, st: nat, m: nat, k: nat, su: Subject)
    requires m <= |input.subjects| && k <= |AllTaken(input, st)| && DistinctSubjects(input) && su in input.subjects
    ensures EntryTotals(LinesAt(input, st, m), k, su.id)
            == if su in AllTaken(input, st)[..k] then [SubjectTotal(input, st, su.id)] else []
  {
    hide SubjectTotal, Parts, SubjectPlace, GradeFor, AllAbsent;
    if k > 0 {
      var taken := AllTaken(input, st);
      EntriesUpTo(input, st, m, k - 1, su);
      TakenFrom(input, st, |input.subjects|);
      assert taken[..k] == taken[..k - 1] + [taken[k - 1]];
      assert taken[k - 1] in taken;
      TakenDistinct(input, st, |input.subjects|);
      assert taken[k - 1].id == su.id ==> taken[k - 1] == su by { SameId(input, taken[k - 1], su); }
    }
  }

  /** A student has one entry in a subject taken, and none in any other. */
  lemma EntriesOfTaker(input: Input, st: nat, m: nat, su: Subject)
    requires m <= |input.subjects| && DistinctSubjects(input) && su in input.subjects
    ensures EntryTotals(LinesAt(input, st, m), |LinesAt(input, st, m)|, su.id)
            == if Takes(input, st, su) then [SubjectTotal(input, st, su.id)] else []
  {
    hide LinesAt, EntryTotals, SubjectTotal;
    var taken := AllTaken(input, st);
    EntriesUpTo(input, st, m, |taken|, su);
    assert taken[..|taken|] == taken;
    TakenFrom(input, st, |input.subjects|);
  }

  /** The filter on one student's lines. */
  method ReadEntries(line: StudentLine, su: nat) returns (totals: seq<int>)
    ensures totals == EntryTotals(line.subjects, |line.subjects|, su)
  {
    totals := [];
    for k := 0 to |line.subjects|
      invariant totals == EntryTotals(line.subjects, k, su)
    {
      if line.subjects[k].subject == su { totals := totals + [line.subjects[k].total]; }
    }
  }

  lemma TakersNext(input: Input, su: Subject, i: nat)
    requires i < |input.students|
    ensures var takes := Takes(input, input.students[i], su);
      && Takers(input, su, i + 1) == Takers(input, su, i) + (if takes then [i] else [])
      && TakerTotals(input, su, i + 1)
         == TakerTotals(input, su, i) + (if takes then [SubjectTotal(input, input.students[i], su.id)] else [])
  {
    hide SubjectTotal;
  }

  /** The students' entries in one subject, gathered from their lines in roster order. */
  method CollectTakers(input: Input, n: nat, lines: seq<StudentLine>, ghost placed: seq<nat>)
    returns (who: seq<nat>, totals: seq<int>)
    requires n < |input.subjects| && DistinctSubjects(input) && StagedAt(input, lines, n, placed)
    ensures who == Takers(input, input.subjects[n], |input.students|)
    ensures totals == TakerTotals(input, input.subjects[n], |input.students|)
  {
    hide TakerTotals, Takers, SubjectTotal, EntryTotals, LinesAt, ClassPlace, StudentTotal, Average, Complete;
    var su := input.subjects[n];
    who, totals := [], [];
    NoTakers(input, su);
    for i := 0 to |lines|
      invariant who == Takers(input, su, i) && totals == TakerTotals(input, su, i)
    {
      var entries := ReadEntries(lines[i], su.id);
      EntriesOfTaker(input, input.students[i], n, su);
      TakersNext(input, su, i);
      if entries != [] { who := who + [i]; }
      totals := totals + entries;
    }
  }

  lemma NoTakers(input: Input, su: Subject)
    ensures Takers(input, su, 0) == [] && TakerTotals(input, su, 0) == []
  {
  }

  /** One subject's positions and statistics. */
  method RankSubject(input: Input, n: nat, lines: seq<StudentLine>, ghost placed: seq<nat>)
    returns (computed: seq<StudentLine>, totals: seq<int>)
    requires n < |input.subjects| && DistinctSubjects(input) && StagedAt(input, lines, n, placed)
    ensures StagedAt(input, computed, n + 1, placed)
    ensures totals == TakerTotals(input, input.subjects[n], |input.students|)
  {
    var who;
    who, totals := CollectTakers(input, n, lines, placed);
    TakersFrom(input, input.subjects[n], |input.students|);
    var ranks := CompetitionRank(totals);
    computed := lines;
    for k := 0 to |who|
      invariant Assigning(input, computed, n, who, k, placed)
    {
      assert totals[k] == SubjectTotal(input, input.students[who[k]], input.subjects[n].id);
      AssignNext(input, computed, n, who, k, placed, ranks[k]);
      computed := computed[who[k] := Assign(computed[who[k]], input.subjects[n].id, ranks[k])];
    }
    AllAssigned(input, computed, n, placed);
  }

  /** The first n subjects have their positions and statistics. */
  ghost predicate Progress(input: Input, computed: seq<StudentLine>, stats: seq<Stats>, n: nat) {
    && n <= |input.subjects|
    && StagedAt(input, computed, n, Ranked(input, |input.students|))
    && stats == AllStats(input, n)
  }

  /** One turn of the subject loop. */
  method FinishSubject(input: Input, n: nat, lines: seq<StudentLine>, before: seq<Stats>)
    returns (computed: seq<StudentLine>, stats: seq<Stats>)
    requires n < |input.subjects| && DistinctSubjects(input) && Progress(input, lines, before, n)
    ensures Progress(input, computed, stats, n + 1)
  {
    var totals;
    computed, totals := RankSubject(input, n, lines, Ranked(input, |input.students|));
    stats := if totals != [] then before + [StatsOf(input.subjects[n].id, totals)] else before;
  }

  lemma ProgressIsDone(input: Input, computed: seq<StudentLine>, stats: seq<Stats>)
    requires Progress(input, computed, stats, |input.subjects|)
    ensures computed == Lines(input) && stats == AllStats(input, |input.subjects|)
  {
    RankedFrom(input, |input.students|);
  }

  /** Every student's draft, and the missing scores in roster order. */
  method DraftAll(input: Input, scoreOf: map<(nat, nat, nat), int>, touched: set<(nat, nat)>)
    returns (drafts: seq<StudentLine>, missing: seq<Missing>)
    requires Mapped(scoreOf, input.scores, |input.scores|)
    requires TouchedIn(touched, input.scores)
    ensures StagedAt(input, drafts, 0, [])
    ensures missing == AllMissing(input, |input.students|)
  {
    hide LineAt, MissingFor, AllTaken, Mapped, TouchedIn;
    drafts, missing := [], [];
    for i := 0 to |input.students|
      invariant |drafts| == i && forall j | 0 <= j < i :: drafts[j] == LineAt(input, input.students[j], 0, None)
      invariant missing == AllMissing(input, i)
    {
      var line, absent := ComputeStudent(input, scoreOf, touched, input.students[i]);
      drafts, missing := drafts + [line], missing + absent;
    }
  }

  /** The subject loop: positions into the lines, statistics beside them. */
  method RankSubjects(input: Input, ranked: seq<StudentLine>)
    returns (computed: seq<StudentLine>, stats: seq<Stats>)
    requires DistinctSubjects(input) && Progress(input, ranked, [], 0)
    ensures Progress(input, computed, stats, |input.subjects|)
  {
    computed, stats := ranked, [];
    var n := 0;
    while n != |input.subjects|
      invariant n <= |input.subjects| && Progress(input, computed, stats, n)
    {
      computed, stats := FinishSubject(input, n, computed, stats);
      n := n + 1;
    }
  }

  /** computeResults: drafts, then class positions, then each subject's positions and statistics. */
  method ComputeAll(input: Input) returns (outcome: Outcome)
    requires DistinctSubjects(input)
    ensures outcome == Compute(input)
  {
    var scoreOf, touched := ReadScores(input.scores);
    var drafts, missing := DraftAll(input, scoreOf, touched);
    var ranked, rankedCount := RankClass(input, drafts);
    var computed, stats := RankSubjects(input, ranked);
    ProgressIsDone(input, computed, stats);
    outcome := Outcome(computed, stats, missing, rankedCount);
  }
}
