/**
 * The stored snapshot of a result sheet: one row per student with the comments people
 * wrote, one row per student and subject, rebuilt in place from the current scores.
 */
module ResultRows {
  import opened Wrappers
  import opened Sequences
  import opened Grading
  import opened ComputeResults
  import opened ResultLaws

  datatype StudentRow = StudentRow(
    total: int, average: int, position: Option<int>, count: nat,
    formComment: Option<string>, principalComment: Option<string>)

  datatype SubjectRow = SubjectRow(
    total: int, grade: Option<Band>, position: int, parts: seq<Option<int>>, highest: int, lowest: int, average: int)

  type StudentRows = map<nat, StudentRow>
  type SubjectRows = map<(nat, nat), SubjectRow>

  // ---------------------------------------------------------------------------
  // What the snapshot of an input is
  // ---------------------------------------------------------------------------

  function FormComment(prior: StudentRows, st: nat): Option<string> { if st in prior then prior[st].formComment else None }

  function PrincipalComment(prior: StudentRows, st: nat): Option<string> {
    if st in prior then prior[st].principalComment else None
  }

  /** A student's row: the computed numbers, and the comments already written. */
  function RowOf(line: StudentLine, prior: StudentRows): StudentRow {
    StudentRow(line.total, line.average, line.position, |line.subjects|,
               FormComment(prior, line.student), PrincipalComment(prior, line.student))
  }

  function Rebuilt(input: Input, prior: StudentRows): StudentRows {
    map st | st in input.students :: RowOf(LineFor(input, st), prior)
  }

  predicate Takeable(input: Input, st: nat, id: nat) {
    st in input.students && exists su | su in AllTaken(input, st) :: su.id == id
  }

  /** The stored row of one subject line, with the class statistics of its subject. */
  function StoredLine(line: SubjectLine, stat: Stats): SubjectRow {
    SubjectRow(line.total, line.grade, line.position, line.parts, stat.highest, stat.lowest, stat.average)
  }

  function SubjectRowOf(input: Input, st: nat, su: Subject): SubjectRow
    requires TakerTotals(input, su, |input.students|) != []
  {
    StoredLine(LineOn(input, st, su, SubjectPlace(input, st, su)),
               StatsOf(su.id, TakerTotals(input, su, |input.students|)))
  }

  /** Exactly one row for each subject a rostered student takes. */
  ghost predicate SubjectsOf(input: Input, rows: SubjectRows) {
    && (forall key :: key in rows <==> Takeable(input, key.0, key.1))
    && (forall st: nat, su | st in input.students && su in AllTaken(input, st) :: RowAt(input, rows, st, su))
  }

  lemma TakerMeansTotals(input: Input, i: nat, su: Subject)
    requires i < |input.students| && su in AllTaken(input, input.students[i])
    ensures TakerTotals(input, su, |input.students|) != []
  {
    TakenFrom(input, input.students[i], |input.subjects|);
    TakersFrom(input, su, |input.students|);
    assert i in Takers(input, su, |input.students|);
  }

  /** The snapshot is determined: two sets of subject rows for one input are the same rows. */
  lemma SubjectsDetermined(input: Input, a: SubjectRows, b: SubjectRows)
    requires SubjectsOf(input, a) && SubjectsOf(input, b)
    ensures a == b
  {
    forall k | k in a ensures k in b && a[k] == b[k] {
      assert Takeable(input, k.0, k.1);
      var su :| su in AllTaken(input, k.0) && su.id == k.1;
      assert RowAt(input, a, k.0, su) && RowAt(input, b, k.0, su);
    }
    forall k | k in b ensures k in a { assert Takeable(input, k.0, k.1); }
    assert a.Keys == b.Keys;
  }

  /** The subject a key of the snapshot stands for. */
  ghost function SubjectAt(input: Input, st: nat, id: nat): (su: Subject)
    requires Takeable(input, st, id)
    ensures su in AllTaken(input, st) && su.id == id && TakerTotals(input, su, |input.students|) != []
  {
    var su :| su in AllTaken(input, st) && su.id == id;
    var i :| 0 <= i < |input.students| && input.students[i] == st;
    TakerMeansTotals(input, i, su);
    su
  }

  ghost function KeysOf(input: Input): set<(nat, nat)> {
    set st, su | st in input.students && su in AllTaken(input, st) :: (st, su.id)
  }

  ghost function SubjectsFor(input: Input): SubjectRows {
    map key | key in KeysOf(input) :: SubjectRowOf(input, key.0, SubjectAt(input, key.0, key.1))
  }

  lemma SubjectsForIsThem(input: Input)
    requires DistinctSubjects(input)
    ensures SubjectsOf(input, SubjectsFor(input))
  {
    forall st: nat, su | st in input.students && su in AllTaken(input, st)
      ensures RowAt(input, SubjectsFor(input), st, su)
    {
      assert (st, su.id) in KeysOf(input);
      OneSubject(input, st, su, SubjectAt(input, st, su.id));
    }
  }

  // ---------------------------------------------------------------------------
  // recompute, in place
  // ---------------------------------------------------------------------------

  /** The statistics looked up by subject. */
  ghost predicate StatsFound(input: Input, byId: map<nat, Stats>) {
    forall i, su | 0 <= i < |input.students| && su in AllTaken(input, input.students[i]) ::
      && TakerTotals(input, su, |input.students|) != []
      && su.id in byId && byId[su.id] == StatsOf(su.id, TakerTotals(input, su, |input.students|))
  }

  method IndexStats(input: Input, stats: seq<Stats>) returns (byId: map<nat, Stats>)
    requires DistinctSubjects(input) && stats == AllStats(input, |input.subjects|)
    ensures StatsFound(input, byId)
  {
    byId := map[];
    for k := 0 to |stats|
      invariant forall id :: id in byId <==> exists j :: 0 <= j < k && stats[j].subject == id
      invariant forall id | id in byId :: byId[id] in stats && byId[id].subject == id
    {
      byId := byId[stats[k].subject := stats[k]];
    }
    forall i, su | 0 <= i < |input.students| && su in AllTaken(input, input.students[i])
      ensures TakerTotals(input, su, |input.students|) != []
      ensures su.id in byId && byId[su.id] == StatsOf(su.id, TakerTotals(input, su, |input.students|))
    {
      StatLookup(input, i, su, byId);
    }
  }

  /** `stats.get(subject.subjectId)!` is defined, and is the row of that very subject. */
  lemma StatLookup(input: Input, i: nat, su: Subject, byId: map<nat, Stats>)
    requires DistinctSubjects(input) && i < |input.students| && su in AllTaken(input, input.students[i])
    requires var stats := AllStats(input, |input.subjects|);
             && (forall id :: id in byId <==> exists j :: 0 <= j < |stats| && stats[j].subject == id)
             && (forall id | id in byId :: byId[id] in stats && byId[id].subject == id)
    ensures TakerTotals(input, su, |input.students|) != []
    ensures su.id in byId && byId[su.id] == StatsOf(su.id, TakerTotals(input, su, |input.students|))
  {
    var stats := AllStats(input, |input.subjects|);
    TakerMeansTotals(input, i, su);
    TakenFrom(input, input.students[i], |input.subjects|);
    var k :| 0 <= k < |input.subjects| && input.subjects[k] == su;
    StatsPresent(input, |input.subjects|, k);
    var expected := StatsOf(su.id, TakerTotals(input, su, |input.students|));
    var j :| 0 <= j < |stats| && stats[j] == expected;
    assert stats[j].subject == su.id;
    StatsUnique(input, |input.subjects|, byId[su.id], expected);
  }

  /** A statistics row is an earlier subject's, and then not of this subject, or this subject's own. */
  lemma StatsSubject(input: Input, n: nat, a: Stats)
    requires n <= |input.subjects| && DistinctSubjects(input) && a in AllStats(input, n)
    ensures n > 0
    ensures var su := input.subjects[n - 1];
      && (a in AllStats(input, n - 1) ==> a.subject != su.id)
      && (a !in AllStats(input, n - 1) ==>
            && TakerTotals(input, su, |input.students|) != []
            && a == StatsOf(su.id, TakerTotals(input, su, |input.students|)) && a.subject == su.id)
  {
    hide TakerTotals;
    StatsNext(input, n, a);
    if a in AllStats(input, n - 1) { var i := StatsOwned(input, n - 1, a); }
  }

  lemma {:induction false} StatsUnique(input: Input, n: nat, a: Stats, b: Stats)
    requires n <= |input.subjects| && DistinctSubjects(input)
    requires a in AllStats(input, n) && b in AllStats(input, n) && a.subject == b.subject
    ensures a == b
  {
    hide StatsOf, TakerTotals, StatsFor, AllStats;
    StatsSubject(input, n, a);
    StatsSubject(input, n, b);
    if a in AllStats(input, n - 1) && b in AllStats(input, n - 1) { StatsUnique(input, n - 1, a, b); }
  }

  class SnapshotStore {
    var students: StudentRows
    var subjects: SubjectRows

    constructor (students: StudentRows, subjects: SubjectRows)
      ensures this.students == students && this.subjects == subjects
    {
      this.students, this.subjects := students, subjects;
    }

    /** The upsert loop: numbers replaced, comments left alone. */
    method UpsertStudents(input: Input, lines: seq<StudentLine>, ghost before: StudentRows)
      requires lines == Lines(input)
      requires forall st | st in students :: st in input.students && st in before && students[st] == before[st]
      requires forall st | st in before && st in input.students :: st in students
      modifies this`students
      ensures students == Rebuilt(input, before)
    {
      for i := 0 to |lines|
        invariant forall st :: st in students <==> st in input.students[..i] || (st in before && st in input.students)
        invariant forall st | st in students ::
          students[st] == if st in input.students[..i] then RowOf(LineFor(input, st), before) else before[st]
      {
        var line := lines[i];
        assert line == LineFor(input, input.students[i]);
        assert input.students[..i + 1] == input.students[..i] + [input.students[i]];
        var st := line.student;
        if st in students {
          students := students[st := students[st].(
            total := line.total, average := line.average, position := line.position, count := |line.subjects|)];
        } else {
          students := students[st := StudentRow(line.total, line.average, line.position, |line.subjects|, None, None)];
        }
      }
      assert input.students[..|lines|] == input.students;
    }

    /** The rows of one student's subjects. */
    method InsertLines(input: Input, i: nat, line: StudentLine, byId: map<nat, Stats>)
      requires DistinctSubjects(input) && StatsFound(input, byId)
      requires i < |input.students| && line == LineFor(input, input.students[i])
      modifies this`subjects
      ensures Inserted(input, input.students[i], old(subjects), subjects, |AllTaken(input, input.students[i])|)
    {
      var st := input.students[i];
      for k := 0 to |line.subjects|
        invariant Inserted(input, st, old(subjects), subjects, k)
      {
        FinalLine(input, i, k, byId);
        InsertNext(input, st, old(subjects), subjects, k);
        var entry := line.subjects[k];
        subjects := subjects[(st, entry.subject) := StoredLine(entry, byId[entry.subject])];
      }
    }

    /**
     * recompute: delete every subject row and the rows of students no longer on the
     * roster, upsert the students, insert the subjects.
     */
    method Recompute(input: Input) returns (outcome: Outcome)
      requires DistinctSubjects(input)
      modifies this
      ensures outcome == Compute(input)
      ensures students == Rebuilt(input, old(students))
      ensures subjects == SubjectsFor(input)
    {
      outcome := ComputeAll(input);
      subjects := map[];
      ghost var before := students;
      students := map st | st in students && st in input.students :: students[st];
      UpsertStudents(input, outcome.students, before);
      var byId := IndexStats(input, outcome.stats);
      for i := 0 to |outcome.students|
        invariant students == Rebuilt(input, before)
        invariant RowsOfFirst(input, subjects, i)
      {
        ghost var rows := subjects;
        InsertLines(input, i, outcome.students[i], byId);
        RowsOfNext(input, rows, subjects, i);
      }
      RowsOfAll(input, subjects);
      SubjectsForIsThem(input);
      SubjectsDetermined(input, subjects, SubjectsFor(input));
    }
  }

  predicate FirstHold(taken: seq<Subject>, k: nat, id: nat)
    requires k <= |taken|
  {
    exists j | 0 <= j < k :: taken[j].id == id
  }

  ghost predicate RowAt(input: Input, rows: SubjectRows, st: nat, su: Subject) {
    && TakerTotals(input, su, |input.students|) != []
    && (st, su.id) in rows && rows[(st, su.id)] == SubjectRowOf(input, st, su)
  }

  /** The first k of a student's subjects have been added to the rows there were. */
  ghost predicate Inserted(input: Input, st: nat, before: SubjectRows, rows: SubjectRows, k: nat) {
    && k <= |AllTaken(input, st)|
    && (forall key :: key in rows <==> key in before || (key.0 == st && FirstHold(AllTaken(input, st), k, key.1)))
    && (forall j | 0 <= j < k :: RowAt(input, rows, st, AllTaken(input, st)[j]))
    && (forall key | key in before && key.0 != st :: rows[key] == before[key])
  }

  lemma HoldNext(taken: seq<Subject>, k: nat, id: nat)
    requires k < |taken|
    ensures FirstHold(taken, k + 1, id) <==> FirstHold(taken, k, id) || taken[k].id == id
  {
    if FirstHold(taken, k, id) {
      var j :| 0 <= j < k && taken[j].id == id;
      assert taken[j].id == id;
    }
  }

  lemma InsertNext(input: Input, st: nat, before: SubjectRows, rows: SubjectRows, k: nat)
    requires DistinctSubjects(input) && k < |AllTaken(input, st)| && Inserted(input, st, before, rows, k)
    requires TakerTotals(input, AllTaken(input, st)[k], |input.students|) != []
    ensures var su := AllTaken(input, st)[k];
      Inserted(input, st, before, rows[(st, su.id) := SubjectRowOf(input, st, su)], k + 1)
  {
    var taken := AllTaken(input, st);
    var after := rows[(st, taken[k].id) := SubjectRowOf(input, st, taken[k])];
    forall j | 0 <= j < k + 1 ensures RowAt(input, after, st, taken[j]) {
      EarlierStays(input, st, before, rows, k, j);
    }
    forall key ensures key in after <==> key in before || (key.0 == st && FirstHold(taken, k + 1, key.1)) {
      HoldNext(taken, k, key.1);
      assert key in rows <==> key in before || (key.0 == st && FirstHold(taken, k, key.1));
    }
  }

  lemma EarlierStays(input: Input, st: nat, before: SubjectRows, rows: SubjectRows, k: nat, j: nat)
    requires DistinctSubjects(input) && j <= k < |AllTaken(input, st)| && Inserted(input, st, before, rows, k)
    requires TakerTotals(input, AllTaken(input, st)[k], |input.students|) != []
    ensures var su := AllTaken(input, st)[k];
      RowAt(input, rows[(st, su.id) := SubjectRowOf(input, st, su)], st, AllTaken(input, st)[j])
  {
    hide SubjectRowOf, TakerTotals;
    TakenDistinct(input, st, |input.subjects|);
    if j < k { assert RowAt(input, rows, st, AllTaken(input, st)[j]); }
  }

  lemma FinalLine(input: Input, i: nat, k: nat, byId: map<nat, Stats>)
    requires StatsFound(input, byId) && i < |input.students| && k < |AllTaken(input, input.students[i])|
    ensures var su := AllTaken(input, input.students[i])[k];
      var entry := LineFor(input, input.students[i]).subjects[k];
      && TakerTotals(input, su, |input.students|) != []
      && entry.subject == su.id && su.id in byId
      && StoredLine(entry, byId[su.id]) == SubjectRowOf(input, input.students[i], su)
  {
    var st := input.students[i];
    var su := AllTaken(input, st)[k];
    TakenFrom(input, st, |input.subjects|);
    assert su in AllTaken(input, st);
    var at :| 0 <= at < |input.subjects| && input.subjects[at] == su;
    assert Among(input.subjects, |input.subjects|, su);
  }

  /** The subject rows of the first n students on the roster. */
  ghost predicate RowsOfFirst(input: Input, rows: SubjectRows, n: nat) {
    && n <= |input.students|
    && (forall key :: key in rows <==> key.0 in input.students[..n] && Takeable(input, key.0, key.1))
    && (forall i | 0 <= i < n :: RowsFor(input, rows, input.students[i]))
  }

  ghost predicate RowsFor(input: Input, rows: SubjectRows, st: nat) {
    forall su | su in AllTaken(input, st) :: RowAt(input, rows, st, su)
  }

  lemma TakeableIffHeld(input: Input, i: nat, id: nat)
    requires i < |input.students|
    ensures Takeable(input, input.students[i], id)
            <==> FirstHold(AllTaken(input, input.students[i]), |AllTaken(input, input.students[i])|, id)
  {
    var taken := AllTaken(input, input.students[i]);
    if FirstHold(taken, |taken|, id) {
      var j :| 0 <= j < |taken| && taken[j].id == id;
      assert taken[j] in taken;
    }
    if Takeable(input, input.students[i], id) {
      var su :| su in taken && su.id == id;
      var j :| 0 <= j < |taken| && taken[j] == su;
      assert taken[j].id == id;
    }
  }

  lemma RowsOfNext(input: Input, before: SubjectRows, after: SubjectRows, i: nat)
    requires i < |input.students| && RowsOfFirst(input, before, i)
    requires Inserted(input, input.students[i], before, after, |AllTaken(input, input.students[i])|)
    ensures RowsOfFirst(input, after, i + 1)
  {
    var st := input.students[i];
    assert input.students[..i + 1] == input.students[..i] + [st];
    forall key ensures key in after <==> key.0 in input.students[..i + 1] && Takeable(input, key.0, key.1) {
      TakeableIffHeld(input, i, key.1);
    }
    forall j | 0 <= j < i + 1 ensures RowsFor(input, after, input.students[j]) {
      RowsStay(input, before, after, i, j);
    }
  }

  lemma RowsStay(input: Input, before: SubjectRows, after: SubjectRows, i: nat, j: nat)
    requires j <= i < |input.students| && RowsOfFirst(input, before, i)
    requires Inserted(input, input.students[i], before, after, |AllTaken(input, input.students[i])|)
    ensures RowsFor(input, after, input.students[j])
  {
    var st := input.students[j];
    var taken := AllTaken(input, st);
    forall su | su in taken ensures RowAt(input, after, st, su) {
      if st == input.students[i] {
        var k :| 0 <= k < |taken| && taken[k] == su;
        assert RowAt(input, after, st, taken[k]);
      } else {
        assert RowsFor(input, before, st);
        assert RowAt(input, before, st, su);
      }
    }
  }

  lemma RowsOfAll(input: Input, rows: SubjectRows)
    requires RowsOfFirst(input, rows, |input.students|)
    ensures SubjectsOf(input, rows)
  {
    assert input.students[..|input.students|] == input.students;
    forall st: nat, su | st in input.students && su in AllTaken(input, st) ensures RowAt(input, rows, st, su) {
      var i :| 0 <= i < |input.students| && input.students[i] == st;
      assert RowsFor(input, rows, input.students[i]);
    }
  }
}
