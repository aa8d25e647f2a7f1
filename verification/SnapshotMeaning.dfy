/**
 * What a rebuilt result sheet stores: the figures of the computed lines and statistics, row
 * by row, computed from the cells of the class.
 */
module SnapshotMeaning {
  import opened Wrappers
  import opened Sequences
  import opened Grading
  import opened ComputeResults
  import opened ResultLaws
  import opened ResultMeaning
  import opened ResultRows
  import opened ScoreEntries
  import SheetRules

  /** One row for each line: its figures, and the comments there were. */
  ghost predicate StudentRowsSay(out: Outcome, prior: StudentRows, rows: StudentRows) {
    && (forall st :: st in rows <==> exists i :: 0 <= i < |out.students| && out.students[i].student == st)
    && forall i | 0 <= i < |out.students| ::
         var line := out.students[i];
         && line.student in rows
         && var row := rows[line.student];
            && row.total == line.total && row.average == line.average && row.position == line.position
            && row.count == |line.subjects|
            && row.formComment == (if line.student in prior then prior[line.student].formComment else None)
            && row.principalComment == (if line.student in prior then prior[line.student].principalComment else None)
  }

  /** The row holds the line's figures, and the class's in that subject. */
  ghost predicate SubjectRowSays(line: SubjectLine, stat: Stats, row: SubjectRow) {
    && row.total == line.total && row.grade == line.grade && row.position == line.position && row.parts == line.parts
    && row.highest == stat.highest && row.lowest == stat.lowest && row.average == stat.average
  }

  /** The k-th line of the i-th student is for this key. */
  ghost predicate LineAtKey(out: Outcome, i: nat, k: nat, key: (nat, nat)) {
    && i < |out.students| && k < |out.students[i].subjects|
    && key == (out.students[i].student, out.students[i].subjects[k].subject)
  }

  ghost predicate SubjectRowsSay(out: Outcome, rows: SubjectRows) {
    && (forall key :: key in rows <==> exists i: nat, k: nat :: LineAtKey(out, i, k, key))
    && forall i: nat, k: nat, key | LineAtKey(out, i, k, key) ::
         && key in rows
         && exists s :: s in out.stats && s.subject == key.1 && SubjectRowSays(out.students[i].subjects[k], s, rows[key])
  }

  lemma StudentRowsAreSaid(input: Input, prior: StudentRows)
    ensures StudentRowsSay(Compute(input), prior, Rebuilt(input, prior))
  {
    hide LineFor, AllStats, AllMissing, Ranked;
    var lines, rows := Lines(input), Rebuilt(input, prior);
    forall i | 0 <= i < |lines| ensures lines[i].student == input.students[i] { LineStudent(input, input.students[i]); }
    forall st ensures st in rows <==> exists i :: 0 <= i < |lines| && lines[i].student == st {
      if st in input.students {
        var i :| 0 <= i < |input.students| && input.students[i] == st;
        assert lines[i].student == st;
      }
    }
  }

  lemma LineStored(input: Input, i: nat, k: nat)
    requires DistinctSubjects(input) && i < |input.students| && k < |LineFor(input, input.students[i]).subjects|
    ensures var line := LineFor(input, input.students[i]).subjects[k];
      var key := (input.students[i], line.subject);
      && key in SubjectsFor(input)
      && exists s :: s in AllStats(input, |input.subjects|) && s.subject == line.subject
                     && SubjectRowSays(line, s, SubjectsFor(input)[key])
  {
    hide LineFor, SubjectPlace, TakerTotals, SubjectsFor, StatsOf, LineOn;
    var st := input.students[i];
    LineLength(input, st);
    LineOfTaken(input, st, k);
    var su := AllTaken(input, st)[k];
    assert su in AllTaken(input, st);
    LineOnSubject(input, st, su, SubjectPlace(input, st, su));
    SubjectsForIsThem(input);
    assert RowAt(input, SubjectsFor(input), st, su);
    var totals := TakerTotals(input, su, |input.students|);
    var a :| 0 <= a < |input.subjects| && input.subjects[a] == su;
    StatsPresent(input, |input.subjects|, a);
    ResultMeaning.StatsSubject(su.id, totals);
    assert SubjectRowSays(LineOn(input, st, su, SubjectPlace(input, st, su)), StatsOf(su.id, totals), SubjectRowOf(input, st, su));
  }

  lemma LineOfRow(input: Input, key: (nat, nat)) returns (i: nat, k: nat)
    requires Takeable(input, key.0, key.1)
    ensures LineAtKey(Compute(input), i, k, key)
  {
    hide AllStats, AllMissing, Ranked, LineOn, LineFor, AllTaken;
    i :| 0 <= i < |input.students| && input.students[i] == key.0;
    var su :| su in AllTaken(input, key.0) && su.id == key.1;
    k :| 0 <= k < |AllTaken(input, key.0)| && AllTaken(input, key.0)[k] == su;
    LineStudent(input, key.0);
    LineLength(input, key.0);
    LineOfTaken(input, key.0, k);
    LineOnSubject(input, key.0, su, SubjectPlace(input, key.0, su));
  }

  lemma SubjectRowsAreSaid(input: Input)
    requires DistinctSubjects(input)
    ensures SubjectRowsSay(Compute(input), SubjectsFor(input))
  {
    hide LineFor, AllStats, AllMissing, Ranked, SubjectsFor, SubjectRowSays, LineOn, AllTaken;
    var out, rows := Compute(input), SubjectsFor(input);
    SubjectsForIsThem(input);
    forall i | 0 <= i < |input.students| ensures out.students[i].student == input.students[i] {
      LineStudent(input, input.students[i]);
    }
    forall i: nat, k: nat, key | LineAtKey(out, i, k, key)
      ensures key in rows
        && exists s :: s in out.stats && s.subject == key.1 && SubjectRowSays(out.students[i].subjects[k], s, rows[key])
    {
      LineStored(input, i, k);
    }
    forall key | key in rows ensures exists i: nat, k: nat :: LineAtKey(out, i, k, key) {
      assert Takeable(input, key.0, key.1);
      var i, k := LineOfRow(input, key);
    }
  }

  /** Rebuilding stores the computed figures, every line once, and keeps the comments of those still in the class. */
  lemma SnapshotSays(input: Input, prior: StudentRows)
    requires DistinctSubjects(input)
    ensures StudentRowsSay(Compute(input), prior, Rebuilt(input, prior))
    ensures SubjectRowsSay(Compute(input), SubjectsFor(input))
  {
    StudentRowsAreSaid(input, prior);
    SubjectRowsAreSaid(input);
  }

  /** The scores read for a class are the rows of its students in the subjects offered, and no other. */
  lemma {:induction false} ReadsExactly(f: SheetRules.Frame, scores: seq<ScoreRow>, n: nat, row: ScoreRow)
    requires n <= |scores|
    ensures row in SheetRules.ReadScores(f, scores, n) <==>
      row in scores[..n] && row.student in f.students && exists su :: su in f.subjects && su.id == row.subject
  {
    if n > 0 {
      ReadsExactly(f, scores, n - 1, row);
      assert scores[..n] == scores[..n - 1] + [scores[n - 1]];
    }
  }

  /** Each cell of the class reads as it is stored. */
  lemma {:induction false} CellsRead(f: SheetRules.Frame, scores: seq<ScoreRow>, n: nat, st: nat, su: Subject, c: nat)
    requires n <= |scores| && st in f.students && su in f.subjects
    ensures Held(SheetRules.ReadScores(f, scores, n), st, su.id, c) == ScoreOf(scores, n, st, su.id, c)
  {
    if n > 0 {
      CellsRead(f, scores, n - 1, st, su, c);
      HeldAppend(SheetRules.ReadScores(f, scores, n - 1), scores[n - 1], (st, su.id, c));
    }
  }
}
