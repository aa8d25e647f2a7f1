/**
 * One class arm's result sheet for one term, an operation at a time: what each
 * operation does when it runs alone, and what any run of them keeps.
 */
module SheetRules {
  import opened Wrappers
  import opened Sequences
  import opened Grading
  import opened ComputeResults
  import opened ResultRows
  import opened ScoreEntries

  datatype Status = DRAFT | SUBMITTED | APPROVED | PUBLISHED

  /** computed: computedAt is set. changed: scoresChangedAt is set, so the snapshot is stale. */
  datatype Sheet = Sheet(status: Status, students: StudentRows, subjects: SubjectRows, computed: bool, changed: bool)

  const NEW_SHEET := Sheet(DRAFT, map[], map[], false, false)

  datatype Db = Db(scores: seq<ScoreRow>, sheet: Option<Sheet>)

  /** What the runs hold fixed: the active roster, the offer, the scheme and the scale. */
  datatype Frame = Frame(students: seq<nat>, subjects: seq<Subject>, components: seq<Component>, bands: seq<Band>)

  /** A comment field left out of the request is None; a cleared comment is Some(None). */
  datatype Op =
    | Save(subject: nat, entries: seq<Entry>)
    | Compute
    | Submit
    | Approve
    | Publish
    | Return
    | Comment(student: nat, form: Option<Option<string>>, principal: Option<Option<string>>)

  // ---------------------------------------------------------------------------
  // The operations
  // ---------------------------------------------------------------------------

  predicate Offered(subjects: seq<Subject>, id: nat) { exists su | su in subjects :: su.id == id }

  /** The scores findMany: those of the roster in the subjects offered. */
  function ReadScores(f: Frame, scores: seq<ScoreRow>, n: nat): seq<ScoreRow>
    requires n <= |scores|
  {
    if n == 0 then []
    else
      var rest := ReadScores(f, scores, n - 1);
      if scores[n - 1].student in f.students && Offered(f.subjects, scores[n - 1].subject)
      then rest + [scores[n - 1]] else rest
  }

  function Inputs(f: Frame, scores: seq<ScoreRow>): Input {
    Input(f.students, f.subjects, f.components, ReadScores(f, scores, |scores|), f.bands)
  }

  /** save and compute create the sheet on first use. */
  predicate Creates(op: Op) { op.Save? || op.Compute? }

  function BaseOf(sheet: Option<Sheet>): Sheet { if sheet.Some? then sheet.value else NEW_SHEET }

  /** What is checked of a request before its transaction begins. */
  predicate WellAsked(f: Frame, op: Op) {
    op.Save? ==>
      f.components != [] && Offered(f.subjects, op.subject) && Accepted(f.students, f.components, op.entries)
  }

  /** The status check under the lock. */
  predicate Allowed(op: Op, status: Status) {
    match op
    case Save(_, _) => status == DRAFT
    case Compute => status == DRAFT
    case Submit => status == DRAFT
    case Approve => status == SUBMITTED
    case Publish => status == APPROVED
    case Return => status != DRAFT
    case Comment(_, form, principal) =>
      (form.Some? ==> status == DRAFT || status == SUBMITTED) && (principal.Some? ==> status != PUBLISHED)
  }

  predicate Recomputes(op: Op) { op.Compute? || op.Submit? }

  ghost function Recomputed(input: Input, sheet: Sheet): Sheet {
    sheet.(students := Rebuilt(input, sheet.students), subjects := SubjectsFor(input), computed := true,
           changed := false)
  }

  function Commented(row: StudentRow, form: Option<Option<string>>, principal: Option<Option<string>>): StudentRow {
    row.(formComment := if form.Some? then form.value else row.formComment,
         principalComment := if principal.Some? then principal.value else row.principalComment)
  }

  /** The sheet an allowed operation leaves, from the scores it reads; None is a refusal. */
  ghost function Effect(f: Frame, op: Op, scores: seq<ScoreRow>, sheet: Sheet): Option<Sheet> {
    match op
    case Save(_, _) => Some(sheet.(changed := true))
    case Compute =>
      if f.components == [] || f.bands == [] then None else Some(Recomputed(Inputs(f, scores), sheet))
    case Submit =>
      var outcome := ComputeResults.Compute(Inputs(f, scores));
      if f.components == [] || f.bands == [] || outcome.students == [] || outcome.missing != [] then None
      else Some(Recomputed(Inputs(f, scores), sheet).(status := SUBMITTED))
    case Approve => Some(sheet.(status := APPROVED))
    case Publish => Some(sheet.(status := PUBLISHED))
    case Return => Some(sheet.(status := DRAFT))
    case Comment(st, form, principal) =>
      if st !in sheet.students then None
      else Some(sheet.(students := sheet.students[st := Commented(sheet.students[st], form, principal)]))
  }

  function ScoresAfter(op: Op, scores: seq<ScoreRow>): seq<ScoreRow> {
    if op.Save? then Saved(scores, op.subject, op.entries, |op.entries|) else scores
  }

  /** One operation, run alone. */
  ghost function Perform(f: Frame, db: Db, op: Op): Option<Db> {
    if !WellAsked(f, op) || (db.sheet == None && !Creates(op)) || !Allowed(op, BaseOf(db.sheet).status) then None
    else
      match Effect(f, op, db.scores, BaseOf(db.sheet))
      case None => None
      case Some(sheet) => Some(Db(ScoresAfter(op, db.scores), Some(sheet)))
  }

  const EMPTY := Db([], None)

  /** The first n operations one after another; None when one of them is refused. */
  ghost function Replay(f: Frame, ops: seq<Op>, n: nat): Option<Db>
    requires n <= |ops|
  {
    if n == 0 then Some(EMPTY)
    else match Replay(f, ops, n - 1)
      case None => None
      case Some(db) => Perform(f, db, ops[n - 1])
  }

  lemma {:induction false} ReplayAgrees(f: Frame, a: seq<Op>, b: seq<Op>, n: nat)
    requires n <= |a| && n <= |b| && a[..n] == b[..n]
    ensures Replay(f, a, n) == Replay(f, b, n)
  {
    if n > 0 {
      assert a[n - 1] == a[..n][n - 1] == b[n - 1];
      assert a[..n - 1] == a[..n][..n - 1] == b[..n - 1];
      ReplayAgrees(f, a, b, n - 1);
    }
  }

  lemma ReplayAppend(f: Frame, ops: seq<Op>, op: Op)
    ensures Replay(f, ops + [op], |ops| + 1)
            == match Replay(f, ops, |ops|) case None => None case Some(db) => Perform(f, db, op)
  {
    ReplayAgrees(f, ops + [op], ops, |ops|);
  }

  lemma {:induction false} PrefixReplays(f: Frame, ops: seq<Op>, n: nat, m: nat)
    requires n <= m <= |ops| && Replay(f, ops, m).Some?
    ensures Replay(f, ops, n).Some?
  {
    if n < m { PrefixReplays(f, ops, n, m - 1); }
  }

  // ---------------------------------------------------------------------------
  // The snapshot is the scores
  // ---------------------------------------------------------------------------

  /** The stored rows are those of the computation on these scores, one per student and per subject taken. */
  ghost predicate Mirrors(f: Frame, scores: seq<ScoreRow>, sheet: Sheet) {
    && sheet.students == Rebuilt(Inputs(f, scores), sheet.students)
    && SubjectsOf(Inputs(f, scores), sheet.subjects)
  }

  ghost predicate DistinctOffer(f: Frame) {
    forall i, j | 0 <= i < j < |f.subjects| :: f.subjects[i].id != f.subjects[j].id
  }

  /**
   * A sheet that has left DRAFT mirrors the scores, with students on it and no score
   * missing; one that is computed and not marked stale mirrors them too.
   */
  ghost predicate Sound(f: Frame, db: Db) {
    db.sheet.Some? ==>
      var sheet := db.sheet.value;
      && (sheet.computed && !sheet.changed ==> Mirrors(f, db.scores, sheet))
      && (sheet.status != DRAFT ==>
            && sheet.computed && !sheet.changed && f.students != []
            && ComputeResults.Compute(Inputs(f, db.scores)).missing == [])
  }

  lemma RecomputedMirrors(f: Frame, scores: seq<ScoreRow>, sheet: Sheet)
    requires DistinctOffer(f)
    ensures Mirrors(f, scores, Recomputed(Inputs(f, scores), sheet))
  {
    SubjectsForIsThem(Inputs(f, scores));
  }

  lemma CommentMirrors(f: Frame, scores: seq<ScoreRow>, sheet: Sheet, st: nat, row: StudentRow)
    requires Mirrors(f, scores, sheet) && st in sheet.students
    requires row == sheet.students[st].(formComment := row.formComment, principalComment := row.principalComment)
    ensures Mirrors(f, scores, sheet.(students := sheet.students[st := row]))
  {
    var rows := sheet.students[st := row];
    var input := Inputs(f, scores);
    assert sheet.students.Keys == rows.Keys;
    forall k | k in rows ensures k in Rebuilt(input, rows) && Rebuilt(input, rows)[k] == rows[k] {
      assert k in sheet.students && sheet.students[k] == RowOf(LineFor(input, k), sheet.students);
    }
    assert Rebuilt(input, rows).Keys == Rebuilt(input, sheet.students).Keys;
  }

  lemma PerformKeepsSound(f: Frame, db: Db, op: Op)
    requires DistinctOffer(f) && Sound(f, db) && Perform(f, db, op).Some?
    ensures Sound(f, Perform(f, db, op).value)
  {
    var base := BaseOf(db.sheet);
    if Recomputes(op) {
      RecomputedMirrors(f, db.scores, base);
      assert op.Submit? ==> |Lines(Inputs(f, db.scores))| == |f.students|;
      var sheet := Recomputed(Inputs(f, db.scores), base);
      assert sheet.(status := SUBMITTED).students == sheet.students;
    } else if op.Comment? && base.computed && !base.changed {
      CommentMirrors(f, db.scores, base, op.student, Commented(base.students[op.student], op.form, op.principal));
    }
  }

  lemma {:induction false} ReplayIsSound(f: Frame, ops: seq<Op>, n: nat)
    requires DistinctOffer(f) && n <= |ops| && Replay(f, ops, n).Some?
    ensures Sound(f, Replay(f, ops, n).value)
  {
    if n > 0 {
      ReplayIsSound(f, ops, n - 1);
      PerformKeepsSound(f, Replay(f, ops, n - 1).value, ops[n - 1]);
    }
  }

  // ---------------------------------------------------------------------------
  // Frozen until returned
  // ---------------------------------------------------------------------------

  function Rank(status: Status): nat {
    match status case DRAFT => 0 case SUBMITTED => 1 case APPROVED => 2 case PUBLISHED => 3
  }

  /** The rows agree in everything but the comments. */
  ghost predicate SameNumbers(a: StudentRows, b: StudentRows) {
    && a.Keys == b.Keys
    && forall st | st in a ::
         b[st] == a[st].(formComment := b[st].formComment, principalComment := b[st].principalComment)
  }

  ghost predicate SameFormComments(a: StudentRows, b: StudentRows) {
    forall st | st in a && st in b :: b[st].formComment == a[st].formComment
  }

  ghost predicate SamePrincipalComments(a: StudentRows, b: StudentRows) {
    forall st | st in a && st in b :: b[st].principalComment == a[st].principalComment
  }

  /** From a sheet out of draft to a later one, with no return between. */
  ghost predicate Frozen(a: Db, b: Db) {
    && a.sheet.Some? && b.sheet.Some? && a.scores == b.scores
    && var x, y := a.sheet.value, b.sheet.value;
       && Rank(x.status) <= Rank(y.status)
       && SameNumbers(x.students, y.students) && x.subjects == y.subjects
       && (Rank(x.status) >= Rank(APPROVED) ==> SameFormComments(x.students, y.students))
       && (x.status == PUBLISHED ==> SamePrincipalComments(x.students, y.students))
  }

  lemma PerformFreezes(f: Frame, db: Db, op: Op)
    requires db.sheet.Some? && db.sheet.value.status != DRAFT && !op.Return? && Perform(f, db, op).Some?
    ensures Frozen(db, Perform(f, db, op).value)
    ensures Perform(f, db, op).value.sheet.value.status != DRAFT
  {
  }

  /**
   * While no return is committed, nothing that was submitted moves: scores, numbers and
   * subject rows stay, the status only advances, the form teacher's comments are fixed
   * from APPROVED and the principal's from PUBLISHED.
   */
  lemma {:induction false} FrozenUntilReturned(f: Frame, ops: seq<Op>, n: nat, m: nat)
    requires n <= m <= |ops| && Replay(f, ops, m).Some? && Replay(f, ops, n).Some?
    requires Replay(f, ops, n).value.sheet.Some? && Replay(f, ops, n).value.sheet.value.status != DRAFT
    requires forall k | n <= k < m :: !ops[k].Return?
    ensures Frozen(Replay(f, ops, n).value, Replay(f, ops, m).value)
    ensures Replay(f, ops, m).value.sheet.value.status != DRAFT
  {
    if n < m {
      FrozenUntilReturned(f, ops, n, m - 1);
      PerformFreezes(f, Replay(f, ops, m - 1).value, ops[m - 1]);
      FrozenChains(Replay(f, ops, n).value, Replay(f, ops, m - 1).value, Replay(f, ops, m).value);
    }
  }

  lemma FrozenChains(a: Db, b: Db, c: Db)
    requires Frozen(a, b) && Frozen(b, c)
    ensures Frozen(a, c)
  {
    var x, y, z := a.sheet.value.students, b.sheet.value.students, c.sheet.value.students;
    assert forall st | st in x :: st in y && st in z;
  }

  // ---------------------------------------------------------------------------
  // Comments survive
  // ---------------------------------------------------------------------------

  ghost predicate KeepsComments(f: Frame, a: Db, b: Db) {
    a.sheet.Some? ==>
      && b.sheet.Some?
      && forall st | st in f.students && st in a.sheet.value.students ::
           && st in b.sheet.value.students
           && b.sheet.value.students[st].formComment == a.sheet.value.students[st].formComment
           && b.sheet.value.students[st].principalComment == a.sheet.value.students[st].principalComment
  }

  lemma PerformKeepsComments(f: Frame, db: Db, op: Op)
    requires !op.Comment? && Perform(f, db, op).Some?
    ensures KeepsComments(f, db, Perform(f, db, op).value)
  {
  }

  /** However often the sheet is recomputed, submitted or returned, only comment changes a comment. */
  lemma {:induction false} CommentsSurvive(f: Frame, ops: seq<Op>, n: nat, m: nat)
    requires n <= m <= |ops| && Replay(f, ops, m).Some? && Replay(f, ops, n).Some?
    requires forall k | n <= k < m :: !ops[k].Comment?
    ensures KeepsComments(f, Replay(f, ops, n).value, Replay(f, ops, m).value)
  {
    hide Perform;
    if n < m {
      CommentsSurvive(f, ops, n, m - 1);
      PerformKeepsComments(f, Replay(f, ops, m - 1).value, ops[m - 1]);
    }
  }
}
