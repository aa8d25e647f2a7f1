/**
 * The score and sheet tables as the services update them: each statement changes the
 * store in place, and each is proved to be the step of the protocol it stands for. A
 * request is then put together from those statements and proved to be its rule.
 */
module SheetStore {
  import opened Wrappers
  import opened ComputeResults
  import opened ResultRows
  import opened ScoreEntries
  import opened SheetRules
  import opened SheetProtocol

  class SheetTables {
    var scores: seq<ScoreRow>
    var sheet: Option<Sheet>
    var lock: Option<nat>
    var txs: seq<Tx>
    ghost var log: seq<Op>

    ghost function View(): State
      reads this
    {
      State(Db(scores, sheet), lock, txs, log)
    }

    constructor ()
      ensures View() == START
    {
      scores, sheet, lock, txs, log := [], None, None, [], [];
    }

    /** The checks before the transaction, and the upsert that creates the sheet. */
    method OpenSheet(f: Frame, tid: nat)
      requires tid < |txs| && txs[tid].pc.Begin?
      modifies this`txs, this`lock
      ensures View() == StepBegin(f, old(View()), tid)
    {
      var op := txs[tid].op;
      if !WellAsked(f, op) || (sheet == None && !Creates(op)) {
        txs := txs[tid := txs[tid].(pc := Failed)];
      } else if sheet.Some? {
        txs := txs[tid := txs[tid].(pc := Armed)];
      } else if lock == None {
        lock := Some(tid);
        txs := txs[tid := txs[tid].(pc := Locked)];
      }
    }

    method Rollback(tid: nat)
      requires tid < |txs|
      modifies this`txs, this`lock
      ensures View() == Aborted(old(View()), tid)
    {
      if Holds(txs[tid].pc) { lock := None; }
      txs := txs[tid := txs[tid].(pc := Failed)];
    }

    /** lockRow: waits while another transaction holds the sheet. */
    method LockSheet(tid: nat)
      requires tid < |txs| && txs[tid].pc.Armed?
      modifies this`txs, this`lock
      ensures View() == StepLock(old(View()), tid)
    {
      if sheet == None {
        txs := txs[tid := txs[tid].(pc := Failed)];
      } else if lock == None {
        lock := Some(tid);
        txs := txs[tid := txs[tid].(pc := Locked)];
      }
    }

    /** lockDraft, transition and their kind: the status read again under the lock decides. */
    method CheckStatus(tid: nat)
      requires tid < |txs| && txs[tid].pc.Locked?
      modifies this`txs, this`lock
      ensures View() == StepLocked(old(View()), tid)
    {
      var current := BaseOf(sheet);
      if Allowed(txs[tid].op, current.status) {
        txs := txs[tid := txs[tid].(pc := Checked(current))];
      } else {
        Rollback(tid);
      }
    }

    /** The scores as they are committed when a recomputation reads them. */
    method LoadScores(f: Frame, tid: nat)
      requires tid < |txs| && txs[tid].pc.Checked? && Recomputes(txs[tid].op)
      modifies this`txs
      ensures View() == StepChecked(f, old(View()), tid)
    {
      txs := txs[tid := txs[tid].(pc := Loaded(txs[tid].pc.sheet, scores))];
    }

    /** A save marks the snapshot out of date. */
    method MarkChanged(f: Frame, tid: nat)
      requires tid < |txs| && txs[tid].pc.Checked? && txs[tid].op.Save?
      modifies this`txs
      ensures View() == StepChecked(f, old(View()), tid)
    {
      txs := txs[tid := txs[tid].(pc := Ready(txs[tid].pc.sheet.(changed := true)))];
    }

    /** inputs: the scores of the roster in the subjects offered. */
    method ReadInputs(f: Frame, read: seq<ScoreRow>) returns (input: Input)
      ensures input == Inputs(f, read)
    {
      var rows: seq<ScoreRow> := [];
      for i := 0 to |read|
        invariant rows == SheetRules.ReadScores(f, read, i)
      {
        var offered := false;
        for k := 0 to |f.subjects|
          invariant offered <==> exists j :: 0 <= j < k && f.subjects[j].id == read[i].subject
        {
          if f.subjects[k].id == read[i].subject { offered := true; }
        }
        assert offered <==> Offered(f.subjects, read[i].subject) by {
          if Offered(f.subjects, read[i].subject) {
            var su :| su in f.subjects && su.id == read[i].subject;
            var j :| 0 <= j < |f.subjects| && f.subjects[j] == su;
            assert f.subjects[j].id == read[i].subject;
          }
        }
        if offered && read[i].student in f.students { rows := rows + [read[i]]; }
      }
      input := Input(f.students, f.subjects, f.components, rows, f.bands);
    }

    /** recompute, and for submit the checks on its outcome. */
    method RecomputeSheet(f: Frame, tid: nat)
      requires DistinctOffer(f)
      requires tid < |txs| && txs[tid].pc.Loaded? && Recomputes(txs[tid].op)
      modifies this`txs, this`lock
      ensures View() == StepLoaded(f, old(View()), tid)
    {
      var Tx(op, Loaded(current, read)) := txs[tid];
      var input := ReadInputs(f, read);
      if f.components == [] || f.bands == [] {
        Rollback(tid);
      } else {
        var rows := new SnapshotStore(current.students, current.subjects);
        var outcome := rows.Recompute(input);
        var next := current.(students := rows.students, subjects := rows.subjects, computed := true, changed := false);
        if op.Submit? && (outcome.students == [] || outcome.missing != []) {
          Rollback(tid);
        } else {
          if op.Submit? { next := next.(status := SUBMITTED); }
          txs := txs[tid := txs[tid].(pc := Ready(next))];
        }
      }
    }

    /** approve, publish and return. */
    method MoveStatus(f: Frame, tid: nat)
      requires tid < |txs| && txs[tid].pc.Checked?
      requires txs[tid].op.Approve? || txs[tid].op.Publish? || txs[tid].op.Return?
      modifies this`txs
      ensures View() == StepChecked(f, old(View()), tid)
    {
      var Tx(op, Checked(current)) := txs[tid];
      var status := if op.Approve? then APPROVED else if op.Publish? then PUBLISHED else DRAFT;
      txs := txs[tid := txs[tid].(pc := Ready(current.(status := status)))];
    }

    /** The comment update touches the student's row, or refuses when there is none. */
    method WriteComment(f: Frame, tid: nat)
      requires tid < |txs| && txs[tid].pc.Checked? && txs[tid].op.Comment?
      modifies this`txs, this`lock
      ensures View() == StepChecked(f, old(View()), tid)
    {
      var Tx(Comment(st, form, principal), Checked(current)) := txs[tid];
      var count := 0;
      var rows := current.students;
      if st in rows {
        if form.Some? { rows := rows[st := rows[st].(formComment := form.value)]; }
        if principal.Some? { rows := rows[st := rows[st].(principalComment := principal.value)]; }
        count := 1;
      }
      if count == 0 {
        Rollback(tid);
      } else {
        assert rows == current.students[st := Commented(current.students[st], form, principal)];
        txs := txs[tid := txs[tid].(pc := Ready(current.(students := rows)))];
      }
    }

    /** Deletes one cell. */
    method ClearCell(st: nat, su: nat, c: nat)
      modifies this`scores
      ensures scores == Cleared(old(scores), |old(scores)|, st, su, c)
    {
      var kept: seq<ScoreRow> := [];
      for i := 0 to |scores|
        invariant scores == old(scores) && kept == Cleared(scores, i, st, su, c)
      {
        if !Cell(scores[i], st, su, c) { kept := kept + [scores[i]]; }
      }
      scores := kept;
    }

    /** The loop over the entries: a null score deletes the cell, any other is upserted. */
    method SaveCells(su: nat, entries: seq<Entry>)
      modifies this`scores
      ensures scores == Saved(old(scores), su, entries, |entries|)
    {
      for i := 0 to |entries|
        invariant scores == Saved(old(scores), su, entries, i)
      {
        var entry := entries[i];
        ClearCell(entry.student, su, entry.component);
        if entry.score.Some? {
          scores := scores + [ScoreRow(entry.student, su, entry.component, entry.score.value)];
        }
      }
    }

    method Commit(tid: nat)
      requires tid < |txs| && txs[tid].pc.Ready?
      modifies this
      ensures View() == StepCommit(old(View()), tid)
    {
      var Tx(op, Ready(next)) := txs[tid];
      if op.Save? { SaveCells(op.subject, op.entries); }
      sheet := Some(next);
      lock := None;
      log := log + [op];
      txs := txs[tid := txs[tid].(pc := Done)];
    }

    // -------------------------------------------------------------------------
    // Whole requests, with nobody else holding the sheet
    // -------------------------------------------------------------------------

    /** From the request to the status check: the sheet is held, or the request is refused. */
    method Enter(f: Frame, op: Op) returns (tid: nat)
      requires Inv(f, View()) && lock == None
      modifies this
      ensures Inv(f, View()) && View().db == old(View().db) && log == old(log)
      ensures tid < |txs| && txs[tid].op == op
      ensures if txs[tid].pc.Checked? then lock == Some(tid)
              else txs[tid].pc.Failed? && lock == None && Perform(f, View().db, op) == None
    {
      hide Replay, Effect;
      ghost var v := View();
      tid := |txs|;
      txs := txs + [Tx(op, Begin)];
      StartKeeps(f, v, op);
      v := View();
      OpenSheet(f, tid);
      StepKeeps(f, v, tid);
      if txs[tid].pc.Armed? {
        v := View();
        LockSheet(tid);
        StepKeeps(f, v, tid);
      }
      if txs[tid].pc.Locked? {
        v := View();
        CheckStatus(tid);
        StepKeeps(f, v, tid);
      }
    }

    /** What the operation does to the sheet it holds. */
    method Decide(f: Frame, tid: nat)
      requires DistinctOffer(f)
      requires Inv(f, View()) && tid < |txs| && txs[tid].pc.Checked? && lock == Some(tid)
      modifies this`txs, this`lock
      ensures Inv(f, View()) && View().db == old(View().db) && log == old(log)
      ensures tid < |txs| && txs[tid].op == old(txs[tid].op)
      ensures if txs[tid].pc.Ready? then lock == Some(tid)
              else lock == None && Perform(f, View().db, txs[tid].op) == None
    {
      hide Replay, Effect;
      ghost var v := View();
      var op := txs[tid].op;
      assert TxOk(f, v.db, op, v.txs[tid].pc);
      if Recomputes(op) {
        LoadScores(f, tid);
        StepKeeps(f, v, tid);
        v := View();
        RecomputeSheet(f, tid);
      } else {
        EffectReads(f, op, [], scores, txs[tid].pc.sheet);
        if op.Save? { MarkChanged(f, tid); }
        else if op.Comment? { WriteComment(f, tid); }
        else { MoveStatus(f, tid); }
      }
      StepKeeps(f, v, tid);
    }

    /** One request from its start to its commit is the operation of the rules. */
    method Operate(f: Frame, op: Op) returns (done: bool)
      requires DistinctOffer(f) && Inv(f, View()) && lock == None
      modifies this
      ensures Inv(f, View()) && lock == None
      ensures Perform(f, old(View().db), op) == if done then Some(View().db) else None
      ensures !done ==> View().db == old(View().db)
      ensures log == old(log) + if done then [op] else []
    {
      hide Replay, Effect, Perform;
      var tid := Enter(f, op);
      if txs[tid].pc.Checked? { Decide(f, tid); }
      done := txs[tid].pc.Ready?;
      if done {
        ghost var v := View();
        assert TxOk(f, v.db, op, v.txs[tid].pc);
        Commit(tid);
        StepKeeps(f, v, tid);
      }
    }

    /**
     * submit: a draft whose class is complete becomes SUBMITTED with the rows of its
     * scores and the comments it had; anything else changes nothing.
     */
    method SubmitSheet(f: Frame) returns (done: bool)
      requires DistinctOffer(f) && Inv(f, View()) && lock == None
      modifies this
      ensures Inv(f, View()) && lock == None
      ensures done <==> MaySubmit(f, old(View().db))
      ensures done ==>
        && sheet.Some? && sheet.value.status == SUBMITTED && scores == old(scores)
        && Mirrors(f, scores, sheet.value) && KeepsComments(f, old(View().db), View().db)
      ensures !done ==> View().db == old(View().db)
    {
      ghost var s := View();
      SubmitIffComplete(f, s.db);
      done := Operate(f, Submit);
      if done {
        PerformKeepsComments(f, s.db, Submit);
        RecomputedMirrors(f, s.db.scores, s.db.sheet.value);
      }
    }

    /** approve: a submitted sheet becomes APPROVED as it stands. */
    method ApproveSheet(f: Frame) returns (done: bool)
      requires DistinctOffer(f) && Inv(f, View()) && lock == None
      modifies this
      ensures Inv(f, View()) && lock == None && scores == old(scores)
      ensures done <==> old(sheet).Some? && old(sheet).value.status == SUBMITTED
      ensures sheet == if done then Some(old(sheet).value.(status := APPROVED)) else old(sheet)
    {
      done := Operate(f, Approve);
    }

    /** publish: an approved sheet becomes PUBLISHED as it stands. */
    method PublishSheet(f: Frame) returns (done: bool)
      requires DistinctOffer(f) && Inv(f, View()) && lock == None
      modifies this
      ensures Inv(f, View()) && lock == None && scores == old(scores)
      ensures done <==> old(sheet).Some? && old(sheet).value.status == APPROVED
      ensures sheet == if done then Some(old(sheet).value.(status := PUBLISHED)) else old(sheet)
    {
      done := Operate(f, Publish);
    }

    /** returnToDraft: any sheet that is not a draft, a published one included, is a draft again as it stands. */
    method ReturnSheet(f: Frame) returns (done: bool)
      requires DistinctOffer(f) && Inv(f, View()) && lock == None
      modifies this
      ensures Inv(f, View()) && lock == None && scores == old(scores)
      ensures done <==> old(sheet).Some? && old(sheet).value.status != DRAFT
      ensures sheet == if done then Some(old(sheet).value.(status := DRAFT)) else old(sheet)
    {
      done := Operate(f, Return);
    }

    /**
     * comment: the comments given are stored in the student's row, and nothing else changes.
     * The form teacher's is open until the sheet is approved, the principal's until it is
     * published, and there has to be a row.
     */
    method CommentOn(f: Frame, student: nat, form: Option<Option<string>>, principal: Option<Option<string>>)
      returns (done: bool)
      requires DistinctOffer(f) && Inv(f, View()) && lock == None
      modifies this
      ensures Inv(f, View()) && lock == None && scores == old(scores)
      ensures done <==>
        && old(sheet).Some? && student in old(sheet).value.students
        && (form.Some? ==> old(sheet).value.status == DRAFT || old(sheet).value.status == SUBMITTED)
        && (principal.Some? ==> old(sheet).value.status != PUBLISHED)
      ensures !done ==> sheet == old(sheet)
      ensures done ==>
        && sheet.Some? && sheet.value == old(sheet).value.(students := sheet.value.students)
        && sheet.value.students.Keys == old(sheet).value.students.Keys
        && (forall st | st in sheet.value.students && st != student ::
              sheet.value.students[st] == old(sheet).value.students[st])
        && var was, row := old(sheet).value.students[student], sheet.value.students[student];
           && row == was.(formComment := row.formComment, principalComment := row.principalComment)
           && row.formComment == (if form.Some? then form.value else was.formComment)
           && row.principalComment == (if principal.Some? then principal.value else was.principalComment)
    {
      done := Operate(f, Comment(student, form, principal));
    }

    /**
     * save: into a draft, or a sheet created for it, an acceptable batch puts each score in
     * its cell, clears the cells it says to, leaves every other cell, and marks the sheet changed.
     */
    method SaveScores(f: Frame, subject: nat, entries: seq<Entry>) returns (done: bool)
      requires DistinctOffer(f) && Inv(f, View()) && lock == None
      modifies this
      ensures Inv(f, View()) && lock == None
      ensures done <==>
        && f.components != [] && (exists su :: su in f.subjects && su.id == subject)
        && Accepted(f.students, f.components, entries)
        && (old(sheet).Some? ==> old(sheet).value.status == DRAFT)
      ensures !done ==> sheet == old(sheet) && scores == old(scores)
      ensures done ==>
        && sheet == Some((if old(sheet).Some? then old(sheet).value else Sheet(DRAFT, map[], map[], false, false)).(changed := true))
        && (forall e | e in entries :: Held(scores, e.student, subject, e.component) == e.score)
        && (forall st, su, c | su != subject || forall e | e in entries :: e.student != st || e.component != c ::
              Held(scores, st, su, c) == Held(old(scores), st, su, c))
    {
      done := Operate(f, Save(subject, entries));
      if done { SavedExactly(f, old(scores), subject, entries); }
    }

    /** compute: a draft, or a sheet created for it, gets the rows of its scores and keeps its comments. */
    method ComputeSheet(f: Frame) returns (done: bool)
      requires DistinctOffer(f) && Inv(f, View()) && lock == None
      modifies this
      ensures Inv(f, View()) && lock == None && scores == old(scores)
      ensures done <==> f.components != [] && f.bands != [] && (old(sheet).Some? ==> old(sheet).value.status == DRAFT)
      ensures !done ==> sheet == old(sheet)
      ensures done ==>
        && sheet.Some? && sheet.value.status == DRAFT && sheet.value.computed && !sheet.value.changed
        && Mirrors(f, scores, sheet.value) && KeepsComments(f, old(View().db), View().db)
    {
      ghost var s := View();
      done := Operate(f, SheetRules.Compute);
      if done {
        PerformKeepsComments(f, s.db, SheetRules.Compute);
        RecomputedMirrors(f, s.db.scores, BaseOf(s.db.sheet));
      }
    }
  }

  /** What an accepted batch leaves in the cells. */
  lemma SavedExactly(f: Frame, before: seq<ScoreRow>, subject: nat, entries: seq<Entry>)
    requires Accepted(f.students, f.components, entries)
    ensures var after := Saved(before, subject, entries, |entries|);
      && (forall e | e in entries :: Held(after, e.student, subject, e.component) == e.score)
      && (forall st, su, c | su != subject || forall e | e in entries :: e.student != st || e.component != c ::
            Held(after, st, su, c) == Held(before, st, su, c))
  {
    var after := Saved(before, subject, entries, |entries|);
    forall i | 0 <= i < |entries| ensures !Repeats(entries, i) { assert Good(f.students, f.components, entries, i); }
    forall e | e in entries ensures Held(after, e.student, subject, e.component) == e.score {
      BatchHolds(before, subject, entries, |entries|, (e.student, subject, e.component));
    }
    forall st: nat, su: nat, c: nat | su != subject || forall e | e in entries :: e.student != st || e.component != c
      ensures Held(after, st, su, c) == Held(before, st, su, c)
    {
      assert forall i | 0 <= i < |entries| :: entries[i] in entries;
      BatchHolds(before, subject, entries, |entries|, (st, su, c));
    }
  }

  lemma StartKeeps(f: Frame, s: State, op: Op)
    requires Inv(f, s)
    ensures Inv(f, s.(txs := s.txs + [Tx(op, Begin)]))
  {
    var n := s.(txs := s.txs + [Tx(op, Begin)]);
    forall t | 0 <= t < |n.txs| ensures TxOk(f, n.db, n.txs[t].op, n.txs[t].pc) {
      if t < |s.txs| { assert n.txs[t] == s.txs[t]; }
    }
  }
}
