/**
 * The operations on one result sheet as concurrent transactions: each is a small program
 * of statements, interleaved with the others, and the row lock makes every run equal to
 * its committed operations performed one at a time.
 */
module SheetProtocol {
  import opened Wrappers
  import opened ComputeResults
  import opened ScoreEntries
  import opened SheetRules
  import opened ResultLaws

  datatype Pc =
    | Begin
    | Armed
    | Locked
    | Checked(sheet: Sheet)
    | Loaded(sheet: Sheet, read: seq<ScoreRow>)
    | Ready(next: Sheet)
    | Done
    | Failed

  datatype Tx = Tx(op: Op, pc: Pc)

  /** lock: who holds the sheet's row, inserted or selected for update. log: what committed, in order. */
  datatype State = State(db: Db, lock: Option<nat>, txs: seq<Tx>, log: seq<Op>)

  datatype Event = Start(op: Op) | Advance(tid: nat) | Crash(tid: nat)

  const START := State(EMPTY, None, [], [])

  predicate Holds(pc: Pc) { pc.Locked? || pc.Checked? || pc.Loaded? || pc.Ready? }

  function Moved(s: State, tid: nat, pc: Pc): State
    requires tid < |s.txs|
  {
    s.(txs := s.txs[tid := s.txs[tid].(pc := pc)])
  }

  function Aborted(s: State, tid: nat): State
    requires tid < |s.txs|
  {
    Moved(if Holds(s.txs[tid].pc) then s.(lock := None) else s, tid, Failed)
  }

  // ---------------------------------------------------------------------------
  // Steps
  // ---------------------------------------------------------------------------

  /**
   * save and compute validate, then upsert the sheet: the first one inserts the row, and
   * another upsert of the same key waits for it. The others look the sheet up first.
   */
  function StepBegin(f: Frame, s: State, tid: nat): State
    requires tid < |s.txs| && s.txs[tid].pc.Begin?
  {
    var op := s.txs[tid].op;
    if !WellAsked(f, op) then Moved(s, tid, Failed)
    else if s.db.sheet.Some? then Moved(s, tid, Armed)
    else if !Creates(op) then Moved(s, tid, Failed)
    else if s.lock.Some? then s
    else Moved(s.(lock := Some(tid)), tid, Locked)
  }

  /** SELECT ... FOR UPDATE on the sheet. */
  function StepLock(s: State, tid: nat): State
    requires tid < |s.txs| && s.txs[tid].pc.Armed?
  {
    if s.db.sheet == None then Moved(s, tid, Failed)
    else if s.lock.Some? then s
    else Moved(s.(lock := Some(tid)), tid, Locked)
  }

  /** The sheet is read again under the lock, and its status decides. */
  function StepLocked(s: State, tid: nat): State
    requires tid < |s.txs| && s.txs[tid].pc.Locked?
  {
    var sheet := BaseOf(s.db.sheet);
    if Allowed(s.txs[tid].op, sheet.status) then Moved(s, tid, Checked(sheet)) else Aborted(s, tid)
  }

  /** A recomputation reads the scores; anything else decides at once. */
  ghost function StepChecked(f: Frame, s: State, tid: nat): State
    requires tid < |s.txs| && s.txs[tid].pc.Checked?
  {
    var Tx(op, Checked(sheet)) := s.txs[tid];
    if Recomputes(op) then Moved(s, tid, Loaded(sheet, s.db.scores))
    else match Effect(f, op, [], sheet)
      case None => Aborted(s, tid)
      case Some(next) => Moved(s, tid, Ready(next))
  }

  ghost function StepLoaded(f: Frame, s: State, tid: nat): State
    requires tid < |s.txs| && s.txs[tid].pc.Loaded?
  {
    var Tx(op, Loaded(sheet, read)) := s.txs[tid];
    match Effect(f, op, read, sheet)
    case None => Aborted(s, tid)
    case Some(next) => Moved(s, tid, Ready(next))
  }

  /** Commit: the cells of a save are applied to the table as it now is. */
  function StepCommit(s: State, tid: nat): State
    requires tid < |s.txs| && s.txs[tid].pc.Ready?
  {
    var Tx(op, Ready(next)) := s.txs[tid];
    Moved(s.(db := Db(ScoresAfter(op, s.db.scores), Some(next)), lock := None, log := s.log + [op]), tid, Done)
  }

  ghost function StepTx(f: Frame, s: State, tid: nat): State
    requires tid < |s.txs|
  {
    match s.txs[tid].pc
    case Begin => StepBegin(f, s, tid)
    case Armed => StepLock(s, tid)
    case Locked => StepLocked(s, tid)
    case Checked(_) => StepChecked(f, s, tid)
    case Loaded(_, _) => StepLoaded(f, s, tid)
    case Ready(_) => StepCommit(s, tid)
    case Done => s
    case Failed => s
  }

  ghost function Next(f: Frame, s: State, e: Event): State {
    match e
    case Start(op) => s.(txs := s.txs + [Tx(op, Begin)])
    case Advance(tid) => if tid < |s.txs| then StepTx(f, s, tid) else s
    case Crash(tid) =>
      if tid < |s.txs| && !s.txs[tid].pc.Done? && !s.txs[tid].pc.Failed? then Aborted(s, tid) else s
  }

  ghost function Run(f: Frame, events: seq<Event>): State {
    if events == [] then START else Next(f, Run(f, events[..|events| - 1]), events[|events| - 1])
  }

  // ---------------------------------------------------------------------------
  // The invariant
  // ---------------------------------------------------------------------------

  /** A transaction past its pre-read asked for something valid. */
  ghost predicate Entitled(f: Frame, db: Db, op: Op) {
    WellAsked(f, op) && (db.sheet.Some? || Creates(op))
  }

  /** What a transaction has read is what is still committed. */
  ghost predicate TxOk(f: Frame, db: Db, op: Op, pc: Pc) {
    match pc
    case Begin => true
    case Armed => WellAsked(f, op)
    case Locked => Entitled(f, db, op)
    case Checked(sheet) => Entitled(f, db, op) && sheet == BaseOf(db.sheet) && Allowed(op, sheet.status)
    case Loaded(sheet, read) =>
      && Entitled(f, db, op) && sheet == BaseOf(db.sheet) && Allowed(op, sheet.status)
      && read == db.scores && Recomputes(op)
    case Ready(next) => Perform(f, db, op) == Some(Db(ScoresAfter(op, db.scores), Some(next)))
    case Done => true
    case Failed => true
  }

  ghost predicate Exclusive(s: State) {
    forall t | 0 <= t < |s.txs| :: Holds(s.txs[t].pc) ==> s.lock == Some(t)
  }

  ghost predicate Inv(f: Frame, s: State) {
    && Exclusive(s)
    && (forall t | 0 <= t < |s.txs| :: TxOk(f, s.db, s.txs[t].op, s.txs[t].pc))
    && Replay(f, s.log, |s.log|) == Some(s.db)
  }

  lemma MoveKeeps(f: Frame, s: State, tid: nat, lock: Option<nat>, pc: Pc)
    requires tid < |s.txs| && Inv(f, s) && TxOk(f, s.db, s.txs[tid].op, pc)
    requires Holds(pc) ==> lock == Some(tid)
    requires lock == s.lock || s.lock == None || s.lock == Some(tid)
    ensures Inv(f, Moved(s.(lock := lock), tid, pc))
  {
    var n := Moved(s.(lock := lock), tid, pc);
    forall t | 0 <= t < |n.txs| ensures TxOk(f, n.db, n.txs[t].op, n.txs[t].pc) {
      if t != tid { assert n.txs[t] == s.txs[t]; }
    }
  }

  lemma AbortKeeps(f: Frame, s: State, tid: nat)
    requires tid < |s.txs| && Inv(f, s)
    ensures Inv(f, Aborted(s, tid))
  {
    MoveKeeps(f, s, tid, if Holds(s.txs[tid].pc) then None else s.lock, Failed);
  }

  lemma CommitKeeps(f: Frame, s: State, tid: nat)
    requires tid < |s.txs| && s.txs[tid].pc.Ready? && Inv(f, s)
    ensures Inv(f, StepCommit(s, tid))
  {
    var n := StepCommit(s, tid);
    ReplayAppend(f, s.log, s.txs[tid].op);
    assert TxOk(f, s.db, s.txs[tid].op, s.txs[tid].pc);
    forall t | 0 <= t < |n.txs| ensures TxOk(f, n.db, n.txs[t].op, n.txs[t].pc) {
      if t != tid { assert n.txs[t] == s.txs[t] && !Holds(s.txs[t].pc); }
    }
  }

  lemma EffectReads(f: Frame, op: Op, a: seq<ScoreRow>, b: seq<ScoreRow>, sheet: Sheet)
    requires !Recomputes(op)
    ensures Effect(f, op, a, sheet) == Effect(f, op, b, sheet)
  {
  }

  lemma StepKeeps(f: Frame, s: State, tid: nat)
    requires tid < |s.txs| && Inv(f, s)
    ensures Inv(f, StepTx(f, s, tid))
  {
    var Tx(op, pc) := s.txs[tid];
    assert TxOk(f, s.db, op, pc);
    AbortKeeps(f, s, tid);
    match pc
    case Begin =>
      MoveKeeps(f, s, tid, s.lock, Failed);
      if WellAsked(f, op) {
        MoveKeeps(f, s, tid, s.lock, Armed);
        if Creates(op) && s.lock == None { MoveKeeps(f, s, tid, Some(tid), Locked); }
      }
    case Armed =>
      MoveKeeps(f, s, tid, s.lock, Failed);
      if s.db.sheet.Some? && s.lock == None { MoveKeeps(f, s, tid, Some(tid), Locked); }
    case Locked =>
      if Allowed(op, BaseOf(s.db.sheet).status) { MoveKeeps(f, s, tid, s.lock, Checked(BaseOf(s.db.sheet))); }
    case Checked(sheet) =>
      if Recomputes(op) {
        MoveKeeps(f, s, tid, s.lock, Loaded(sheet, s.db.scores));
      } else {
        EffectReads(f, op, [], s.db.scores, sheet);
        if Effect(f, op, [], sheet).Some? { MoveKeeps(f, s, tid, s.lock, Ready(Effect(f, op, [], sheet).value)); }
      }
    case Loaded(sheet, read) =>
      if Effect(f, op, read, sheet).Some? { MoveKeeps(f, s, tid, s.lock, Ready(Effect(f, op, read, sheet).value)); }
    case Ready(_) => CommitKeeps(f, s, tid);
    case Done =>
    case Failed =>
  }

  lemma {:induction false} EveryRunHolds(f: Frame, events: seq<Event>)
    ensures Inv(f, Run(f, events))
  {
    if events != [] {
      var before := Run(f, events[..|events| - 1]);
      EveryRunHolds(f, events[..|events| - 1]);
      match events[|events| - 1]
      case Start(op) =>
        var n := before.(txs := before.txs + [Tx(op, Begin)]);
        forall t | 0 <= t < |n.txs| ensures TxOk(f, n.db, n.txs[t].op, n.txs[t].pc) {
          if t < |before.txs| { assert n.txs[t] == before.txs[t]; }
        }
      case Advance(tid) => if tid < |before.txs| { StepKeeps(f, before, tid); }
      case Crash(tid) => if tid < |before.txs| { AbortKeeps(f, before, tid); }
    }
  }

  // ---------------------------------------------------------------------------
  // The theorems
  // ---------------------------------------------------------------------------

  /** Every interleaving, with crashes, leaves what its committed operations leave one at a time. */
  lemma EveryRunIsSerial(f: Frame, events: seq<Event>)
    ensures var s := Run(f, events); Replay(f, s.log, |s.log|) == Some(s.db)
  {
    EveryRunHolds(f, events);
  }

  /** The student has a score for every component of every subject taken. */
  ghost predicate FullyScored(input: Input, st: nat) {
    forall su: nat, c: nat :: !Lacks(input, st, su, c)
  }

  /** The missing list is empty exactly when every student is fully scored. */
  lemma NoneMissingIff(input: Input)
    ensures ComputeResults.Compute(input).missing == [] <==> forall st | st in input.students :: FullyScored(input, st)
  {
    var missing := ComputeResults.Compute(input).missing;
    if missing == [] {
      forall st | st in input.students ensures FullyScored(input, st) {
        forall su: nat, c: nat ensures !Lacks(input, st, su, c) { MissingExactly(input, st, su, c); }
      }
    } else {
      var m := missing[0];
      EveryEntryLists(input, |input.students|, m);
      assert Lists(m, m.student, m.subject, m.components[0]);
      MissingExactly(input, m.student, m.subject, m.components[0]);
    }
  }

  /** Everything submit asks of the sheet and its class. */
  ghost predicate MaySubmit(f: Frame, db: Db) {
    && db.sheet.Some? && db.sheet.value.status == DRAFT
    && f.components != [] && f.bands != [] && f.students != []
    && forall st | st in f.students :: FullyScored(Inputs(f, db.scores), st)
  }

  lemma SubmitIffComplete(f: Frame, db: Db)
    ensures Perform(f, db, Submit).Some? <==> MaySubmit(f, db)
  {
    var input := Inputs(f, db.scores);
    assert |ComputeResults.Compute(input).students| == |f.students|;
    NoneMissingIff(input);
  }

  /**
   * In every interleaving, a committed sheet that is not a draft holds exactly the rows of
   * the computation on the committed scores, for a class with students in it, and none of
   * them lacks a score.
   */
  lemma EverySubmittedSheetMirrorsItsScores(f: Frame, events: seq<Event>)
    requires DistinctOffer(f)
    ensures var db := Run(f, events).db;
      db.sheet.Some? && db.sheet.value.status != DRAFT ==>
        && Mirrors(f, db.scores, db.sheet.value)
        && f.students != []
        && forall st | st in f.students :: FullyScored(Inputs(f, db.scores), st)
  {
    var s := Run(f, events);
    EveryRunHolds(f, events);
    ReplayIsSound(f, s.log, |s.log|);
    var db := s.db;
    if db.sheet.Some? && db.sheet.value.status != DRAFT {
      NoneMissingIff(Inputs(f, db.scores));
    }
  }

  /** The flag shown to the form teacher is right: a computed sheet not called stale mirrors the scores. */
  lemma FreshMeansCurrent(f: Frame, events: seq<Event>)
    requires DistinctOffer(f)
    ensures var db := Run(f, events).db;
      db.sheet.Some? && db.sheet.value.computed && !db.sheet.value.changed ==> Mirrors(f, db.scores, db.sheet.value)
  {
    var s := Run(f, events);
    EveryRunHolds(f, events);
    ReplayIsSound(f, s.log, |s.log|);
  }

  lemma {:induction false} LogGrows(f: Frame, events: seq<Event>, n: nat)
    requires n <= |events|
    ensures Run(f, events[..n]).log <= Run(f, events).log
  {
    if n < |events| {
      var shorter := events[..|events| - 1];
      assert events[..n] == shorter[..n];
      LogGrows(f, shorter, n);
    } else {
      assert events[..n] == events;
    }
  }

  /** What is committed between two moments of a run. */
  ghost function Between(f: Frame, events: seq<Event>, n: nat): (ops: seq<Op>)
    requires n <= |events|
  {
    LogGrows(f, events, n);
    Run(f, events).log[|Run(f, events[..n]).log|..]
  }

  lemma BothReplays(f: Frame, events: seq<Event>, n: nat)
    requires n <= |events|
    ensures var a := Run(f, events[..n]); var b := Run(f, events);
      && |a.log| <= |b.log|
      && Replay(f, b.log, |a.log|) == Some(a.db) && Replay(f, b.log, |b.log|) == Some(b.db)
  {
    EveryRunHolds(f, events);
    EveryRunHolds(f, events[..n]);
    LogGrows(f, events, n);
    var a := Run(f, events[..n]);
    var b := Run(f, events);
    assert a.log[..|a.log|] == b.log[..|a.log|];
    ReplayAgrees(f, a.log, b.log, |a.log|);
  }

  /** Between any two moments of any interleaving with no return committed between them. */
  lemma NothingMovesUntilReturned(f: Frame, events: seq<Event>, n: nat)
    requires n <= |events|
    requires var sheet := Run(f, events[..n]).db.sheet; sheet.Some? && sheet.value.status != DRAFT
    requires Return !in Between(f, events, n)
    ensures Frozen(Run(f, events[..n]).db, Run(f, events).db)
  {
    hide Replay, Run, Frozen;
    BothReplays(f, events, n);
    var a := Run(f, events[..n]);
    var b := Run(f, events);
    forall k | |a.log| <= k < |b.log| ensures !b.log[k].Return? {
      assert b.log[k] == Between(f, events, n)[k - |a.log|];
    }
    FrozenUntilReturned(f, b.log, |a.log|, |b.log|);
  }

  /** Between any two moments with no comment committed between them, every comment is kept. */
  lemma OnlyCommentsChangeComments(f: Frame, events: seq<Event>, n: nat)
    requires n <= |events|
    requires forall op | op in Between(f, events, n) :: !op.Comment?
    ensures KeepsComments(f, Run(f, events[..n]).db, Run(f, events).db)
  {
    hide Replay, Run, KeepsComments;
    BothReplays(f, events, n);
    var a := Run(f, events[..n]);
    var b := Run(f, events);
    forall k | |a.log| <= k < |b.log| ensures !b.log[k].Comment? {
      assert b.log[k] == Between(f, events, n)[k - |a.log|];
    }
    CommentsSurvive(f, b.log, |a.log|, |b.log|);
  }
}
