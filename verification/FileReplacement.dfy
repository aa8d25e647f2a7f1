/**
 * Files linked to a student or to the school: which of them a replacement or a deletion
 * under way may still delete, and two replacements that delete each other's file.
 */
module FileReplacement {
  import opened Wrappers
  import opened FileStorage

  /** The process is yet to read a list that would have the file on it. */
  predicate MayRead(rows: map<nat, Row>, op: Op, pc: Pc, id: nat) {
    match op
    case Upload(_) => false
    case Replace(row) =>
      && IsLinked(rows, id, row.school, row.purpose, row.link)
      && (pc.Begin? || pc.Stored? || pc.Locked? || pc.Approved? || (pc.Inserted? && pc.id != id))
    case Remove(asked) => asked == id && pc.Begin?
    case RemoveLinked(school, purpose, link) => IsLinked(rows, id, school, purpose, link) && pc.Begin?
  }

  /** The process has the file on its list and will come to it, or may yet read it. */
  ghost predicate MayTake(s: State, p: nat, id: nat)
    requires p < |s.procs|
  {
    Reaches(s, s.procs[p].pc, id) || MayRead(s.rows, s.procs[p].op, s.procs[p].pc, id)
  }

  ghost predicate Spared(s: State, id: nat) {
    id in s.rows && forall p | 0 <= p < |s.procs| :: !MayTake(s, p, id)
  }

  /** Nothing new is asked, and nothing attached to a payment. */
  predicate OnlyFinishing(more: seq<Event>) { forall i | 0 <= i < |more| :: !more[i].Start? && !more[i].Attach? }

  // ---------------------------------------------------------------------------
  // What no process may take stays
  // ---------------------------------------------------------------------------

  /** What a list read now leaves out. */
  lemma ReadsWithout(s: State, p: nat, ok: bool, id: nat)
    requires p < |s.procs| && id in s.rows && !MayRead(s.rows, s.procs[p].op, s.procs[p].pc, id)
    requires s.procs[p].pc.Begin? || (s.procs[p].pc.Inserted? && Uploads(s.procs[p].op))
    ensures var n := StepProc(s, p, ok);
      && p < |n.procs| && n.rows == s.rows && id !in ToForget(n.procs[p].pc)
      && !MayRead(n.rows, n.procs[p].op, n.procs[p].pc, id)
  {
    hide Linked, Without;
    var Proc(op, pc) := s.procs[p];
    if op.RemoveLinked? {
      LinkedAre(s.rows, s.next, op.school, op.purpose, op.link, id);
    } else if op.Replace? {
      LinkedAre(s.rows, s.next, op.row.school, op.row.purpose, op.row.link, id);
      if pc.Inserted? { WithoutAre(Linked(s.rows, s.next, op.row.school, op.row.purpose, op.row.link), pc.id, id); }
    }
  }

  lemma UploadStepSpares(s: State, p: nat, ok: bool, id: nat)
    requires p < |s.procs| && id in s.rows && Uploads(s.procs[p].op) && TableOk(s)
    requires ProcOk(s, s.procs[p].op, s.procs[p].pc) && !MayRead(s.rows, s.procs[p].op, s.procs[p].pc, id)
    requires s.procs[p].pc.Stored? || s.procs[p].pc.Locked? || s.procs[p].pc.Approved? || s.procs[p].pc.Undo?
    ensures var n := StepProc(s, p, ok);
      && p < |n.procs| && id in n.rows && n.rows[id] == s.rows[id] && ToForget(n.procs[p].pc) == []
      && !MayRead(n.rows, n.procs[p].op, n.procs[p].pc, id)
  {
    hide Total, Limit;
  }

  lemma StepSpares(s: State, p: nat, ok: bool, id: nat)
    requires p < |s.procs| && Inv(s) && ListsOk(s) && Spared(s, id)
    ensures var n := StepProc(s, p, ok);
      id in n.rows && n.rows[id] == s.rows[id] && p < |n.procs| && !MayTake(n, p, id)
  {
    hide StepProc, Reaches;
    var op, pc := s.procs[p].op, s.procs[p].pc;
    assert ProcOk(s, op, pc) && !MayTake(s, p, id);
    StepIsLocal(s, p, ok);
    var n := StepProc(s, p, ok);
    if pc.Begin? || (pc.Inserted? && Uploads(op)) {
      ReadsWithout(s, p, ok, id);
      NothingListed(n, n.procs[p].pc, id);
    } else if Pending(pc).Some? {
      UploadStepSpares(s, p, ok, id);
      NothingListed(n, n.procs[p].pc, id);
    } else if pc.Forgetting? {
      ForgetStep(s, p, ok);
      ForgetsUnreached(s, p, id);
      ForgettingReadsNoMore(s, p);
    } else if pc.Dropping? {
      DropsOn(s, p, ok);
      DropReadsNoMore(s, p, ok);
      SameList(s, n, pc, n.procs[p].pc, id);
    } else {
      Standing(s, p, ok);
    }
  }

  lemma ForgettingReadsNoMore(s: State, p: nat)
    requires p < |s.procs| && s.procs[p].pc.Forgetting?
    ensures var pc := StepForgetting(s, p).procs[p].pc; pc.Done? || pc.Failed? || pc.Dropping?
  {
  }

  lemma DropReadsNoMore(s: State, p: nat, ok: bool)
    requires p < |s.procs| && s.procs[p].pc.Dropping?
    ensures var n := StepProc(s, p, ok); p < |n.procs| && n.procs[p].pc.Forgetting?
  {
  }

  lemma SameList(s: State, n: State, pc: Pc, after: Pc, id: nat)
    requires n.rows == s.rows && ToForget(after) == ToForget(pc) && !Reaches(s, pc, id)
    ensures !Reaches(n, after, id)
  {
    forall k: nat ensures ReachesAt(n.rows, ToForget(after), id, k) ==> ReachesAt(s.rows, ToForget(pc), id, k) {}
  }

  lemma Standing(s: State, p: nat, ok: bool)
    requires p < |s.procs|
    requires var pc := s.procs[p].pc; pc.Done? || pc.Failed? || pc.Dead? || (pc.Inserted? && !Uploads(s.procs[p].op))
    ensures StepProc(s, p, ok) == s
  {
  }

  lemma NextSpares(s: State, e: Event, id: nat)
    requires Inv(s) && ListsOk(s) && Spared(s, id) && !e.Start? && !e.Attach?
    ensures Spared(Next(s, e), id)
  {
    hide StepProc, Reaches;
    var n := Next(s, e);
    NextOnlyGoes(s, e);
    if e.Advance? && e.p < |s.procs| {
      StepSpares(s, e.p, e.ok, id);
      StepIsLocal(s, e.p, e.ok);
    }
    forall q | 0 <= q < |n.procs| ensures !MayTake(n, q, id) {
      assert !MayTake(s, q, id);
      if n.procs[q] == s.procs[q] {
        assert ListOk(s, s.procs[q].pc);
        StaysUnreached(s, n, s.procs[q].pc, id);
      } else if e.Crash? {
        NothingListed(n, n.procs[q].pc, id);
      }
    }
  }

  lemma {:induction false} StaysSpared(events: seq<Event>, more: seq<Event>, id: nat)
    requires Spared(Run(events), id) && OnlyFinishing(more)
    ensures Spared(Run(events + more), id)
  {
    hide Next, Spared, Run;
    if more == [] {
      assert events + more == events;
    } else {
      var shorter := events + more[..|more| - 1];
      assert events + more == shorter + [more[|more| - 1]];
      StaysSpared(events, more[..|more| - 1], id);
      EveryRunHolds(shorter);
      EveryRunListsOnce(shorter);
      NextSpares(Run(shorter), more[|more| - 1], id);
      RunAppend(shorter, more[|more| - 1]);
    }
  }

  // ---------------------------------------------------------------------------
  // What a process may take can go
  // ---------------------------------------------------------------------------

  /** A lock is held by an upload of its school that is between taking and giving it up. */
  ghost predicate LocksHeld(s: State) {
    forall school | school in s.locks ::
      var p := s.locks[school];
      p < |s.procs| && Holds(s.procs[p].pc) && Uploads(s.procs[p].op) && s.procs[p].op.row.school == school
  }

  lemma UploadKeepsLocks(s: State, p: nat, ok: bool)
    requires p < |s.procs| && LocksHeld(s) && Exclusive(s) && Uploads(s.procs[p].op)
    requires s.procs[p].pc.Stored? || s.procs[p].pc.Locked? || s.procs[p].pc.Approved?
    ensures var n := if s.procs[p].pc.Stored? then StepStored(s, p)
                     else if s.procs[p].pc.Locked? then StepLocked(s, p) else StepApproved(s, p, ok);
      LocksHeld(n)
  {
    hide Total, Limit;
  }

  lemma ReadLeavesLocks(s: State, p: nat, ok: bool)
    requires p < |s.procs|
    ensures s.procs[p].pc.Begin? ==> StepBegin(s, p, ok).locks == s.locks
    ensures s.procs[p].pc.Inserted? && Uploads(s.procs[p].op) ==> StepInserted(s, p).locks == s.locks
    ensures s.procs[p].pc.Forgetting? ==> StepForgetting(s, p).locks == s.locks
  {
    hide Linked, Without;
  }

  /** The other steps neither hold, take nor give up a lock. */
  lemma OtherLeavesLocks(s: State, p: nat, ok: bool)
    requires p < |s.procs|
    requires Uploads(s.procs[p].op) ==> !s.procs[p].pc.Stored? && !s.procs[p].pc.Locked? && !s.procs[p].pc.Approved?
    ensures StepProc(s, p, ok).locks == s.locks
  {
    ReadLeavesLocks(s, p, ok);
    hide StepBegin, StepInserted, StepForgetting, StepStored, StepLocked, StepApproved;
  }

  lemma StepKeepsLocks(s: State, p: nat, ok: bool)
    requires p < |s.procs| && LocksHeld(s) && Exclusive(s)
    ensures LocksHeld(StepProc(s, p, ok))
  {
    hide StepBegin, StepStored, StepLocked, StepApproved, StepInserted, StepForgetting, Exclusive;
    var op, pc := s.procs[p].op, s.procs[p].pc;
    if Uploads(op) && (pc.Stored? || pc.Locked? || pc.Approved?) {
      UploadKeepsLocks(s, p, ok);
    } else {
      StepIsLocal(s, p, ok);
      OtherLeavesLocks(s, p, ok);
      hide StepProc;
      assert forall school | school in s.locks :: s.locks[school] != p;
    }
  }

  lemma NextKeepsLocks(s: State, e: Event)
    requires LocksHeld(s) && Inv(s)
    ensures LocksHeld(Next(s, e))
  {
    hide StepProc, TableOk, QuotaOk, Apart, ProcOk;
    match e
    case Advance(p, ok) => if p < |s.procs| { StepKeepsLocks(s, p, ok); }
    case _ =>
  }

  lemma {:induction false} EveryRunHoldsLocks(events: seq<Event>)
    ensures LocksHeld(Run(events))
  {
    hide Next, Inv;
    if events == [] {
      NoLocks();
    } else {
      EveryRunHoldsLocks(events[..|events| - 1]);
      EveryRunHolds(events[..|events| - 1]);
      NextKeepsLocks(Run(events[..|events| - 1]), events[|events| - 1]);
    }
  }

  lemma NoLocks()
    ensures LocksHeld(START)
  {
  }

  /** A list all on file is come to the end of. */
  lemma AllOnFile(s: State, pc: Pc, id: nat)
    requires id in ToForget(pc) && forall x | x in ToForget(pc) :: x in s.rows
    ensures Reaches(s, pc, id)
  {
    var k: nat :| k < |ToForget(pc)| && ToForget(pc)[k] == id;
    assert forall j | 0 <= j < k :: ToForget(pc)[j] in ToForget(pc);
    assert ReachesAt(s.rows, ToForget(pc), id, k);
  }

  /** A process that reads its list now comes to everything on it. */
  lemma JustRead(s: State, p: nat, id: nat)
    requires p < |s.procs| && TableOk(s) && id in s.rows && MayRead(s.rows, s.procs[p].op, s.procs[p].pc, id)
    requires !s.rows[id].link.Payment? && (s.procs[p].pc.Begin? ==> !Uploads(s.procs[p].op))
    requires s.procs[p].pc.Begin? || s.procs[p].pc.Inserted?
    ensures var n := Next(s, Advance(p, true)); p < |n.procs| && n.rows == s.rows && Reaches(n, n.procs[p].pc, id)
  {
    hide Linked, Without, Reaches;
    var op, pc, n := s.procs[p].op, s.procs[p].pc, Next(s, Advance(p, true));
    if op.RemoveLinked? {
      LinkedAre(s.rows, s.next, op.school, op.purpose, op.link, id);
      LinkedAscends(s.rows, s.next, op.school, op.purpose, op.link);
    } else if op.Replace? {
      LinkedAre(s.rows, s.next, op.row.school, op.row.purpose, op.row.link, id);
      LinkedAscends(s.rows, s.next, op.row.school, op.row.purpose, op.row.link);
      WithoutAre(Linked(s.rows, s.next, op.row.school, op.row.purpose, op.row.link), pc.id, id);
      WithoutAscends(Linked(s.rows, s.next, op.row.school, op.row.purpose, op.row.link), pc.id);
    }
    AllOnFile(n, n.procs[p].pc, id);
  }

  /** The next step of an upload that is given what it needs. */
  lemma UploadsOn(s: State, p: nat, id: nat)
    requires p < |s.procs| && Inv(s) && id in s.rows && MayRead(s.rows, s.procs[p].op, s.procs[p].pc, id)
    requires s.procs[p].op.Replace? && !s.procs[p].pc.Inserted?
    requires s.procs[p].pc.Stored? ==> s.procs[p].op.row.school !in s.locks
    requires s.procs[p].pc.Locked? ==>
      var row := s.procs[p].op.row; Total(s.rows, s.next, row.school) + row.size <= Limit(s.limits, row.school)
    ensures var n := Next(s, Advance(p, true));
      && p < |n.procs| && id in n.rows && n.rows[id] == s.rows[id]
      && MayRead(n.rows, n.procs[p].op, n.procs[p].pc, id) && Left(n.procs[p].pc) < Left(s.procs[p].pc)
  {
    hide Total, Limit;
    assert ProcOk(s, s.procs[p].op, s.procs[p].pc);
  }

  /** Steps of an upload before its list is read. */
  function Left(pc: Pc): nat {
    match pc
    case Begin => 5
    case Stored(_) => 4
    case Locked(_) => 3
    case Approved(_) => 2
    case Inserted(_) => 1
    case _ => 0
  }

  /** What an upload that is to replace the file waits for, if anything, can be had. */
  lemma MakeWay(events: seq<Event>, p: nat, id: nat) returns (way: seq<Event>)
    requires p < |Run(events).procs| && id in Run(events).rows && Run(events).procs[p].op.Replace?
    requires MayRead(Run(events).rows, Run(events).procs[p].op, Run(events).procs[p].pc, id)
    ensures OnlyFinishing(way)
    ensures var s, n := Run(events), Run(events + way);
      && p < |n.procs| && n.procs[p] == s.procs[p] && n.rows == s.rows
      && (n.procs[p].pc.Stored? ==> n.procs[p].op.row.school !in n.locks)
      && (n.procs[p].pc.Locked? ==>
            var row := n.procs[p].op.row; Total(n.rows, n.next, row.school) + row.size <= Limit(n.limits, row.school))
  {
    hide Total, MayRead, LocksHeld;
    var s := Run(events);
    var row := s.procs[p].op.row;
    EveryRunHoldsLocks(events);
    if s.procs[p].pc.Stored? && row.school in s.locks {
      HolderIs(s, row.school);
      way := [Crash(s.locks[row.school])];
      RunAppend(events, way[0]);
    } else if s.procs[p].pc.Locked? {
      way := [SetLimit(row.school, Total(s.rows, s.next, row.school) + row.size)];
      RunAppend(events, way[0]);
    } else {
      way := [];
      assert events + way == events;
    }
  }

  lemma HolderIs(s: State, school: nat)
    requires LocksHeld(s) && school in s.locks
    ensures var p := s.locks[school];
      p < |s.procs| && Holds(s.procs[p].pc) && Uploads(s.procs[p].op) && s.procs[p].op.row.school == school
  {
  }

  /** A process that may yet read the file comes to it. */
  lemma {:induction false} ComesToRead(events: seq<Event>, p: nat, id: nat) returns (more: seq<Event>)
    requires var s := Run(events); p < |s.procs| && id in s.rows && !s.rows[id].link.Payment?
    requires MayRead(Run(events).rows, Run(events).procs[p].op, Run(events).procs[p].pc, id)
    ensures OnlyFinishing(more)
    ensures var n := Run(events + more); p < |n.procs| && id in n.rows && Reaches(n, n.procs[p].pc, id)
    decreases Left(Run(events).procs[p].pc)
  {
    hide Run, Next, Reaches, Inv;
    var s := Run(events);
    EveryRunHolds(events);
    if s.procs[p].op.Replace? && !s.procs[p].pc.Inserted? {
      var way := MakeWay(events, p, id);
      EveryRunHolds(events + way);
      UploadsOn(Run(events + way), p, id);
      var next := (events + way) + [Advance(p, true)];
      RunAppend(events + way, Advance(p, true));
      var rest := ComesToRead(next, p, id);
      more := way + [Advance(p, true)] + rest;
      assert events + more == next + rest;
    } else {
      InvTable(s);
      JustRead(s, p, id);
      more := [Advance(p, true)];
      RunAppend(events, Advance(p, true));
    }
  }

  lemma InvTable(s: State)
    requires Inv(s)
    ensures TableOk(s)
  {
  }

  ghost predicate AlwaysKept(events: seq<Event>, id: nat) {
    forall more: seq<Event> :: OnlyFinishing(more) ==> Kept(events + more, id)
  }

  lemma SparedIsKept(events: seq<Event>, id: nat)
    requires Spared(Run(events), id)
    ensures Kept(events, id)
  {
    EveryRowHasItsBytes(events);
  }

  lemma TakenGoes(events: seq<Event>, p: nat, id: nat)
    requires var s := Run(events); p < |s.procs| && id in s.rows && !s.rows[id].link.Payment? && MayTake(s, p, id)
    ensures !AlwaysKept(events, id)
  {
    hide Run, Next, Reaches, Kept;
    var s := Run(events);
    var first: seq<Event> := [];
    assert events + first == events;
    if !Reaches(s, s.procs[p].pc, id) { first := ComesToRead(events, p, id); }
    var rest := ReachedGoes(events + first, p, id);
    assert OnlyFinishing(first + rest) && (events + first) + rest == events + (first + rest);
    assert !Kept(events + (first + rest), id);
  }

  /**
   * While nothing new is asked, a file that is not evidence of a payment is kept, row and
   * bytes, however the requests under way go on, exactly when none of them has it on a list
   * it will come to, and none is yet to read a list it is on: a removal of the file or of
   * what is linked in its place that has not begun, or a replacement there, of any other
   * file, that has not yet looked for what it displaces.
   */
  lemma KeptIff(events: seq<Event>, id: nat)
    requires id in Run(events).rows && !Run(events).rows[id].link.Payment?
    ensures AlwaysKept(events, id) <==> Spared(Run(events), id)
  {
    hide Run, Next, Reaches, Kept, MayTake;
    if Spared(Run(events), id) {
      forall more: seq<Event> | OnlyFinishing(more) ensures Kept(events + more, id) {
        StaysSpared(events, more, id);
        SparedIsKept(events + more, id);
      }
    } else {
      var p :| 0 <= p < |Run(events).procs| && MayTake(Run(events), p, id);
      TakenGoes(events, p, id);
    }
  }

  // ---------------------------------------------------------------------------
  // Two replacements at once
  // ---------------------------------------------------------------------------

  /** The four steps of an upload to its committed row. */
  lemma UploadRuns(events: seq<Event>, p: nat, row: Row)
    requires var s := Run(events);
      && p < |s.procs| && s.procs[p] == Proc(Replace(row), Begin) && row.school !in s.locks
      && Total(s.rows, s.next + 1, row.school) + row.size <= Limit(s.limits, row.school)
    ensures var s, a := Run(events), Advance(p, true);
      Run(events + [a] + [a] + [a] + [a]) == s.(
        objects := s.objects + {s.next}, rows := s.rows[s.next := row], ever := s.ever + {s.next}, next := s.next + 1,
        procs := s.procs[p := Proc(Replace(row), Inserted(s.next))])
  {
    hide Run, Total, Limit;
    var s, a := Run(events), Advance(p, true);
    RunAppend(events, a);
    RunAppend(events + [a], a);
    RunAppend(events + [a] + [a], a);
    RunAppend(events + [a] + [a] + [a], a);
    var stored := s.(objects := s.objects + {s.next}, next := s.next + 1, procs := s.procs[p := Proc(Replace(row), Stored(s.next))]);
    assert Run(events + [a]) == stored;
    var locked := stored.(locks := s.locks[row.school := p], procs := s.procs[p := Proc(Replace(row), Locked(s.next))]);
    assert Run(events + [a] + [a]) == locked;
    assert Run(events + [a] + [a] + [a]) == locked.(procs := s.procs[p := Proc(Replace(row), Approved(s.next))]);
    assert locked.locks - {row.school} == s.locks;
  }

  function Advances(p: nat): seq<Event> {
    [Advance(p, true)] + [Advance(p, true)] + [Advance(p, true)] + [Advance(p, true)]
  }

  /** Two replacements of one link, both past their committed row. */
  function BothUploaded(row: Row): seq<Event> {
    [Start(Replace(row))] + [Start(Replace(row))] + Advances(0) + Advances(1)
  }

  lemma BothUploadedRuns(row: Row)
    requires 2 * row.size <= DEFAULT_LIMIT && WellAsked(Replace(row))
    ensures Run(BothUploaded(row)) == State({0, 1}, map[0 := row, 1 := row], map[], map[],
      [Proc(Replace(row), Inserted(0)), Proc(Replace(row), Inserted(1))], 2, {0, 1}, map[])
  {
    hide Run, Total, Next;
    var start := Start(Replace(row));
    var two := [start] + [start];
    Started(row);
    TotalOfNothing(1, row.school);
    UploadRuns(two, 0, row);
    assert two + Advances(0) == two + [Advance(0, true)] + [Advance(0, true)] + [Advance(0, true)] + [Advance(0, true)];
    var six := two + Advances(0);
    TotalOfNothing(2, row.school);
    TotalInsert(map[], 2, 0, row, row.school);
    UploadRuns(six, 1, row);
    assert six + Advances(1) == six + [Advance(1, true)] + [Advance(1, true)] + [Advance(1, true)] + [Advance(1, true)];
  }

  lemma Started(row: Row)
    requires WellAsked(Replace(row))
    ensures Run([Start(Replace(row))] + [Start(Replace(row))])
            == START.(procs := [Proc(Replace(row), Begin), Proc(Replace(row), Begin)])
  {
    var start := Start(Replace(row));
    RunAppend([], start);
    assert [] + [start] == [start];
    RunAppend([start], start);
  }

  /** Of the two files linked, each replacement displaces the other's. */
  lemma EachDisplacesTheOther(rows: map<nat, Row>, row: Row)
    requires rows == map[0 := row, 1 := row]
    ensures Without(Linked(rows, 2, row.school, row.purpose, row.link), 0) == [1]
    ensures Without(Linked(rows, 2, row.school, row.purpose, row.link), 1) == [0]
  {
    assert Linked(rows, 0, row.school, row.purpose, row.link) == [];
    assert Linked(rows, 1, row.school, row.purpose, row.link) == [0];
    var both := Linked(rows, 2, row.school, row.purpose, row.link);
    assert both == [0, 1] && both[..1] == [0] && [0][..0] == [];
    assert Without([], 0) == [] && Without([], 1) == [];
    assert Without([0], 0) == [] && Without([0], 1) == [0];
  }

  /**
   * From the empty store, two replacements of one student's or the school's file that both
   * look for what they displace after both have uploaded delete each other's: nothing is left.
   */
  lemma ReplacementsDeleteEachOther(row: Row)
    requires 2 * row.size <= DEFAULT_LIMIT && WellAsked(Replace(row))
    ensures var all := BothUploaded(row)
        + [Advance(0, true)] + [Advance(1, true)] + [Advance(0, true)] + [Advance(1, true)];
      Run(BothUploaded(row)).rows == map[0 := row, 1 := row] && Run(all).rows == map[]
  {
    hide Run, Linked, Without, BothUploaded;
    BothUploadedRuns(row);
    EachDisplacesTheOther(map[0 := row, 1 := row], row);
    var events := BothUploaded(row);
    var a := events + [Advance(0, true)];
    RunAppend(events, Advance(0, true));
    RunAppend(a, Advance(1, true));
    RunAppend(a + [Advance(1, true)], Advance(0, true));
    RunAppend(a + [Advance(1, true)] + [Advance(0, true)], Advance(1, true));
    var s := Run(a + [Advance(1, true)]);
    assert s.procs[0].pc == Forgetting([1]) && s.procs[1].pc == Forgetting([0]);
    assert Run(a + [Advance(1, true)] + [Advance(0, true)]).rows == map[0 := row];
  }
}
