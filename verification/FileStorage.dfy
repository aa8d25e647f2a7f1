/**
 * Uploads, replacements and deletions of files as interleaved programs over the object
 * store and the file table, any of which may stop between two steps.
 */
module FileStorage {
  import opened Wrappers

  datatype Link = Nothing | Student(id: nat) | School | Payment(id: nat)

  datatype Row = Row(school: nat, size: nat, purpose: nat, link: Link)

  datatype Op =
    | Upload(row: Row)
    | Replace(row: Row)
    | Remove(id: nat)
    | RemoveLinked(school: nat, purpose: nat, link: Link)

  /** A file's object key is made from its fresh id, so the id stands for the key. */
  datatype Pc =
    | Begin
    | Stored(id: nat)
    | Locked(id: nat)
    | Approved(id: nat)
    | Undo(id: nat)
    | Inserted(id: nat)
    | Forgetting(ids: seq<nat>)
    | Dropping(id: nat, rest: seq<nat>)
    | Done
    | Failed
    | Dead

  datatype Proc = Proc(op: Op, pc: Pc)

  /**
   * objects: the keys with bytes. next: the first unused id. ever: the ids that have been
   * rows. peak: the highest limit each school has had.
   */
  datatype State = State(
    objects: set<nat>, rows: map<nat, Row>, limits: map<nat, nat>, locks: map<nat, nat>,
    procs: seq<Proc>, next: nat, ever: set<nat>, peak: map<nat, nat>)

  /** ok: the call to the store, or the commit, succeeds. */
  datatype Event =
    | Start(op: Op)
    | Advance(p: nat, ok: bool)
    | Crash(p: nat)
    | SetLimit(school: nat, bytes: nat)
    | Attach(id: nat, payment: nat)

  /** The platform's ceiling for a school without one of its own: 2048 MB unless configured. */
  const DEFAULT_LIMIT: nat := 2048 * 1024 * 1024

  // ---------------------------------------------------------------------------
  // Reads
  // ---------------------------------------------------------------------------

  function Limit(limits: map<nat, nat>, school: nat): nat {
    if school in limits then limits[school] else DEFAULT_LIMIT
  }

  function SizeOf(rows: map<nat, Row>, id: nat, school: nat): nat {
    if id in rows && rows[id].school == school then rows[id].size else 0
  }

  /** The aggregate: bytes of one school's files, among the first n ids. */
  function Total(rows: map<nat, Row>, n: nat, school: nat): nat {
    if n == 0 then 0 else Total(rows, n - 1, school) + SizeOf(rows, n - 1, school)
  }

  predicate IsLinked(rows: map<nat, Row>, id: nat, school: nat, purpose: nat, link: Link) {
    id in rows && rows[id].school == school && rows[id].purpose == purpose && rows[id].link == link
  }

  function Linked(rows: map<nat, Row>, n: nat, school: nat, purpose: nat, link: Link): seq<nat> {
    if n == 0 then []
    else
      var rest := Linked(rows, n - 1, school, purpose, link);
      if IsLinked(rows, n - 1, school, purpose, link) then rest + [n - 1] else rest
  }

  function Without(ids: seq<nat>, id: nat): seq<nat> {
    if ids == [] then []
    else
      var rest := Without(ids[..|ids| - 1], id);
      if ids[|ids| - 1] == id then rest else rest + [ids[|ids| - 1]]
  }

  // ---------------------------------------------------------------------------
  // Steps
  // ---------------------------------------------------------------------------

  predicate Uploads(op: Op) { op.Upload? || op.Replace? }

  predicate Holds(pc: Pc) { pc.Locked? || pc.Approved? }

  function Moved(s: State, p: nat, pc: Pc): State
    requires p < |s.procs|
  {
    s.(procs := s.procs[p := s.procs[p].(pc := pc)])
  }

  /** Gives up the transaction's advisory lock. */
  function Released(s: State, p: nat): State
    requires p < |s.procs|
  {
    if Holds(s.procs[p].pc) && Uploads(s.procs[p].op) then s.(locks := s.locks - {s.procs[p].op.row.school}) else s
  }

  /** Uploads put the bytes first; deletions read what they are to forget. */
  function StepBegin(s: State, p: nat, ok: bool): State
    requires p < |s.procs| && s.procs[p].pc.Begin?
  {
    match s.procs[p].op
    case Remove(id) =>
      if id !in s.rows || s.rows[id].link.Payment? then Moved(s, p, Failed) else Moved(s, p, Forgetting([id]))
    case RemoveLinked(school, purpose, link) =>
      Moved(s, p, Forgetting(Linked(s.rows, s.next, school, purpose, link)))
    case _ =>
      if !ok then Moved(s, p, Failed)
      else Moved(s.(objects := s.objects + {s.next}, next := s.next + 1), p, Stored(s.next))
  }

  /** pg_advisory_xact_lock: waits while another transaction of the school holds it. */
  function StepStored(s: State, p: nat): State
    requires p < |s.procs| && s.procs[p].pc.Stored? && Uploads(s.procs[p].op)
  {
    var school := s.procs[p].op.row.school;
    if school in s.locks then s else Moved(s.(locks := s.locks[school := p]), p, Locked(s.procs[p].pc.id))
  }

  /** assertWithinQuota over the committed rows. */
  function StepLocked(s: State, p: nat): State
    requires p < |s.procs| && s.procs[p].pc.Locked? && Uploads(s.procs[p].op)
  {
    var row := s.procs[p].op.row;
    if Total(s.rows, s.next, row.school) + row.size > Limit(s.limits, row.school)
    then Moved(Released(s, p), p, Undo(s.procs[p].pc.id))
    else Moved(s, p, Approved(s.procs[p].pc.id))
  }

  function StepApproved(s: State, p: nat, ok: bool): State
    requires p < |s.procs| && s.procs[p].pc.Approved? && Uploads(s.procs[p].op)
  {
    var id := s.procs[p].pc.id;
    if !ok then Moved(Released(s, p), p, Undo(id))
    else Moved(Released(s.(rows := s.rows[id := s.procs[p].op.row], ever := s.ever + {id}), p), p, Inserted(id))
  }

  /** discard: a failed delete leaves an orphan and is only logged. */
  function Discarded(s: State, id: nat, ok: bool): State { if ok then s.(objects := s.objects - {id}) else s }

  function StepInserted(s: State, p: nat): State
    requires p < |s.procs| && s.procs[p].pc.Inserted? && Uploads(s.procs[p].op)
  {
    var row := s.procs[p].op.row;
    if s.procs[p].op.Upload? then Moved(s, p, Done)
    else
      var linked := Linked(s.rows, s.next, row.school, row.purpose, row.link);
      Moved(s, p, Forgetting(Without(linked, s.procs[p].pc.id)))
  }

  /** forget deletes the row; a row already gone is an error and ends the loop. */
  function StepForgetting(s: State, p: nat): State
    requires p < |s.procs| && s.procs[p].pc.Forgetting?
  {
    var ids := s.procs[p].pc.ids;
    if ids == [] then Moved(s, p, Done)
    else if ids[0] !in s.rows then Moved(s, p, Failed)
    else Moved(s.(rows := s.rows - {ids[0]}), p, Dropping(ids[0], ids[1..]))
  }

  function StepProc(s: State, p: nat, ok: bool): State
    requires p < |s.procs|
  {
    match s.procs[p].pc
    case Begin => StepBegin(s, p, ok)
    case Stored(_) => if Uploads(s.procs[p].op) then StepStored(s, p) else s
    case Locked(_) => if Uploads(s.procs[p].op) then StepLocked(s, p) else s
    case Approved(_) => if Uploads(s.procs[p].op) then StepApproved(s, p, ok) else s
    case Undo(id) => Moved(Discarded(s, id, ok), p, Failed)
    case Inserted(_) => if Uploads(s.procs[p].op) then StepInserted(s, p) else s
    case Forgetting(_) => StepForgetting(s, p)
    case Dropping(id, rest) => Moved(Discarded(s, id, ok), p, Forgetting(rest))
    case Done => s
    case Failed => s
    case Dead => s
  }

  /** Replacing and clearing are offered for what is linked to a student or to the school. */
  predicate WellAsked(op: Op) {
    match op
    case Upload(_) => true
    case Replace(row) => row.link.Student? || row.link.School?
    case Remove(_) => true
    case RemoveLinked(_, _, link) => link.Student? || link.School?
  }

  function StepLimit(s: State, school: nat, bytes: nat): State {
    var best := Peak(s, school);
    s.(limits := s.limits[school := bytes], peak := s.peak[school := if bytes > best then bytes else best])
  }

  function Peak(s: State, school: nat): nat { Limit(s.peak, school) }

  function Next(s: State, e: Event): State {
    match e
    case Start(op) => if WellAsked(op) then s.(procs := s.procs + [Proc(op, Begin)]) else s
    case Advance(p, ok) => if p < |s.procs| then StepProc(s, p, ok) else s
    case Crash(p) => if p < |s.procs| then Moved(Released(s, p), p, Dead) else s
    case SetLimit(school, bytes) => StepLimit(s, school, bytes)
    case Attach(id, payment) =>
      if id in s.rows then s.(rows := s.rows[id := s.rows[id].(link := Payment(payment))]) else s
  }

  const START := State({}, map[], map[], map[], [], 0, {}, map[])

  function Run(events: seq<Event>): State {
    if events == [] then START else Next(Run(events[..|events| - 1]), events[|events| - 1])
  }

  // ---------------------------------------------------------------------------
  // Totals
  // ---------------------------------------------------------------------------

  lemma {:induction false} TotalAgrees(a: map<nat, Row>, b: map<nat, Row>, n: nat, school: nat)
    requires forall id | 0 <= id < n :: SizeOf(a, id, school) == SizeOf(b, id, school)
    ensures Total(a, n, school) == Total(b, n, school)
  {
    if n > 0 { TotalAgrees(a, b, n - 1, school); }
  }

  lemma {:induction false} TotalShrinks(a: map<nat, Row>, b: map<nat, Row>, n: nat, school: nat)
    requires forall id | 0 <= id < n :: SizeOf(a, id, school) <= SizeOf(b, id, school)
    ensures Total(a, n, school) <= Total(b, n, school)
  {
    if n > 0 { TotalShrinks(a, b, n - 1, school); }
  }

  lemma {:induction false} TotalInsert(rows: map<nat, Row>, n: nat, id: nat, row: Row, school: nat)
    requires id < n && id !in rows
    ensures Total(rows[id := row], n, school) == Total(rows, n, school) + (if row.school == school then row.size else 0)
  {
    if id == n - 1 {
      TotalAgrees(rows[id := row], rows, n - 1, school);
    } else {
      TotalInsert(rows, n - 1, id, row, school);
    }
  }

  // ---------------------------------------------------------------------------
  // The invariant
  // ---------------------------------------------------------------------------

  /** The id of an upload whose row is not yet there. */
  function Pending(pc: Pc): Option<nat> {
    match pc
    case Stored(id) => Some(id)
    case Locked(id) => Some(id)
    case Approved(id) => Some(id)
    case Undo(id) => Some(id)
    case _ => None
  }

  ghost predicate TableOk(s: State) {
    && (forall id | id in s.rows :: id in s.objects && id in s.ever)
    && (forall id | id in s.ever || id in s.objects :: id < s.next)
  }

  /** Ids pending are fresh, stored until undone, and nobody else's; ids being dropped were rows and no longer are. */
  ghost predicate ProcOk(s: State, op: Op, pc: Pc) {
    && (Pending(pc).Some? ==> Pending(pc).value < s.next && Pending(pc).value !in s.ever && Uploads(op))
    && (pc.Stored? || pc.Locked? || pc.Approved? ==> pc.id in s.objects)
    && (pc.Dropping? ==> pc.id in s.ever && pc.id !in s.rows)
    && (pc.Inserted? ==> Uploads(op))
  }

  ghost predicate Apart(s: State) {
    forall p, q | 0 <= p < q < |s.procs| ::
      Pending(s.procs[p].pc).Some? ==> Pending(s.procs[p].pc) != Pending(s.procs[q].pc)
  }

  ghost predicate Exclusive(s: State) {
    forall p | 0 <= p < |s.procs| && Holds(s.procs[p].pc) ::
      Uploads(s.procs[p].op) && s.procs[p].op.row.school in s.locks && s.locks[s.procs[p].op.row.school] == p
  }

  /** An approved upload still fits. */
  ghost predicate Fits(s: State, op: Op, pc: Pc) {
    pc.Approved? && Uploads(op) ==> Total(s.rows, s.next, op.row.school) + op.row.size <= Peak(s, op.row.school)
  }

  ghost predicate QuotaOk(s: State) {
    && (forall school: nat :: Total(s.rows, s.next, school) <= Peak(s, school))
    && (forall school: nat :: Limit(s.limits, school) <= Peak(s, school))
    && (forall p | 0 <= p < |s.procs| :: Fits(s, s.procs[p].op, s.procs[p].pc))
  }

  ghost predicate Inv(s: State) {
    && TableOk(s) && Apart(s) && Exclusive(s) && QuotaOk(s)
    && (forall p | 0 <= p < |s.procs| :: ProcOk(s, s.procs[p].op, s.procs[p].pc))
  }

  // ---------------------------------------------------------------------------
  // Every step keeps it
  // ---------------------------------------------------------------------------

  /** Nothing but one process's place and its school's lock changes. */
  lemma MoveKeeps(s: State, p: nat, pc: Pc)
    requires p < |s.procs| && Inv(s) && ProcOk(s, s.procs[p].op, pc) && Fits(s, s.procs[p].op, pc)
    requires Pending(pc) == None || Pending(pc) == Pending(s.procs[p].pc)
    requires Holds(pc) ==> Holds(s.procs[p].pc)
    ensures Inv(Moved(s, p, pc))
    ensures !Holds(pc) ==> Inv(Moved(Released(s, p), p, pc))
  {
    var n := Moved(s, p, pc);
    forall q | 0 <= q < |n.procs|
      ensures ProcOk(n, n.procs[q].op, n.procs[q].pc) && Fits(n, n.procs[q].op, n.procs[q].pc)
    {
      if q != p {
        assert n.procs[q] == s.procs[q] && ProcOk(s, s.procs[q].op, s.procs[q].pc);
        assert Fits(s, s.procs[q].op, s.procs[q].pc);
      }
    }
    if !Holds(pc) { ReleaseKeeps(s, p, pc); }
  }

  lemma ReleaseKeeps(s: State, p: nat, pc: Pc)
    requires p < |s.procs| && Inv(Moved(s, p, pc)) && Inv(s) && !Holds(pc)
    ensures Inv(Moved(Released(s, p), p, pc))
  {
    var m := Moved(s, p, pc);
    var n := Moved(Released(s, p), p, pc);
    forall q | 0 <= q < |n.procs| && Holds(n.procs[q].pc)
      ensures Uploads(n.procs[q].op) && n.procs[q].op.row.school in n.locks && n.locks[n.procs[q].op.row.school] == q
    {
      assert q != p && n.procs[q] == s.procs[q] == m.procs[q];
    }
    assert n == m.(locks := n.locks);
    forall q | 0 <= q < |n.procs|
      ensures ProcOk(n, n.procs[q].op, n.procs[q].pc) && Fits(n, n.procs[q].op, n.procs[q].pc)
    {
      assert ProcOk(m, m.procs[q].op, m.procs[q].pc) && Fits(m, m.procs[q].op, m.procs[q].pc);
    }
  }

  lemma PutKeeps(s: State, p: nat)
    requires p < |s.procs| && s.procs[p].pc.Begin? && Uploads(s.procs[p].op) && Inv(s)
    ensures Inv(StepBegin(s, p, true))
  {
    var n := StepBegin(s, p, true);
    forall school: nat ensures Total(n.rows, n.next, school) == Total(s.rows, s.next, school) {
      assert s.next !in s.rows;
    }
    forall q | 0 <= q < |n.procs|
      ensures ProcOk(n, n.procs[q].op, n.procs[q].pc) && Fits(n, n.procs[q].op, n.procs[q].pc)
    {
      if q != p {
        assert n.procs[q] == s.procs[q] && ProcOk(s, s.procs[q].op, s.procs[q].pc);
        assert Fits(s, s.procs[q].op, s.procs[q].pc);
      }
    }
    forall i, j | 0 <= i < j < |n.procs| && Pending(n.procs[i].pc).Some?
      ensures Pending(n.procs[i].pc) != Pending(n.procs[j].pc)
    {
      assert i != p ==> ProcOk(s, s.procs[i].op, s.procs[i].pc);
      assert j != p ==> ProcOk(s, s.procs[j].op, s.procs[j].pc);
    }
  }

  lemma LockKeeps(s: State, p: nat)
    requires p < |s.procs| && s.procs[p].pc.Stored? && Uploads(s.procs[p].op) && Inv(s)
    ensures Inv(StepStored(s, p))
  {
    var n := StepStored(s, p);
    assert ProcOk(s, s.procs[p].op, s.procs[p].pc);
    forall q | 0 <= q < |n.procs|
      ensures ProcOk(n, n.procs[q].op, n.procs[q].pc) && Fits(n, n.procs[q].op, n.procs[q].pc)
    {
      if q != p {
        assert n.procs[q] == s.procs[q] && ProcOk(s, s.procs[q].op, s.procs[q].pc);
        assert Fits(s, s.procs[q].op, s.procs[q].pc);
      }
    }
  }

  /** Under the lock no other upload of the school is approved, so the insert makes none of them wrong. */
  lemma InsertKeeps(s: State, p: nat)
    requires p < |s.procs| && s.procs[p].pc.Approved? && Uploads(s.procs[p].op) && Inv(s)
    ensures Inv(StepApproved(s, p, true))
  {
    var n := StepApproved(s, p, true);
    var id, row := s.procs[p].pc.id, s.procs[p].op.row;
    assert ProcOk(s, s.procs[p].op, s.procs[p].pc) && Fits(s, s.procs[p].op, s.procs[p].pc);
    forall school: nat ensures Total(n.rows, n.next, school) <= Peak(n, school) {
      TotalInsert(s.rows, s.next, id, row, school);
    }
    forall q | 0 <= q < |n.procs|
      ensures ProcOk(n, n.procs[q].op, n.procs[q].pc) && Fits(n, n.procs[q].op, n.procs[q].pc)
    {
      if q != p {
        InsertSpares(s, p, q);
      }
    }
  }

  lemma InsertSpares(s: State, p: nat, q: nat)
    requires p < |s.procs| && q < |s.procs| && p != q && s.procs[p].pc.Approved? && Uploads(s.procs[p].op) && Inv(s)
    ensures var n := StepApproved(s, p, true);
      ProcOk(n, n.procs[q].op, n.procs[q].pc) && Fits(n, n.procs[q].op, n.procs[q].pc)
  {
    var n := StepApproved(s, p, true);
    var id, row := s.procs[p].pc.id, s.procs[p].op.row;
    var op, pc := s.procs[q].op, s.procs[q].pc;
    assert n.procs[q] == s.procs[q];
    assert ProcOk(s, op, pc) && Fits(s, op, pc) && ProcOk(s, s.procs[p].op, s.procs[p].pc);
    if Pending(pc).Some? {
      assert Pending(s.procs[if p < q then p else q].pc) != Pending(s.procs[if p < q then q else p].pc);
    }
    if pc.Approved? && Uploads(op) {
      assert s.locks[op.row.school] == q && s.locks[row.school] == p;
      TotalInsert(s.rows, s.next, id, row, op.row.school);
    }
  }

  lemma ForgetKeeps(s: State, p: nat)
    requires p < |s.procs| && s.procs[p].pc.Forgetting? && Inv(s)
    ensures Inv(StepForgetting(s, p))
  {
    var n := StepForgetting(s, p);
    var ids := s.procs[p].pc.ids;
    if ids == [] {
      MoveKeeps(s, p, Done);
    } else if ids[0] !in s.rows {
      MoveKeeps(s, p, Failed);
    } else {
      forall school: nat ensures Total(n.rows, n.next, school) <= Total(s.rows, s.next, school) {
        TotalShrinks(n.rows, s.rows, s.next, school);
      }
      forall q | 0 <= q < |n.procs|
        ensures ProcOk(n, n.procs[q].op, n.procs[q].pc) && Fits(n, n.procs[q].op, n.procs[q].pc)
      {
        if q != p {
          assert n.procs[q] == s.procs[q] && ProcOk(s, s.procs[q].op, s.procs[q].pc);
          assert Fits(s, s.procs[q].op, s.procs[q].pc);
        }
      }
    }
  }

  /** Bytes are only ever deleted for an id that has no row and that no upload is waiting on. */
  lemma DiscardKeeps(s: State, p: nat, id: nat, pc: Pc, ok: bool)
    requires p < |s.procs| && Inv(s) && id !in s.rows
    requires (s.procs[p].pc == Undo(id) && pc == Failed) || (s.procs[p].pc.Dropping? && s.procs[p].pc.id == id && pc.Forgetting?)
    ensures Inv(Moved(Discarded(s, id, ok), p, pc))
  {
    var n := Moved(Discarded(s, id, ok), p, pc);
    assert ProcOk(s, s.procs[p].op, s.procs[p].pc);
    forall q | 0 <= q < |n.procs|
      ensures ProcOk(n, n.procs[q].op, n.procs[q].pc) && Fits(n, n.procs[q].op, n.procs[q].pc)
    {
      if q != p {
        assert n.procs[q] == s.procs[q] && ProcOk(s, s.procs[q].op, s.procs[q].pc);
        assert Fits(s, s.procs[q].op, s.procs[q].pc);
        if Pending(s.procs[q].pc).Some? && s.procs[p].pc.Undo? {
          assert Pending(s.procs[if p < q then p else q].pc) != Pending(s.procs[if p < q then q else p].pc);
        }
      }
    }
  }

  lemma StepKeeps(s: State, p: nat, ok: bool)
    requires p < |s.procs| && Inv(s)
    ensures Inv(StepProc(s, p, ok))
  {
    var Proc(op, pc) := s.procs[p];
    assert ProcOk(s, op, pc);
    match pc
    case Begin =>
      if Uploads(op) && ok { PutKeeps(s, p); } else { BeginKeeps(s, p, ok); }
    case Stored(_) => LockKeeps(s, p);
    case Locked(id) =>
      if Total(s.rows, s.next, op.row.school) + op.row.size > Limit(s.limits, op.row.school) {
        MoveKeeps(s, p, Undo(id));
      } else {
        assert Limit(s.limits, op.row.school) <= Peak(s, op.row.school);
        MoveKeeps(s, p, Approved(id));
      }
    case Approved(id) => if ok { InsertKeeps(s, p); } else { MoveKeeps(s, p, Undo(id)); }
    case Undo(id) => DiscardKeeps(s, p, id, Failed, ok);
    case Inserted(id) =>
      if op.Upload? {
        MoveKeeps(s, p, Done);
      } else {
        MoveKeeps(s, p, Forgetting(Without(Linked(s.rows, s.next, op.row.school, op.row.purpose, op.row.link), id)));
      }
    case Forgetting(_) => ForgetKeeps(s, p);
    case Dropping(id, rest) => DiscardKeeps(s, p, id, Forgetting(rest), ok);
    case Done =>
    case Failed =>
    case Dead =>
  }

  lemma BeginKeeps(s: State, p: nat, ok: bool)
    requires p < |s.procs| && s.procs[p].pc.Begin? && Inv(s) && !(Uploads(s.procs[p].op) && ok)
    ensures Inv(StepBegin(s, p, ok))
  {
    MoveKeeps(s, p, Failed);
    match s.procs[p].op
    case Remove(id) => MoveKeeps(s, p, Forgetting([id]));
    case RemoveLinked(school, purpose, link) => MoveKeeps(s, p, Forgetting(Linked(s.rows, s.next, school, purpose, link)));
    case _ =>
  }

  lemma StartKeeps(s: State, op: Op)
    requires Inv(s)
    ensures Inv(Next(s, Start(op)))
  {
    if !WellAsked(op) { return; }
    var n := Next(s, Start(op));
    forall q | 0 <= q < |n.procs|
      ensures ProcOk(n, n.procs[q].op, n.procs[q].pc) && Fits(n, n.procs[q].op, n.procs[q].pc)
    {
      if q < |s.procs| {
        assert n.procs[q] == s.procs[q] && ProcOk(s, s.procs[q].op, s.procs[q].pc);
        assert Fits(s, s.procs[q].op, s.procs[q].pc);
      }
    }
  }

  lemma LimitKeeps(s: State, school: nat, bytes: nat)
    requires Inv(s)
    ensures Inv(StepLimit(s, school, bytes))
  {
    var n := StepLimit(s, school, bytes);
    forall x: nat ensures Peak(s, x) <= Peak(n, x) && Limit(n.limits, x) <= Peak(n, x) {
      assert Limit(s.limits, x) <= Peak(s, x);
    }
    forall q | 0 <= q < |n.procs|
      ensures ProcOk(n, n.procs[q].op, n.procs[q].pc) && Fits(n, n.procs[q].op, n.procs[q].pc)
    {
      assert ProcOk(s, s.procs[q].op, s.procs[q].pc) && Fits(s, s.procs[q].op, s.procs[q].pc);
    }
    forall x: nat ensures Total(n.rows, n.next, x) <= Peak(n, x) {
      assert Total(s.rows, s.next, x) <= Peak(s, x);
    }
  }

  lemma AttachKeeps(s: State, id: nat, payment: nat)
    requires Inv(s)
    ensures Inv(Next(s, Attach(id, payment)))
  {
    if id in s.rows {
      var n := Next(s, Attach(id, payment));
      forall x: nat ensures Total(n.rows, n.next, x) == Total(s.rows, s.next, x) {
        TotalAgrees(n.rows, s.rows, s.next, x);
      }
      forall q | 0 <= q < |n.procs|
        ensures ProcOk(n, n.procs[q].op, n.procs[q].pc) && Fits(n, n.procs[q].op, n.procs[q].pc)
      {
        assert ProcOk(s, s.procs[q].op, s.procs[q].pc) && Fits(s, s.procs[q].op, s.procs[q].pc);
      }
    }
  }

  lemma {:induction false} TotalOfNothing(n: nat, school: nat)
    ensures Total(map[], n, school) == 0
  {
    if n > 0 { TotalOfNothing(n - 1, school); }
  }

  lemma {:induction false} EveryRunHolds(events: seq<Event>)
    ensures Inv(Run(events))
  {
    if events != [] {
      var before := Run(events[..|events| - 1]);
      EveryRunHolds(events[..|events| - 1]);
      match events[|events| - 1]
      case Start(op) => StartKeeps(before, op);
      case Advance(p, ok) => if p < |before.procs| { StepKeeps(before, p, ok); }
      case Crash(p) => if p < |before.procs| { MoveKeeps(before, p, Dead); }
      case SetLimit(school, bytes) => LimitKeeps(before, school, bytes);
      case Attach(id, payment) => AttachKeeps(before, id, payment);
    } else {
      forall school: nat ensures Total(START.rows, START.next, school) == 0 { TotalOfNothing(0, school); }
    }
  }

  // ---------------------------------------------------------------------------
  // The theorems
  // ---------------------------------------------------------------------------

  /** At every step of every interleaving, crashes and failed calls included, a file row has its bytes. */
  lemma EveryRowHasItsBytes(events: seq<Event>)
    ensures var s := Run(events); s.rows.Keys <= s.objects
  {
    EveryRunHolds(events);
  }

  /** No school's files ever add up to more than the highest limit it has had. */
  lemma QuotaIsNeverOverrun(events: seq<Event>, school: nat)
    ensures var s := Run(events); Total(s.rows, s.next, school) <= Peak(s, school)
  {
    EveryRunHolds(events);
  }

  /** Every limit set is at least the one before it. */
  ghost predicate NeverLowered(events: seq<Event>, school: nat) {
    forall i | 0 <= i < |events| && events[i].SetLimit? && events[i].school == school ::
      Limit(Run(events[..i]).limits, school) <= events[i].bytes
  }

  /** Only one process has moved, and no limit. */
  ghost predicate Local(s: State, n: State, p: nat) {
    && p < |s.procs| == |n.procs| && n.procs[p].op == s.procs[p].op && n.limits == s.limits && n.peak == s.peak
    && (forall q | 0 <= q < |s.procs| && q != p :: n.procs[q] == s.procs[q])
  }

  lemma BeginIsLocal(s: State, p: nat, ok: bool)
    requires p < |s.procs| && s.procs[p].pc.Begin?
    ensures Local(s, StepBegin(s, p, ok), p)
  {
    hide Linked;
  }

  lemma InsertIsLocal(s: State, p: nat, ok: bool)
    requires p < |s.procs| && s.procs[p].pc.Approved? && Uploads(s.procs[p].op)
    ensures Local(s, StepApproved(s, p, ok), p)
  {
  }

  lemma CheckIsLocal(s: State, p: nat)
    requires p < |s.procs| && s.procs[p].pc.Locked? && Uploads(s.procs[p].op)
    ensures Local(s, StepLocked(s, p), p)
  {
    hide Total, Limit;
  }

  lemma InsertedIsLocal(s: State, p: nat)
    requires p < |s.procs| && s.procs[p].pc.Inserted? && Uploads(s.procs[p].op)
    ensures Local(s, StepInserted(s, p), p)
  {
    hide Linked, Without;
  }

  /** A step moves one process. */
  lemma StepIsLocal(s: State, p: nat, ok: bool)
    requires p < |s.procs|
    ensures Local(s, StepProc(s, p, ok), p)
  {
    hide StepBegin, StepApproved, StepLocked, StepInserted;
    match s.procs[p].pc
    case Begin => BeginIsLocal(s, p, ok);
    case Stored(_) =>
    case Locked(_) => if Uploads(s.procs[p].op) { CheckIsLocal(s, p); }
    case Approved(_) => if Uploads(s.procs[p].op) { InsertIsLocal(s, p, ok); }
    case Undo(_) =>
    case Inserted(_) => if Uploads(s.procs[p].op) { InsertedIsLocal(s, p); }
    case Forgetting(_) =>
    case Dropping(_, _) =>
    case Done =>
    case Failed =>
    case Dead =>
  }

  lemma NextKeepsPeak(s: State, e: Event, school: nat)
    requires Peak(s, school) == Limit(s.limits, school)
    requires e.SetLimit? && e.school == school ==> Limit(s.limits, school) <= e.bytes
    ensures Peak(Next(s, e), school) == Limit(Next(s, e).limits, school)
  {
    hide StepProc;
    if e.Advance? && e.p < |s.procs| { StepIsLocal(s, e.p, e.ok); }
  }

  lemma {:induction false} PeakIsLimit(events: seq<Event>, school: nat)
    requires NeverLowered(events, school)
    ensures Peak(Run(events), school) == Limit(Run(events).limits, school)
  {
    hide Next, StepProc;
    if events != [] {
      var shorter := events[..|events| - 1];
      forall i | 0 <= i < |shorter| ensures shorter[..i] == events[..i] {}
      PeakIsLimit(shorter, school);
      var last := events[|events| - 1];
      assert last.SetLimit? && last.school == school ==> Limit(Run(events[..|events| - 1]).limits, school) <= last.bytes;
      NextKeepsPeak(Run(shorter), last, school);
    }
  }

  /** While the limit is never lowered, the stored total is within it. */
  lemma WithinTheLimit(events: seq<Event>, school: nat)
    requires NeverLowered(events, school)
    ensures var s := Run(events); Total(s.rows, s.next, school) <= Limit(s.limits, school)
  {
    QuotaIsNeverOverrun(events, school);
    PeakIsLimit(events, school);
  }

  // ---------------------------------------------------------------------------
  // Evidence of payments
  // ---------------------------------------------------------------------------

  /** The files a process has read and is yet to delete, in order. */
  function ToForget(pc: Pc): seq<nat> {
    match pc
    case Forgetting(ids) => ids
    case Dropping(_, rest) => rest
    case _ => []
  }

  /** The process will come to this file: everything before it on the list is still on file. */
  ghost predicate Reaches(s: State, pc: Pc, id: nat) { exists k :: ReachesAt(s.rows, ToForget(pc), id, k) }

  ghost predicate ReachesAt(rows: map<nat, Row>, ids: seq<nat>, id: nat, k: nat) {
    k < |ids| && ids[k] == id && forall j | 0 <= j < k :: ids[j] in rows
  }

  ghost predicate Asked(s: State) {
    forall p | 0 <= p < |s.procs| :: WellAsked(s.procs[p].op)
  }

  ghost predicate EvidenceRow(s: State, id: nat) { id in s.rows && s.rows[id].link.Payment? }

  /** The file is evidence of a payment, and no process will come to it. */
  ghost predicate Evidence(s: State, id: nat) {
    EvidenceRow(s, id) && forall p | 0 <= p < |s.procs| :: !Reaches(s, s.procs[p].pc, id)
  }

  lemma {:induction false} LinkedAre(rows: map<nat, Row>, n: nat, school: nat, purpose: nat, link: Link, id: nat)
    ensures id in Linked(rows, n, school, purpose, link) <==> id < n && IsLinked(rows, id, school, purpose, link)
  {
    if n > 0 { LinkedAre(rows, n - 1, school, purpose, link, id); }
  }

  lemma {:induction false} WithoutAre(ids: seq<nat>, gone: nat, id: nat)
    ensures id in Without(ids, gone) <==> id in ids && id != gone
  {
    if ids != [] {
      WithoutAre(ids[..|ids| - 1], gone, id);
      assert ids == ids[..|ids| - 1] + [ids[|ids| - 1]];
    }
  }

  predicate Ascending(ids: seq<nat>) { forall i, j | 0 <= i < j < |ids| :: ids[i] < ids[j] }

  lemma {:induction false} LinkedAscends(rows: map<nat, Row>, n: nat, school: nat, purpose: nat, link: Link)
    ensures Ascending(Linked(rows, n, school, purpose, link))
    ensures forall id | id in Linked(rows, n, school, purpose, link) :: id < n && id in rows
  {
    if n > 0 {
      LinkedAscends(rows, n - 1, school, purpose, link);
      var rest := Linked(rows, n - 1, school, purpose, link);
      assert forall i | 0 <= i < |rest| :: rest[i] in rest;
    }
  }

  lemma {:induction false} WithoutAscends(ids: seq<nat>, gone: nat)
    requires Ascending(ids)
    ensures Ascending(Without(ids, gone)) && forall id | id in Without(ids, gone) :: id in ids
  {
    if ids != [] {
      WithoutAscends(ids[..|ids| - 1], gone);
      var rest := Without(ids[..|ids| - 1], gone);
      assert forall i | 0 <= i < |rest| :: rest[i] in rest && rest[i] in ids[..|ids| - 1];
    }
  }

  /** A list names each file once, and only files that were on file when it was read. */
  ghost predicate ListOk(s: State, pc: Pc) {
    Ascending(ToForget(pc)) && forall id | id in ToForget(pc) :: id in s.ever
  }

  ghost predicate ListsOk(s: State) { forall p | 0 <= p < |s.procs| :: ListOk(s, s.procs[p].pc) }

  /** The list a deletion or a replacement reads. */
  lemma ReadsList(s: State, p: nat, ok: bool)
    requires p < |s.procs| && TableOk(s) && (s.procs[p].pc.Begin? || (s.procs[p].pc.Inserted? && Uploads(s.procs[p].op)))
    ensures p < |StepProc(s, p, ok).procs| && ListOk(s, StepProc(s, p, ok).procs[p].pc)
  {
    hide Linked, Without;
    var Proc(op, pc) := s.procs[p];
    if op.RemoveLinked? {
      LinkedAscends(s.rows, s.next, op.school, op.purpose, op.link);
    } else if op.Replace? {
      LinkedAscends(s.rows, s.next, op.row.school, op.row.purpose, op.row.link);
      if pc.Inserted? { WithoutAscends(Linked(s.rows, s.next, op.row.school, op.row.purpose, op.row.link), pc.id); }
    }
  }

  lemma StepKeepsList(s: State, p: nat, ok: bool)
    requires p < |s.procs| && TableOk(s) && ProcOk(s, s.procs[p].op, s.procs[p].pc) && ListOk(s, s.procs[p].pc)
    ensures p < |StepProc(s, p, ok).procs| && ListOk(StepProc(s, p, ok), StepProc(s, p, ok).procs[p].pc)
  {
    hide StepBegin, StepInserted, StepLocked, StepApproved, StepStored;
    StepIsLocal(s, p, ok);
    StepOnlyGoes(s, p, ok);
    match s.procs[p].pc
    case Begin => ReadsList(s, p, ok);
    case Inserted(_) => ReadsList(s, p, ok);
    case Forgetting(_) =>
    case Dropping(_, _) =>
    case _ => NoListYet(s, p, ok);
  }

  lemma UploadReadsNoList(s: State, p: nat, ok: bool)
    requires p < |s.procs| && Uploads(s.procs[p].op)
    requires s.procs[p].pc.Stored? || s.procs[p].pc.Locked? || s.procs[p].pc.Approved?
    ensures var n := if s.procs[p].pc.Stored? then StepStored(s, p)
                     else if s.procs[p].pc.Locked? then StepLocked(s, p) else StepApproved(s, p, ok);
      p < |n.procs| && ToForget(n.procs[p].pc) == []
  {
    hide Total, Limit;
  }

  lemma NoListYet(s: State, p: nat, ok: bool)
    requires p < |s.procs| && !s.procs[p].pc.Begin? && !s.procs[p].pc.Forgetting? && !s.procs[p].pc.Dropping?
    requires s.procs[p].pc.Inserted? ==> !Uploads(s.procs[p].op)
    ensures p < |StepProc(s, p, ok).procs| && ToForget(StepProc(s, p, ok).procs[p].pc) == []
  {
    hide StepLocked, StepApproved, StepStored, StepInserted, StepBegin;
    var pc := s.procs[p].pc;
    if Uploads(s.procs[p].op) && (pc.Stored? || pc.Locked? || pc.Approved?) { UploadReadsNoList(s, p, ok); }
  }

  /** Rows are never brought back, and what has been a row is remembered. */
  ghost predicate OnlyGoes(s: State, n: State) {
    && s.ever <= n.ever
    && forall id | id in n.rows && id in s.ever :: id in s.rows
  }

  lemma StepOnlyGoes(s: State, p: nat, ok: bool)
    requires p < |s.procs| && TableOk(s) && ProcOk(s, s.procs[p].op, s.procs[p].pc)
    ensures OnlyGoes(s, StepProc(s, p, ok))
  {
    hide Linked, Without, Total, Limit;
  }

  lemma NextOnlyGoes(s: State, e: Event)
    requires Inv(s)
    ensures OnlyGoes(s, Next(s, e))
  {
    hide StepProc;
    if e.Advance? && e.p < |s.procs| { StepOnlyGoes(s, e.p, e.ok); }
  }

  lemma NextKeepsLists(s: State, e: Event)
    requires Inv(s) && ListsOk(s)
    ensures ListsOk(Next(s, e))
  {
    hide StepProc;
    var n := Next(s, e);
    NextOnlyGoes(s, e);
    if e.Advance? && e.p < |s.procs| {
      StepIsLocal(s, e.p, e.ok);
      StepKeepsList(s, e.p, e.ok);
    }
    forall p | 0 <= p < |n.procs| ensures ListOk(n, n.procs[p].pc) {
      if p < |s.procs| { assert ListOk(s, s.procs[p].pc); }
    }
  }

  lemma {:induction false} EveryRunListsOnce(events: seq<Event>)
    ensures ListsOk(Run(events))
  {
    hide Next;
    if events != [] {
      EveryRunListsOnce(events[..|events| - 1]);
      EveryRunHolds(events[..|events| - 1]);
      NextKeepsLists(Run(events[..|events| - 1]), events[|events| - 1]);
    }
  }

  /** A list that does not come to a file never will: what is gone stays gone. */
  lemma StaysUnreached(s: State, n: State, pc: Pc, id: nat)
    requires OnlyGoes(s, n) && ListOk(s, pc) && !Reaches(s, pc, id)
    ensures !Reaches(n, pc, id)
  {
    forall k: nat ensures ReachesAt(n.rows, ToForget(pc), id, k) ==> ReachesAt(s.rows, ToForget(pc), id, k) {}
  }

  /** Deleting the head of the list brings the process one file nearer. */
  lemma ForgetsUnreached(s: State, p: nat, id: nat)
    requires p < |s.procs| && s.procs[p].pc.Forgetting? && !Reaches(s, s.procs[p].pc, id) && id in s.rows
    ensures var n := StepForgetting(s, p);
      id in n.rows && n.rows[id] == s.rows[id] && !Reaches(n, n.procs[p].pc, id)
  {
    var n, ids := StepForgetting(s, p), s.procs[p].pc.ids;
    if ids != [] && ids[0] in s.rows {
      assert ToForget(s.procs[p].pc) == ids && ToForget(n.procs[p].pc) == ids[1..];
      assert ids[0] == id ==> ReachesAt(s.rows, ids, id, 0);
      forall k: nat ensures ReachesAt(n.rows, ids[1..], id, k) ==> ReachesAt(s.rows, ids, id, k + 1) {
        assert forall j | 0 < j < |ids| :: ids[j] == ids[1..][j - 1];
      }
    }
  }

  /** Any other step leaves the row, and puts no evidence on its list. */
  lemma OtherStepUnreached(s: State, p: nat, ok: bool, id: nat)
    requires p < |s.procs| && !s.procs[p].pc.Forgetting? && WellAsked(s.procs[p].op)
    requires TableOk(s) && ProcOk(s, s.procs[p].op, s.procs[p].pc)
    requires EvidenceRow(s, id) && !Reaches(s, s.procs[p].pc, id)
    ensures var n := StepProc(s, p, ok); EvidenceRow(n, id) && p < |n.procs| && !Reaches(n, n.procs[p].pc, id)
  {
    hide StepProc;
    var pc := s.procs[p].pc;
    OtherStepKeepsRow(s, p, ok, id);
    if pc.Begin? || (pc.Inserted? && Uploads(s.procs[p].op)) {
      ReadsNoEvidence(s, p, ok, id);
      NothingListed(StepProc(s, p, ok), StepProc(s, p, ok).procs[p].pc, id);
    } else if pc.Dropping? {
      DropsOn(s, p, ok);
    } else {
      NoListYet(s, p, ok);
    }
  }

  lemma OtherStepKeepsRow(s: State, p: nat, ok: bool, id: nat)
    requires p < |s.procs| && !s.procs[p].pc.Forgetting? && EvidenceRow(s, id)
    requires TableOk(s) && ProcOk(s, s.procs[p].op, s.procs[p].pc)
    ensures EvidenceRow(StepProc(s, p, ok), id)
  {
    hide Total, Limit, Linked, Without;
  }

  /** What a deletion or a replacement reads leaves the evidence of payments out. */
  lemma ReadsNoEvidence(s: State, p: nat, ok: bool, id: nat)
    requires p < |s.procs| && WellAsked(s.procs[p].op) && EvidenceRow(s, id)
    requires s.procs[p].pc.Begin? || (s.procs[p].pc.Inserted? && Uploads(s.procs[p].op))
    ensures p < |StepProc(s, p, ok).procs| && id !in ToForget(StepProc(s, p, ok).procs[p].pc)
  {
    hide Linked, Without;
    var Proc(op, pc) := s.procs[p];
    if op.RemoveLinked? {
      LinkedAre(s.rows, s.next, op.school, op.purpose, op.link, id);
    } else if op.Replace? {
      LinkedAre(s.rows, s.next, op.row.school, op.row.purpose, op.row.link, id);
      if pc.Inserted? { WithoutAre(Linked(s.rows, s.next, op.row.school, op.row.purpose, op.row.link), pc.id, id); }
    }
  }

  lemma DropsOn(s: State, p: nat, ok: bool)
    requires p < |s.procs| && s.procs[p].pc.Dropping?
    ensures var n := StepProc(s, p, ok);
      p < |n.procs| && ToForget(n.procs[p].pc) == ToForget(s.procs[p].pc) && n.rows == s.rows
  {
  }

  lemma StepKeepsEvidence(s: State, p: nat, ok: bool, id: nat)
    requires p < |s.procs| && Inv(s) && ListsOk(s) && Asked(s) && Evidence(s, id)
    ensures Evidence(StepProc(s, p, ok), id)
  {
    hide StepProc, Reaches;
    var n := StepProc(s, p, ok);
    assert ProcOk(s, s.procs[p].op, s.procs[p].pc);
    StepIsLocal(s, p, ok);
    StepOnlyGoes(s, p, ok);
    if s.procs[p].pc.Forgetting? {
      ForgetStep(s, p, ok);
      ForgetsUnreached(s, p, id);
    } else {
      OtherStepUnreached(s, p, ok, id);
    }
    forall q | 0 <= q < |n.procs| ensures !Reaches(n, n.procs[q].pc, id) {
      if q != p {
        assert n.procs[q] == s.procs[q] && ListOk(s, s.procs[q].pc);
        StaysUnreached(s, n, s.procs[q].pc, id);
      }
    }
  }

  lemma ForgetStep(s: State, p: nat, ok: bool)
    requires p < |s.procs| && s.procs[p].pc.Forgetting?
    ensures StepProc(s, p, ok) == StepForgetting(s, p)
  {
  }

  lemma NothingListed(s: State, pc: Pc, id: nat)
    requires id !in ToForget(pc)
    ensures !Reaches(s, pc, id)
  {
  }

  lemma NextKeepsEvidence(s: State, e: Event, id: nat)
    requires Inv(s) && ListsOk(s) && Asked(s) && Evidence(s, id)
    ensures Evidence(Next(s, e), id)
  {
    hide StepProc, Reaches;
    var n := Next(s, e);
    if e.Advance? {
      if e.p < |s.procs| { StepKeepsEvidence(s, e.p, e.ok, id); }
    } else {
      NextOnlyGoes(s, e);
      forall q | 0 <= q < |n.procs| ensures !Reaches(n, n.procs[q].pc, id) {
        if q < |s.procs| && n.procs[q] == s.procs[q] {
          assert ListOk(s, s.procs[q].pc);
          StaysUnreached(s, n, s.procs[q].pc, id);
        } else {
          NothingListed(n, n.procs[q].pc, id);
        }
      }
    }
  }

  lemma {:induction false} EveryRunAsked(events: seq<Event>)
    ensures Asked(Run(events))
  {
    hide StepProc;
    if events != [] {
      var before := Run(events[..|events| - 1]);
      EveryRunAsked(events[..|events| - 1]);
      match events[|events| - 1]
      case Start(_) =>
      case Advance(p, ok) => if p < |before.procs| { StepIsLocal(before, p, ok); }
      case Crash(_) =>
      case SetLimit(_, _) =>
      case Attach(_, _) =>
    }
  }

  /** Whatever runs afterwards, evidence that no process comes to stays, row and bytes. */
  lemma {:induction false} EvidenceStays(events: seq<Event>, more: seq<Event>, id: nat)
    requires Evidence(Run(events), id)
    ensures Evidence(Run(events + more), id) && id in Run(events + more).objects
  {
    hide Next, Reaches;
    EveryRunHolds(events + more);
    if more == [] {
      assert events + more == events;
    } else {
      var shorter := events + more[..|more| - 1];
      assert (events + more)[..|events + more| - 1] == shorter;
      EvidenceStays(events, more[..|more| - 1], id);
      EveryRunHolds(shorter);
      EveryRunListsOnce(shorter);
      EveryRunAsked(shorter);
      NextKeepsEvidence(Run(shorter), more[|more| - 1], id);
    }
  }

  // ---------------------------------------------------------------------------
  // And otherwise it may go
  // ---------------------------------------------------------------------------

  /** A process that is to drop bytes first is one step from the rest of its list. */
  lemma DropStep(s: State, p: nat)
    requires p < |s.procs| && s.procs[p].pc.Dropping?
    ensures var n := Next(s, Advance(p, true));
      p < |n.procs| && n.procs[p].pc == Forgetting(s.procs[p].pc.rest) && n.rows == s.rows
  {
  }

  lemma ForgetHead(s: State, p: nat)
    requires p < |s.procs| && s.procs[p].pc.Forgetting? && s.procs[p].pc.ids != [] && s.procs[p].pc.ids[0] in s.rows
    ensures var n, ids := Next(s, Advance(p, true)), s.procs[p].pc.ids;
      p < |n.procs| && n.procs[p].pc == Dropping(ids[0], ids[1..]) && n.rows == s.rows - {ids[0]}
  {
  }

  /** Left to run, a process that comes to a file deletes its row. */
  lemma {:induction false} Deletes(events: seq<Event>, p: nat, k: nat) returns (more: seq<Event>)
    requires p < |Run(events).procs| && k < |ToForget(Run(events).procs[p].pc)|
    requires forall j | 0 <= j <= k :: ToForget(Run(events).procs[p].pc)[j] in Run(events).rows
    ensures ToForget(Run(events).procs[p].pc)[k] !in Run(events + more).rows
    ensures forall i | 0 <= i < |more| :: more[i] == Advance(p, true)
    decreases k, if Run(events).procs[p].pc.Dropping? then 1 else 0
  {
    hide Next, Run;
    var s := Run(events);
    var list, next := ToForget(s.procs[p].pc), events + [Advance(p, true)];
    RunAppend(events, Advance(p, true));
    EveryRunListsOnce(events);
    assert ListOk(s, s.procs[p].pc);
    if s.procs[p].pc.Dropping? {
      DropStep(s, p);
      more := Deletes(next, p, k);
      assert next + more == events + ([Advance(p, true)] + more);
      more := [Advance(p, true)] + more;
    } else {
      ForgetHead(s, p);
      if k == 0 {
        more := [Advance(p, true)];
      } else {
        forall j | 0 <= j <= k - 1 ensures list[1..][j] in Run(next).rows { assert list[0] < list[j + 1]; }
        more := Deletes(next, p, k - 1);
        assert next + more == events + ([Advance(p, true)] + more);
        more := [Advance(p, true)] + more;
      }
    }
  }

  ghost predicate Kept(events: seq<Event>, id: nat) { id in Run(events).rows && id in Run(events).objects }

  lemma ReachedGoes(events: seq<Event>, p: nat, id: nat) returns (more: seq<Event>)
    requires var s := Run(events); id in s.rows && p < |s.procs| && Reaches(s, s.procs[p].pc, id)
    ensures !Kept(events + more, id) && forall i | 0 <= i < |more| :: more[i] == Advance(p, true)
  {
    var s := Run(events);
    var list := ToForget(s.procs[p].pc);
    var k: nat :| ReachesAt(s.rows, list, id, k);
    more := Deletes(events, p, k);
  }

  /**
   * The evidence of a payment survives every continuation, row and bytes, exactly when no
   * process will come to it: wherever it stands on a list already read, a file before it
   * is gone, and the loop will stop there.
   */
  lemma EvidenceSurvivesIff(events: seq<Event>, id: nat)
    requires EvidenceRow(Run(events), id)
    ensures (forall more: seq<Event> :: Kept(events + more, id)) <==>
      forall p | 0 <= p < |Run(events).procs| :: !Reaches(Run(events), Run(events).procs[p].pc, id)
  {
    hide Run, Reaches, Kept;
    var s := Run(events);
    if Evidence(s, id) {
      forall more: seq<Event> ensures Kept(events + more, id) {
        EvidenceStays(events, more, id);
        IsKept(events + more, id);
      }
    } else {
      var p :| 0 <= p < |s.procs| && Reaches(s, s.procs[p].pc, id);
      var more := ReachedGoes(events, p, id);
    }
  }

  lemma IsKept(events: seq<Event>, id: nat)
    requires Evidence(Run(events), id) && id in Run(events).objects
    ensures Kept(events, id)
  {
  }

  lemma RunAppend(events: seq<Event>, e: Event)
    ensures Run(events + [e]) == Next(Run(events), e)
  {
    assert (events + [e])[..|events|] == events;
  }

  /** An upload, up to its committed row. */
  function Uploading(row: Row): seq<Event> {
    [Start(Upload(row)), Advance(0, true), Advance(0, true), Advance(0, true), Advance(0, true)]
  }

  lemma UploadingRuns(row: Row)
    requires row.size <= DEFAULT_LIMIT
    ensures Run(Uploading(row))
            == State({0}, map[0 := row], map[], map[], [Proc(Upload(row), Inserted(0))], 1, {0}, map[])
  {
    var a := [Start(Upload(row))];
    RunAppend([], a[0]);
    assert [] + a == a;
    RunAppend(a, Advance(0, true));
    var b := a + [Advance(0, true)];
    assert Run(b) == State({0}, map[], map[], map[], [Proc(Upload(row), Stored(0))], 1, {}, map[]);
    RunAppend(b, Advance(0, true));
    var c := b + [Advance(0, true)];
    assert Run(c) == State({0}, map[], map[], map[row.school := 0], [Proc(Upload(row), Locked(0))], 1, {}, map[]);
    TotalOfNothing(1, row.school);
    RunAppend(c, Advance(0, true));
    var d := c + [Advance(0, true)];
    assert Run(d) == State({0}, map[], map[], map[row.school := 0], [Proc(Upload(row), Approved(0))], 1, {}, map[]);
    RunAppend(d, Advance(0, true));
    assert Uploading(row) == d + [Advance(0, true)];
  }

  /** Such a process exists: a removal that read the file before it became evidence deletes it after. */
  lemma RemovalAlreadyDecidedWins(row: Row)
    requires row.size <= DEFAULT_LIMIT && !row.link.Payment?
    ensures var attached := Uploading(row) + [Start(Remove(0))] + [Advance(1, true)] + [Attach(0, 7)];
      && 0 in Run(attached).rows && Run(attached).rows[0].link == Payment(7)
      && 0 !in Run(attached + [Advance(1, true)]).rows
  {
    UploadingRuns(row);
    var a := Uploading(row) + [Start(Remove(0))];
    RunAppend(Uploading(row), Start(Remove(0)));
    RunAppend(a, Advance(1, true));
    RunAppend(a + [Advance(1, true)], Attach(0, 7));
    RunAppend(a + [Advance(1, true)] + [Attach(0, 7)], Advance(1, true));
  }
}
