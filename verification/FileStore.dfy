/**
 * The object store and the file table, written in place by the statements of the file
 * service. An upload and a replacement are then put together from those statements, with
 * the calls to the store and the commit free to fail.
 */
module FileStore {
  import opened Wrappers
  import opened FileStorage
  import opened Sequences

  function Elements(ids: seq<nat>): set<nat> { set id | id in ids }

  predicate FitsQuota(s: State, row: Row) {
    Total(s.rows, s.next, row.school) + row.size <= Limit(s.limits, row.school)
  }

  /** The file and its bytes are there, under an id not used before, and nothing else has changed. */
  ghost predicate Added(s: State, n: State, id: nat, row: Row) {
    && id == s.next && id !in s.rows
    && n.rows == s.rows[id := row] && n.objects == s.objects + {id}
  }

  /** No row is added; the bytes put first are gone again if they could be deleted. */
  ghost predicate NotAdded(s: State, n: State, cleaned: bool) {
    n.rows == s.rows && s.objects <= n.objects <= s.objects + {s.next} && (cleaned ==> n.objects == s.objects)
  }

  /** The new file has taken the place of whatever was linked there; every other file stays as it was. */
  ghost predicate Displaced(s: State, n: State, id: nat, row: Row) {
    && (forall k :: IsLinked(n.rows, k, row.school, row.purpose, row.link) <==> k == id)
    && (forall k | k in s.rows && !IsLinked(s.rows, k, row.school, row.purpose, row.link) ::
          k in n.rows && n.rows[k] == s.rows[k])
    && (forall k | k in n.rows && k != id :: k in s.rows)
  }

  class FileTables {
    var objects: set<nat>
    var rows: map<nat, Row>
    var limits: map<nat, nat>
    var locks: map<nat, nat>
    var procs: seq<Proc>
    var next: nat
    ghost var ever: set<nat>
    ghost var peak: map<nat, nat>

    ghost function View(): State
      reads this
    {
      State(objects, rows, limits, locks, procs, next, ever, peak)
    }

    constructor ()
      ensures View() == START
    {
      objects, rows, limits, locks, procs, next, ever, peak := {}, map[], map[], map[], [], 0, {}, map[];
    }

    /** aggregate({ _sum: { sizeBytes } }) over the school's rows. */
    method UsedBytes(school: nat) returns (used: nat)
      ensures used == Total(rows, next, school)
    {
      used := 0;
      for id := 0 to next
        invariant used == Total(rows, id, school)
      {
        if id in rows && rows[id].school == school { used := used + rows[id].size; }
      }
    }

    method FindLinked(school: nat, purpose: nat, link: Link) returns (ids: seq<nat>)
      ensures ids == Linked(rows, next, school, purpose, link)
    {
      ids := [];
      for id := 0 to next
        invariant ids == Linked(rows, id, school, purpose, link)
      {
        if id in rows && rows[id].school == school && rows[id].purpose == purpose && rows[id].link == link {
          ids := ids + [id];
        }
      }
    }

    method Put(p: nat, ok: bool)
      requires p < |procs| && procs[p].pc.Begin? && Uploads(procs[p].op)
      modifies this
      ensures View() == StepBegin(old(View()), p, ok)
    {
      if ok {
        objects := objects + {next};
        procs := procs[p := procs[p].(pc := Stored(next))];
        next := next + 1;
      } else {
        procs := procs[p := procs[p].(pc := Failed)];
      }
    }

    method LockSchool(p: nat)
      requires p < |procs| && procs[p].pc.Stored? && Uploads(procs[p].op)
      modifies this
      ensures View() == StepStored(old(View()), p)
    {
      var school := procs[p].op.row.school;
      if school !in locks {
        locks := locks[school := p];
        procs := procs[p := procs[p].(pc := Locked(procs[p].pc.id))];
      }
    }

    /** assertWithinQuota: refused, the transaction rolls back and the bytes are discarded. */
    method CheckQuota(p: nat)
      requires p < |procs| && procs[p].pc.Locked? && Uploads(procs[p].op)
      modifies this
      ensures View() == StepLocked(old(View()), p)
    {
      var row := procs[p].op.row;
      var limit := if row.school in limits then limits[row.school] else DEFAULT_LIMIT;
      var used := UsedBytes(row.school);
      if used + row.size > limit {
        locks := locks - {row.school};
        procs := procs[p := procs[p].(pc := Undo(procs[p].pc.id))];
      } else {
        procs := procs[p := procs[p].(pc := Approved(procs[p].pc.id))];
      }
    }

    method InsertRow(p: nat, ok: bool)
      requires p < |procs| && procs[p].pc.Approved? && Uploads(procs[p].op)
      modifies this
      ensures View() == StepApproved(old(View()), p, ok)
    {
      var row, id := procs[p].op.row, procs[p].pc.id;
      if ok {
        rows := rows[id := row];
        ever := ever + {id};
        procs := procs[p := procs[p].(pc := Inserted(id))];
      } else {
        procs := procs[p := procs[p].(pc := Undo(id))];
      }
      locks := locks - {row.school};
    }

    /** The files a replacement displaces: what is linked in its place, but for itself. */
    method FindPrevious(p: nat)
      requires p < |procs| && procs[p].pc.Inserted? && procs[p].op.Replace?
      modifies this
      ensures View() == StepInserted(old(View()), p)
    {
      var row, own := procs[p].op.row, procs[p].pc.id;
      var linked := FindLinked(row.school, row.purpose, row.link);
      var previous: seq<nat> := [];
      for i := 0 to |linked|
        invariant previous == Without(linked[..i], own)
      {
        assert linked[..i + 1][..i] == linked[..i];
        if linked[i] != own { previous := previous + [linked[i]]; }
      }
      assert linked[..|linked|] == linked;
      procs := procs[p := procs[p].(pc := Forgetting(previous))];
    }

    /** The row of the next file to forget goes first. */
    method DeleteRow(p: nat)
      requires p < |procs| && procs[p].pc.Forgetting?
      modifies this
      ensures View() == StepForgetting(old(View()), p)
    {
      var ids := procs[p].pc.ids;
      if ids == [] {
        procs := procs[p := procs[p].(pc := Done)];
      } else if ids[0] !in rows {
        procs := procs[p := procs[p].(pc := Failed)];
      } else {
        rows := rows - {ids[0]};
        procs := procs[p := procs[p].(pc := Dropping(ids[0], ids[1..]))];
      }
    }

    /** discard, after a refused upload or a deleted row. */
    method Discard(p: nat, ok: bool)
      requires p < |procs| && (procs[p].pc.Undo? || procs[p].pc.Dropping?)
      modifies this
      ensures View() == StepProc(old(View()), p, ok)
    {
      var id := procs[p].pc.id;
      if ok { objects := objects - {id}; }
      procs := procs[p := procs[p].(pc := if procs[p].pc.Undo? then Failed else Forgetting(procs[p].pc.rest))];
    }

    // -------------------------------------------------------------------------
    // Whole requests, with the school's lock free
    // -------------------------------------------------------------------------

    /** The school's lock, and the quota under it. */
    method Approve(p: nat)
      requires Inv(View()) && p < |procs| && procs[p].pc.Stored? && Uploads(procs[p].op)
      requires procs[p].op.row.school !in locks
      modifies this
      ensures Inv(View()) && rows == old(rows) && objects == old(objects) && next == old(next)
      ensures |procs| == |old(procs)| && procs[p].op == old(procs[p].op)
      ensures var row, id := old(procs[p].op.row), old(procs[p].pc.id);
        procs[p].pc == (if FitsQuota(old(View()), row) then Approved(id) else Undo(id))
      ensures locks == if procs[p].pc.Approved? then old(locks)[procs[p].op.row.school := p] else old(locks)
    {
      hide Inv, Total, Limit;
      ghost var v := View();
      LockSchool(p);
      StepKeeps(v, p, true);
      v := View();
      CheckQuota(p);
      StepKeeps(v, p, true);
    }

    /** The row and its commit, or the bytes deleted again. */
    method Admit(p: nat, commit: bool, clean: bool)
      requires Inv(View()) && p < |procs| && procs[p].pc.Stored? && Uploads(procs[p].op)
      requires procs[p].op.row.school !in locks
      modifies this
      ensures Inv(View()) && locks == old(locks) && |procs| == |old(procs)|
      ensures procs[p].op == old(procs[p].op) && next == old(next)
      ensures var row, id, done := old(procs[p].op.row), old(procs[p].pc.id), commit && FitsQuota(old(View()), procs[p].op.row);
        && procs[p].pc == (if done then Inserted(id) else Failed)
        && rows == (if done then old(rows)[id := row] else old(rows))
        && objects == (if !done && clean then old(objects) - {id} else old(objects))
    {
      hide Inv, FitsQuota;
      Approve(p);
      if procs[p].pc.Approved? {
        ghost var v := View();
        InsertRow(p, commit);
        StepKeeps(v, p, commit);
      }
      if procs[p].pc.Undo? {
        ghost var v := View();
        Discard(p, clean);
        StepKeeps(v, p, clean);
      }
    }

    /** Bytes, lock, quota and row: the part an upload and a replacement share. */
    method Store(op: Op, put: bool, commit: bool, clean: bool) returns (p: nat)
      requires Inv(View()) && Uploads(op) && WellAsked(op) && op.row.school !in locks
      modifies this
      ensures Inv(View()) && locks == old(locks) && p == |old(procs)| < |procs| && procs[p].op == op
      ensures if put && commit && FitsQuota(old(View()), op.row)
              then procs[p].pc == Inserted(old(next)) && Added(old(View()), View(), old(next), op.row) && next == old(next) + 1
              else procs[p].pc.Failed? && NotAdded(old(View()), View(), clean || !put)
    {
      hide Total, Limit, Linked;
      ghost var s := View();
      p := |procs|;
      procs := procs + [Proc(op, Begin)];
      StartKeeps(s, op);
      ghost var v := View();
      Put(p, put);
      StepKeeps(v, p, put);
      FreshId(s);
      if procs[p].pc.Stored? {
        GrownTotal(s, View(), op.row.school);
        Admit(p, commit, clean);
      }
    }

    /** upload: a file within the quota is added with its bytes, or nothing is. */
    method UploadFile(row: Row, put: bool, commit: bool, clean: bool) returns (id: Option<nat>)
      requires Inv(View()) && row.school !in locks
      modifies this
      ensures Inv(View()) && locks == old(locks)
      ensures id.Some? <==> put && commit && FitsQuota(old(View()), row)
      ensures id.Some? ==> Added(old(View()), View(), id.value, row)
      ensures id.None? ==> NotAdded(old(View()), View(), clean || !put)
    {
      hide NotAdded, FitsQuota, Inv;
      var at := next;
      var p := Store(Upload(row), put, commit, clean);
      id := None;
      if procs[p].pc.Inserted? {
        id := Some(at);
        ghost var v := View();
        procs := procs[p := procs[p].(pc := Done)];
        StepKeeps(v, p, true);
      }
    }

    /** forget: the row of the next file, then its bytes. */
    method ForgetOne(p: nat, clean: bool)
      requires Inv(View()) && p < |procs| && procs[p].pc.Forgetting? && procs[p].pc.ids != []
      requires procs[p].pc.ids[0] in rows
      modifies this
      ensures Inv(View()) && locks == old(locks) && next == old(next) && |procs| == |old(procs)|
      ensures var ids := old(procs[p].pc.ids);
        && procs[p].pc == Forgetting(ids[1..]) && rows == old(rows) - {ids[0]}
        && objects == if clean then old(objects) - {ids[0]} else old(objects)
    {
      hide Inv;
      ghost var v := View();
      DeleteRow(p);
      StepKeeps(v, p, true);
      v := View();
      Discard(p, clean);
      StepKeeps(v, p, clean);
    }

    /** forget, for each displaced file in turn: its row, then its bytes. */
    method ForgetAll(p: nat, clean: nat -> bool)
      requires Inv(View()) && p < |procs| && procs[p].pc.Forgetting? && Ascending(procs[p].pc.ids)
      requires forall id | id in procs[p].pc.ids :: id in rows
      modifies this
      ensures Inv(View()) && locks == old(locks) && next == old(next)
      ensures rows == old(rows) - Elements(old(procs[p].pc.ids))
      ensures objects == old(objects) - (set id | id in old(procs[p].pc.ids) && clean(id))
    {
      hide Inv;
      ghost var s, list := View(), procs[p].pc.ids;
      ghost var i := 0;
      while procs[p].pc.ids != []
        invariant Inv(View()) && locks == s.locks && next == s.next && |procs| == |s.procs| && i <= |list|
        invariant procs[p].pc == Forgetting(list[i..])
        invariant rows == s.rows - Elements(list[..i])
        invariant objects == s.objects - (set id | id in list[..i] && clean(id))
        decreases |list| - i
      {
        NextToForget(list, i);
        ForgetOne(p, clean(procs[p].pc.ids[0]));
        i := i + 1;
      }
      ghost var v := View();
      DeleteRow(p);
      StepKeeps(v, p, true);
      assert list[..|list|] == list;
    }

    /** replace: the new file is added and takes the place of those linked there, or nothing changes. */
    method ReplaceFile(row: Row, put: bool, commit: bool, undo: bool, clean: nat -> bool) returns (id: Option<nat>)
      requires Inv(View()) && row.school !in locks && WellAsked(Replace(row))
      modifies this
      ensures Inv(View()) && locks == old(locks)
      ensures id.Some? <==> put && commit && FitsQuota(old(View()), row)
      ensures id.Some? ==>
        && id.value == old(next) && id.value in rows && rows[id.value] == row && id.value in objects
        && Displaced(old(View()), View(), id.value, row)
        && forall k | k in old(rows) && k !in rows && clean(k) :: k !in objects
      ensures id.None? ==> NotAdded(old(View()), View(), undo || !put)
    {
      hide NotAdded, FitsQuota, Inv;
      ghost var s := View();
      var at := next;
      var p := Store(Replace(row), put, commit, undo);
      id := None;
      if procs[p].pc.Inserted? {
        id := Some(at);
        ghost var v := View();
        FindPrevious(p);
        StepKeeps(v, p, true);
        PreviousAre(s, View(), at, row, procs[p].pc.ids);
        ghost var list := procs[p].pc.ids;
        ForgetAll(p, clean);
      }
    }

    /** What a deletion reads: the file, unless it is evidence, or all that is linked in one place. */
    method ReadDoomed(p: nat)
      requires p < |procs| && procs[p].pc.Begin? && !Uploads(procs[p].op)
      modifies this
      ensures View() == StepBegin(old(View()), p, true)
    {
      var op := procs[p].op;
      if op.Remove? {
        var usable := op.id in rows && !rows[op.id].link.Payment?;
        procs := procs[p := procs[p].(pc := if usable then Forgetting([op.id]) else Failed)];
      } else {
        var ids := FindLinked(op.school, op.purpose, op.link);
        procs := procs[p := procs[p].(pc := Forgetting(ids))];
      }
    }

    /** remove: a file on record that is no payment's evidence goes, row first and then bytes. */
    method RemoveFile(id: nat, clean: bool) returns (done: bool)
      requires Inv(View())
      modifies this
      ensures Inv(View()) && locks == old(locks)
      ensures done <==> id in old(rows) && !old(rows)[id].link.Payment?
      ensures rows == if done then old(rows) - {id} else old(rows)
      ensures objects == if done && clean then old(objects) - {id} else old(objects)
    {
      hide Inv;
      ghost var s := View();
      var p := |procs|;
      procs := procs + [Proc(Remove(id), Begin)];
      StartKeeps(s, Remove(id));
      ghost var v := View();
      ReadDoomed(p);
      StepKeeps(v, p, true);
      done := procs[p].pc.Forgetting?;
      if done {
        assert Elements([id]) == {id};
        ForgetAll(p, (k: nat) => clean);
        assert (set k | k in [id] && clean) == if clean then {id} else {};
      }
    }

    /** removeLinked: everything linked in the one place goes, and nothing else. */
    method ClearLinked(school: nat, purpose: nat, link: Link, clean: nat -> bool) returns (count: nat)
      requires Inv(View()) && WellAsked(RemoveLinked(school, purpose, link))
      modifies this
      ensures Inv(View()) && locks == old(locks)
      ensures forall k :: k in rows <==> k in old(rows) && !IsLinked(old(rows), k, school, purpose, link)
      ensures forall k | k in rows :: rows[k] == old(rows)[k]
      ensures count == |set k | k in old(rows) && IsLinked(old(rows), k, school, purpose, link)|
      ensures objects == old(objects) - (set k | k in old(rows) && IsLinked(old(rows), k, school, purpose, link) && clean(k))
    {
      hide Inv, Linked;
      ghost var s, op := View(), RemoveLinked(school, purpose, link);
      var p := |procs|;
      procs := procs + [Proc(RemoveLinked(school, purpose, link), Begin)];
      StartKeeps(s, op);
      ghost var v := View();
      ReadDoomed(p);
      StepKeeps(v, p, true);
      ghost var list := procs[p].pc.ids;
      count := |procs[p].pc.ids|;
      LinkedList(s, school, purpose, link, list);
      ForgetAll(p, clean);
    }
  }

  /** The list read holds what is linked there, each once. */
  lemma LinkedList(s: State, school: nat, purpose: nat, link: Link, list: seq<nat>)
    requires Inv(s) && list == Linked(s.rows, s.next, school, purpose, link)
    ensures Ascending(list) && forall k :: k in list <==> IsLinked(s.rows, k, school, purpose, link)
    ensures |list| == |set k | k in s.rows && IsLinked(s.rows, k, school, purpose, link)|
    ensures Elements(list) == set k | k in s.rows && IsLinked(s.rows, k, school, purpose, link)
  {
    LinkedAscends(s.rows, s.next, school, purpose, link);
    forall k: nat ensures k in list <==> IsLinked(s.rows, k, school, purpose, link) {
      LinkedAre(s.rows, s.next, school, purpose, link, k);
    }
    AscendingCount(list);
    assert Elements(list) == set k | k in s.rows && IsLinked(s.rows, k, school, purpose, link);
  }

  function SizeAt(rows: map<nat, Row>): nat -> int { (id: nat) => if id in rows then rows[id].size else 0 }

  /** The school's files among the first n ids. */
  function FilesOf(rows: map<nat, Row>, n: nat, school: nat): set<nat> {
    set id | id in rows && id < n && rows[id].school == school
  }

  /** The bytes counted against a school are those of its files, each once. */
  lemma {:induction false} TotalIsTheSum(rows: map<nat, Row>, n: nat, school: nat)
    ensures Total(rows, n, school) == SumOver(FilesOf(rows, n, school), SizeAt(rows))
  {
    if n > 0 {
      TotalIsTheSum(rows, n - 1, school);
      var last: nat := n - 1;
      if last in rows && rows[last].school == school {
        SumOverPick(FilesOf(rows, n, school), SizeAt(rows), last);
        assert FilesOf(rows, n, school) - {last} == FilesOf(rows, n - 1, school);
      } else {
        assert FilesOf(rows, n, school) == FilesOf(rows, n - 1, school);
      }
    }
  }

  lemma {:induction false} AscendingCount(list: seq<nat>)
    requires Ascending(list)
    ensures |Elements(list)| == |list|
  {
    if list != [] {
      var front, last := list[..|list| - 1], list[|list| - 1];
      AscendingCount(front);
      assert list == front + [last] && last !in front;
      assert Elements(list) == Elements(front) + {last};
    }
  }

  lemma FreshId(s: State)
    requires Inv(s)
    ensures s.next !in s.rows && s.next !in s.objects
  {
  }

  lemma GrownTotal(s: State, n: State, school: nat)
    requires Inv(s) && n.rows == s.rows && n.next == s.next + 1
    ensures Total(n.rows, n.next, school) == Total(s.rows, s.next, school)
  {
    assert s.next !in s.rows;
  }

  lemma NextToForget(list: seq<nat>, i: nat)
    requires i < |list| && Ascending(list)
    ensures list[i] !in list[..i] && list[i..][0] == list[i] && list[i..][1..] == list[i + 1..]
    ensures list[..i + 1] == list[..i] + [list[i]]
  {
  }

  /** What a replacement forgets is what was linked in its place before it. */
  lemma PreviousAre(s: State, n: State, id: nat, row: Row, list: seq<nat>)
    requires Inv(s) && Added(s, n, id, row)
    requires n.next == s.next + 1 && list == Without(Linked(n.rows, n.next, row.school, row.purpose, row.link), id)
    ensures Ascending(list)
    ensures forall k :: k in list <==> IsLinked(s.rows, k, row.school, row.purpose, row.link)
  {
    LinkedAscends(n.rows, n.next, row.school, row.purpose, row.link);
    WithoutAscends(Linked(n.rows, n.next, row.school, row.purpose, row.link), id);
    forall k: nat ensures k in list <==> IsLinked(s.rows, k, row.school, row.purpose, row.link) {
      LinkedAre(n.rows, n.next, row.school, row.purpose, row.link, k);
      WithoutAre(Linked(n.rows, n.next, row.school, row.purpose, row.link), id, k);
      assert k in s.rows ==> k in s.ever;
    }
  }
}
