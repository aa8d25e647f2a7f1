/** The student and arm tables as the services write them, each method proved to be its rule. */
module EnrolmentStore {
  import opened Wrappers
  import opened NumberSequence
  import opened Enrolment
  import opened StudentImport

  class EnrolmentTables {
    var students: seq<Student>
    var arms: map<nat, Option<nat>>
    var prefix: string

    ghost function View(): School
      reads this
    {
      School(students, arms, prefix)
    }

    constructor ()
      ensures View() == School([], map[], "") && Seated(View())
    {
      students, arms, prefix := [], map[], "";
    }

    method CountRoll(arm: nat) returns (n: nat)
      ensures n == RollOf(View(), arm)
    {
      n := 0;
      for i := 0 to |students|
        invariant n == Roll(students, i, arm)
      {
        if students[i].status == ACTIVE && students[i].arm == Some(arm) { n := n + 1; }
      }
    }

    /** assertHasRoom, under the arm's lock. */
    method RoomFor(arm: nat, incoming: nat) returns (ok: bool)
      ensures ok == HasRoom(View(), arm, incoming)
    {
      if arm !in arms { return false; }
      if arms[arm].None? { return true; }
      var n := CountRoll(arm);
      ok := n + incoming <= arms[arm].value;
    }

    method IsTaken(number: string) returns (taken: bool)
      ensures taken == NumberTaken(View(), number)
    {
      taken := false;
      for i := 0 to |students|
        invariant taken <==> exists k :: 0 <= k < i && students[k].number == number
      {
        if students[i].number == number { taken := true; }
      }
    }

    method Admit(op: Op) returns (done: bool)
      requires op.Admit?
      modifies this`students
      ensures Perform(old(View()), op) == if done then Some(View()) else None
      ensures !done ==> View() == old(View())
    {
      var number;
      if op.supplied.Some? {
        number := op.supplied.value;
      } else {
        var next := FindNext(School(students, arms, prefix), op.year);
        number := FormatAdmission(prefix, op.year, next);
      }
      var taken := IsTaken(number);
      if taken { return false; }
      if op.place.Some? {
        var room := RoomFor(op.place.value, 1);
        if !room { return false; }
      }
      students := students + [Student(op.place, ACTIVE, number)];
      done := true;
    }

    method Move(op: Op) returns (done: bool)
      requires op.Move?
      modifies this`students
      ensures Perform(old(View()), op) == if done then Some(View()) else None
      ensures !done ==> View() == old(View())
    {
      if op.id >= |students| { return false; }
      var existing := students[op.id];
      if op.to.Some? {
        if op.to.value.Some? && op.to.value != existing.arm {
          var room := RoomFor(op.to.value.value, 1);
          if !room { return false; }
        }
        students := students[op.id := existing.(arm := op.to.value)];
      }
      done := true;
    }

    method ChangeStatus(op: Op) returns (done: bool)
      requires op.ChangeStatus?
      modifies this`students
      ensures Perform(old(View()), op) == if done then Some(View()) else None
      ensures !done ==> View() == old(View())
    {
      if op.id >= |students| || students[op.id].status == op.status { return false; }
      var existing := students[op.id];
      if op.status == ACTIVE && existing.arm.Some? {
        var room := RoomFor(existing.arm.value, 1);
        if !room { return false; }
      }
      students := students[op.id := existing.(status := op.status)];
      done := true;
    }

    /** The updateMany of a promotion, row by row. */
    method MoveUp(source: nat, target: Option<nat>, only: Option<seq<nat>>)
      modifies this`students
      ensures students == Advanced(old(View()), source, target, only)
    {
      ghost var before := View();
      for i := 0 to |students|
        invariant |students| == |before.students|
        invariant forall k | 0 <= k < |students| ::
          students[k] == if k < i then Advanced(before, source, target, only)[k] else before.students[k]
      {
        var st := students[i];
        if st.status == ACTIVE && st.arm == Some(source) && (only.None? || i in only.value) {
          students := students[i := if target.None? then st.(status := GRADUATED, arm := None) else st.(arm := target)];
        }
      }
    }

    method CountMovers(source: nat, only: Option<seq<nat>>) returns (n: nat)
      ensures n == Movers(View(), source, only, |students|)
    {
      n := 0;
      for i := 0 to |students|
        invariant n == Movers(View(), source, only, i)
      {
        if students[i].status == ACTIVE && students[i].arm == Some(source) && (only.None? || i in only.value) {
          n := n + 1;
        }
      }
    }

    method Promote(op: Op) returns (done: bool)
      requires op.Promote?
      modifies this`students
      ensures Perform(old(View()), op) == if done then Some(View()) else None
      ensures !done ==> View() == old(View())
    {
      if op.graduate == op.target.Some? || op.target == Some(op.source) || op.source !in arms { return false; }
      if op.target.Some? && op.target.value !in arms { return false; }
      var movers := CountMovers(op.source, op.only);
      if (op.only.Some? && movers != |op.only.value|) || movers == 0 { return false; }
      if op.target.Some? {
        var room := RoomFor(op.target.value, movers);
        if !room { return false; }
      }
      MoveUp(op.source, op.target, op.only);
      done := true;
    }

    /** assertCapacityFitsRoll, then the update. */
    method SetCapacity(arm: nat, capacity: Option<nat>) returns (done: bool)
      modifies this`arms
      ensures Perform(old(View()), Op.SetCapacity(arm, capacity)) == if done then Some(View()) else None
      ensures !done ==> View() == old(View())
    {
      if arm !in arms { return false; }
      if capacity.Some? {
        var enrolled := CountRoll(arm);
        if capacity.value < enrolled { return false; }
      }
      arms := arms[arm := capacity];
      done := true;
    }
  }
}
