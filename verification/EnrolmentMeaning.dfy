/**
 * When each change to the school roll is allowed and what it leaves, said of the student
 * and arm tables themselves.
 */
module EnrolmentMeaning {
  import opened Wrappers
  import opened NumberSequence
  import opened Enrolment

  /** The active students who are in the arm. */
  function ActiveIn(students: seq<Student>, n: nat, arm: nat): set<nat>
    requires n <= |students|
  {
    set i | 0 <= i < n && students[i].status == ACTIVE && students[i].arm == Some(arm)
  }

  lemma {:induction false} RollCounts(students: seq<Student>, n: nat, arm: nat)
    requires n <= |students|
    ensures Roll(students, n, arm) == |ActiveIn(students, n, arm)|
  {
    if n > 0 {
      RollCounts(students, n - 1, arm);
      assert ActiveIn(students, n, arm)
             == ActiveIn(students, n - 1, arm) + if OnRoll(students[n - 1], arm) then {n - 1} else {};
    }
  }

  /** The arm is there, and its capacity, if it has one, takes this many more. */
  ghost predicate Takes(s: School, arm: nat, incoming: nat) {
    && arm in s.arms
    && (s.arms[arm].Some? ==> |ActiveIn(s.students, |s.students|, arm)| + incoming <= s.arms[arm].value)
  }

  lemma RoomExactly(s: School, arm: nat, incoming: nat)
    ensures HasRoom(s, arm, incoming) <==> Takes(s, arm, incoming)
  {
    RollCounts(s.students, |s.students|, arm);
  }

  /** A generated number is its year and the next sequence, at least four digits wide, led by the prefix if there is one. */
  lemma GeneratedExactly(s: School, year: nat)
    ensures exists text ::
      && Padded(text, NextOf(s, year), 4)
      && Generated(s, year) == (if s.prefix == "" then "" else s.prefix + "/") + (Digits(year) + "/" + text)
  {
    hide NextOf, Padded;
    PadExactly(NextOf(s, year), ADMISSION_WIDTH);
    var core := Core(year, NextOf(s, year));
    assert "" + core == core;
  }

  /** Only this student's row differs. */
  ghost predicate OnlyStudent(s: School, after: School, id: nat) {
    && after.arms == s.arms && after.prefix == s.prefix && |after.students| == |s.students|
    && forall i | 0 <= i < |s.students| && i != id :: after.students[i] == s.students[i]
  }

  /** Admission: a number nobody has, a supplied one as it is, and a seat in the arm if one is named. */
  lemma AdmitExactly(s: School, op: Op)
    requires op.Admit?
    ensures var number := if op.supplied.Some? then op.supplied.value else Generated(s, op.year);
      && (Perform(s, op).Some? <==>
            (forall i | 0 <= i < |s.students| :: s.students[i].number != number)
            && (op.place.Some? ==> Takes(s, op.place.value, 1)))
      && (Perform(s, op).Some? ==>
            Perform(s, op).value == School(s.students + [Student(op.place, ACTIVE, number)], s.arms, s.prefix))
  {
    if op.place.Some? { RoomExactly(s, op.place.value, 1); }
  }

  /** A move: a seat is asked for in an arm other than the student's own, and only the arm is written. */
  lemma MoveExactly(s: School, op: Op)
    requires op.Move?
    ensures Perform(s, op).Some? <==>
      && op.id < |s.students|
      && (op.to.Some? && op.to.value.Some? && op.to.value != s.students[op.id].arm ==> Takes(s, op.to.value.value, 1))
    ensures Perform(s, op).Some? ==>
      var was, after := s.students[op.id], Perform(s, op).value;
      && OnlyStudent(s, after, op.id)
      && after.students[op.id] == Student(if op.to.Some? then op.to.value else was.arm, was.status, was.number)
  {
    if op.to.Some? && op.to.value.Some? { RoomExactly(s, op.to.value.value, 1); }
  }

  /** A change to another status: a return to ACTIVE needs a seat in the arm pointed at, and only the status is written. */
  lemma StatusExactly(s: School, op: Op)
    requires op.ChangeStatus?
    ensures Perform(s, op).Some? <==>
      && op.id < |s.students| && s.students[op.id].status != op.status
      && (op.status == ACTIVE && s.students[op.id].arm.Some? ==> Takes(s, s.students[op.id].arm.value, 1))
    ensures Perform(s, op).Some? ==>
      var was, after := s.students[op.id], Perform(s, op).value;
      OnlyStudent(s, after, op.id) && after.students[op.id] == Student(was.arm, op.status, was.number)
  {
    if op.id < |s.students| && s.students[op.id].arm.Some? { RoomExactly(s, s.students[op.id].arm.value, 1); }
  }

  /** The active students in the arm, among those named if any are. */
  function Moving(s: School, op: Op, n: nat): set<nat>
    requires op.Promote? && n <= |s.students|
  {
    set i | 0 <= i < n && s.students[i].status == ACTIVE && s.students[i].arm == Some(op.source)
            && (op.only.None? || i in op.only.value)
  }

  lemma {:induction false} MoversCount(s: School, op: Op, n: nat)
    requires op.Promote? && n <= |s.students|
    ensures Movers(s, op.source, op.only, n) == |Moving(s, op, n)|
  {
    if n > 0 {
      MoversCount(s, op, n - 1);
      assert Moving(s, op, n) == Moving(s, op, n - 1) + if Moves(s, op.source, op.only, n - 1) then {n - 1} else {};
    }
  }

  /**
   * A promotion: out of an arm that is there, either to another with seats for all or by
   * graduating, of at least one student and of every one named. Those moving go to the arm,
   * or leave the roll as GRADUATED; everybody else stays.
   */
  lemma PromoteExactly(s: School, op: Op)
    requires op.Promote?
    ensures var moving := Moving(s, op, |s.students|);
      Perform(s, op).Some? <==>
        && op.source in s.arms && op.graduate == op.target.None? && op.target != Some(op.source)
        && (op.target.Some? ==> Takes(s, op.target.value, |moving|))
        && moving != {} && (op.only.Some? ==> |moving| == |op.only.value|)
    ensures Perform(s, op).Some? ==>
      var after := Perform(s, op).value;
      && after.arms == s.arms && after.prefix == s.prefix && |after.students| == |s.students|
      && forall i | 0 <= i < |s.students| ::
           after.students[i] ==
             if i !in Moving(s, op, |s.students|) then s.students[i]
             else if op.target.Some? then Student(op.target, ACTIVE, s.students[i].number)
             else Student(None, GRADUATED, s.students[i].number)
  {
    MoversCount(s, op, |s.students|);
    if op.target.Some? { RoomExactly(s, op.target.value, |Moving(s, op, |s.students|)|); }
  }

  /** An arm is added once; its capacity is set to none or to at least its roll; one with nobody active is removed, and whoever still points at it points nowhere. */
  lemma ArmExactly(s: School, op: Op)
    requires op.AddArm? || op.SetCapacity? || op.RemoveArm?
    ensures Perform(s, op).Some? <==>
      && (if op.AddArm? then op.arm !in s.arms else op.arm in s.arms)
      && (op.SetCapacity? && op.capacity.Some? ==> |ActiveIn(s.students, |s.students|, op.arm)| <= op.capacity.value)
      && (op.RemoveArm? ==> ActiveIn(s.students, |s.students|, op.arm) == {})
    ensures Perform(s, op).Some? ==>
      var after := Perform(s, op).value;
      && after.prefix == s.prefix && |after.students| == |s.students|
      && (forall a | a != op.arm :: (a in after.arms <==> a in s.arms) && (a in after.arms ==> after.arms[a] == s.arms[a]))
      && (if op.RemoveArm? then op.arm !in after.arms else op.arm in after.arms && after.arms[op.arm] == op.capacity)
      && forall i | 0 <= i < |s.students| ::
           var was := s.students[i];
           after.students[i] == if op.RemoveArm? && was.arm == Some(op.arm) then Student(None, was.status, was.number) else was
  {
    RollCounts(s.students, |s.students|, op.arm);
  }

  /** The rows of a file for one arm. */
  function ForArm(places: seq<Option<nat>>, n: nat, arm: nat): set<nat>
    requires n <= |places|
  {
    set i | 0 <= i < n && places[i] == Some(arm)
  }

  lemma {:induction false} IncomingCounts(places: seq<Option<nat>>, n: nat, arm: nat)
    requires n <= |places|
    ensures Incoming(places, n, arm) == |ForArm(places, n, arm)|
  {
    if n > 0 {
      IncomingCounts(places, n - 1, arm);
      assert ForArm(places, n, arm) == ForArm(places, n - 1, arm) + if places[n - 1] == Some(arm) then {n - 1} else {};
    }
  }

  /** A file is admitted whole: numbers apart and nobody's, and every arm it fills with seats for all of its rows. */
  lemma AdmitManyExactly(s: School, op: Op)
    requires op.AdmitMany? && |op.numbers| == |op.places|
    ensures Perform(s, op).Some? <==>
      && (forall i, j | 0 <= i < j < |op.numbers| :: op.numbers[i] != op.numbers[j])
      && (forall i, k | 0 <= i < |op.numbers| && 0 <= k < |s.students| :: s.students[k].number != op.numbers[i])
      && (forall i | 0 <= i < |op.places| && op.places[i].Some? ::
            Takes(s, op.places[i].value, |ForArm(op.places, |op.places|, op.places[i].value)|))
    ensures Perform(s, op).Some? ==>
      var after := Perform(s, op).value;
      && after.arms == s.arms && after.prefix == s.prefix && |after.students| == |s.students| + |op.places|
      && (forall i | 0 <= i < |s.students| :: after.students[i] == s.students[i])
      && forall i | 0 <= i < |op.places| :: after.students[|s.students| + i] == Student(op.places[i], ACTIVE, op.numbers[i])
  {
    hide Incoming, HasRoom, Takes;
    forall i | 0 <= i < |op.places| && op.places[i].Some?
      ensures HasRoom(s, op.places[i].value, Incoming(op.places, |op.places|, op.places[i].value)) <==>
        Takes(s, op.places[i].value, |ForArm(op.places, |op.places|, op.places[i].value)|)
    {
      IncomingCounts(op.places, |op.places|, op.places[i].value);
      RoomExactly(s, op.places[i].value, |ForArm(op.places, |op.places|, op.places[i].value)|);
    }
    TakenExactly(s, op.numbers);
  }

  lemma TakenExactly(s: School, numbers: seq<string>)
    ensures AnyTaken(s, numbers) <==>
      exists i, k :: 0 <= i < |numbers| && 0 <= k < |s.students| && s.students[k].number == numbers[i]
  {
    if AnyTaken(s, numbers) {
      var i :| 0 <= i < |numbers| && NumberTaken(s, numbers[i]);
    }
    if i, k :| 0 <= i < |numbers| && 0 <= k < |s.students| && s.students[k].number == numbers[i] {
      assert NumberTaken(s, numbers[i]);
    }
  }
}
