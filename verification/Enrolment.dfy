/**
 * The school roll: who is in which arm, the seats each arm has, and the numbers
 * students are admitted under. Operations run one at a time.
 */
module Enrolment {
  import opened Wrappers
  import opened NumberSequence

  datatype Status = ACTIVE | INACTIVE | GRADUATED | TRANSFERRED | WITHDRAWN

  datatype Student = Student(arm: Option<nat>, status: Status, number: string)

  /** arms: each arm's capacity, if it has one. prefix: of admission numbers, empty when not set. */
  datatype School = School(students: seq<Student>, arms: map<nat, Option<nat>>, prefix: string)

  /** only: the students named, or everybody. arm in Move: absent, cleared or given. */
  datatype Op =
    | Admit(place: Option<nat>, supplied: Option<string>, year: nat)
    | Move(id: nat, to: Option<Option<nat>>)
    | ChangeStatus(id: nat, status: Status)
    | Promote(source: nat, target: Option<nat>, graduate: bool, only: Option<seq<nat>>)
    | SetCapacity(arm: nat, capacity: Option<nat>)
    | AddArm(arm: nat, capacity: Option<nat>)
    | RemoveArm(arm: nat)
    | SetPrefix(prefix: string)
    | AdmitMany(places: seq<Option<nat>>, numbers: seq<string>)

  // ---------------------------------------------------------------------------
  // The roll
  // ---------------------------------------------------------------------------

  predicate OnRoll(st: Student, arm: nat) { st.status == ACTIVE && st.arm == Some(arm) }

  function Roll(students: seq<Student>, n: nat, arm: nat): nat
    requires n <= |students|
  {
    if n == 0 then 0 else Roll(students, n - 1, arm) + if OnRoll(students[n - 1], arm) then 1 else 0
  }

  function RollOf(s: School, arm: nat): nat { Roll(s.students, |s.students|, arm) }

  /** assertHasRoom */
  predicate HasRoom(s: School, arm: nat, incoming: nat) {
    arm in s.arms && (s.arms[arm].Some? ==> RollOf(s, arm) + incoming <= s.arms[arm].value)
  }

  predicate NumberTaken(s: School, number: string) { exists i | 0 <= i < |s.students| :: s.students[i].number == number }

  // ---------------------------------------------------------------------------
  // Admission numbers
  // ---------------------------------------------------------------------------

  function YearLead(year: nat): string { Digits(year) + "/" }

  predicate StartsWith(s: string, lead: string) { lead <= s }

  /** findMany({ studentId: { startsWith: year/ } }) */
  function ReadNumbers(students: seq<Student>, n: nat, year: nat): seq<string>
    requires n <= |students|
  {
    if n == 0 then []
    else
      var rest := ReadNumbers(students, n - 1, year);
      if StartsWith(students[n - 1].number, YearLead(year)) then rest + [students[n - 1].number] else rest
  }

  function Core(year: nat, sequence: nat): string {
    Digits(year) + "/" + PadStart(Digits(sequence), ADMISSION_WIDTH)
  }

  function FormatAdmission(prefix: string, year: nat, sequence: nat): string {
    if prefix == "" then Core(year, sequence) else prefix + "/" + Core(year, sequence)
  }

  function NextOf(s: School, year: nat): nat {
    Highest(ReadNumbers(s.students, |s.students|, year), year, ADMISSION_WIDTH) + 1
  }

  function Generated(s: School, year: nat): string { FormatAdmission(s.prefix, year, NextOf(s, year)) }

  // ---------------------------------------------------------------------------
  // The operations
  // ---------------------------------------------------------------------------

  function DoAdmit(s: School, op: Op): Option<School>
    requires op.Admit?
  {
    var number := if op.supplied.Some? then op.supplied.value else Generated(s, op.year);
    if NumberTaken(s, number) then None
    else if op.place.Some? && !HasRoom(s, op.place.value, 1) then None
    else Some(s.(students := s.students + [Student(op.place, ACTIVE, number)]))
  }

  /** Room is only asked for a move into another arm. */
  function DoMove(s: School, op: Op): Option<School>
    requires op.Move?
  {
    if op.id >= |s.students| then None
    else
      var existing := s.students[op.id];
      if op.to.None? then Some(s)
      else if op.to.value.Some? && op.to.value != existing.arm && !HasRoom(s, op.to.value.value, 1) then None
      else Some(s.(students := s.students[op.id := existing.(arm := op.to.value)]))
  }

  function DoStatus(s: School, op: Op): Option<School>
    requires op.ChangeStatus?
  {
    if op.id >= |s.students| || s.students[op.id].status == op.status then None
    else
      var existing := s.students[op.id];
      if op.status == ACTIVE && existing.arm.Some? && !HasRoom(s, existing.arm.value, 1) then None
      else Some(s.(students := s.students[op.id := existing.(status := op.status)]))
  }

  predicate Moves(s: School, source: nat, only: Option<seq<nat>>, i: nat)
    requires i < |s.students|
  {
    OnRoll(s.students[i], source) && (only.Some? ==> i in only.value)
  }

  function Movers(s: School, source: nat, only: Option<seq<nat>>, n: nat): nat
    requires n <= |s.students|
  {
    if n == 0 then 0 else Movers(s, source, only, n - 1) + if Moves(s, source, only, n - 1) then 1 else 0
  }

  function Promoted(st: Student, target: Option<nat>): Student {
    if target.None? then st.(status := GRADUATED, arm := None) else st.(arm := target)
  }

  function Advanced(s: School, source: nat, target: Option<nat>, only: Option<seq<nat>>): (r: seq<Student>)
    ensures |r| == |s.students|
  {
    seq(|s.students|, i requires 0 <= i < |s.students| =>
      if Moves(s, source, only, i) then Promoted(s.students[i], target) else s.students[i])
  }

  function DoPromote(s: School, op: Op): Option<School>
    requires op.Promote?
  {
    if op.graduate == op.target.Some? || op.target == Some(op.source) || op.source !in s.arms then None
    else if op.target.Some? && op.target.value !in s.arms then None
    else
      var movers := Movers(s, op.source, op.only, |s.students|);
      if (op.only.Some? && movers != |op.only.value|) || movers == 0 then None
      else if op.target.Some? && !HasRoom(s, op.target.value, movers) then None
      else Some(s.(students := Advanced(s, op.source, op.target, op.only)))
  }

  function DoRemoveArm(s: School, arm: nat): Option<School> {
    if arm !in s.arms || RollOf(s, arm) > 0 then None
    else Some(s.(arms := s.arms - {arm}, students := Unassigned(s.students, arm)))
  }

  /** onDelete: SetNull */
  function Unassigned(students: seq<Student>, arm: nat): (r: seq<Student>)
    ensures |r| == |students|
  {
    seq(|students|, i requires 0 <= i < |students| =>
      if students[i].arm == Some(arm) then students[i].(arm := None) else students[i])
  }

  function Incoming(places: seq<Option<nat>>, n: nat, arm: nat): nat
    requires n <= |places|
  {
    if n == 0 then 0 else Incoming(places, n - 1, arm) + if places[n - 1] == Some(arm) then 1 else 0
  }

  /** The recount under the locks: every arm the file fills has room for all of it. */
  predicate AllFit(s: School, places: seq<Option<nat>>) {
    forall i | 0 <= i < |places| && places[i].Some? ::
      HasRoom(s, places[i].value, Incoming(places, |places|, places[i].value))
  }

  predicate Repeated(numbers: seq<string>) { exists i, j | 0 <= i < j < |numbers| :: numbers[i] == numbers[j] }

  predicate AnyTaken(s: School, numbers: seq<string>) { exists i | 0 <= i < |numbers| :: NumberTaken(s, numbers[i]) }

  function Admitted(places: seq<Option<nat>>, numbers: seq<string>): (r: seq<Student>)
    requires |numbers| == |places|
    ensures |r| == |places|
  {
    seq(|places|, i requires 0 <= i < |places| => Student(places[i], ACTIVE, numbers[i]))
  }

  function DoAdmitMany(s: School, op: Op): Option<School>
    requires op.AdmitMany?
  {
    if |op.numbers| != |op.places| || !AllFit(s, op.places) || Repeated(op.numbers) || AnyTaken(s, op.numbers) then None
    else Some(s.(students := s.students + Admitted(op.places, op.numbers)))
  }

  function Perform(s: School, op: Op): Option<School> {
    match op
    case Admit(_, _, _) => DoAdmit(s, op)
    case Move(_, _) => DoMove(s, op)
    case ChangeStatus(_, _) => DoStatus(s, op)
    case Promote(_, _, _, _) => DoPromote(s, op)
    case SetCapacity(arm, capacity) =>
      if arm !in s.arms || (capacity.Some? && capacity.value < RollOf(s, arm)) then None
      else Some(s.(arms := s.arms[arm := capacity]))
    case AddArm(arm, capacity) => if arm in s.arms then None else Some(s.(arms := s.arms[arm := capacity]))
    case RemoveArm(arm) => DoRemoveArm(s, arm)
    case SetPrefix(prefix) => if OneLine(prefix) then Some(s.(prefix := prefix)) else None
    case AdmitMany(_, _) => DoAdmitMany(s, op)
  }

  /** A refused operation leaves everything as it was. */
  function Run(s: School, ops: seq<Op>): School {
    if ops == [] then s
    else
      var before := Run(s, ops[..|ops| - 1]);
      match Perform(before, ops[|ops| - 1])
      case None => before
      case Some(after) => after
  }

  // ---------------------------------------------------------------------------
  // Seats
  // ---------------------------------------------------------------------------

  /** Every arm's roll is within its capacity, numbers are unique, and nobody is in an arm that is not there. */
  ghost predicate Seated(s: School) {
    && (forall i | 0 <= i < |s.students| && s.students[i].arm.Some? :: s.students[i].arm.value in s.arms)
    && (forall arm | arm in s.arms && s.arms[arm].Some? :: RollOf(s, arm) <= s.arms[arm].value)
    && (forall i, j | 0 <= i < j < |s.students| :: s.students[i].number != s.students[j].number)
  }

  lemma {:induction false} RollAgrees(a: seq<Student>, b: seq<Student>, n: nat, arm: nat)
    requires n <= |a| && n <= |b|
    requires forall i | 0 <= i < n :: OnRoll(a[i], arm) == OnRoll(b[i], arm)
    ensures Roll(a, n, arm) == Roll(b, n, arm)
  {
    if n > 0 { RollAgrees(a, b, n - 1, arm); }
  }

  lemma {:induction false} RollAppend(a: seq<Student>, b: seq<Student>, n: nat, arm: nat)
    requires n <= |b|
    ensures Roll(a + b, |a| + n, arm) == Roll(a, |a|, arm) + Roll(b, n, arm)
  {
    if n == 0 { RollAgrees(a + b, a, |a|, arm); } else { RollAppend(a, b, n - 1, arm); }
  }

  lemma {:induction false} RollUpdate(students: seq<Student>, n: nat, i: nat, st: Student, arm: nat)
    requires n <= |students| && i < |students|
    ensures Roll(students[i := st], n, arm)
      + (if i < n && OnRoll(students[i], arm) then 1 else 0)
      == Roll(students, n, arm) + (if i < n && OnRoll(st, arm) then 1 else 0)
  {
    if n > 0 { RollUpdate(students, n - 1, i, st, arm); }
  }

  lemma {:induction false} RollOfAdmitted(places: seq<Option<nat>>, numbers: seq<string>, n: nat, arm: nat)
    requires |numbers| == |places| && n <= |places|
    ensures Roll(Admitted(places, numbers), n, arm) == Incoming(places, n, arm)
  {
    if n > 0 { RollOfAdmitted(places, numbers, n - 1, arm); }
  }

  /** The movers leave one roll and join the other. */
  lemma {:induction false} RollOfAdvanced(s: School, source: nat, target: Option<nat>, only: Option<seq<nat>>, n: nat, arm: nat)
    requires n <= |s.students| && target != Some(source)
    ensures Roll(Advanced(s, source, target, only), n, arm)
            == Roll(s.students, n, arm)
               + (if target == Some(arm) then Movers(s, source, only, n) else 0)
               - (if arm == source then Movers(s, source, only, n) else 0)
  {
    if n > 0 { RollOfAdvanced(s, source, target, only, n - 1, arm); }
  }

  lemma {:induction false} NobodyIncoming(places: seq<Option<nat>>, n: nat, arm: nat)
    requires n <= |places| && forall i | 0 <= i < n :: places[i] != Some(arm)
    ensures Incoming(places, n, arm) == 0
  {
    if n > 0 { NobodyIncoming(places, n - 1, arm); }
  }

  lemma {:induction false} NobodyOn(students: seq<Student>, n: nat, arm: nat)
    requires n <= |students| && forall i | 0 <= i < n :: students[i].arm != Some(arm)
    ensures Roll(students, n, arm) == 0
  {
    if n > 0 { NobodyOn(students, n - 1, arm); }
  }

  lemma ArmsKept(s: School, op: Op, i: nat)
    requires Seated(s) && Perform(s, op).Some?
    requires i < |Perform(s, op).value.students| && Perform(s, op).value.students[i].arm.Some?
    ensures Perform(s, op).value.students[i].arm.value in Perform(s, op).value.arms
  {
    if op.AdmitMany? && i >= |s.students| {
      var k := i - |s.students|;
      assert op.places[k].Some? ==> HasRoom(s, op.places[k].value, Incoming(op.places, |op.places|, op.places[k].value));
    }
  }

  /** A batch fits every arm it fills. */
  lemma BatchFits(s: School, places: seq<Option<nat>>, numbers: seq<string>, arm: nat)
    requires |numbers| == |places| && AllFit(s, places)
    requires arm in s.arms && s.arms[arm].Some? && RollOf(s, arm) <= s.arms[arm].value
    ensures RollOf(s.(students := s.students + Admitted(places, numbers)), arm) <= s.arms[arm].value
  {
    RollAppend(s.students, Admitted(places, numbers), |places|, arm);
    RollOfAdmitted(places, numbers, |places|, arm);
    if i :| 0 <= i < |places| && places[i] == Some(arm) {
      assert HasRoom(s, places[i].value, Incoming(places, |places|, places[i].value));
    } else {
      NobodyIncoming(places, |places|, arm);
    }
  }

  lemma PromotionFits(s: School, op: Op, arm: nat)
    requires op.Promote? && DoPromote(s, op).Some?
    requires arm in s.arms && s.arms[arm].Some? && RollOf(s, arm) <= s.arms[arm].value
    ensures RollOf(DoPromote(s, op).value, arm) <= s.arms[arm].value
  {
    RollOfAdvanced(s, op.source, op.target, op.only, |s.students|, arm);
  }

  /** What an operation does to one arm's roll. */
  lemma SeatsKept(s: School, op: Op, arm: nat)
    requires Seated(s) && Perform(s, op).Some?
    ensures var after := Perform(s, op).value;
      arm in after.arms && after.arms[arm].Some? ==> RollOf(after, arm) <= after.arms[arm].value
  {
    hide DoPromote, Generated, AllFit;
    var after := Perform(s, op).value;
    match op
    case Admit(place, _, _) => RollAppend(s.students, [after.students[|s.students|]], 1, arm);
    case Move(id, to) =>
      if to.Some? { RollUpdate(s.students, |s.students|, id, after.students[id], arm); }
    case ChangeStatus(id, _) => RollUpdate(s.students, |s.students|, id, after.students[id], arm);
    case Promote(_, _, _, _) =>
      PromotionKeepsArms(s, op);
      if arm in s.arms && s.arms[arm].Some? { PromotionFits(s, op, arm); }
    case SetCapacity(_, _) =>
    case AddArm(added, _) => if arm == added { NobodyOn(s.students, |s.students|, arm); }
    case RemoveArm(gone) => if arm != gone { RollAgrees(after.students, s.students, |s.students|, arm); }
    case SetPrefix(_) =>
    case AdmitMany(places, numbers) =>
      if arm in s.arms && s.arms[arm].Some? { BatchFits(s, places, numbers, arm); }
  }

  lemma PromotionKeepsArms(s: School, op: Op)
    requires op.Promote? && DoPromote(s, op).Some?
    ensures DoPromote(s, op).value.arms == s.arms
  {
  }

  lemma NumbersKept(s: School, op: Op, i: nat, j: nat)
    requires Seated(s) && Perform(s, op).Some?
    requires i < j < |Perform(s, op).value.students|
    ensures Perform(s, op).value.students[i].number != Perform(s, op).value.students[j].number
  {
    var after := Perform(s, op).value;
    if op.AdmitMany? && j >= |s.students| {
      assert !NumberTaken(s, op.numbers[j - |s.students|]);
      assert after.students[j].number == op.numbers[j - |s.students|];
      if i >= |s.students| {
        assert after.students[i].number == op.numbers[i - |s.students|];
      }
    } else if op.Admit? && j == |s.students| {
      assert !NumberTaken(s, after.students[j].number);
    } else {
      assert after.students[i].number == s.students[i].number && after.students[j].number == s.students[j].number;
    }
  }

  /**
   * Over any run of admissions, moves, changes of status, promotions, capacity changes
   * and imports, no arm's active roll ever exceeds its capacity, and no number is given twice.
   */
  lemma {:induction false} EveryRunIsSeated(s: School, ops: seq<Op>)
    requires Seated(s)
    ensures Seated(Run(s, ops))
  {
    if ops != [] {
      var before := Run(s, ops[..|ops| - 1]);
      var op := ops[|ops| - 1];
      EveryRunIsSeated(s, ops[..|ops| - 1]);
      if Perform(before, op).Some? {
        var after := Perform(before, op).value;
        forall arm | arm in after.arms && after.arms[arm].Some? ensures RollOf(after, arm) <= after.arms[arm].value {
          SeatsKept(before, op, arm);
        }
        forall i | 0 <= i < |after.students| && after.students[i].arm.Some?
          ensures after.students[i].arm.value in after.arms
        {
          ArmsKept(before, op, i);
        }
        forall i, j | 0 <= i < j < |after.students| ensures after.students[i].number != after.students[j].number {
          NumbersKept(before, op, i, j);
        }
      }
    }
  }

  // ---------------------------------------------------------------------------
  // Generated numbers
  // ---------------------------------------------------------------------------

  lemma {:induction false} ReadAre(students: seq<Student>, n: nat, year: nat, number: string)
    requires n <= |students|
    ensures number in ReadNumbers(students, n, year) <==>
      StartsWith(number, YearLead(year)) && exists i :: 0 <= i < n && students[i].number == number
  {
    if n > 0 { ReadAre(students, n - 1, year, number); }
  }

  lemma ParseCore(year: nat, sequence: nat)
    requires FourDigitYear(year)
    ensures Parse(Core(year, sequence), ADMISSION_WIDTH) == Some((year, sequence))
  {
    var text := PadStart(Digits(sequence), ADMISSION_WIDTH);
    FourDigits(year);
    ValueOfDigits(year);
    ValueOfDigits(sequence);
    if |Digits(sequence)| < ADMISSION_WIDTH { ValueOfZeros(ADMISSION_WIDTH - |Digits(sequence)|, Digits(sequence)); }
    assert Core(year, sequence) == "" + Digits(year) + "/" + text;
    assert Matches(Core(year, sequence), "", Digits(year), text, ADMISSION_WIDTH);
    MatchDeterminesParse(Core(year, sequence), "", Digits(year), text, ADMISSION_WIDTH);
  }

  lemma ParseAdmission(prefix: string, year: nat, sequence: nat)
    requires OneLine(prefix) && FourDigitYear(year)
    ensures Parse(FormatAdmission(prefix, year, sequence), ADMISSION_WIDTH) == Some((year, sequence))
  {
    if prefix == "" {
      ParseCore(year, sequence);
    } else {
      ParseFormat(prefix, year, sequence, ADMISSION_WIDTH);
      assert prefix + "/" + Core(year, sequence) == FormatNumber(prefix, year, sequence, ADMISSION_WIDTH);
    }
  }

  /** The numbers a generated one could clash with were read: its prefix puts it under the year. */
  predicate ReadsBack(prefix: string, year: nat) {
    prefix == "" || StartsWith(prefix + "/", YearLead(year))
  }

  lemma LeadOf(prefix: string, year: nat, sequence: nat)
    ensures StartsWith(FormatAdmission(prefix, year, sequence), YearLead(year)) <==> ReadsBack(prefix, year)
  {
    var number := FormatAdmission(prefix, year, sequence);
    var lead := YearLead(year);
    if prefix == "" {
      assert number[..|lead|] == lead;
    } else {
      var head := prefix + "/";
      assert number[..|head|] == head;
      if |head| < |lead| {
        assert IsDigit(Digits(year)[|prefix|]) && lead[|prefix|] == Digits(year)[|prefix|] && number[|prefix|] == '/';
      } else {
        assert head[..|lead|] == number[..|lead|];
      }
    }
  }

  /** What is generated is new among the numbers that were read. */
  lemma GeneratedIsNotRead(s: School, year: nat)
    requires OneLine(s.prefix) && FourDigitYear(year)
    ensures Generated(s, year) !in ReadNumbers(s.students, |s.students|, year)
  {
    ParseAdmission(s.prefix, year, NextOf(s, year));
    PastTheHighest(ReadNumbers(s.students, |s.students|, year), year, ADMISSION_WIDTH, Generated(s, year));
  }

  /**
   * A generated number is free of every number on file when the prefix puts it under the
   * year it is looked up by.
   */
  lemma GeneratedIsFree(s: School, year: nat)
    requires OneLine(s.prefix) && FourDigitYear(year) && ReadsBack(s.prefix, year)
    ensures !NumberTaken(s, Generated(s, year))
  {
    GeneratedIsNotRead(s, year);
    LeadOf(s.prefix, year, NextOf(s, year));
    ReadAre(s.students, |s.students|, year, Generated(s, year));
  }

  /**
   * After a student is admitted under a generated number, the next number generated for
   * that year is free exactly when the first one can be read back. With any other prefix
   * the sequence does not move, and the second admission of the year is refused.
   */
  lemma NextNumberIsFreeIff(s: School, place: Option<nat>, year: nat)
    requires OneLine(s.prefix) && FourDigitYear(year) && Perform(s, Admit(place, None, year)).Some?
    ensures var after := Perform(s, Admit(place, None, year)).value;
      !NumberTaken(after, Generated(after, year)) <==> ReadsBack(s.prefix, year)
  {
    var after := Perform(s, Admit(place, None, year)).value;
    if ReadsBack(s.prefix, year) {
      GeneratedIsFree(after, year);
    } else {
      LeadOf(s.prefix, year, NextOf(s, year));
      ReadPrefix(s.students, after.students, |s.students|, year);
      assert after.students[|s.students|].number == Generated(s, year);
      assert Generated(after, year) == Generated(s, year);
    }
  }

  lemma {:induction false} ReadPrefix(a: seq<Student>, b: seq<Student>, n: nat, year: nat)
    requires n <= |a| && n <= |b| && forall i | 0 <= i < n :: a[i] == b[i]
    ensures ReadNumbers(a, n, year) == ReadNumbers(b, n, year)
  {
    if n > 0 { ReadPrefix(a, b, n - 1, year); }
  }
}
