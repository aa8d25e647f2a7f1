/**
 * The roll under concurrent requests. Each request first reads without a lock: a move where
 * the student is, a return to the roll which arm the student points at, a promotion who moves,
 * a capacity change how many are on the roll. Then it locks the arms it found it needs seats
 * in and counts them, if there are any; and only then it writes and commits.
 */
module CapacityRace {
  import opened Wrappers
  import opened Enrolment

  /** What a request goes on to write. */
  datatype Plan =
    | Insert(places: seq<Option<nat>>, numbers: seq<string>)
    | Place(id: nat, to: Option<Option<nat>>)
    | Mark(id: nat, status: Status)
    | Advance(source: nat, target: Option<nat>, ids: seq<nat>)
    | Resize(arm: nat, capacity: Option<nat>)
    | Drop(arm: nat)

  /** seats: what it has to ask for in which arm. checked: when it counted, holding their locks since. */
  datatype Request = Request(plan: Plan, seats: map<nat, nat>, checked: Option<nat>)

  /** requests: by the position of their look. */
  datatype Office = Office(school: School, requests: map<nat, Request>, clock: nat)

  /** Do: adding an arm, setting the prefix. */
  datatype Event =
    | Do(op: Op)
    | Look(op: Op)
    | Check(request: nat)
    | Commit(request: nat)
    | Crash(request: nat)

  // ---------------------------------------------------------------------------
  // One request
  // ---------------------------------------------------------------------------

  function MoverIds(s: School, source: nat, only: Option<seq<nat>>, n: nat): (ids: seq<nat>)
    requires n <= |s.students|
    ensures |ids| == Movers(s, source, only, n)
  {
    if n == 0 then []
    else MoverIds(s, source, only, n - 1) + if Moves(s, source, only, n - 1) then [n - 1] else []
  }

  /** What is decided from the reads before any lock. */
  function PlanOf(s: School, op: Op): Option<Plan> {
    match op
    case Admit(place, supplied, year) =>
      if supplied.Some? && NumberTaken(s, supplied.value) then None
      else Some(Insert([place], [if supplied.Some? then supplied.value else Generated(s, year)]))
    case Move(id, to) => if id >= |s.students| then None else Some(Place(id, to))
    case ChangeStatus(id, status) =>
      if id >= |s.students| || s.students[id].status == status then None else Some(Mark(id, status))
    case Promote(source, target, graduate, only) =>
      if graduate == target.Some? || target == Some(source) || source !in s.arms then None
      else if target.Some? && target.value !in s.arms then None
      else
        var ids := MoverIds(s, source, only, |s.students|);
        if (only.Some? && |ids| != |only.value|) || |ids| == 0 then None else Some(Advance(source, target, ids))
    case SetCapacity(arm, capacity) =>
      if arm !in s.arms || (capacity.Some? && capacity.value < RollOf(s, arm)) then None else Some(Resize(arm, capacity))
    case RemoveArm(arm) => if arm !in s.arms || RollOf(s, arm) > 0 then None else Some(Drop(arm))
    case AdmitMany(places, numbers) => if |numbers| != |places| then None else Some(Insert(places, numbers))
    case AddArm(_, _) => None
    case SetPrefix(_) => None
  }

  function ArmsOf(places: seq<Option<nat>>): set<nat> { set i | 0 <= i < |places| && places[i].Some? :: places[i].value }

  function Filled(places: seq<Option<nat>>): map<nat, nat> {
    map arm | arm in ArmsOf(places) :: Incoming(places, |places|, arm)
  }

  /** Room is asked for a move into another arm than the one read, and for a return to the arm read. */
  function SeatsOf(s: School, plan: Plan): map<nat, nat> {
    match plan
    case Insert(places, _) => Filled(places)
    case Place(id, to) =>
      if to.Some? && to.value.Some? && (id < |s.students| ==> s.students[id].arm != to.value) then map[to.value.value := 1]
      else map[]
    case Mark(id, status) =>
      if status == ACTIVE && id < |s.students| && s.students[id].arm.Some? then map[s.students[id].arm.value := 1]
      else map[]
    case Advance(_, target, ids) => if target.Some? then map[target.value := |ids|] else map[]
    case Resize(_, _) => map[]
    case Drop(_) => map[]
  }

  predicate Unplaceable(s: School, places: seq<Option<nat>>) {
    exists i | 0 <= i < |places| :: places[i].Some? && places[i].value !in s.arms
  }

  /** The write, on whatever the tables hold by then. A foreign key or the unique number refuses it: None. */
  function Apply(s: School, plan: Plan): Option<School> {
    match plan
    case Insert(places, numbers) =>
      if |numbers| != |places| || Repeated(numbers) || AnyTaken(s, numbers) || Unplaceable(s, places) then None
      else Some(s.(students := s.students + Admitted(places, numbers)))
    case Place(id, to) =>
      if id >= |s.students| then None
      else if to.None? then Some(s)
      else if to.value.Some? && to.value.value !in s.arms then None
      else Some(s.(students := s.students[id := s.students[id].(arm := to.value)]))
    case Mark(id, status) =>
      if id >= |s.students| then None else Some(s.(students := s.students[id := s.students[id].(status := status)]))
    case Advance(source, target, ids) =>
      if target == Some(source) || (target.Some? && target.value !in s.arms) then None
      else Some(s.(students := Advanced(s, source, target, Some(ids))))
    case Resize(arm, capacity) => if arm !in s.arms then None else Some(s.(arms := s.arms[arm := capacity]))
    case Drop(arm) =>
      if arm !in s.arms then None
      else Some(s.(arms := s.arms - {arm}, students := Unassigned(s.students, arm)))
  }

  predicate RoomForAll(s: School, seats: map<nat, nat>) { forall arm | arm in seats :: HasRoom(s, arm, seats[arm]) }

  // ---------------------------------------------------------------------------
  // Read, counted and written at once, a request is the rule
  // ---------------------------------------------------------------------------

  lemma {:induction false} MoverIdsAre(s: School, source: nat, only: Option<seq<nat>>, n: nat, i: nat)
    requires n <= |s.students|
    ensures i in MoverIds(s, source, only, n) <==> i < n && Moves(s, source, only, i)
  {
    if n > 0 { MoverIdsAre(s, source, only, n - 1, i); }
  }

  lemma AdvancedByIds(s: School, source: nat, target: Option<nat>, only: Option<seq<nat>>)
    ensures Advanced(s, source, target, Some(MoverIds(s, source, only, |s.students|))) == Advanced(s, source, target, only)
  {
    forall i | 0 <= i < |s.students|
      ensures Moves(s, source, Some(MoverIds(s, source, only, |s.students|)), i) == Moves(s, source, only, i)
    {
      MoverIdsAre(s, source, only, |s.students|, i);
    }
  }

  lemma OnePlace(s: School, place: Option<nat>, number: string)
    ensures Repeated([number]) == false && (AnyTaken(s, [number]) <==> NumberTaken(s, number))
    ensures Admitted([place], [number]) == [Student(place, ACTIVE, number)]
    ensures place.Some? ==> Incoming([place], 1, place.value) == 1
  {
    if NumberTaken(s, number) { assert NumberTaken(s, [number][0]); }
    assert place.Some? ==> Incoming([place], 0, place.value) == 0;
  }

  lemma OneArm(s: School, arm: nat, n: nat)
    ensures RoomForAll(s, map[arm := n]) <==> HasRoom(s, arm, n)
  {
    assert arm in map[arm := n];
  }

  lemma AtOnceIsTheRule(s: School, op: Op)
    requires !op.AddArm? && !op.SetPrefix?
    requires forall i | 0 <= i < |s.students| && s.students[i].arm.Some? :: s.students[i].arm.value in s.arms
    ensures Perform(s, op).Some? <==>
      PlanOf(s, op).Some? && RoomForAll(s, SeatsOf(s, PlanOf(s, op).value)) && Apply(s, PlanOf(s, op).value).Some?
    ensures Perform(s, op).Some? ==> Apply(s, PlanOf(s, op).value) == Perform(s, op)
  {
    match op
    case Admit(place, supplied, year) =>
      AdmitAtOnce(s, place, supplied, year);
    case Move(id, to) => if to.Some? && to.value.Some? { OneArm(s, to.value.value, 1); }
    case ChangeStatus(id, _) => if id < |s.students| && s.students[id].arm.Some? { OneArm(s, s.students[id].arm.value, 1); }
    case Promote(source, target, _, only) =>
      AdvancedByIds(s, source, target, only);
      if target.Some? { OneArm(s, target.value, Movers(s, source, only, |s.students|)); }
    case AdmitMany(places, numbers) => if |numbers| == |places| { ManyAtOnce(s, places, numbers); }
    case _ =>
  }

  lemma AdmitAtOnce(s: School, place: Option<nat>, supplied: Option<string>, year: nat)
    ensures var op := Admit(place, supplied, year);
      && (Perform(s, op).Some? <==>
            PlanOf(s, op).Some? && RoomForAll(s, SeatsOf(s, PlanOf(s, op).value)) && Apply(s, PlanOf(s, op).value).Some?)
      && (Perform(s, op).Some? ==> Apply(s, PlanOf(s, op).value) == Perform(s, op))
  {
    hide Generated, NumberTaken, Repeated, AnyTaken;
    var number := if supplied.Some? then supplied.value else Generated(s, year);
    OnePlace(s, place, number);
    ManyAtOnce(s, [place], [number]);
    hide Incoming;
    assert AllFit(s, [place]) <==> (place.Some? ==> HasRoom(s, place.value, 1)) by {
      if place.Some? { assert [place][0] == place; }
    }
  }

  lemma ManyAtOnce(s: School, places: seq<Option<nat>>, numbers: seq<string>)
    requires |numbers| == |places|
    ensures RoomForAll(s, SeatsOf(s, Insert(places, numbers))) <==> AllFit(s, places)
    ensures AllFit(s, places) ==> !Unplaceable(s, places)
  {
    var seats := SeatsOf(s, Insert(places, numbers));
    if AllFit(s, places) {
    } else {
      var i :| 0 <= i < |places| && places[i].Some? && !HasRoom(s, places[i].value, Incoming(places, |places|, places[i].value));
      assert places[i].value in seats;
    }
  }

  // ---------------------------------------------------------------------------
  // Runs
  // ---------------------------------------------------------------------------

  predicate Locked(o: Office, arm: nat) {
    exists r | r in o.requests :: o.requests[r].checked.Some? && arm in o.requests[r].seats
  }

  /** Past its check, or with nothing to ask. */
  predicate Ready(o: Office, r: nat) {
    r in o.requests && (o.requests[r].seats == map[] || o.requests[r].checked.Some?)
  }

  /** Writing an arm's own row waits for its lock. */
  predicate Waits(o: Office, plan: Plan) { (plan.Resize? || plan.Drop?) && Locked(o, plan.arm) }

  function Next(o: Office, e: Event): Office {
    var n := o.(clock := o.clock + 1);
    match e
    case Do(op) =>
      if !(op.AddArm? || op.SetPrefix?) then n
      else (match Perform(o.school, op) case None => n case Some(after) => n.(school := after))
    case Look(op) =>
      (match PlanOf(o.school, op)
       case None => n
       case Some(plan) => n.(requests := o.requests[o.clock := Request(plan, SeatsOf(o.school, plan), None)]))
    case Check(r) =>
      if r !in o.requests || o.requests[r].checked.Some? || exists arm | arm in o.requests[r].seats :: Locked(o, arm) then n
      else if RoomForAll(o.school, o.requests[r].seats) then
        n.(requests := o.requests[r := o.requests[r].(checked := Some(o.clock))])
      else n.(requests := o.requests - {r})
    case Commit(r) =>
      if !Ready(o, r) || Waits(o, o.requests[r].plan) then n
      else
        (match Apply(o.school, o.requests[r].plan)
         case None => n.(requests := o.requests - {r})
         case Some(after) => n.(school := after, requests := o.requests - {r}))
    case Crash(r) => n.(requests := o.requests - {r})
  }

  function Run(o: Office, events: seq<Event>, n: nat): Office
    requires n <= |events|
  {
    if n == 0 then o else Next(Run(o, events, n - 1), events[n - 1])
  }

  /** Nobody is past a look. */
  predicate AtRest(o: Office) { o.requests == map[] && o.clock == 0 }

  /** The request that the event at n commits, if it does. */
  predicate Commits(o: Office, e: Event) {
    && e.Commit? && Ready(o, e.request) && !Waits(o, o.requests[e.request].plan)
    && Apply(o.school, o.requests[e.request].plan).Some?
  }

  // ---------------------------------------------------------------------------
  // What a write does to a roll
  // ---------------------------------------------------------------------------

  /** The most a write can put on the roll of one arm. */
  function MayAdd(s: School, plan: Plan, arm: nat): nat {
    match plan
    case Insert(places, _) => Incoming(places, |places|, arm)
    case Place(id, to) => if to == Some(Some(arm)) && (id < |s.students| ==> s.students[id].arm != Some(arm)) then 1 else 0
    case Mark(id, status) => if status == ACTIVE && id < |s.students| && s.students[id].arm == Some(arm) then 1 else 0
    case Advance(_, target, ids) => if target == Some(arm) then |ids| else 0
    case Resize(_, _) => 0
    case Drop(_) => 0
  }

  lemma ApplyGains(s: School, plan: Plan, arm: nat)
    requires Apply(s, plan).Some?
    ensures RollOf(Apply(s, plan).value, arm) <= RollOf(s, arm) + MayAdd(s, plan, arm)
    ensures plan.Resize? ==> RollOf(Apply(s, plan).value, arm) == RollOf(s, arm)
  {
    var after := Apply(s, plan).value;
    match plan
    case Insert(places, numbers) =>
      RollAppend(s.students, Admitted(places, numbers), |places|, arm);
      RollOfAdmitted(places, numbers, |places|, arm);
    case Place(id, to) => if to.Some? { RollUpdate(s.students, |s.students|, id, after.students[id], arm); }
    case Mark(id, _) => RollUpdate(s.students, |s.students|, id, after.students[id], arm);
    case Advance(source, target, ids) =>
      RollOfAdvanced(s, source, target, Some(ids), |s.students|, arm);
      AtMostTheIds(s, source, ids, |s.students|);
    case Resize(_, _) =>
    case Drop(gone) =>
      if arm == gone { NobodyOn(after.students, |s.students|, arm); }
      else { RollAgrees(after.students, s.students, |s.students|, arm); }
  }

  /** No more are moved than were named. */
  lemma {:induction false} AtMostTheIds(s: School, source: nat, ids: seq<nat>, n: nat)
    requires n <= |s.students|
    ensures Movers(s, source, Some(ids), n) <= |ids|
  {
    NamedOnce(s, source, ids, n);
    SetFits(ids, set i | 0 <= i < n && i in ids);
  }

  lemma {:induction false} NamedOnce(s: School, source: nat, ids: seq<nat>, n: nat)
    requires n <= |s.students|
    ensures Movers(s, source, Some(ids), n) <= |set i | 0 <= i < n && i in ids|
  {
    if n > 0 {
      NamedOnce(s, source, ids, n - 1);
      var less, all := (set i | 0 <= i < n - 1 && i in ids), (set i | 0 <= i < n && i in ids);
      assert all == if n - 1 in ids then less + {n - 1} else less;
    }
  }

  lemma {:induction false} SetFits(ids: seq<nat>, all: set<int>)
    requires forall i | i in all :: i >= 0 && i in ids
    ensures |all| <= |ids|
  {
    if ids == [] {
      assert forall i | i in all :: i in ids;
      assert all == {};
    } else {
      var last := ids[|ids| - 1];
      var rest := all - {last};
      forall i | i in rest ensures i >= 0 && i in ids[..|ids| - 1] {
        assert ids == ids[..|ids| - 1] + [last];
      }
      SetFits(ids[..|ids| - 1], rest);
      assert all <= rest + {last};
      assert |all| <= |rest| + 1 by { if last in all { assert all == rest + {last}; } else { assert all == rest; } }
    }
  }

  // ---------------------------------------------------------------------------
  // What every run keeps
  // ---------------------------------------------------------------------------

  /** Nobody is in an arm that is not there, and numbers are unique. */
  ghost predicate Filed(s: School) {
    && (forall i | 0 <= i < |s.students| && s.students[i].arm.Some? :: s.students[i].arm.value in s.arms)
    && (forall i, j | 0 <= i < j < |s.students| :: s.students[i].number != s.students[j].number)
  }

  predicate OverFull(s: School, arm: nat) {
    arm in s.arms && s.arms[arm].Some? && RollOf(s, arm) > s.arms[arm].value
  }

  lemma SeatedIs(s: School)
    ensures Seated(s) <==> Filed(s) && forall arm :: !OverFull(s, arm)
  {
    if Filed(s) && (forall arm :: !OverFull(s, arm)) {
      forall arm | arm in s.arms && s.arms[arm].Some? ensures RollOf(s, arm) <= s.arms[arm].value {
        assert !OverFull(s, arm);
      }
    }
  }

  lemma ApplyKeepsFiled(s: School, plan: Plan)
    requires Filed(s) && Apply(s, plan).Some?
    ensures Filed(Apply(s, plan).value)
  {
    var after := Apply(s, plan).value;
    match plan
    case Insert(places, numbers) => InsertKeepsFiled(s, places, numbers);
    case _ => assert forall i | 0 <= i < |s.students| :: after.students[i].number == s.students[i].number;
  }

  lemma InsertKeepsFiled(s: School, places: seq<Option<nat>>, numbers: seq<string>)
    requires Filed(s) && |numbers| == |places|
    requires !Repeated(numbers) && !AnyTaken(s, numbers) && !Unplaceable(s, places)
    ensures Filed(s.(students := s.students + Admitted(places, numbers)))
  {
    var all := s.students + Admitted(places, numbers);
    forall i, j | 0 <= i < j < |all| ensures all[i].number != all[j].number {
      if j >= |s.students| {
        assert all[j].number == numbers[j - |s.students|] && !NumberTaken(s, numbers[j - |s.students|]);
      }
    }
    forall i | 0 <= i < |all| && all[i].arm.Some? ensures all[i].arm.value in s.arms {
      if i >= |s.students| { assert all[i].arm == places[i - |s.students|]; }
    }
  }

  lemma NextKeepsFiled(o: Office, e: Event)
    requires Filed(o.school)
    ensures Filed(Next(o, e).school) && Next(o, e).clock == o.clock + 1
  {
    hide Apply, PlanOf, SeatsOf;
    if e.Commit? && Ready(o, e.request) && Apply(o.school, o.requests[e.request].plan).Some? {
      ApplyKeepsFiled(o.school, o.requests[e.request].plan);
    }
  }

  /** A request holds what it looked at and, once checked, seats that were there when it counted. */
  ghost predicate Held(o: Office, events: seq<Event>, n: nat, r: nat)
    requires n <= |events| && r in Run(o, events, n).requests
  {
    var at := Run(o, events, n);
    var q := at.requests[r];
    && r < n && events[r].Look?
    && PlanOf(Run(o, events, r).school, events[r].op) == Some(q.plan)
    && q.seats == SeatsOf(Run(o, events, r).school, q.plan)
    && (q.checked.Some? ==>
          && r < q.checked.value < n
          && RoomForAll(Run(o, events, q.checked.value).school, q.seats)
          && SameArms(Run(o, events, q.checked.value).school, at.school, q.seats))
  }

  ghost predicate SameArms(s: School, t: School, seats: map<nat, nat>) {
    forall arm | arm in seats :: arm in s.arms && arm in t.arms && s.arms[arm] == t.arms[arm]
  }

  ghost predicate Exclusive(o: Office) {
    forall p, q, arm | p in o.requests && q in o.requests && arm in o.requests[p].seats && arm in o.requests[q].seats
      && o.requests[p].checked.Some? && o.requests[q].checked.Some? :: p == q
  }

  ghost predicate Grounded(o: Office, events: seq<Event>, n: nat)
    requires n <= |events|
  {
    var at := Run(o, events, n);
    && at.clock == n && Filed(at.school) && Exclusive(at) && forall r | r in at.requests :: Held(o, events, n, r)
  }

  /** Each request that is still there is as it was, has just looked, or has just counted. */
  lemma RequestMoves(o: Office, e: Event, r: nat)
    requires r in Next(o, e).requests
    ensures var n := Next(o, e);
      || (r in o.requests && n.requests[r] == o.requests[r])
      || (r == o.clock && e.Look? && PlanOf(o.school, e.op).Some?
          && n.requests[r] == Request(PlanOf(o.school, e.op).value, SeatsOf(o.school, PlanOf(o.school, e.op).value), None))
      || (e == Check(r) && r in o.requests && o.requests[r].checked.None? && RoomForAll(o.school, o.requests[r].seats)
          && n.requests[r] == o.requests[r].(checked := Some(o.clock)) && n.school == o.school
          && forall arm | arm in o.requests[r].seats :: !Locked(o, arm))
  {
    hide Apply, PlanOf, SeatsOf, RoomForAll, Perform, Locked, Waits;
  }

  lemma NextIsExclusive(o: Office, e: Event)
    requires Exclusive(o) && forall r | r in o.requests :: r < o.clock
    ensures Exclusive(Next(o, e))
  {
    hide Apply, PlanOf, SeatsOf, RoomForAll, Perform, Waits, Next;
    var n := Next(o, e);
    forall p, q, arm | p in n.requests && q in n.requests && arm in n.requests[p].seats && arm in n.requests[q].seats
      && n.requests[p].checked.Some? && n.requests[q].checked.Some?
      ensures p == q
    {
      RequestMoves(o, e, p);
      RequestMoves(o, e, q);
    }
  }

  /** An arm whose row is locked keeps its capacity. */
  lemma LockedArmStays(o: Office, e: Event, arm: nat)
    requires Locked(o, arm) && arm in o.school.arms
    ensures arm in Next(o, e).school.arms && Next(o, e).school.arms[arm] == o.school.arms[arm]
  {
    hide PlanOf, SeatsOf, RoomForAll, Locked;
  }

  lemma HeldStays(o: Office, events: seq<Event>, n: nat, r: nat)
    requires n < |events| && Grounded(o, events, n) && r in Run(o, events, n + 1).requests
    ensures Held(o, events, n + 1, r)
  {
    hide PlanOf, SeatsOf, RoomForAll, Perform, Waits, Next, Exclusive, Filed, Locked;
    var before, at, e := Run(o, events, n), Run(o, events, n + 1), events[n];
    RequestMoves(before, e, r);
    assert r in before.requests ==> Held(o, events, n, r);
    if r in before.requests && at.requests[r] == before.requests[r] {
      if at.requests[r].checked.Some? {
        forall arm | arm in at.requests[r].seats
          ensures arm in at.school.arms && at.school.arms[arm] == before.school.arms[arm]
        {
          LocksHeld(before, r, arm);
          LockedArmStays(before, e, arm);
        }
      }
    } else if e == Check(r) {
      RoomIsThere(before.school, before.requests[r].seats);
    }
  }

  lemma LocksHeld(o: Office, r: nat, arm: nat)
    requires r in o.requests && o.requests[r].checked.Some? && arm in o.requests[r].seats
    ensures Locked(o, arm)
  {
  }

  lemma RoomIsThere(s: School, seats: map<nat, nat>)
    requires RoomForAll(s, seats)
    ensures SameArms(s, s, seats)
  {
  }

  lemma {:induction false} AlwaysGrounded(o: Office, events: seq<Event>, n: nat)
    requires AtRest(o) && Filed(o.school) && n <= |events|
    ensures Grounded(o, events, n)
  {
    hide Next, Filed, Exclusive, Held;
    if n == 0 {
      NobodyIsExclusive(o);
    } else {
      AlwaysGrounded(o, events, n - 1);
      var before := Run(o, events, n - 1);
      NextKeepsFiled(before, events[n - 1]);
      forall r | r in before.requests ensures r < n - 1 { LookedBefore(o, events, n - 1, r); }
      NextIsExclusive(before, events[n - 1]);
      forall r | r in Run(o, events, n).requests ensures Held(o, events, n, r) { HeldStays(o, events, n - 1, r); }
    }
  }

  lemma NobodyIsExclusive(o: Office)
    requires o.requests == map[]
    ensures Exclusive(o)
  {
  }

  lemma LookedBefore(o: Office, events: seq<Event>, n: nat, r: nat)
    requires n <= |events| && r in Run(o, events, n).requests && Held(o, events, n, r)
    ensures r < n
  {
  }

  // ---------------------------------------------------------------------------
  // Arrivals
  // ---------------------------------------------------------------------------

  /** How the event at n changes the roll of an arm. */
  function Gain(o: Office, events: seq<Event>, n: nat, arm: nat): int
    requires n < |events|
  {
    RollOf(Run(o, events, n + 1).school, arm) - RollOf(Run(o, events, n).school, arm)
  }

  /** Arrivals less departures between two moments. */
  function Net(o: Office, events: seq<Event>, a: nat, n: nat, arm: nat): int
    requires a <= n <= |events|
    decreases n
  {
    if n == a then 0 else Net(o, events, a, n - 1, arm) + Gain(o, events, n - 1, arm)
  }

  lemma {:induction false} NetIs(o: Office, events: seq<Event>, a: nat, n: nat, arm: nat)
    requires a <= n <= |events|
    ensures Net(o, events, a, n, arm) == RollOf(Run(o, events, n).school, arm) - RollOf(Run(o, events, a).school, arm)
    decreases n
  {
    hide Run, RollOf;
    if n > a { NetIs(o, events, a, n - 1, arm); }
  }

  lemma RunNext(o: Office, events: seq<Event>, n: nat)
    requires n < |events|
    ensures Run(o, events, n + 1) == Next(Run(o, events, n), events[n])
  {
  }

  /** Somebody joins the roll of an arm in which no seat was asked for. */
  predicate Unasked(o: Office, events: seq<Event>, n: nat, arm: nat)
    requires n < |events|
  {
    var at := Run(o, events, n);
    Commits(at, events[n]) && arm !in at.requests[events[n].request].seats && Gain(o, events, n, arm) > 0
  }

  lemma OnlyCommitsChange(o: Office, e: Event, arm: nat)
    requires Filed(o.school) && !Commits(o, e)
    ensures RollOf(Next(o, e).school, arm) == RollOf(o.school, arm)
    ensures OverFull(Next(o, e).school, arm) ==> OverFull(o.school, arm)
  {
    hide Apply, PlanOf, SeatsOf, RoomForAll, Locked;
    if e.Do? && e.op.AddArm? && e.op.arm == arm && arm !in o.school.arms {
      NobodyOn(o.school.students, |o.school.students|, arm);
    }
  }

  /** A request adds no more than it asked for, and where it asked nothing, only a student it saw elsewhere. */
  lemma MoreThanAsked(looked: School, s: School, op: Op, plan: Plan, arm: nat)
    requires PlanOf(looked, op) == Some(plan)
    ensures arm in SeatsOf(looked, plan) ==> MayAdd(s, plan, arm) <= SeatsOf(looked, plan)[arm]
    ensures arm !in SeatsOf(looked, plan) && MayAdd(s, plan, arm) > 0 ==>
      && MayAdd(s, plan, arm) == 1 && (plan.Place? || (plan.Mark? && plan.status == ACTIVE))
      && plan.id < |looked.students| && (plan.id < |s.students| ==> s.students[plan.id].arm != looked.students[plan.id].arm)
  {
    if plan.Insert? && arm !in ArmsOf(plan.places) { NobodyIncoming(plan.places, |plan.places|, arm); }
  }

  /** Nobody arrives unasked but a student whose arm was written since the request looked. */
  lemma UnaskedIsStale(o: Office, events: seq<Event>, n: nat, arm: nat)
    requires AtRest(o) && Filed(o.school) && n < |events| && Unasked(o, events, n, arm)
    ensures var at, r := Run(o, events, n), events[n].request;
      && r < n && Gain(o, events, n, arm) == 1
      && var plan := at.requests[r].plan;
        && (plan.Place? || (plan.Mark? && plan.status == ACTIVE))
        && plan.id < |Run(o, events, r).school.students| && plan.id < |at.school.students|
        && at.school.students[plan.id].arm != Run(o, events, r).school.students[plan.id].arm
  {
    hide PlanOf, SeatsOf, MayAdd, Filed, Exclusive, RollOf;
    AlwaysGrounded(o, events, n);
    RunNext(o, events, n);
    var at, r := Run(o, events, n), events[n].request;
    var q := at.requests[r];
    assert Held(o, events, n, r);
    ApplyGains(at.school, q.plan, arm);
    MoreThanAsked(Run(o, events, r).school, at.school, events[r].op, q.plan, arm);
  }

  /** A held request is still what it was at every moment since it counted. */
  lemma {:induction false} HeldSince(o: Office, events: seq<Event>, i: nat, n: nat, r: nat)
    requires AtRest(o) && Filed(o.school) && i <= n <= |events|
    requires r in Run(o, events, n).requests && Run(o, events, n).requests[r].checked.Some?
    requires Run(o, events, n).requests[r].checked.value < i
    ensures r in Run(o, events, i).requests && Run(o, events, i).requests[r] == Run(o, events, n).requests[r]
    decreases n
  {
    hide Next, PlanOf, SeatsOf, RoomForAll, Filed, Exclusive;
    if i < n {
      AlwaysGrounded(o, events, n - 1);
      RunNext(o, events, n - 1);
      RequestMoves(Run(o, events, n - 1), events[n - 1], r);
      HeldSince(o, events, i, n - 1, r);
    }
  }

  /** Under the lock of an arm, only the unasked arrive. */
  lemma HeldGainsAreUnasked(o: Office, events: seq<Event>, i: nat, n: nat, arm: nat)
    requires AtRest(o) && Filed(o.school) && i < n < |events| && Gain(o, events, i, arm) > 0
    requires events[n].Commit? && events[n].request in Run(o, events, n).requests
    requires var q := Run(o, events, n).requests[events[n].request];
      arm in q.seats && q.checked.Some? && q.checked.value <= i
    ensures Unasked(o, events, i, arm)
  {
    hide PlanOf, SeatsOf, RoomForAll, Filed, RollOf, Perform, Apply, Waits;
    var r, at := events[n].request, Run(o, events, i);
    AlwaysGrounded(o, events, i);
    RunNext(o, events, i);
    hide Held;
    if !Commits(at, events[i]) { OnlyCommitsChange(at, events[i], arm); }
    HeldSince(o, events, i + 1, n, r);
    StillHeld(at, events[i], r, arm);
  }

  /** The arm of a request that stays is in nobody else's hands. */
  lemma StillHeld(o: Office, e: Event, r: nat, arm: nat)
    requires Exclusive(o) && Commits(o, e) && r in Next(o, e).requests && r in o.requests
    requires o.requests[r].checked.Some? && arm in o.requests[r].seats
    ensures arm !in o.requests[e.request].seats
  {
    hide PlanOf, SeatsOf, RoomForAll, Locked, Waits;
  }

  // ---------------------------------------------------------------------------
  // When a write crowds an arm
  // ---------------------------------------------------------------------------

  /** When the request that commits at n last read the roll of the arm. */
  function ReadAt(o: Office, events: seq<Event>, n: nat, arm: nat): (a: nat)
    requires n < |events|
    ensures a <= n
  {
    var at := Run(o, events, n);
    if !Commits(at, events[n]) then n
    else
      var q := at.requests[events[n].request];
      if arm in q.seats && q.checked.Some? && q.checked.value <= n then q.checked.value
      else if q.plan.Resize? && events[n].request <= n then events[n].request
      else n
  }

  /** The seats a request saw spare in the arm when it read its roll. */
  function Spare(o: Office, events: seq<Event>, a: nat, arm: nat, capacity: nat): int
    requires a <= |events|
  {
    capacity - RollOf(Run(o, events, a).school, arm)
  }

  /**
   * The write at n crowds the arm. A capacity: more have arrived since its look than it saw
   * spare. A seat that was asked for: with those who have arrived since the count, the
   * newcomers are more than it saw spare. A seat nobody asked for: the arm was full.
   */
  predicate Crowds(o: Office, events: seq<Event>, n: nat, arm: nat)
    requires n < |events|
  {
    var at, a := Run(o, events, n), ReadAt(o, events, n, arm);
    Commits(at, events[n]) &&
    var q := at.requests[events[n].request];
    if q.plan.Resize? then
      && q.plan.arm == arm && q.plan.capacity.Some?
      && Net(o, events, a, n, arm) > Spare(o, events, a, arm, q.plan.capacity.value)
    else
      && arm in at.school.arms && at.school.arms[arm].Some?
      && if arm in q.seats then
           var capacity := at.school.arms[arm].value;
           Net(o, events, a, n, arm) + Gain(o, events, n, arm) > Spare(o, events, a, arm, capacity)
         else Unasked(o, events, n, arm) && RollOf(at.school, arm) == at.school.arms[arm].value
  }

  ghost predicate WithinAll(s: School) { forall arm :: !OverFull(s, arm) }

  /** The capacities after a write. */
  lemma ApplyArms(s: School, plan: Plan, arm: nat)
    requires Apply(s, plan).Some?
    ensures var after := Apply(s, plan).value;
      if plan.Resize? && plan.arm == arm then arm in after.arms && after.arms[arm] == plan.capacity
      else if plan.Drop? && plan.arm == arm then arm !in after.arms
      else (arm in after.arms <==> arm in s.arms) && (arm in s.arms ==> after.arms[arm] == s.arms[arm])
  {
  }

  lemma OverIff(o: Office, events: seq<Event>, n: nat, arm: nat)
    requires AtRest(o) && Filed(o.school) && n < |events| && !OverFull(Run(o, events, n).school, arm)
    ensures OverFull(Run(o, events, n + 1).school, arm) <==> Crowds(o, events, n, arm)
  {
    hide PlanOf, SeatsOf, RoomForAll, MayAdd, Apply, RollOf, Exclusive, Filed, Next, Waits, Ready;
    AlwaysGrounded(o, events, n);
    RunNext(o, events, n);
    var at, e, after := Run(o, events, n), events[n], Run(o, events, n + 1);
    if !Commits(at, e) {
      OnlyCommitsChange(at, e, arm);
    } else {
      CommitWrites(at, e);
      var q := at.requests[e.request];
      assert Held(o, events, n, e.request);
      ApplyArms(at.school, q.plan, arm);
      ApplyGains(at.school, q.plan, arm);
      NetIs(o, events, ReadAt(o, events, n, arm), n, arm);
      if q.plan.Resize? {
      } else if arm in q.seats {
        AskedIsChecked(at, e.request, arm);
        assert SameArms(Run(o, events, q.checked.value).school, at.school, q.seats);
      } else if Gain(o, events, n, arm) > 0 {
        UnaskedIsStale(o, events, n, arm);
      }
      if q.plan.Drop? { DropAsksNothing(Run(o, events, e.request).school, at.school, q.plan, arm); }
    }
  }

  lemma CommitWrites(o: Office, e: Event)
    requires Commits(o, e)
    ensures Next(o, e).school == Apply(o.school, o.requests[e.request].plan).value && e.request in o.requests
  {
  }

  lemma AskedIsChecked(o: Office, r: nat, arm: nat)
    requires Ready(o, r) && arm in o.requests[r].seats
    ensures o.requests[r].checked.Some?
  {
  }

  lemma DropAsksNothing(looked: School, s: School, plan: Plan, arm: nat)
    requires plan.Drop? || plan.Resize?
    ensures SeatsOf(looked, plan) == map[] && MayAdd(s, plan, arm) == 0
  {
  }

  ghost predicate SeatedThroughout(o: Office, events: seq<Event>) {
    forall n | 0 <= n <= |events| :: Seated(Run(o, events, n).school)
  }

  ghost predicate NothingCrowds(o: Office, events: seq<Event>) {
    forall n, arm | 0 <= n < |events| :: !Crowds(o, events, n, arm)
  }

  lemma {:induction false} WithinSoFar(o: Office, events: seq<Event>, n: nat)
    requires AtRest(o) && Seated(o.school) && NothingCrowds(o, events) && n <= |events|
    ensures WithinAll(Run(o, events, n).school)
  {
    hide Run, Next, OverFull, Crowds, Filed, Seated;
    SeatedIs(o.school);
    if n == 0 {
      RunStart(o, events);
    } else {
      WithinSoFar(o, events, n - 1);
      forall arm ensures !OverFull(Run(o, events, n).school, arm) { OverIff(o, events, n - 1, arm); }
    }
  }

  lemma RunStart(o: Office, events: seq<Event>)
    ensures Run(o, events, 0) == o
  {
  }

  /**
   * Everybody is seated at every moment of a run exactly when nothing crowds: no capacity is
   * written, no asked seat taken and no unasked one, after more arrivals since the roll was
   * read than there were seats to spare.
   */
  lemma SeatedThroughoutIff(o: Office, events: seq<Event>)
    requires AtRest(o) && Seated(o.school)
    ensures SeatedThroughout(o, events) <==> NothingCrowds(o, events)
  {
    hide Run, Next, OverFull, Crowds, Filed, Seated;
    SeatedIs(o.school);
    if NothingCrowds(o, events) {
      forall n | 0 <= n <= |events| ensures Seated(Run(o, events, n).school) {
        WithinSoFar(o, events, n);
        AlwaysGrounded(o, events, n);
        SeatedIs(Run(o, events, n).school);
      }
    } else {
      var n, arm :| 0 <= n < |events| && Crowds(o, events, n, arm);
      SeatedIs(Run(o, events, n).school);
      SeatedIs(Run(o, events, n + 1).school);
      if Seated(Run(o, events, n).school) {
        OverIff(o, events, n, arm);
        assert !Seated(Run(o, events, n + 1).school);
      }
    }
  }

  // ---------------------------------------------------------------------------
  // What is enough
  // ---------------------------------------------------------------------------

  /** Nobody arrives in the arm between a capacity change's look and its write. */
  ghost predicate ResizedUndisturbed(o: Office, events: seq<Event>) {
    forall i, n | 0 <= i < n < |events| && Commits(Run(o, events, n), events[n])
      && Run(o, events, n).requests[events[n].request].plan.Resize? && events[n].request <= i ::
      Gain(o, events, i, Run(o, events, n).requests[events[n].request].plan.arm) <= 0
  }

  ghost predicate NobodyUnasked(o: Office, events: seq<Event>) {
    forall n, arm | 0 <= n < |events| :: !Unasked(o, events, n, arm)
  }

  lemma {:induction false} NoGainsNoNet(o: Office, events: seq<Event>, a: nat, n: nat, arm: nat)
    requires a <= n <= |events| && forall i | a <= i < n :: Gain(o, events, i, arm) <= 0
    ensures Net(o, events, a, n, arm) <= 0
    decreases n
  {
    hide Gain;
    if n > a { NoGainsNoNet(o, events, a, n - 1, arm); }
  }

  /** Counted under the lock, and nobody unasked since: there is room. */
  lemma AskedHasRoom(o: Office, events: seq<Event>, n: nat, arm: nat)
    requires AtRest(o) && Filed(o.school) && n < |events| && NobodyUnasked(o, events)
    requires Commits(Run(o, events, n), events[n]) && arm in Run(o, events, n).requests[events[n].request].seats
    ensures !Crowds(o, events, n, arm)
  {
    hide PlanOf, SeatsOf, MayAdd, Apply, RollOf, Exclusive, Filed, Next, Waits, Ready, Unasked;
    AlwaysGrounded(o, events, n);
    RunNext(o, events, n);
    var at, e := Run(o, events, n), events[n];
    CommitWrites(at, e);
    var q := at.requests[e.request];
    assert Held(o, events, n, e.request);
    AskedIsChecked(at, e.request, arm);
    assert !q.plan.Resize? by {
      if q.plan.Resize? { DropAsksNothing(Run(o, events, e.request).school, at.school, q.plan, arm); }
    }
    var k := q.checked.value;
    forall i | k <= i < n ensures Gain(o, events, i, arm) <= 0 {
      if Gain(o, events, i, arm) > 0 { HeldGainsAreUnasked(o, events, i, n, arm); }
    }
    NoGainsNoNet(o, events, k, n, arm);
    ApplyGains(at.school, q.plan, arm);
    MoreThanAsked(Run(o, events, e.request).school, at.school, events[e.request].op, q.plan, arm);
    assert HasRoom(Run(o, events, k).school, arm, q.seats[arm]);
    assert SameArms(Run(o, events, k).school, at.school, q.seats);
  }

  lemma ResizeSawRoom(looked: School, op: Op, plan: Plan)
    requires PlanOf(looked, op) == Some(plan) && plan.Resize? && plan.capacity.Some?
    ensures RollOf(looked, plan.arm) <= plan.capacity.value
  {
  }

  lemma UndisturbedFits(o: Office, events: seq<Event>, n: nat, arm: nat)
    requires AtRest(o) && Filed(o.school) && n < |events| && ResizedUndisturbed(o, events)
    requires Commits(Run(o, events, n), events[n]) && Run(o, events, n).requests[events[n].request].plan.Resize?
    ensures !Crowds(o, events, n, arm)
  {
    hide Apply, PlanOf, SeatsOf, RoomForAll, SameArms, RollOf, Exclusive, Filed, Next, Run, Waits, Ready, Gain;
    AlwaysGrounded(o, events, n);
    var r := events[n].request;
    CommitWrites(Run(o, events, n), events[n]);
    assert Held(o, events, n, r);
    var plan := Run(o, events, n).requests[r].plan;
    DropAsksNothing(Run(o, events, r).school, Run(o, events, n).school, plan, arm);
    if plan.arm == arm && plan.capacity.Some? {
      NoGainsNoNet(o, events, r, n, arm);
      ResizeSawRoom(Run(o, events, r).school, events[r].op, plan);
    }
  }

  /**
   * With the arms' rows locked from the count to the commit, everybody stays seated as long
   * as no student's arm is written under a move or a return that has looked at it, and
   * nobody arrives between a capacity change's look and its write.
   */
  lemma UndisturbedIsSeated(o: Office, events: seq<Event>)
    requires AtRest(o) && Seated(o.school) && NobodyUnasked(o, events) && ResizedUndisturbed(o, events)
    ensures SeatedThroughout(o, events)
  {
    hide Seated, Run, Next, Apply, RollOf;
    SeatedIs(o.school);
    forall n, arm | 0 <= n < |events| ensures !Crowds(o, events, n, arm) {
      if Crowds(o, events, n, arm) {
        var q := Run(o, events, n).requests[events[n].request];
        if q.plan.Resize? { UndisturbedFits(o, events, n, arm); }
        else if arm in q.seats { AskedHasRoom(o, events, n, arm); }
      }
    }
    SeatedThroughoutIff(o, events);
  }

  /** The same said of the students: no two requests touch one between look and commit. */
  ghost predicate NoStudentRewritten(o: Office, events: seq<Event>) {
    forall n | 0 <= n < |events| && events[n].Commit? && events[n].request in Run(o, events, n).requests
      && events[n].request <= n ::
      var plan := Run(o, events, n).requests[events[n].request].plan;
      (plan.Place? || plan.Mark?) && plan.id < |Run(o, events, events[n].request).school.students|
        && plan.id < |Run(o, events, n).school.students| ==>
        Run(o, events, n).school.students[plan.id].arm == Run(o, events, events[n].request).school.students[plan.id].arm
  }

  lemma NotRewrittenIsAsked(o: Office, events: seq<Event>)
    requires AtRest(o) && Filed(o.school) && NoStudentRewritten(o, events)
    ensures NobodyUnasked(o, events)
  {
    hide Filed, Run, Next, RollOf, Apply, Gain;
    forall n, arm | 0 <= n < |events| ensures !Unasked(o, events, n, arm) {
      if Unasked(o, events, n, arm) { UnaskedIsStale(o, events, n, arm); }
    }
  }

  // ---------------------------------------------------------------------------
  // Runs that crowd
  // ---------------------------------------------------------------------------

  predicate NoLocks(o: Office) { forall r | r in o.requests :: o.requests[r].checked.None? }

  /** Read, counted and committed with nothing in between. */
  function AtOnce(o: Office, op: Op): Office { Next(Next(Next(o, Look(op)), Check(o.clock)), Commit(o.clock)) }

  lemma AtOnceDoes(o: Office, op: Op)
    requires NoLocks(o) && o.clock !in o.requests && PlanOf(o.school, op).Some?
    requires !PlanOf(o.school, op).value.Resize? && !PlanOf(o.school, op).value.Drop?
    requires RoomForAll(o.school, SeatsOf(o.school, PlanOf(o.school, op).value))
    requires Apply(o.school, PlanOf(o.school, op).value).Some?
    ensures AtOnce(o, op) == o.(school := Apply(o.school, PlanOf(o.school, op).value).value, clock := o.clock + 3)
  {
    hide Apply, PlanOf, SeatsOf, RoomForAll;
    var n := Next(o, Look(op));
    assert NoLocks(n);
    assert forall arm :: !Locked(n, arm);
    var m := Next(n, Check(o.clock));
    assert m.requests - {o.clock} == o.requests;
  }

  /** An admission at once fills one seat. */
  lemma AdmissionAtOnce(o: Office, arm: nat, number: string, year: nat)
    requires NoLocks(o) && o.clock !in o.requests && HasRoom(o.school, arm, 1) && !NumberTaken(o.school, number)
    ensures var n := AtOnce(o, Admit(Some(arm), Some(number), year));
      && n == o.(school := n.school, clock := o.clock + 3) && n.school.arms == o.school.arms
      && n.school.students == o.school.students + [Student(Some(arm), ACTIVE, number)]
      && RollOf(n.school, arm) == RollOf(o.school, arm) + 1
  {
    var s, op := o.school, Admit(Some(arm), Some(number), year);
    OnePlace(s, Some(arm), number);
    AtOnceIsAdmission(s, arm, number, year);
    AtOnceDoes(o, op);
    RollAppend(s.students, [Student(Some(arm), ACTIVE, number)], 1, arm);
    OneOnRoll(arm, number);
  }

  lemma OneOnRoll(arm: nat, number: string)
    ensures Roll([Student(Some(arm), ACTIVE, number)], 1, arm) == 1
  {
    assert Roll([Student(Some(arm), ACTIVE, number)], 0, arm) == 0;
  }

  lemma AtOnceIsAdmission(s: School, arm: nat, number: string, year: nat)
    requires HasRoom(s, arm, 1) && !NumberTaken(s, number)
    ensures var op := Admit(Some(arm), Some(number), year);
      && PlanOf(s, op) == Some(Insert([Some(arm)], [number])) && RoomForAll(s, SeatsOf(s, PlanOf(s, op).value))
      && Apply(s, PlanOf(s, op).value) == Some(s.(students := s.students + [Student(Some(arm), ACTIVE, number)]))
  {
    hide Generated, RollOf;
    var op := Admit(Some(arm), Some(number), year);
    AdmitAtOnce(s, Some(arm), Some(number), year);
    assert Perform(s, op).Some?;
  }

  /** An admission between a capacity change's look and its write. */
  function AdmissionBetween(arm: nat, capacity: nat, number: string, year: nat): seq<Event> {
    [Look(SetCapacity(arm, Some(capacity))), Look(Admit(Some(arm), Some(number), year)), Check(1), Commit(1), Commit(0)]
  }

  lemma AdmissionBetweenCrowds(o: Office, arm: nat, number: string, year: nat)
    requires AtRest(o) && HasRoom(o.school, arm, 1) && !NumberTaken(o.school, number)
    ensures OverFull(Run(o, AdmissionBetween(arm, RollOf(o.school, arm), number, year), 5).school, arm)
  {
    hide RollOf, NumberTaken;
    var roll := RollOf(o.school, arm);
    var events := AdmissionBetween(arm, roll, number, year);
    var one := Run(o, events, 1);
    assert Run(o, events, 0) == o;
    assert one == o.(requests := map[0 := Request(Resize(arm, Some(roll)), map[], None)], clock := 1);
    AdmissionAtOnce(one, arm, number, year);
    RunThree(o, events, 1);
    var four := Run(o, events, 4);
    assert four == AtOnce(one, events[1].op);
    RunNext(o, events, 4);
    CapacityAlone(four, arm, roll);
  }

  lemma CapacityAlone(o: Office, arm: nat, capacity: nat)
    requires o.requests == map[0 := Request(Resize(arm, Some(capacity)), map[], None)] && arm in o.school.arms
    requires RollOf(o.school, arm) > capacity
    ensures OverFull(Next(o, Commit(0)).school, arm)
  {
    assert !Locked(o, arm);
  }

  lemma RunThree(o: Office, events: seq<Event>, n: nat)
    requires n + 3 <= |events|
    ensures Run(o, events, n + 3) == Next(Next(Next(Run(o, events, n), events[n]), events[n + 1]), events[n + 2])
  {
    hide Next;
    RunNext(o, events, n);
    RunNext(o, events, n + 1);
    RunNext(o, events, n + 2);
  }

  /** A move at once, with room in the other arm. */
  lemma MoveAtOnce(o: Office, id: nat, arm: nat)
    requires NoLocks(o) && o.clock !in o.requests && id < |o.school.students| && HasRoom(o.school, arm, 1)
    requires o.school.students[id].arm != Some(arm)
    ensures var s, n := o.school, AtOnce(o, Move(id, Some(Some(arm))));
      n == o.(school := s.(students := s.students[id := s.students[id].(arm := Some(arm))]), clock := o.clock + 3)
  {
    OneArm(o.school, arm, 1);
    AtOnceDoes(o, Move(id, Some(Some(arm))));
  }

  /** Naming the arm the student is in asks for no seat; meanwhile the student moves out, and the seat is filled. */
  function MoveOvertaken(id: nat, arm: nat, other: nat, number: string, year: nat): seq<Event> {
    [Look(Move(id, Some(Some(arm)))), Look(Move(id, Some(Some(other)))), Check(1), Commit(1),
     Look(Admit(Some(arm), Some(number), year)), Check(4), Commit(4), Commit(0)]
  }

  /** From any full arm, with no capacity written, the overtaken move leaves one too many. */
  lemma MoveOvertakenCrowds(o: Office, id: nat, arm: nat, other: nat, number: string, year: nat)
    requires AtRest(o) && id < |o.school.students| && OnRoll(o.school.students[id], arm) && arm != other
    requires arm in o.school.arms && o.school.arms[arm] == Some(RollOf(o.school, arm))
    requires HasRoom(o.school, other, 1) && !NumberTaken(o.school, number)
    ensures OverFull(Run(o, MoveOvertaken(id, arm, other, number, year), 8).school, arm)
  {
    var events := MoveOvertaken(id, arm, other, number, year);
    hide Next, Run, AtOnce, RollOf, OverFull, NumberTaken, HasRoom;
    MoveSteps(o, id, arm, other, number, year);
    TwoAtOnce(o, events, Move(id, Some(Some(other))), Admit(Some(arm), Some(number), year));
    RunNext(o, events, 7);
  }

  /** Two requests at once after a look. */
  lemma TwoAtOnce(o: Office, events: seq<Event>, first: Op, second: Op)
    requires |events| >= 7 && events[1..7] == [Look(first), Check(1), Commit(1), Look(second), Check(4), Commit(4)]
    requires Next(o, events[0]).clock == 1 && AtOnce(Next(o, events[0]), first).clock == 4
    ensures Run(o, events, 7) == AtOnce(AtOnce(Next(o, events[0]), first), second)
  {
    hide Next, Run;
    assert forall i | 1 <= i < 7 :: events[i] == events[1..7][i - 1];
    RunStart(o, events);
    RunNext(o, events, 0);
    RunThree(o, events, 1);
    RunThree(o, events, 4);
  }

  lemma MoveSteps(o: Office, id: nat, arm: nat, other: nat, number: string, year: nat)
    requires AtRest(o) && id < |o.school.students| && OnRoll(o.school.students[id], arm) && arm != other
    requires arm in o.school.arms && o.school.arms[arm] == Some(RollOf(o.school, arm))
    requires HasRoom(o.school, other, 1) && !NumberTaken(o.school, number)
    ensures var one := Next(o, Look(Move(id, Some(Some(arm)))));
      var four := AtOnce(one, Move(id, Some(Some(other))));
      var seven := AtOnce(four, Admit(Some(arm), Some(number), year));
      one.clock == 1 && four.clock == 4 && OverFull(Next(seven, Commit(0)).school, arm)
  {
    hide RollOf, NumberTaken;
    var one := Next(o, Look(Move(id, Some(Some(arm)))));
    assert one == o.(requests := map[0 := Request(Place(id, Some(Some(arm))), map[], None)], clock := 1);
    hide Next, AtOnce, PlanOf, SeatsOf, Apply;
    MoveAtOnce(one, id, other);
    MovedOut(o.school, id, arm, other);
    var four := AtOnce(one, Move(id, Some(Some(other))));
    SameNumbers(o.school, four.school, number);
    AdmissionAtOnce(four, arm, number, year);
    PlacedBack(AtOnce(four, Admit(Some(arm), Some(number), year)), id, arm);
  }

  lemma MovedOut(s: School, id: nat, arm: nat, other: nat)
    requires id < |s.students| && OnRoll(s.students[id], arm) && arm != other
    requires arm in s.arms && s.arms[arm] == Some(RollOf(s, arm))
    ensures var n := s.(students := s.students[id := s.students[id].(arm := Some(other))]);
      RollOf(n, arm) == RollOf(s, arm) - 1 && HasRoom(n, arm, 1)
  {
    RollUpdate(s.students, |s.students|, id, s.students[id].(arm := Some(other)), arm);
  }

  lemma SameNumbers(s: School, t: School, number: string)
    requires |t.students| == |s.students| && forall i | 0 <= i < |s.students| :: t.students[i].number == s.students[i].number
    ensures NumberTaken(t, number) <==> NumberTaken(s, number)
  {
    if NumberTaken(s, number) {
      var i :| 0 <= i < |s.students| && s.students[i].number == number;
      assert t.students[i].number == number;
    }
  }

  lemma PlacedBack(o: Office, id: nat, arm: nat)
    requires o.requests == map[0 := Request(Place(id, Some(Some(arm))), map[], None)]
    requires id < |o.school.students| && arm in o.school.arms && o.school.arms[arm] == Some(RollOf(o.school, arm))
    requires o.school.students[id].status == ACTIVE && o.school.students[id].arm != Some(arm)
    ensures OverFull(Next(o, Commit(0)).school, arm)
  {
    RollUpdate(o.school.students, |o.school.students|, id, o.school.students[id].(arm := Some(arm)), arm);
  }

  /** A return to the roll asks in the arm it read; meanwhile the student is pointed at another, and that one fills. */
  function ReturnOvertaken(id: nat, arm: nat, number: string, year: nat): seq<Event> {
    [Look(ChangeStatus(id, ACTIVE)), Look(Move(id, Some(Some(arm)))), Check(1), Commit(1),
     Look(Admit(Some(arm), Some(number), year)), Check(4), Commit(4), Check(0), Commit(0)]
  }

  lemma ReturnOvertakenCrowds(o: Office, id: nat, arm: nat, other: nat, number: string, year: nat)
    requires AtRest(o) && id < |o.school.students| && arm != other
    requires o.school.students[id].arm == Some(other) && o.school.students[id].status != ACTIVE
    requires arm in o.school.arms && o.school.arms[arm] == Some(RollOf(o.school, arm) + 1)
    requires HasRoom(o.school, other, 1) && !NumberTaken(o.school, number)
    ensures OverFull(Run(o, ReturnOvertaken(id, arm, number, year), 9).school, arm)
  {
    var events := ReturnOvertaken(id, arm, number, year);
    hide Next, Run, AtOnce, RollOf, OverFull, NumberTaken, HasRoom;
    ReturnSteps(o, id, arm, other, number, year);
    TwoAtOnce(o, events, Move(id, Some(Some(arm))), Admit(Some(arm), Some(number), year));
    RunNext(o, events, 7);
    RunNext(o, events, 8);
  }

  lemma ReturnSteps(o: Office, id: nat, arm: nat, other: nat, number: string, year: nat)
    requires AtRest(o) && id < |o.school.students| && arm != other
    requires o.school.students[id].arm == Some(other) && o.school.students[id].status != ACTIVE
    requires arm in o.school.arms && o.school.arms[arm] == Some(RollOf(o.school, arm) + 1)
    requires HasRoom(o.school, other, 1) && !NumberTaken(o.school, number)
    ensures var one := Next(o, Look(ChangeStatus(id, ACTIVE)));
      var four := AtOnce(one, Move(id, Some(Some(arm))));
      var seven := AtOnce(four, Admit(Some(arm), Some(number), year));
      one.clock == 1 && four.clock == 4 && OverFull(Next(Next(seven, Check(0)), Commit(0)).school, arm)
  {
    hide RollOf, NumberTaken;
    var s, one := o.school, Next(o, Look(ChangeStatus(id, ACTIVE)));
    assert one == o.(requests := map[0 := Request(Mark(id, ACTIVE), map[other := 1], None)], clock := 1);
    hide Next, AtOnce, PlanOf, SeatsOf, Apply;
    MoveAtOnce(one, id, arm);
    PointedAt(s, id, arm, other);
    var four := AtOnce(one, Move(id, Some(Some(arm))));
    SameNumbers(s, four.school, number);
    AdmissionAtOnce(four, arm, number, year);
    var seven := AtOnce(four, Admit(Some(arm), Some(number), year));
    OtherStays(s, seven.school, id, arm, other, number);
    ReturnsThere(seven, id, arm, other);
  }

  /** Off the roll, it moves without changing one. */
  lemma PointedAt(s: School, id: nat, arm: nat, other: nat)
    requires id < |s.students| && s.students[id].status != ACTIVE
    requires arm in s.arms && s.arms[arm] == Some(RollOf(s, arm) + 1)
    ensures var n := s.(students := s.students[id := s.students[id].(arm := Some(arm))]);
      RollOf(n, arm) == RollOf(s, arm) && RollOf(n, other) == RollOf(s, other) && HasRoom(n, arm, 1)
  {
    RollUpdate(s.students, |s.students|, id, s.students[id].(arm := Some(arm)), arm);
    RollUpdate(s.students, |s.students|, id, s.students[id].(arm := Some(arm)), other);
  }

  lemma OtherStays(s: School, t: School, id: nat, arm: nat, other: nat, number: string)
    requires id < |s.students| && s.students[id].status != ACTIVE && arm != other
    requires t.arms == s.arms && HasRoom(s, other, 1)
    requires t.students == s.students[id := s.students[id].(arm := Some(arm))] + [Student(Some(arm), ACTIVE, number)]
    ensures HasRoom(t, other, 1)
  {
    var moved := s.students[id := s.students[id].(arm := Some(arm))];
    RollUpdate(s.students, |s.students|, id, moved[id], other);
    RollAppend(moved, [Student(Some(arm), ACTIVE, number)], 1, other);
    assert Roll([Student(Some(arm), ACTIVE, number)], 0, other) == 0;
  }

  lemma ReturnsThere(o: Office, id: nat, arm: nat, other: nat)
    requires o.requests == map[0 := Request(Mark(id, ACTIVE), map[other := 1], None)] && HasRoom(o.school, other, 1)
    requires id < |o.school.students| && arm in o.school.arms && o.school.arms[arm] == Some(RollOf(o.school, arm))
    requires o.school.students[id].status != ACTIVE && o.school.students[id].arm == Some(arm)
    ensures OverFull(Next(Next(o, Check(0)), Commit(0)).school, arm)
  {
    OneArm(o.school, other, 1);
    assert !Locked(o, other);
    RollUpdate(o.school.students, |o.school.students|, id, o.school.students[id].(status := ACTIVE), arm);
  }
}
