/**
 * Memberships under concurrent administration. Every request looks first, counts the
 * proprietors where its rule asks for it, and writes later, all without a lock; and an
 * invitation is a token that stays good until it is consumed, replaced or expired. What is
 * decided from the reads is the rule of AccessRules; what is written later is a statement
 * on whatever the tables hold by then.
 */
module AccessProtocol {
  import opened Wrappers
  import opened RoleSlugs
  import opened AccessRules

  /** One write of a request: only the columns given are set, and an upsert is keyed by the user. */
  datatype Stmt =
    | SetRow(member: nat, role: Option<nat>, status: Option<Status>)
    | Upsert(user: nat, newRole: nat, id: nat)
    | Retire(user: nat)
    | Issue(user: nat)
    | MoveAll(source: nat, target: nat)

  /**
   * A request past its look: how many counts of the proprietors it has still to make, when
   * it made its last read, and what it has still to write.
   */
  datatype Request = Request(asks: nat, asOf: nat, todo: seq<Stmt>)

  /**
   * used: role ids ever given. tokens: the live invitations and whose they are. requests:
   * by the position of their look.
   */
  datatype Office = Office(
    state: State, used: set<nat>, tokens: map<nat, nat>, requests: map<nat, Request>, clock: nat)

  /** Do: creating, changing and removing roles. Take: an acceptance consumes its token. */
  datatype Event =
    | Do(op: Op)
    | Look(op: Op)
    | Count(request: nat)
    | Take(token: nat)
    | Write(request: nat)
    | Crash(request: nat)
    | Expire(token: nat)

  predicate RoleOp(op: Op) { op.CreateRole? || op.SetPermissions? || op.RemoveRole? }

  predicate ChangesRole(s: State, op: Op)
    requires op.Update? && op.member in s.members
  {
    op.newRole.Some? && op.newRole.value != s.members[op.member].role
  }

  /** What is decided before any count. */
  ghost predicate Passes(c: Catalogue, s: State, op: Op) {
    match op
    case Update(caller, member, newRole, _) =>
      && member in s.members && caller in s.members
      && (ChangesRole(s, op) ==>
            && newRole.value in s.roles && s.members[member].user != s.members[caller].user
            && MayAssign(c, Held(s, caller), s.roles[newRole.value]))
    case Revoke(_, member) => member in s.members
    case _ => Perform(c, s, op).Some?
  }

  /** How often the rule asks for the count of proprietors: a change of role, then a suspension. */
  function Asks(s: State, op: Op): nat {
    match op
    case Update(_, member, _, suspend) =>
      if member in s.members && SlugOf(s, member) == PROPRIETOR then
        (if ChangesRole(s, op) then 1 else 0) + (if suspend == Some(true) then 1 else 0)
      else 0
    case Revoke(_, member) => if member in s.members && SlugOf(s, member) == PROPRIETOR then 1 else 0
    case _ => 0
  }

  /** What a request that passes its checks goes on to write. */
  function StmtsOf(op: Op): seq<Stmt> {
    match op
    case Update(_, member, newRole, suspend) =>
      [SetRow(member, newRole,
        if suspend.None? then None else if suspend.value then Some(SUSPENDED) else Some(ACTIVE))]
    case Revoke(_, member) => [SetRow(member, None, Some(REVOKED))]
    case RevokeParent(_, member) => [SetRow(member, None, Some(REVOKED))]
    case Invite(_, user, role, id) => [Upsert(user, role, id), Retire(user), Issue(user)]
    case Reassign(_, source, target) => [MoveAll(source, target)]
    case _ => []
  }

  function Assigned(m: Membership, role: Option<nat>, status: Option<Status>): Membership {
    Membership(m.user, if role.Some? then role.value else m.role, if status.Some? then status.value else m.status)
  }

  /** A foreign key or a unique index refuses the statement: None. */
  ghost function Exec(o: Office, stmt: Stmt): Option<Office> {
    var s := o.state;
    match stmt
    case SetRow(member, role, status) =>
      if member !in s.members || (role.Some? && role.value !in s.roles) then None
      else Some(o.(state := s.(members := s.members[member := Assigned(s.members[member], role, status)])))
    case Upsert(user, role, id) =>
      if role !in s.roles || (!MemberOf(s, user) && id in s.members) then None
      else
        var member := if MemberOf(s, user) then MembershipOf(s, user) else id;
        Some(o.(state := s.(members := s.members[member := Membership(user, role, INVITED)])))
    case Retire(user) =>
      if !MemberOf(s, user) then None
      else
        var member := MembershipOf(s, user);
        Some(o.(tokens := map t | t in o.tokens && o.tokens[t] != member :: o.tokens[t]))
    case Issue(user) =>
      if !MemberOf(s, user) then None else Some(o.(tokens := o.tokens[o.clock := MembershipOf(s, user)]))
    case MoveAll(source, target) =>
      if target !in s.roles then None else Some(o.(state := s.(members := Moved(s, source, target))))
  }

  /** Past all its checks, with something still to write. */
  predicate Ready(o: Office, r: nat) { r in o.requests && o.requests[r].asks == 0 && o.requests[r].todo != [] }

  ghost function Next(c: Catalogue, o: Office, e: Event): Office {
    var n := o.(clock := o.clock + 1);
    match e
    case Do(op) =>
      if !RoleOp(op) || (op.CreateRole? && op.id in o.used) || Perform(c, o.state, op).None? then n
      else
        var after := Perform(c, o.state, op).value;
        n.(state := after, used := o.used + after.roles.Keys)
    case Look(op) =>
      if RoleOp(op) || op.Accept? || !Passes(c, o.state, op) then n
      else n.(requests := o.requests[o.clock := Request(Asks(o.state, op), o.clock, StmtsOf(op))])
    case Count(r) =>
      if r !in o.requests || o.requests[r].asks == 0 then n
      else if |ActiveProprietors(o.state)| <= 1 then n.(requests := o.requests - {r})
      else n.(requests := o.requests[r := o.requests[r].(asks := o.requests[r].asks - 1, asOf := o.clock)])
    case Take(token) =>
      if token !in o.tokens then n
      else n.(tokens := o.tokens - {token},
              requests := o.requests[o.clock := Request(0, o.clock, [SetRow(o.tokens[token], None, Some(ACTIVE))])])
    case Write(r) =>
      if !Ready(o, r) then n
      else
        var q := o.requests[r];
        (match Exec(o, q.todo[0])
         case None => n.(requests := o.requests - {r})
         case Some(after) => after.(requests := o.requests[r := q.(todo := q.todo[1..])], clock := o.clock + 1))
    case Crash(r) => n.(requests := o.requests - {r})
    case Expire(token) => n.(tokens := o.tokens - {token})
  }

  ghost function After(c: Catalogue, o: Office, events: seq<Event>, n: nat): Office
    requires n <= |events|
  {
    if n == 0 then o else Next(c, After(c, o, events, n - 1), events[n - 1])
  }

  // ---------------------------------------------------------------------------
  // A look followed at once by its writes is the rule
  // ---------------------------------------------------------------------------

  /** The unique index on a user's membership of the school. */
  ghost predicate OneEach(s: State) {
    forall a, b | a in s.members && b in s.members && s.members[a].user == s.members[b].user :: a == b
  }

  lemma SoleMembership(s: State, member: nat)
    requires OneEach(s) && member in s.members
    ensures MemberOf(s, s.members[member].user) && MembershipOf(s, s.members[member].user) == member
  {
  }

  /** The checks are the rule's, split at the counts; and written at once, a request leaves what the rule leaves. */
  lemma WrittenAtOnceIsTheRule(c: Catalogue, o: Office, op: Op)
    requires !RoleOp(op) && !op.Accept? && forall m | m in o.state.members :: o.state.members[m].role in o.state.roles
    ensures Perform(c, o.state, op).Some? <==>
      Passes(c, o.state, op) && (Asks(o.state, op) > 0 ==> |ActiveProprietors(o.state)| > 1)
    ensures Passes(c, o.state, op) ==> StmtsOf(op) != [] && Exec(o, StmtsOf(op)[0]).Some?
    ensures Perform(c, o.state, op).Some? ==> Exec(o, StmtsOf(op)[0]).value.state == Perform(c, o.state, op).value
  {
  }

  // ---------------------------------------------------------------------------
  // What every event keeps
  // ---------------------------------------------------------------------------

  /** What a request has still to write, as requests are made, with roles that there have been. */
  predicate Shaped(used: set<nat>, todo: seq<Stmt>) {
    || todo == []
    || (|todo| == 1 && todo[0].SetRow? && (todo[0].role.Some? ==> todo[0].role.value in used))
    || (|todo| == 1 && (todo[0].Issue? || todo[0].MoveAll?))
    || (|todo| == 2 && todo[0].Retire? && todo[1] == Issue(todo[0].user))
    || (|todo| == 3 && todo[0].Upsert? && todo[0].newRole in used
        && todo[1] == Retire(todo[0].user) && todo[2] == Issue(todo[0].user))
  }

  ghost predicate Sane(o: Office) {
    && OneEach(o.state)
    && (forall m | m in o.state.members :: o.state.members[m].role in o.state.roles)
    && o.state.roles.Keys <= o.used
    && (forall r | r in o.requests :: r <= o.requests[r].asOf < o.clock && Shaped(o.used, o.requests[r].todo))
  }

  lemma LookIsShaped(c: Catalogue, o: Office, op: Op)
    requires Sane(o) && !RoleOp(op) && Passes(c, o.state, op)
    ensures Shaped(o.used, StmtsOf(op))
  {
    if op.Update? && op.newRole.Some? { assert o.state.members[op.member].role in o.used; }
  }

  lemma ExecKeepsSane(o: Office, stmt: Stmt)
    requires Sane(o) && Exec(o, stmt).Some?
    ensures Sane(Exec(o, stmt).value)
  {
    if stmt.Upsert? && MemberOf(o.state, stmt.user) { SoleMembership(o.state, MembershipOf(o.state, stmt.user)); }
  }

  lemma RoleOpKeepsMembers(c: Catalogue, s: State, op: Op)
    requires RoleOp(op) && Perform(c, s, op).Some? && forall m | m in s.members :: s.members[m].role in s.roles
    ensures var after := Perform(c, s, op).value;
      && after.members == s.members && (forall m | m in after.members :: after.members[m].role in after.roles)
      && after.roles.Keys <= s.roles.Keys + (if op.CreateRole? then {op.id} else {})
  {
  }

  lemma NextIsSane(c: Catalogue, o: Office, e: Event)
    requires Sane(o)
    ensures Sane(Next(c, o, e))
  {
    hide Exec, Perform, Passes, Asks, StmtsOf, Shaped;
    match e
    case Do(op) => if RoleOp(op) && Perform(c, o.state, op).Some? {
      RoleOpKeepsMembers(c, o.state, op);
      UsedGrows(o, Next(c, o, e));
    }
    case Look(op) => if !RoleOp(op) && Passes(c, o.state, op) { LookIsShaped(c, o, op); }
    case Count(_) =>
    case Take(token) => if token in o.tokens { TakenIsShaped(o.used, o.tokens[token]); }
    case Write(r) =>
      if Ready(o, r) {
        RestIsShaped(o.used, o.requests[r].todo);
        ExecKeeps(o, o.requests[r].todo[0]);
        if Exec(o, o.requests[r].todo[0]).Some? { ExecKeepsSane(o, o.requests[r].todo[0]); }
      }
    case Crash(_) =>
    case Expire(_) =>
  }

  lemma TakenIsShaped(used: set<nat>, member: nat)
    ensures Shaped(used, [SetRow(member, None, Some(ACTIVE))])
  {
  }

  lemma RestIsShaped(used: set<nat>, todo: seq<Stmt>)
    requires Shaped(used, todo) && todo != []
    ensures Shaped(used, todo[1..])
  {
  }

  lemma ExecKeeps(o: Office, stmt: Stmt)
    ensures Exec(o, stmt).Some? ==>
      var n := Exec(o, stmt).value;
      n.used == o.used && n.requests == o.requests && n.clock == o.clock && n.state.roles == o.state.roles
  {
  }

  lemma UsedGrows(o: Office, n: Office)
    requires Sane(o) && o.used <= n.used && n.requests == o.requests && n.clock >= o.clock
    ensures forall r | r in n.requests :: r <= n.requests[r].asOf < n.clock && Shaped(n.used, n.requests[r].todo)
  {
    forall r | r in o.requests ensures Shaped(n.used, o.requests[r].todo) { assert Shaped(o.used, o.requests[r].todo); }
  }

  // ---------------------------------------------------------------------------
  // When a revoked member stays out
  // ---------------------------------------------------------------------------

  /** The statement would give the member a status again, or an invitation. */
  predicate Returns(s: State, stmt: Stmt, member: nat)
    requires member in s.members
  {
    match stmt
    case SetRow(m, role, status) =>
      m == member && status.Some? && status.value != REVOKED && (role.Some? ==> role.value in s.roles)
    case Upsert(user, role, _) => user == s.members[member].user && role in s.roles
    case Retire(user) => user == s.members[member].user
    case Issue(user) => user == s.members[member].user
    case MoveAll(_, _) => false
  }

  /** A live invitation, or a request past its checks that lets the member back. */
  ghost predicate MayReturn(o: Office, member: nat)
    requires member in o.state.members
  {
    || (exists t :: t in o.tokens && o.tokens[t] == member)
    || (exists r :: Ready(o, r) && Returns(o.state, o.requests[r].todo[0], member))
  }

  ghost predicate Out(o: Office, member: nat) {
    member in o.state.members && o.state.members[member].status == REVOKED
  }

  /** No check is passed to invite the user again or to change this membership. */
  predicate LeftAlone(o: Office, e: Event, member: nat, user: nat) {
    && (e.Look? ==> !(e.op.Invite? && e.op.user == user) && !(e.op.Update? && e.op.member == member))
    && (e.Count? && e.request in o.requests && o.requests[e.request].todo != [] ==>
          var stmt := o.requests[e.request].todo[0]; stmt.SetRow? && stmt.member != member)
  }

  ghost predicate StayedOut(o: Office, member: nat) { Out(o, member) && !MayReturn(o, member) }

  lemma ExecKeepsOut(o: Office, stmt: Stmt, member: nat)
    requires Sane(o) && StayedOut(o, member) && !Returns(o.state, stmt, member) && Exec(o, stmt).Some?
    ensures var n := Exec(o, stmt).value;
      && Out(n, member) && n.state.members[member].user == o.state.members[member].user
      && (forall t | t in n.tokens :: n.tokens[t] != member)
  {
    if stmt.Issue? || stmt.Retire? { SoleMembership(o.state, MembershipOf(o.state, stmt.user)); }
  }

  /** The rest of a request that does not let the member back does not either. */
  lemma RestDoesNotReturn(o: Office, todo: seq<Stmt>, member: nat)
    requires member in o.state.members && Shaped(o.used, todo) && |todo| > 1 && Exec(o, todo[0]).Some?
    requires !Returns(o.state, todo[0], member)
    ensures !Returns(o.state, todo[1], member)
  {
  }

  lemma WriteKeepsOut(c: Catalogue, o: Office, r: nat, member: nat)
    requires Sane(o) && StayedOut(o, member) && Ready(o, r)
    ensures var n := Next(c, o, Write(r));
      StayedOut(n, member) && n.state.members[member].user == o.state.members[member].user
  {
    hide Shaped, OneEach;
    var stmt, n := o.requests[r].todo[0], Next(c, o, Write(r));
    ExecKeeps(o, stmt);
    if Exec(o, stmt).Some? {
      ExecKeepsOut(o, stmt, member);
      if |o.requests[r].todo| > 1 { RestDoesNotReturn(o, o.requests[r].todo, member); }
    }
    NoneReturn(o, n, r, member);
  }

  /** Only the request r has moved on. */
  lemma NoneReturn(o: Office, n: Office, r: nat, member: nat)
    requires StayedOut(o, member) && Out(n, member)
    requires n.state.roles == o.state.roles && n.state.members[member].user == o.state.members[member].user
    requires forall t | t in n.tokens :: n.tokens[t] != member
    requires forall q | q in n.requests && q != r :: q in o.requests && n.requests[q] == o.requests[q]
    requires Ready(n, r) ==> !Returns(o.state, n.requests[r].todo[0], member)
    ensures StayedOut(n, member)
  {
    forall q | Ready(n, q) ensures !Returns(n.state, n.requests[q].todo[0], member) {
      if q != r { assert Ready(o, q) && !Returns(o.state, o.requests[q].todo[0], member); }
    }
  }

  /** Role ids are not given twice, so a statement whose role is gone stays without it. */
  lemma RolesKeepOut(o: Office, n: Office, member: nat)
    requires Sane(o) && StayedOut(o, member) && n.state.members == o.state.members && n.tokens == o.tokens
    requires n.requests == o.requests && forall x | x in n.state.roles && x in o.used :: x in o.state.roles
    ensures StayedOut(n, member)
  {
    forall q | Ready(n, q) ensures !Returns(n.state, n.requests[q].todo[0], member) {
      assert Ready(o, q) && !Returns(o.state, o.requests[q].todo[0], member) && Shaped(o.used, o.requests[q].todo);
    }
  }

  lemma ReadKeepsOut(c: Catalogue, o: Office, e: Event, member: nat)
    requires Sane(o) && StayedOut(o, member) && LeftAlone(o, e, member, o.state.members[member].user)
    requires e.Look? || e.Count? || e.Take?
    ensures StayedOut(Next(c, o, e), member)
  {
    hide Passes, Asks, ActiveProprietors, OneEach;
    var n := Next(c, o, e);
    if e.Count? && e.request in o.requests { assert Shaped(o.used, o.requests[e.request].todo); }
    NoneReturn(o, n, if e.Count? then e.request else o.clock, member);
  }

  lemma NextKeepsOut(c: Catalogue, o: Office, e: Event, member: nat)
    requires Sane(o) && StayedOut(o, member) && LeftAlone(o, e, member, o.state.members[member].user)
    ensures var n := Next(c, o, e);
      StayedOut(n, member) && n.state.members[member].user == o.state.members[member].user
  {
    hide Perform, Passes, Asks, Exec, Returns, Shaped;
    match e
    case Do(op) =>
      if RoleOp(op) && Perform(c, o.state, op).Some? { RoleOpKeepsMembers(c, o.state, op); }
      RolesKeepOut(o, Next(c, o, e), member);
    case Look(_) => ReadKeepsOut(c, o, e, member);
    case Count(_) => ReadKeepsOut(c, o, e, member);
    case Take(_) => ReadKeepsOut(c, o, e, member);
    case Write(r) => if Ready(o, r) { WriteKeepsOut(c, o, r, member); }
    case Crash(r) => NoneReturn(o, Next(c, o, e), r, member);
    case Expire(_) => NoneReturn(o, Next(c, o, e), o.clock, member);
  }

  ghost predicate AllLeaveAlone(c: Catalogue, o: Office, more: seq<Event>, member: nat)
    requires member in o.state.members
  {
    forall i | 0 <= i < |more| :: LeftAlone(After(c, o, more, i), more[i], member, o.state.members[member].user)
  }

  lemma {:induction false} StaysOut(c: Catalogue, o: Office, more: seq<Event>, n: nat, member: nat)
    requires Sane(o) && StayedOut(o, member) && n <= |more| && AllLeaveAlone(c, o, more, member)
    ensures var m := After(c, o, more, n);
      Sane(m) && StayedOut(m, member) && m.state.members[member].user == o.state.members[member].user
  {
    hide Next, Sane, StayedOut, LeftAlone;
    if n > 0 {
      StaysOut(c, o, more, n - 1, member);
      NextIsSane(c, After(c, o, more, n - 1), more[n - 1]);
      NextKeepsOut(c, After(c, o, more, n - 1), more[n - 1], member);
    }
  }

  /** Through every continuation that passes no check for the member, the member stays revoked. */
  ghost predicate AlwaysOut(c: Catalogue, o: Office, member: nat)
    requires member in o.state.members
  {
    forall more: seq<Event> :: AllLeaveAlone(c, o, more, member) ==> Out(After(c, o, more, |more|), member)
  }

  lemma RunOne(c: Catalogue, o: Office, e: Event)
    ensures After(c, o, [e], 1) == Next(c, o, e)
  {
    assert After(c, o, [e], 0) == o;
  }

  lemma RunTwo(c: Catalogue, o: Office, e: Event, f: Event)
    ensures After(c, o, [e, f], 2) == Next(c, Next(c, o, e), f)
  {
    assert After(c, o, [e, f], 0) == o && After(c, o, [e, f], 1) == Next(c, o, e);
  }

  lemma RunThree(c: Catalogue, o: Office, e: Event, f: Event, g: Event)
    ensures After(c, o, [e, f, g], 3) == Next(c, Next(c, Next(c, o, e), f), g)
  {
    assert After(c, o, [e, f, g], 0) == o && After(c, o, [e, f, g], 1) == Next(c, o, e);
    assert After(c, o, [e, f, g], 2) == Next(c, Next(c, o, e), f);
  }

  /** Whoever holds a live invitation gets in with it. */
  lemma AcceptReturns(c: Catalogue, o: Office, token: nat)
    requires token in o.tokens && o.tokens[token] in o.state.members
    ensures var n := Next(c, Next(c, o, Take(token)), Write(o.clock));
      o.tokens[token] in n.state.members && n.state.members[o.tokens[token]].status == ACTIVE
  {
  }

  lemma FirstReturns(c: Catalogue, o: Office, r: nat, member: nat)
    requires Sane(o) && member in o.state.members && Ready(o, r) && Returns(o.state, o.requests[r].todo[0], member)
    ensures var n := Next(c, o, Write(r));
      if o.requests[r].todo[0].Issue? then
        o.clock in n.tokens && n.tokens[o.clock] == member && member in n.state.members
      else if o.requests[r].todo[0].Retire? then
        && n.state == o.state && n.clock == o.clock + 1 && Ready(n, r) && n.requests[r].todo[0] == Issue(o.state.members[member].user)
      else !Out(n, member)
  {
    SoleMembership(o.state, member);
  }

  /**
   * A revoked member stays out, whatever follows short of a check passed to invite the user
   * again or to change the membership, exactly when no invitation is live and no request
   * past its checks has still to let the member back. Revoking consumes no invitation.
   */
  lemma RevokedStaysOutIff(c: Catalogue, o: Office, member: nat)
    requires Sane(o) && Out(o, member)
    ensures AlwaysOut(c, o, member) <==> !MayReturn(o, member)
  {
    hide Next, After, Sane, Returns, AllLeaveAlone;
    if !MayReturn(o, member) {
      forall more: seq<Event> | AllLeaveAlone(c, o, more, member) ensures Out(After(c, o, more, |more|), member) {
        StaysOut(c, o, more, |more|, member);
      }
    } else if t :| t in o.tokens && o.tokens[t] == member {
      TokenBreaks(c, o, t, member);
    } else {
      var r :| Ready(o, r) && Returns(o.state, o.requests[r].todo[0], member);
      RequestBreaks(c, o, r, member);
    }
  }

  lemma TokenBreaks(c: Catalogue, o: Office, t: nat, member: nat)
    requires Out(o, member) && t in o.tokens && o.tokens[t] == member
    ensures !AlwaysOut(c, o, member)
  {
    hide Next, After;
    var more := [Take(t), Write(o.clock)];
    AcceptReturns(c, o, t);
    RunTwo(c, o, Take(t), Write(o.clock));
    assert AllLeaveAlone(c, o, more, member);
    assert !Out(After(c, o, more, |more|), member);
  }

  lemma RequestBreaks(c: Catalogue, o: Office, r: nat, member: nat)
    requires Sane(o) && Out(o, member) && Ready(o, r) && Returns(o.state, o.requests[r].todo[0], member)
    ensures !AlwaysOut(c, o, member)
  {
    hide Next, After, Sane;
    var n := Next(c, o, Write(r));
    FirstReturns(c, o, r, member);
    if o.requests[r].todo[0].Issue? {
      var more := [Write(r), Take(o.clock), Write(n.clock)];
      AcceptReturns(c, n, o.clock);
      RunThree(c, o, Write(r), Take(o.clock), Write(n.clock));
      assert AllLeaveAlone(c, o, more, member);
      assert !Out(After(c, o, more, |more|), member);
    } else if o.requests[r].todo[0].Retire? {
      RetiredBreaks(c, o, r, member);
    } else {
      var more := [Write(r)];
      RunOne(c, o, Write(r));
      assert AllLeaveAlone(c, o, more, member);
      assert !Out(After(c, o, more, |more|), member);
    }
  }

  /** Past the retirement of the former invitations, the new one still follows. */
  lemma RetiredBreaks(c: Catalogue, o: Office, r: nat, member: nat)
    requires Sane(o) && Out(o, member) && Ready(o, r)
    requires o.requests[r].todo[0] == Retire(o.state.members[member].user)
    ensures !AlwaysOut(c, o, member)
  {
    hide Next, After, Sane;
    var n := Next(c, o, Write(r));
    FirstReturns(c, o, r, member);
    NextIsSane(c, o, Write(r));
    FirstReturns(c, n, r, member);
    var m := Next(c, n, Write(r));
    var more := [Write(r), Write(r), Take(n.clock), Write(m.clock)];
    AcceptReturns(c, m, n.clock);
    RunFour(c, o, Write(r), Write(r), Take(n.clock), Write(m.clock));
    assert AllLeaveAlone(c, o, more, member);
    assert !Out(After(c, o, more, |more|), member);
  }

  lemma RunFour(c: Catalogue, o: Office, e: Event, f: Event, g: Event, h: Event)
    ensures After(c, o, [e, f, g, h], 4) == Next(c, Next(c, Next(c, Next(c, o, e), f), g), h)
  {
    hide Next;
    var all := [e, f, g, h];
    assert After(c, o, all, 0) == o && After(c, o, all, 1) == Next(c, o, e);
    assert After(c, o, all, 2) == Next(c, Next(c, o, e), f);
    assert After(c, o, all, 3) == Next(c, Next(c, Next(c, o, e), f), g);
  }

  /** An invitation that lapses is gone, and nothing else changes. */
  lemma LapseExactly(c: Catalogue, o: Office, token: nat)
    requires token in o.tokens
    ensures var n := Next(c, o, Expire(token));
      && n == o.(tokens := n.tokens, clock := n.clock)
      && token !in n.tokens && n.tokens[token := o.tokens[token]] == o.tokens
  {
    hide Perform, Exec, Passes;
    assert (o.tokens - {token})[token := o.tokens[token]] == o.tokens;
  }

  /**
   * An invitation retires the former ones and adds a live one, and using one takes it away
   * and activates its membership; nothing about anybody else's changes.
   */
  lemma InvitationExactly(c: Catalogue, o: Office, user: nat, member: nat)
    requires Sane(o) && member in o.state.members && o.state.members[member].user == user
    ensures Exec(o, Retire(user)).Some? && Exec(o, Issue(user)).Some?
    ensures var n := Exec(o, Retire(user)).value;
      && n == o.(tokens := n.tokens)
      && (forall t :: t in n.tokens <==> t in o.tokens && o.tokens[t] != member)
      && (forall t | t in n.tokens :: n.tokens[t] == o.tokens[t])
    ensures Exec(o, Issue(user)).value == o.(tokens := o.tokens[o.clock := member])
    ensures forall t | t in o.tokens && o.tokens[t] == member ::
      var n := Next(c, Next(c, o, Take(t)), Write(o.clock));
      && n.tokens == o.tokens - {t} && n.state.roles == o.state.roles
      && n.state.members == o.state.members[member := o.state.members[member].(status := ACTIVE)]
  {
    SoleMembership(o.state, member);
    forall t | t in o.tokens && o.tokens[t] == member
      ensures var n := Next(c, Next(c, o, Take(t)), Write(o.clock));
        && n.tokens == o.tokens - {t} && n.state.roles == o.state.roles
        && n.state.members == o.state.members[member := o.state.members[member].(status := ACTIVE)]
    {
    }
  }
}
