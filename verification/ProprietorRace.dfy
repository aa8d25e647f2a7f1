/**
 * The count of proprietors and the write it allows are apart: suspensions, revocations and
 * changes of role each check that they leave somebody, and can still together leave nobody.
 */
module ProprietorRace {
  import opened Wrappers
  import opened RoleSlugs
  import opened AccessRules
  import opened AccessProtocol

  /** Somebody other than the member is an active proprietor. */
  ghost predicate Another(s: State, member: nat) { exists m :: m in ActiveProprietors(s) && m != member }

  /** The tables a request last read do not let its next write take the last proprietor away. */
  ghost predicate Vouches(s: State, q: Request, proprietor: nat) {
    q.asks == 0 && q.todo != [] ==>
      match q.todo[0]
      case SetRow(m, role, status) =>
        || Another(s, m) || m !in ActiveProprietors(s)
        || ((role.None? || role.value == proprietor) && (status.None? || status.value == ACTIVE))
      case Upsert(user, _, _) => forall m | m in ActiveProprietors(s) :: s.members[m].user != user
      case Retire(_) => true
      case Issue(_) => true
      case MoveAll(source, _) => source != proprietor
  }

  /** Before the count: the member is to be set apart, or nothing is asked. */
  ghost predicate Asking(q: Request) { q.asks > 0 ==> q.todo != [] && q.todo[0].SetRow? }

  // ---------------------------------------------------------------------------
  // What each read vouches for
  // ---------------------------------------------------------------------------

  lemma LookVouches(c: Catalogue, s: State, op: Op, at: nat, proprietor: nat, permissions: set<string>)
    requires Rooted(s, proprietor, permissions) && OneEach(s) && !RoleOp(op) && !op.Accept? && Passes(c, s, op)
    ensures Vouches(s, Request(Asks(s, op), at, StmtsOf(op)), proprietor)
    ensures Asking(Request(Asks(s, op), at, StmtsOf(op)))
  {
    if op.Invite? {
      forall m | m in ActiveProprietors(s) ensures s.members[m].user != op.user {
        if s.members[m].user == op.user { SoleMembership(s, m); }
      }
    }
  }

  lemma TwoAreAnother(s: State, member: nat)
    requires |ActiveProprietors(s)| > 1
    ensures Another(s, member)
  {
    var all := ActiveProprietors(s);
    if all <= {member} { AtMostOne(all, member); }
    var other :| other in all && other !in {member};
  }

  lemma CountVouches(s: State, q: Request, proprietor: nat)
    requires |ActiveProprietors(s)| > 1 && Asking(q) && q.asks > 0
    ensures Vouches(s, q.(asks := q.asks - 1), proprietor)
  {
    TwoAreAnother(s, q.todo[0].member);
  }

  // ---------------------------------------------------------------------------
  // Runs
  // ---------------------------------------------------------------------------

  /** Nobody is past a look. */
  predicate AtRest(o: Office) { o.requests == map[] && o.clock == 0 }

  ghost function Proprietors(c: Catalogue, o: Office, events: seq<Event>, n: nat): set<nat>
    requires n <= |events|
  {
    ActiveProprietors(After(c, o, events, n).state)
  }

  ghost predicate Grounded(c: Catalogue, o: Office, events: seq<Event>, n: nat, proprietor: nat, permissions: set<string>)
    requires n <= |events|
  {
    var at := After(c, o, events, n);
    && at.clock == n && Sane(at) && Rooted(at.state, proprietor, permissions)
    && (forall r | r in at.requests ::
          && Asking(at.requests[r])
          && Vouches(After(c, o, events, at.requests[r].asOf).state, at.requests[r], proprietor))
  }

  lemma ExecKeepsRooted(o: Office, stmt: Stmt, proprietor: nat, permissions: set<string>)
    requires Rooted(o.state, proprietor, permissions) && Exec(o, stmt).Some?
    ensures Rooted(Exec(o, stmt).value.state, proprietor, permissions)
  {
  }

  lemma NextKeepsRooted(c: Catalogue, o: Office, e: Event, proprietor: nat, permissions: set<string>)
    requires Rooted(o.state, proprietor, permissions)
    ensures Rooted(Next(c, o, e).state, proprietor, permissions) && Next(c, o, e).clock == o.clock + 1
  {
    hide Rooted, Perform, Exec, Passes, Asks;
    if e.Do? && RoleOp(e.op) && Perform(c, o.state, e.op).Some? {
      PerformKeepsRoles(c, o.state, e.op, proprietor, permissions);
    } else if e.Write? && Ready(o, e.request) && Exec(o, o.requests[e.request].todo[0]).Some? {
      ExecKeepsRooted(o, o.requests[e.request].todo[0], proprietor, permissions);
    }
  }

  /** The rest of a request takes nobody away. */
  lemma RestVouches(s: State, used: set<nat>, q: Request, proprietor: nat)
    requires Shaped(used, q.todo) && q.asks == 0 && q.todo != []
    ensures Asking(q.(todo := q.todo[1..])) && Vouches(s, q.(todo := q.todo[1..]), proprietor)
  {
  }

  /** Each request that is still there has moved on by a read, a write, or not at all. */
  lemma RequestMoves(c: Catalogue, o: Office, e: Event, r: nat)
    requires Sane(o) && r in Next(c, o, e).requests
    ensures var q := Next(c, o, e).requests[r];
      || (r in o.requests && q == o.requests[r])
      || (r == o.clock && e.Look? && !RoleOp(e.op) && !e.op.Accept? && Passes(c, o.state, e.op)
          && q == Request(Asks(o.state, e.op), o.clock, StmtsOf(e.op)))
      || (r == o.clock && e.Take? && e.token in o.tokens
          && q == Request(0, o.clock, [SetRow(o.tokens[e.token], None, Some(ACTIVE))]))
      || (r in o.requests && e.Count? && o.requests[r].asks > 0 && |ActiveProprietors(o.state)| > 1
          && q == o.requests[r].(asks := o.requests[r].asks - 1, asOf := o.clock))
      || (Ready(o, r) && e.Write? && q == o.requests[r].(todo := o.requests[r].todo[1..]))
  {
    hide Passes, Asks, StmtsOf, ActiveProprietors, Perform, OneEach, Shaped;
    if e.Write? && Ready(o, e.request) { ExecKeeps(o, o.requests[e.request].todo[0]); }
    hide Exec;
  }

  lemma {:induction false} AlwaysGrounded(c: Catalogue, o: Office, events: seq<Event>, n: nat, proprietor: nat,
                                          permissions: set<string>)
    requires AtRest(o) && Sane(o) && Rooted(o.state, proprietor, permissions) && n <= |events|
    ensures Grounded(c, o, events, n, proprietor, permissions)
  {
    hide Next, Sane, Rooted, Vouches, Asking;
    if n > 0 {
      AlwaysGrounded(c, o, events, n - 1, proprietor, permissions);
      var before, at, e := After(c, o, events, n - 1), After(c, o, events, n), events[n - 1];
      NextIsSane(c, before, e);
      NextKeepsRooted(c, before, e, proprietor, permissions);
      forall r | r in at.requests
        ensures AsOfPast(at, r) && Asking(at.requests[r])
        ensures AsOfPast(at, r) && Vouches(After(c, o, events, at.requests[r].asOf).state, at.requests[r], proprietor)
      {
        SaneAsOf(at, r);
        RequestStaysGrounded(c, o, events, n, r, proprietor, permissions);
      }
    }
  }

  predicate AsOfPast(o: Office, r: nat) { r in o.requests && o.requests[r].asOf < o.clock }

  lemma SaneAsOf(o: Office, r: nat)
    requires Sane(o) && r in o.requests
    ensures AsOfPast(o, r)
  {
  }

  lemma RequestStaysGrounded(c: Catalogue, o: Office, events: seq<Event>, n: nat, r: nat, proprietor: nat,
                             permissions: set<string>)
    requires 0 < n <= |events| && Grounded(c, o, events, n - 1, proprietor, permissions)
    requires r in After(c, o, events, n).requests && After(c, o, events, n).requests[r].asOf < n
    ensures var q := After(c, o, events, n).requests[r];
      Asking(q) && Vouches(After(c, o, events, q.asOf).state, q, proprietor)
  {
    hide Next, Vouches, Asking, OneEach, Rooted, Shaped;
    var before, e := After(c, o, events, n - 1), events[n - 1];
    var q := After(c, o, events, n).requests[r];
    RequestMoves(c, before, e, r);
    if r in before.requests && q == before.requests[r] {
    } else if e.Look? {
      LookVouches(c, before.state, e.op, n - 1, proprietor, permissions);
    } else if e.Take? {
      TakeVouches(before.state, q, proprietor);
    } else if e.Count? {
      CountVouches(before.state, before.requests[r], proprietor);
      CountKeepsAsking(before.requests[r], n - 1);
      VouchesIgnoresAsOf(before.state, before.requests[r].(asks := q.asks), q, proprietor);
    } else {
      RestVouches(After(c, o, events, q.asOf).state, before.used, before.requests[r], proprietor);
    }
  }

  lemma TakeVouches(s: State, q: Request, proprietor: nat)
    requires q.asks == 0 && q.todo != [] && q.todo[0].SetRow? && q.todo[0].role.None? && q.todo[0].status == Some(ACTIVE)
    ensures Asking(q) && Vouches(s, q, proprietor)
  {
  }

  lemma CountKeepsAsking(q: Request, at: nat)
    requires Asking(q) && q.asks > 0
    ensures Asking(q.(asks := q.asks - 1, asOf := at))
  {
  }

  lemma VouchesIgnoresAsOf(s: State, p: Request, q: Request, proprietor: nat)
    requires Vouches(s, p, proprietor) && p.asks == q.asks && p.todo == q.todo
    ensures Vouches(s, q, proprietor)
  {
  }

  // ---------------------------------------------------------------------------
  // A write that takes a proprietor away
  // ---------------------------------------------------------------------------

  /** The statement sets the member apart. */
  ghost predicate Removes(s: State, stmt: Stmt, member: nat, proprietor: nat) {
    match stmt
    case SetRow(m, role, status) =>
      m == member && !((role.None? || role.value == proprietor) && (status.None? || status.value == ACTIVE))
    case Upsert(user, _, _) => member in s.members && s.members[member].user == user
    case Retire(_) => false
    case Issue(_) => false
    case MoveAll(source, _) => source == proprietor
  }

  lemma OnlyWritesRemove(c: Catalogue, o: Office, e: Event, member: nat, proprietor: nat, permissions: set<string>)
    requires Rooted(o.state, proprietor, permissions) && OneEach(o.state)
    requires member in ActiveProprietors(o.state) && member !in ActiveProprietors(Next(c, o, e).state)
    ensures e.Write? && Ready(o, e.request) && Removes(o.state, o.requests[e.request].todo[0], member, proprietor)
  {
    hide Perform, Passes, Asks, StmtsOf;
    if e.Do? && RoleOp(e.op) && Perform(c, o.state, e.op).Some? {
      RoleOpKeepsMembers(c, o.state, e.op);
      PerformKeepsRoles(c, o.state, e.op, proprietor, permissions);
    } else if e.Write? && Ready(o, e.request) && o.requests[e.request].todo[0].Upsert? {
      SoleMembership(o.state, member);
    }
  }

  /** One write takes one proprietor away, and nobody else leaves with it. */
  lemma OneAtATime(c: Catalogue, o: Office, e: Event, member: nat, other: nat, proprietor: nat, permissions: set<string>)
    requires Rooted(o.state, proprietor, permissions) && OneEach(o.state)
    requires e.Write? && Ready(o, e.request) ==>
      var stmt := o.requests[e.request].todo[0]; !(stmt.MoveAll? && stmt.source == proprietor)
    requires member in ActiveProprietors(o.state) && member !in ActiveProprietors(Next(c, o, e).state)
    requires other != member
    ensures other in ActiveProprietors(o.state) <==> other in ActiveProprietors(Next(c, o, e).state)
  {
    hide Perform, Passes, Asks, StmtsOf;
    OnlyWritesRemove(c, o, e, member, proprietor, permissions);
    if o.requests[e.request].todo[0].Upsert? { SoleMembership(o.state, member); }
  }

  lemma UserStays(c: Catalogue, o: Office, e: Event, member: nat)
    requires member in o.state.members
    requires forall m | m in o.state.members :: o.state.members[m].role in o.state.roles
    ensures var n := Next(c, o, e).state; member in n.members && n.members[member].user == o.state.members[member].user
  {
    hide Perform, Passes, Asks, StmtsOf;
    if e.Do? && RoleOp(e.op) && Perform(c, o.state, e.op).Some? { RoleOpKeepsMembers(c, o.state, e.op); }
  }

  lemma {:induction false} UsersStay(c: Catalogue, o: Office, events: seq<Event>, a: nat, n: nat, member: nat,
                                     proprietor: nat, permissions: set<string>)
    requires AtRest(o) && Sane(o) && Rooted(o.state, proprietor, permissions) && a <= n <= |events|
    requires member in After(c, o, events, a).state.members
    ensures var s, t := After(c, o, events, a).state, After(c, o, events, n).state;
      member in t.members && t.members[member].user == s.members[member].user
  {
    hide Next, Vouches, Asking;
    if a < n {
      UsersStay(c, o, events, a, n - 1, member, proprietor, permissions);
      AlwaysGrounded(c, o, events, n - 1, proprietor, permissions);
      UserStays(c, After(c, o, events, n - 1), events[n - 1], member);
    }
  }

  ghost predicate Takes(c: Catalogue, o: Office, events: seq<Event>, n: nat, member: nat)
    requires n < |events|
  {
    member in Proprietors(c, o, events, n) && member !in Proprietors(c, o, events, n + 1)
  }

  /** When the request that writes at n made its last read. */
  ghost function ReadAt(c: Catalogue, o: Office, events: seq<Event>, n: nat): (a: nat)
    requires n < |events|
    ensures a <= n
  {
    var at := After(c, o, events, n);
    if events[n].Write? && AsOfPast(at, events[n].request) && at.clock == n then
      at.requests[events[n].request].asOf
    else n
  }

  lemma AfterNext(c: Catalogue, o: Office, events: seq<Event>, n: nat)
    requires n < |events|
    ensures After(c, o, events, n + 1) == Next(c, After(c, o, events, n), events[n])
  {
  }

  /**
   * Whoever is taken away, by a suspension, a revocation, a change of role or another
   * invitation, somebody else was an active proprietor when that request last read.
   */
  lemma SomebodyElseWasThere(c: Catalogue, o: Office, events: seq<Event>, n: nat, member: nat, proprietor: nat,
                             permissions: set<string>)
    requires AtRest(o) && Sane(o) && Rooted(o.state, proprietor, permissions) && n < |events|
    requires Takes(c, o, events, n, member)
    requires forall k | 0 <= k <= n :: Proprietors(c, o, events, k) != {}
    ensures events[n].Write? && Ready(After(c, o, events, n), events[n].request)
    ensures ReadAt(c, o, events, n) < n && Another(After(c, o, events, ReadAt(c, o, events, n)).state, member)
    ensures var stmt := After(c, o, events, n).requests[events[n].request].todo[0];
      !(stmt.MoveAll? && stmt.source == proprietor)
  {
    hide Next, Sane, Rooted;
    AlwaysGrounded(c, o, events, n, proprietor, permissions);
    AfterNext(c, o, events, n);
    var at := After(c, o, events, n);
    SaneIsOneEach(at);
    OnlyWritesRemove(c, at, events[n], member, proprietor, permissions);
    var r := events[n].request;
    SaneAsOf(at, r);
    var a := at.requests[r].asOf;
    assert Proprietors(c, o, events, a) != {};
    if at.requests[r].todo[0].Upsert? && member in After(c, o, events, a).state.members {
      UsersStay(c, o, events, a, n, member, proprietor, permissions);
    }
    NotVouchedFor(After(c, o, events, a).state, at.state, at.requests[r], member, proprietor);
  }

  lemma SaneIsOneEach(o: Office)
    requires Sane(o)
    ensures OneEach(o.state)
  {
  }

  lemma NotVouchedFor(s: State, t: State, q: Request, member: nat, proprietor: nat)
    requires Vouches(s, q, proprietor) && q.asks == 0 && q.todo != [] && Removes(t, q.todo[0], member, proprietor)
    requires ActiveProprietors(s) != {}
    requires q.todo[0].Upsert? && member in s.members ==>
      member in t.members && s.members[member].user == t.members[member].user
    ensures Another(s, member) && !(q.todo[0].MoveAll? && q.todo[0].source == proprietor)
  {
    var m :| m in ActiveProprietors(s);
    assert member in ActiveProprietors(s) ==> q.todo[0].SetRow?;
  }

  // ---------------------------------------------------------------------------
  // What was committed in between
  // ---------------------------------------------------------------------------

  /** Taken by a write between the two moments, and not there again since. */
  ghost predicate TakenSince(c: Catalogue, o: Office, events: seq<Event>, a: nat, n: nat, member: nat)
    requires n <= |events|
  {
    exists i :: a <= i < n && Takes(c, o, events, i, member)
      && forall j | i < j <= n :: member !in Proprietors(c, o, events, j)
  }

  /** Became a proprietor between the two moments, and has been one since. */
  ghost predicate JoinedSince(c: Catalogue, o: Office, events: seq<Event>, a: nat, n: nat, member: nat)
    requires n <= |events|
  {
    exists i :: a <= i < n && member !in Proprietors(c, o, events, i)
      && forall j | i < j <= n :: member in Proprietors(c, o, events, j)
  }

  lemma {:induction false} GoneWasTaken(c: Catalogue, o: Office, events: seq<Event>, a: nat, n: nat, member: nat)
    requires a <= n <= |events| && member in Proprietors(c, o, events, a) && member !in Proprietors(c, o, events, n)
    ensures TakenSince(c, o, events, a, n, member)
    decreases n - a
  {
    hide After;
    if member in Proprietors(c, o, events, n - 1) {
      assert Takes(c, o, events, n - 1, member);
    } else {
      GoneWasTaken(c, o, events, a, n - 1, member);
      var i :| a <= i < n - 1 && Takes(c, o, events, i, member)
            && forall j | i < j <= n - 1 :: member !in Proprietors(c, o, events, j);
      assert forall j | i < j <= n :: member !in Proprietors(c, o, events, j);
    }
  }

  lemma {:induction false} NewlyThereJoined(c: Catalogue, o: Office, events: seq<Event>, a: nat, n: nat, member: nat)
    requires a <= n <= |events| && member !in Proprietors(c, o, events, a) && member in Proprietors(c, o, events, n)
    ensures JoinedSince(c, o, events, a, n, member)
    decreases n - a
  {
    hide After;
    if member !in Proprietors(c, o, events, n - 1) {
      assert forall j | n - 1 < j <= n :: member in Proprietors(c, o, events, j);
    } else {
      NewlyThereJoined(c, o, events, a, n - 1, member);
      var i :| a <= i < n - 1 && member !in Proprietors(c, o, events, i)
            && forall j | i < j <= n - 1 :: member in Proprietors(c, o, events, j);
      assert forall j | i < j <= n :: member in Proprietors(c, o, events, j);
    }
  }

  /**
   * The write at n takes a proprietor; everybody else who was one when the request last read
   * has been taken by another write since; and nobody who has become one since still is.
   */
  ghost predicate LeavesNobody(c: Catalogue, o: Office, events: seq<Event>, n: nat)
    requires n < |events|
  {
    exists member ::
      && Takes(c, o, events, n, member)
      && (forall m | m in Proprietors(c, o, events, ReadAt(c, o, events, n)) && m != member ::
            TakenSince(c, o, events, ReadAt(c, o, events, n), n, m))
      && (forall m | m !in Proprietors(c, o, events, ReadAt(c, o, events, n)) && m != member ::
            !JoinedSince(c, o, events, ReadAt(c, o, events, n), n, m))
  }

  lemma NobodyLeft(c: Catalogue, o: Office, events: seq<Event>, n: nat, proprietor: nat, permissions: set<string>)
    requires AtRest(o) && Sane(o) && Rooted(o.state, proprietor, permissions) && n < |events|
    requires forall k | 0 <= k <= n :: Proprietors(c, o, events, k) != {}
    requires Proprietors(c, o, events, n + 1) == {}
    ensures LeavesNobody(c, o, events, n)
  {
    hide After, Sane, Rooted, Next, ActiveProprietors, ReadAt, TakenSince;
    var a := ReadAt(c, o, events, n);
    var member :| member in Proprietors(c, o, events, n);
    assert Takes(c, o, events, n, member);
    forall m | m != member ensures m !in Proprietors(c, o, events, n) {
      OnlyOneLeaves(c, o, events, n, member, m, proprietor, permissions);
    }
    forall m | m in Proprietors(c, o, events, a) && m != member ensures TakenSince(c, o, events, a, n, m) {
      GoneWasTaken(c, o, events, a, n, m);
    }
  }

  lemma SomebodyLeft(c: Catalogue, o: Office, events: seq<Event>, n: nat, proprietor: nat, permissions: set<string>)
    requires AtRest(o) && Sane(o) && Rooted(o.state, proprietor, permissions) && n < |events|
    requires forall k | 0 <= k <= n :: Proprietors(c, o, events, k) != {}
    requires Proprietors(c, o, events, n + 1) != {}
    ensures !LeavesNobody(c, o, events, n)
  {
    hide After, Sane, Rooted, Next, ActiveProprietors, ReadAt;
    var left :| left in Proprietors(c, o, events, n + 1);
    forall member | Takes(c, o, events, n, member)
      ensures left != member
      ensures var a := ReadAt(c, o, events, n);
        if left in Proprietors(c, o, events, a) then !TakenSince(c, o, events, a, n, left)
        else JoinedSince(c, o, events, a, n, left)
    {
      OnlyOneLeaves(c, o, events, n, member, left, proprietor, permissions);
      var a := ReadAt(c, o, events, n);
      if left !in Proprietors(c, o, events, a) { NewlyThereJoined(c, o, events, a, n, left); }
    }
  }

  lemma NobodyLeftIff(c: Catalogue, o: Office, events: seq<Event>, n: nat, proprietor: nat, permissions: set<string>)
    requires AtRest(o) && Sane(o) && Rooted(o.state, proprietor, permissions) && n < |events|
    requires forall k | 0 <= k <= n :: Proprietors(c, o, events, k) != {}
    ensures Proprietors(c, o, events, n + 1) == {} <==> LeavesNobody(c, o, events, n)
  {
    hide *;
    if Proprietors(c, o, events, n + 1) == {} {
      NobodyLeft(c, o, events, n, proprietor, permissions);
    } else {
      SomebodyLeft(c, o, events, n, proprietor, permissions);
    }
  }

  lemma OnlyOneLeaves(c: Catalogue, o: Office, events: seq<Event>, n: nat, member: nat, other: nat, proprietor: nat,
                      permissions: set<string>)
    requires AtRest(o) && Sane(o) && Rooted(o.state, proprietor, permissions) && n < |events|
    requires forall k | 0 <= k <= n :: Proprietors(c, o, events, k) != {}
    requires Takes(c, o, events, n, member) && other != member
    ensures other in Proprietors(c, o, events, n) <==> other in Proprietors(c, o, events, n + 1)
  {
    hide Next, Sane, Rooted;
    AlwaysGrounded(c, o, events, n, proprietor, permissions);
    SomebodyElseWasThere(c, o, events, n, member, proprietor, permissions);
    AfterNext(c, o, events, n);
    SaneIsOneEach(After(c, o, events, n));
    OneAtATime(c, After(c, o, events, n), events[n], member, other, proprietor, permissions);
  }

  ghost predicate RecoverableThroughout(c: Catalogue, o: Office, events: seq<Event>, proprietor: nat,
                                        permissions: set<string>)
  {
    forall n | 0 <= n <= |events| :: Recoverable(After(c, o, events, n).state, proprietor, permissions)
  }

  ghost predicate NeverLeavesNobody(c: Catalogue, o: Office, events: seq<Event>) {
    forall n | 0 <= n < |events| :: !LeavesNobody(c, o, events, n)
  }

  lemma {:induction false} SomebodyUntil(c: Catalogue, o: Office, events: seq<Event>, n: nat, proprietor: nat,
                                         permissions: set<string>)
    requires AtRest(o) && Sane(o) && Recoverable(o.state, proprietor, permissions) && n <= |events|
    requires forall k | 0 <= k < n :: !LeavesNobody(c, o, events, k)
    ensures forall k | 0 <= k <= n :: Proprietors(c, o, events, k) != {}
  {
    hide Next, Sane, Rooted, LeavesNobody, ActiveProprietors;
    if n == 0 {
      var m :| m in ActiveProprietors(o.state);
    } else {
      SomebodyUntil(c, o, events, n - 1, proprietor, permissions);
      NobodyLeftIff(c, o, events, n - 1, proprietor, permissions);
    }
  }

  /**
   * A school has an active proprietor at every moment of a run exactly when no write takes
   * a proprietor away after other writes have taken, since the request last read, everybody
   * else who was one then, with nobody who became one since left.
   */
  lemma RecoverableThroughoutIff(c: Catalogue, o: Office, events: seq<Event>, proprietor: nat, permissions: set<string>)
    requires AtRest(o) && Sane(o) && Recoverable(o.state, proprietor, permissions)
    ensures RecoverableThroughout(c, o, events, proprietor, permissions) <==> NeverLeavesNobody(c, o, events)
  {
    hide Next, After, Sane, Rooted, LeavesNobody, ActiveProprietors;
    if NeverLeavesNobody(c, o, events) {
      forall n | 0 <= n <= |events| ensures Recoverable(After(c, o, events, n).state, proprietor, permissions) {
        AlwaysGrounded(c, o, events, n, proprietor, permissions);
        SomebodyUntil(c, o, events, n, proprietor, permissions);
        var m :| m in Proprietors(c, o, events, n);
      }
    } else if RecoverableThroughout(c, o, events, proprietor, permissions) {
      var n :| 0 <= n < |events| && LeavesNobody(c, o, events, n);
      forall k | 0 <= k <= n + 1 ensures Proprietors(c, o, events, k) != {} {
        var m :| m in ActiveProprietors(After(c, o, events, k).state);
      }
      NobodyLeftIff(c, o, events, n, proprietor, permissions);
    }
  }

  /** No write takes a proprietor away between another such request's last read and its write. */
  ghost predicate RemovalsApart(c: Catalogue, o: Office, events: seq<Event>) {
    forall i, n, m, b | 0 <= i < n < |events| && Takes(c, o, events, n, b) && Takes(c, o, events, i, m) ::
      i < ReadAt(c, o, events, n)
  }

  /** As long as removals do not overlap, whatever else does, the school keeps a proprietor. */
  lemma ApartIsRecoverable(c: Catalogue, o: Office, events: seq<Event>, proprietor: nat, permissions: set<string>)
    requires AtRest(o) && Sane(o) && Recoverable(o.state, proprietor, permissions) && RemovalsApart(c, o, events)
    ensures RecoverableThroughout(c, o, events, proprietor, permissions)
  {
    hide Next, After, Sane, Rooted, ActiveProprietors, LeavesNobody;
    if !NeverLeavesNobody(c, o, events) {
      var n := FirstToLeaveNobody(c, o, events, |events|, proprietor, permissions);
      var i, other, member := NobodyNeedsOverlap(c, o, events, n, proprietor, permissions);
    }
    RecoverableThroughoutIff(c, o, events, proprietor, permissions);
  }

  lemma {:induction false} FirstToLeaveNobody(c: Catalogue, o: Office, events: seq<Event>, bound: nat, proprietor: nat,
                                              permissions: set<string>) returns (n: nat)
    requires AtRest(o) && Sane(o) && Recoverable(o.state, proprietor, permissions) && bound <= |events|
    requires exists k :: 0 <= k < bound && LeavesNobody(c, o, events, k)
    ensures n < bound && LeavesNobody(c, o, events, n)
    ensures forall k | 0 <= k <= n :: Proprietors(c, o, events, k) != {}
  {
    hide Next, After, Sane, LeavesNobody, ActiveProprietors;
    if k :| 0 <= k < bound - 1 && LeavesNobody(c, o, events, k) {
      n := FirstToLeaveNobody(c, o, events, bound - 1, proprietor, permissions);
    } else {
      n := bound - 1;
      SomebodyUntil(c, o, events, n, proprietor, permissions);
    }
  }

  /** To leave nobody, a write has to overlap with another that took somebody since its last read. */
  lemma NobodyNeedsOverlap(c: Catalogue, o: Office, events: seq<Event>, n: nat, proprietor: nat,
                           permissions: set<string>) returns (i: nat, other: nat, member: nat)
    requires AtRest(o) && Sane(o) && Rooted(o.state, proprietor, permissions) && n < |events|
    requires forall k | 0 <= k <= n :: Proprietors(c, o, events, k) != {}
    requires LeavesNobody(c, o, events, n)
    ensures ReadAt(c, o, events, n) <= i < n && other != member
    ensures Takes(c, o, events, n, member) && Takes(c, o, events, i, other)
  {
    hide Next, After, Sane, Rooted, ActiveProprietors;
    var a := ReadAt(c, o, events, n);
    member :| Takes(c, o, events, n, member)
      && (forall m | m in Proprietors(c, o, events, a) && m != member :: TakenSince(c, o, events, a, n, m));
    SomebodyElseWasThere(c, o, events, n, member, proprietor, permissions);
    other :| other in ActiveProprietors(After(c, o, events, a).state) && other != member;
    assert other in Proprietors(c, o, events, a);
    i :| a <= i < n && Takes(c, o, events, i, other);
  }

  // ---------------------------------------------------------------------------
  // Two removals on a count of two
  // ---------------------------------------------------------------------------

  /** Each looks, each counts, each writes. */
  function Overlapping(first: Op, second: Op): seq<Event> {
    [Look(first), Look(second), Count(0), Count(1), Write(0), Write(1)]
  }

  /** A suspension, a revocation or a change of role, allowed by itself, that takes the member away. */
  ghost predicate Removal(c: Catalogue, s: State, op: Op, member: nat) {
    && (op.Update? || op.Revoke?) && op.member == member && Asks(s, op) == 1 && Perform(c, s, op).Some?
    && member !in ActiveProprietors(Perform(c, s, op).value)
  }

  lemma RemovalIsOneStatement(c: Catalogue, s: State, op: Op, member: nat)
    requires Removal(c, s, op, member) && forall m | m in s.members :: s.members[m].role in s.roles
    ensures Passes(c, s, op) && |ActiveProprietors(s)| > 1 && |StmtsOf(op)| == 1
    ensures var stmt := StmtsOf(op)[0];
      stmt.SetRow? && stmt.member == member && member in s.members && (stmt.role.Some? ==> stmt.role.value in s.roles)
  {
  }

  /** The statement takes the member, and only the member, away. */
  lemma RemovalTakesOne(c: Catalogue, o: Office, s: State, op: Op, member: nat)
    requires Removal(c, s, op, member) && forall m | m in s.members :: s.members[m].role in s.roles
    requires o.state.roles == s.roles && member in o.state.members && o.state.members[member] == s.members[member]
    ensures StmtsOf(op) != [] && Exec(o, StmtsOf(op)[0]).Some?
    ensures var n := Exec(o, StmtsOf(op)[0]).value;
      && n.state.roles == s.roles && ActiveProprietors(n.state) == ActiveProprietors(o.state) - {member}
      && (forall m | m in o.state.members && m != member :: m in n.state.members && n.state.members[m] == o.state.members[m])
  {
    var n := Exec(o, StmtsOf(op)[0]).value;
    assert n.state.members[member] == Perform(c, s, op).value.members[member];
  }

  /** Both requests past their counts, with nothing written yet. */
  lemma BothPass(c: Catalogue, o: Office, first: Op, second: Op, a: nat, b: nat)
    requires AtRest(o) && (forall m | m in o.state.members :: o.state.members[m].role in o.state.roles)
    requires Removal(c, o.state, first, a) && Removal(c, o.state, second, b)
    ensures var at := After(c, o, Overlapping(first, second), 4);
      && at.state == o.state && at.clock == 4
      && at.requests == map[0 := Request(0, 2, StmtsOf(first)), 1 := Request(0, 3, StmtsOf(second))]
  {
    hide Perform, Asks, Passes, StmtsOf, ActiveProprietors;
    RemovalIsOneStatement(c, o.state, first, a);
    RemovalIsOneStatement(c, o.state, second, b);
    var events := Overlapping(first, second);
    var one := o.(clock := 1, requests := map[0 := Request(1, 0, StmtsOf(first))]);
    var two := o.(clock := 2, requests := one.requests[1 := Request(1, 1, StmtsOf(second))]);
    var three := o.(clock := 3, requests := two.requests[0 := Request(0, 2, StmtsOf(first))]);
    assert After(c, o, events, 0) == o;
    assert After(c, o, events, 1) == one;
    assert After(c, o, events, 2) == two;
    assert After(c, o, events, 3) == three;
    AfterNext(c, o, events, 3);
  }

  /**
   * Any two of a suspension, a revocation and a change of role, of two proprietors who are
   * the only ones, pass their counts and leave nobody when both count before either writes.
   */
  lemma TwoRemovalsRace(c: Catalogue, o: Office, first: Op, second: Op, a: nat, b: nat)
    requires AtRest(o) && (forall m | m in o.state.members :: o.state.members[m].role in o.state.roles)
    requires a != b && ActiveProprietors(o.state) == {a, b}
    requires Removal(c, o.state, first, a) && Removal(c, o.state, second, b)
    ensures ActiveProprietors(After(c, o, Overlapping(first, second), 6).state) == {}
  {
    var events := Overlapping(first, second);
    BothPass(c, o, first, second, a, b);
    var four, five := After(c, o, events, 4), After(c, o, events, 5);
    AfterNext(c, o, events, 4);
    AfterNext(c, o, events, 5);
    hide After, Perform, Asks, Passes, Removal;
    RemovalIsOneStatement(c, o.state, first, a);
    RemovalIsOneStatement(c, o.state, second, b);
    RemovalTakesOne(c, four, o.state, first, a);
    assert five.requests[1] == Request(0, 3, StmtsOf(second));
    RemovalTakesOne(c, five, o.state, second, b);
  }
}
