/**
 * Roles and memberships of one school: who may grant what. The operations run one at a
 * time; each either is refused or leaves the new tables.
 */
module AccessRules {
  import opened Wrappers
  import opened RoleSlugs
  import opened Text

  const PORTAL_ACCESS := "portal.access"

  datatype Role = Role(slug: string, isSystem: bool, permissions: set<string>)

  datatype Status = INVITED | ACTIVE | SUSPENDED | REVOKED

  datatype Membership = Membership(user: nat, role: nat, status: Status)

  datatype State = State(roles: map<nat, Role>, members: map<nat, Membership>)

  /** The keys the code knows, and the rows of the seeded permission table. */
  datatype Catalogue = Catalogue(known: set<string>, installed: set<string>)

  /** caller: the caller's membership. Ids of new rows come with the operation. */
  datatype Op =
    | CreateRole(caller: nat, id: nat, upperName: string, copyFrom: Option<nat>, keys: seq<string>)
    | SetPermissions(caller: nat, role: nat, keys: seq<string>)
    | RemoveRole(caller: nat, role: nat)
    | Reassign(caller: nat, source: nat, target: nat)
    | Invite(caller: nat, user: nat, role: nat, id: nat)
    | Accept(member: nat)
    | Update(caller: nat, member: nat, newRole: Option<nat>, suspend: Option<bool>)
    | Revoke(caller: nat, member: nat)
    | RevokeParent(caller: nat, member: nat)

  // ---------------------------------------------------------------------------
  // What may be granted
  // ---------------------------------------------------------------------------

  function Requested(keys: set<string>): set<string> { (set key | key in keys :: Trim(key)) - {""} }

  /** assertMayGrant: the rows to write, or a refusal. */
  function MayGrant(c: Catalogue, held: set<string>, keys: set<string>): Option<set<string>> {
    var requested := Requested(keys);
    if !(requested <= c.known) then None
    else if PORTAL_ACCESS in requested then None
    else if !(requested <= held) then None
    else Some(requested * c.installed)
  }

  /** assertMayAssign: portal.access is ignored for the standard Parent role, and refused on any other. */
  predicate MayAssign(c: Catalogue, held: set<string>, role: Role) {
    if PORTAL_ACCESS in role.permissions then
      role.slug == PARENT && role.isSystem && MayGrant(c, held, role.permissions - {PORTAL_ACCESS}).Some?
    else MayGrant(c, held, role.permissions).Some?
  }

  function Held(s: State, caller: nat): set<string> {
    if caller in s.members && s.members[caller].role in s.roles then s.roles[s.members[caller].role].permissions else {}
  }

  function Elements<T>(xs: seq<T>): set<T> { set x | x in xs }

  function Slugs(s: State): set<string> { set id | id in s.roles :: s.roles[id].slug }

  function SlugOf(s: State, member: nat): string
    requires member in s.members
  {
    var role := s.members[member].role;
    if role in s.roles then s.roles[role].slug else ""
  }

  function ActiveProprietors(s: State): set<nat> {
    set m | m in s.members && s.members[m].status == ACTIVE && SlugOf(s, m) == PROPRIETOR
  }

  /** assertNotLastProprietor */
  predicate NotLastProprietor(s: State, member: nat)
    requires member in s.members
  {
    SlugOf(s, member) == PROPRIETOR ==> |ActiveProprietors(s)| > 1
  }

  predicate Holders(s: State, role: nat) { exists m | m in s.members :: s.members[m].role == role }

  predicate SelfAmong(s: State, role: nat, user: nat) {
    exists m | m in s.members :: s.members[m].role == role && s.members[m].user == user
  }

  /** The one membership of a user in the school. */
  predicate MemberOf(s: State, user: nat) { exists m | m in s.members :: s.members[m].user == user }

  ghost function MembershipOf(s: State, user: nat): (m: nat)
    requires MemberOf(s, user)
    ensures m in s.members && s.members[m].user == user
  {
    var m :| m in s.members && s.members[m].user == user; m
  }

  function Moved(s: State, source: nat, target: nat): map<nat, Membership> {
    map m | m in s.members ::
      if s.members[m].role == source then s.members[m].(role := target) else s.members[m]
  }

  // ---------------------------------------------------------------------------
  // The operations
  // ---------------------------------------------------------------------------

  ghost function DoCreate(c: Catalogue, s: State, op: Op): Option<State>
    requires op.CreateRole?
  {
    if op.copyFrom.Some? && op.copyFrom.value !in s.roles then None
    else
      var asked := if op.copyFrom.Some? then s.roles[op.copyFrom.value].permissions else Elements(op.keys);
      match MayGrant(c, Held(s, op.caller), asked)
      case None => None
      case Some(granted) =>
        if op.id in s.roles then None
        else Some(s.(roles := s.roles[op.id := Role(FirstFree(Base(op.upperName), Slugs(s)), false, granted)]))
  }

  function DoSetPermissions(c: Catalogue, s: State, op: Op): Option<State>
    requires op.SetPermissions?
  {
    if op.role !in s.roles || s.roles[op.role].slug == PROPRIETOR then None
    else match MayGrant(c, Held(s, op.caller), Elements(op.keys))
      case None => None
      case Some(granted) => Some(s.(roles := s.roles[op.role := s.roles[op.role].(permissions := granted)]))
  }

  function DoRemove(s: State, op: Op): Option<State>
    requires op.RemoveRole?
  {
    if op.role !in s.roles || s.roles[op.role].isSystem || Holders(s, op.role) then None
    else Some(s.(roles := s.roles - {op.role}))
  }

  function DoReassign(c: Catalogue, s: State, op: Op): Option<State>
    requires op.Reassign?
  {
    if op.source !in s.roles || op.target !in s.roles || op.source == op.target then None
    else if op.caller !in s.members || SelfAmong(s, op.source, s.members[op.caller].user) then None
    else if !MayAssign(c, Held(s, op.caller), s.roles[op.target]) then None
    else if s.roles[op.source].slug == PROPRIETOR then None
    else Some(s.(members := Moved(s, op.source, op.target)))
  }

  ghost function DoInvite(c: Catalogue, s: State, op: Op): Option<State>
    requires op.Invite?
  {
    if op.role !in s.roles || !MayAssign(c, Held(s, op.caller), s.roles[op.role]) then None
    else if MemberOf(s, op.user) then
      var m := MembershipOf(s, op.user);
      if s.members[m].status == ACTIVE || s.members[m].status == SUSPENDED then None
      else Some(s.(members := s.members[m := Membership(op.user, op.role, INVITED)]))
    else if op.id in s.members then None
    else Some(s.(members := s.members[op.id := Membership(op.user, op.role, INVITED)]))
  }

  function DoAccept(s: State, member: nat): Option<State> {
    if member !in s.members then None
    else Some(s.(members := s.members[member := s.members[member].(status := ACTIVE)]))
  }

  function DoUpdate(c: Catalogue, s: State, op: Op): Option<State>
    requires op.Update?
  {
    if op.member !in s.members || op.caller !in s.members then None
    else
      var current := s.members[op.member];
      if op.newRole.Some? && op.newRole.value != current.role && op.newRole.value !in s.roles then None
      else if op.newRole.Some? && op.newRole.value != current.role
              && (current.user == s.members[op.caller].user || !MayAssign(c, Held(s, op.caller), s.roles[op.newRole.value])
                  || !NotLastProprietor(s, op.member)) then None
      else if op.suspend == Some(true) && !NotLastProprietor(s, op.member) then None
      else
        var role := if op.newRole.Some? then op.newRole.value else current.role;
        var status := if op.suspend.None? then current.status else if op.suspend.value then SUSPENDED else ACTIVE;
        Some(s.(members := s.members[op.member := Membership(current.user, role, status)]))
  }

  function DoRevoke(s: State, op: Op): Option<State>
    requires op.Revoke?
  {
    if op.member !in s.members || !NotLastProprietor(s, op.member) then None
    else Some(s.(members := s.members[op.member := s.members[op.member].(status := REVOKED)]))
  }

  function DoRevokeParent(s: State, op: Op): Option<State>
    requires op.RevokeParent?
  {
    if op.member !in s.members || SlugOf(s, op.member) != PARENT then None
    else Some(s.(members := s.members[op.member := s.members[op.member].(status := REVOKED)]))
  }

  ghost function Perform(c: Catalogue, s: State, op: Op): Option<State> {
    match op
    case CreateRole(_, _, _, _, _) => DoCreate(c, s, op)
    case SetPermissions(_, _, _) => DoSetPermissions(c, s, op)
    case RemoveRole(_, _) => DoRemove(s, op)
    case Reassign(_, _, _) => DoReassign(c, s, op)
    case Invite(_, _, _, _) => DoInvite(c, s, op)
    case Accept(member) => DoAccept(s, member)
    case Update(_, _, _, _) => DoUpdate(c, s, op)
    case Revoke(_, _) => DoRevoke(s, op)
    case RevokeParent(_, _) => DoRevokeParent(s, op)
  }

  ghost function Run(c: Catalogue, s: State, ops: seq<Op>): State {
    if ops == [] then s
    else
      var before := Run(c, s, ops[..|ops| - 1]);
      match Perform(c, before, ops[|ops| - 1])
      case None => before
      case Some(after) => after
  }

  // ---------------------------------------------------------------------------
  // The invariant
  // ---------------------------------------------------------------------------

  /** Keys of the permission table are written as they are known: nothing to trim. */
  ghost predicate Seeded(c: Catalogue) { forall key | key in c.installed :: Trim(key) == key && key != "" }

  /** Foreign keys hold, roles carry catalogue rows, and only the standard Parent role has portal access. */
  ghost predicate WellFormed(c: Catalogue, s: State) {
    && (forall m | m in s.members :: s.members[m].role in s.roles)
    && (forall r | r in s.roles :: s.roles[r].permissions <= c.installed)
    && (forall r | r in s.roles && PORTAL_ACCESS in s.roles[r].permissions ::
          s.roles[r].slug == PARENT && s.roles[r].isSystem)
  }

  /** The permissions some membership carries, whatever its status. */
  ghost predicate InUse(s: State, key: string) {
    exists m :: m in s.members && s.members[m].role in s.roles && key in s.roles[s.members[m].role].permissions
  }

  lemma GrantIsHeld(c: Catalogue, held: set<string>, keys: set<string>, key: string)
    requires Seeded(c) && MayGrant(c, held, keys).Some?
    ensures key in MayGrant(c, held, keys).value ==> key in held && key in c.installed && key != PORTAL_ACCESS
    ensures key in keys && key in c.installed ==> key in held && key != PORTAL_ACCESS
  {
    if key in keys && key in c.installed { assert Trim(key) in Requested(keys); }
  }

  lemma AssignIsHeld(c: Catalogue, held: set<string>, role: Role, key: string)
    requires Seeded(c) && role.permissions <= c.installed && MayAssign(c, held, role)
    requires key in role.permissions && key != PORTAL_ACCESS
    ensures key in held
  {
    if PORTAL_ACCESS in role.permissions {
      GrantIsHeld(c, held, role.permissions - {PORTAL_ACCESS}, key);
    } else {
      GrantIsHeld(c, held, role.permissions, key);
    }
  }

  lemma PerformKeepsWellFormed(c: Catalogue, s: State, op: Op)
    requires Seeded(c) && WellFormed(c, s) && Perform(c, s, op).Some?
    ensures WellFormed(c, Perform(c, s, op).value)
  {
    var after := Perform(c, s, op).value;
    if op.CreateRole? || op.SetPermissions? {
      var id := if op.CreateRole? then op.id else op.role;
      forall key | key in after.roles[id].permissions ensures key in c.installed && key != PORTAL_ACCESS {
        if op.CreateRole? {
          var asked := if op.copyFrom.Some? then s.roles[op.copyFrom.value].permissions else Elements(op.keys);
          GrantIsHeld(c, Held(s, op.caller), asked, key);
        } else {
          GrantIsHeld(c, Held(s, op.caller), Elements(op.keys), key);
        }
      }
    }
  }

  /** Nothing comes into use that no membership held, portal access aside. */
  lemma PerformGrantsNothingNew(c: Catalogue, s: State, op: Op, key: string)
    requires Seeded(c) && WellFormed(c, s) && Perform(c, s, op).Some?
    requires InUse(Perform(c, s, op).value, key) && key != PORTAL_ACCESS
    ensures InUse(s, key)
  {
    var after := Perform(c, s, op).value;
    var m :| m in after.members && after.members[m].role in after.roles
             && key in after.roles[after.members[m].role].permissions;
    var role := after.members[m].role;
    if op.SetPermissions? && role == op.role {
      GrantIsHeld(c, Held(s, op.caller), Elements(op.keys), key);
      assert key in Held(s, op.caller);
    } else if role in s.roles && m in s.members && s.members[m].role == role {
      assert key in s.roles[role].permissions;
    } else {
      AssignIsHeld(c, Held(s, Caller(op)), s.roles[role], key);
      assert key in Held(s, Caller(op));
    }
  }

  function Caller(op: Op): nat { if op.Accept? then op.member else op.caller }

  lemma {:induction false} RunIsWellFormed(c: Catalogue, s: State, ops: seq<Op>)
    requires Seeded(c) && WellFormed(c, s)
    ensures WellFormed(c, Run(c, s, ops))
  {
    if ops != [] {
      RunIsWellFormed(c, s, ops[..|ops| - 1]);
      var before := Run(c, s, ops[..|ops| - 1]);
      if Perform(c, before, ops[|ops| - 1]).Some? { PerformKeepsWellFormed(c, before, ops[|ops| - 1]); }
    }
  }

  /**
   * No run of role and membership administration brings a permission into use that no
   * membership carried at the start, portal access aside; and that one is only ever on
   * the standard Parent role.
   */
  lemma {:induction false} NoPermissionAppears(c: Catalogue, s: State, ops: seq<Op>, key: string)
    requires Seeded(c) && WellFormed(c, s)
    requires InUse(Run(c, s, ops), key)
    ensures key != PORTAL_ACCESS ==> InUse(s, key)
    ensures forall r | r in Run(c, s, ops).roles && PORTAL_ACCESS in Run(c, s, ops).roles[r].permissions ::
      Run(c, s, ops).roles[r].slug == PARENT && Run(c, s, ops).roles[r].isSystem
  {
    RunIsWellFormed(c, s, ops);
    if ops != [] && key != PORTAL_ACCESS {
      var before := Run(c, s, ops[..|ops| - 1]);
      RunIsWellFormed(c, s, ops[..|ops| - 1]);
      if Perform(c, before, ops[|ops| - 1]).Some? {
        PerformGrantsNothingNew(c, before, ops[|ops| - 1], key);
      }
      NoPermissionAppears(c, s, ops[..|ops| - 1], key);
    }
  }

  // ---------------------------------------------------------------------------
  // The proprietor
  // ---------------------------------------------------------------------------

  /** One role, a standard one, has the proprietor's slug, and every membership has a role. */
  ghost predicate Rooted(s: State, proprietor: nat, permissions: set<string>) {
    && proprietor in s.roles && s.roles[proprietor] == Role(PROPRIETOR, true, permissions)
    && (forall r | r in s.roles && s.roles[r].slug == PROPRIETOR :: r == proprietor)
    && (forall m | m in s.members :: s.members[m].role in s.roles)
  }

  /** ... and somebody active holds the proprietor's. */
  ghost predicate Recoverable(s: State, proprietor: nat, permissions: set<string>) {
    Rooted(s, proprietor, permissions) && exists m :: m in ActiveProprietors(s)
  }

  lemma AtMostOne(all: set<nat>, one: nat)
    requires all <= {one}
    ensures |all| <= 1
  {
    assert all == {} || all == {one};
  }

  lemma AnotherRemains(s: State, member: nat) returns (other: nat)
    requires member in s.members && SlugOf(s, member) == PROPRIETOR && NotLastProprietor(s, member)
    ensures other in ActiveProprietors(s) && other != member
  {
    var all := ActiveProprietors(s);
    if all <= {member} { AtMostOne(all, member); }
    other :| other in all && other !in {member};
  }

  lemma PerformKeepsRoles(c: Catalogue, s: State, op: Op, proprietor: nat, permissions: set<string>)
    requires Rooted(s, proprietor, permissions) && Perform(c, s, op).Some?
    ensures Rooted(Perform(c, s, op).value, proprietor, permissions)
  {
    if op.CreateRole? { assert PROPRIETOR in SYSTEM_SLUGS; }
  }

  /** Who is still an active proprietor after the operation. */
  lemma PerformKeepsSomeone(c: Catalogue, s: State, op: Op, proprietor: nat, permissions: set<string>)
    returns (someone: nat)
    requires Recoverable(s, proprietor, permissions) && Perform(c, s, op).Some?
    ensures someone in ActiveProprietors(Perform(c, s, op).value)
  {
    PerformKeepsRoles(c, s, op, proprietor, permissions);
    someone :| someone in ActiveProprietors(s);
    assert s.members[someone].role == proprietor;
    if (op.Update? || op.Revoke?) && op.member == someone && !(op.Update? && op.suspend != Some(true)
         && (op.newRole.None? || op.newRole.value == proprietor)) {
      someone := AnotherRemains(s, op.member);
    }
    assert s.members[someone].role == proprietor;
    var after := Perform(c, s, op).value;
    assert after.members[someone].role == proprietor && after.members[someone].status == ACTIVE;
  }

  /** Every run keeps an active proprietor and leaves the proprietor role alone, and the only one of its slug. */
  lemma {:induction false} AlwaysRecoverable(c: Catalogue, s: State, ops: seq<Op>, proprietor: nat,
                                             permissions: set<string>)
    requires Recoverable(s, proprietor, permissions)
    ensures Recoverable(Run(c, s, ops), proprietor, permissions)
  {
    if ops != [] {
      var op := ops[|ops| - 1];
      AlwaysRecoverable(c, s, ops[..|ops| - 1], proprietor, permissions);
      var before := Run(c, s, ops[..|ops| - 1]);
      if Perform(c, before, op).Some? {
        PerformKeepsRoles(c, before, op, proprietor, permissions);
        var someone := PerformKeepsSomeone(c, before, op, proprietor, permissions);
      }
    }
  }
}
