/** The role and membership tables as the services write them, each method proved to be its rule. */
module AccessStore {
  import opened Wrappers
  import opened RoleSlugs
  import opened Text
  import opened AccessRules
  import opened AccessMeaning

  class AccessTables {
    var roles: map<nat, Role>
    var members: map<nat, Membership>

    ghost function View(): State
      reads this
    {
      State(roles, members)
    }

    constructor (roles: map<nat, Role>, members: map<nat, Membership>)
      ensures View() == State(roles, members)
    {
      this.roles, this.members := roles, members;
    }

    /** count over the active memberships of the proprietor role. */
    method CountProprietors() returns (n: nat)
      ensures n == |ActiveProprietors(View())|
    {
      n := 0;
      var rest := members.Keys;
      ghost var counted: set<nat> := {};
      while rest != {}
        invariant rest <= members.Keys && counted == ActiveProprietors(View()) - rest && n == |counted|
      {
        var m :| m in rest;
        var role := members[m].role;
        var slug := if role in roles then roles[role].slug else "";
        if members[m].status == ACTIVE && slug == PROPRIETOR {
          counted, n := counted + {m}, n + 1;
        }
        rest := rest - {m};
      }
      assert counted == ActiveProprietors(View());
    }

    method IsNotLast(member: nat) returns (ok: bool)
      requires member in members
      ensures ok == NotLastProprietor(View(), member)
    {
      var role := members[member].role;
      if role !in roles || roles[role].slug != PROPRIETOR {
        ok := true;
      } else {
        var n := CountProprietors();
        ok := n > 1;
      }
    }

    /**
     * A role carrying what was asked for, the keys listed or those of the role copied, under
     * a free slug; refused unless all of that is the caller's to give.
     */
    method CreateRole(c: Catalogue, op: Op) returns (done: bool)
      requires op.CreateRole?
      modifies this`roles
      ensures Perform(c, old(View()), op) == if done then Some(View()) else None
      ensures !done ==> View() == old(View())
      ensures done <==>
        && (op.copyFrom.Some? ==> op.copyFrom.value in old(roles)) && op.id !in old(roles)
        && forall key | Asks(old(View()), op, key) :: MayGive(c, old(View()), op.caller, key)
      ensures done ==> Created(c, old(View()), op, View())
    {
      CreateExactly(c, View(), op);
      if op.copyFrom.Some? && op.copyFrom.value !in roles { return false; }
      var asked := if op.copyFrom.Some? then roles[op.copyFrom.value].permissions else Elements(op.keys);
      var held := if op.caller in members && members[op.caller].role in roles
                  then roles[members[op.caller].role].permissions else {};
      var granted := MayGrant(c, held, asked);
      if granted.None? || op.id in roles { return false; }
      var taken := set id | id in roles :: roles[id].slug;
      assert taken == Slugs(View());
      var slug := UniqueSlug(Base(op.upperName), taken);
      roles := roles[op.id := Role(slug, false, granted.value)];
      done := true;
    }

    /**
     * The old rows are deleted and the granted ones written: a role other than the
     * proprietor's gets, of what was asked for, what the caller holds and the table has.
     */
    method SetPermissions(c: Catalogue, op: Op) returns (done: bool)
      requires op.SetPermissions?
      modifies this`roles
      ensures Perform(c, old(View()), op) == if done then Some(View()) else None
      ensures !done ==> View() == old(View())
      ensures done ==>
        && roles.Keys == old(roles).Keys && op.role in roles && roles[op.role].slug != PROPRIETOR
        && (forall r | r in roles && r != op.role :: roles[r] == old(roles)[r])
        && roles[op.role].permissions <= Held(old(View()), op.caller) * c.installed - {PORTAL_ACCESS}
        && (forall key | key in op.keys && key in c.installed && Trim(key) == key != "" ::
              key in roles[op.role].permissions)
      ensures done <==>
        && op.role in old(roles) && old(roles)[op.role].slug != PROPRIETOR
        && forall key | key in op.keys :: MayGive(c, old(View()), op.caller, key)
      ensures done ==> Granted(c, Elements(op.keys), roles[op.role].permissions)
      ensures done && Seeded(c) && WellFormed(c, old(View())) ==>
        && WellFormed(c, View())
        && forall key | InUse(View(), key) && key != PORTAL_ACCESS :: InUse(old(View()), key)
    {
      SetPermissionsExactly(c, View(), op);
      if op.role !in roles || roles[op.role].slug == PROPRIETOR { return false; }
      var held := if op.caller in members && members[op.caller].role in roles
                  then roles[members[op.caller].role].permissions else {};
      var granted := MayGrant(c, held, Elements(op.keys));
      if granted.None? { return false; }
      roles := roles[op.role := roles[op.role].(permissions := {})];
      roles := roles[op.role := roles[op.role].(permissions := granted.value)];
      assert roles == old(roles)[op.role := old(roles)[op.role].(permissions := granted.value)];
      done := true;
      ghost var s := old(View());
      if Seeded(c) && WellFormed(c, s) {
        PerformKeepsWellFormed(c, s, op);
        forall key | InUse(View(), key) && key != PORTAL_ACCESS ensures InUse(s, key) {
          PerformGrantsNothingNew(c, s, op, key);
        }
      }
    }

    /** updateMany over the members of one role. */
    method MoveMembers(source: nat, target: nat)
      modifies this`members
      ensures members == Moved(old(View()), source, target)
    {
      var rest := members.Keys;
      while rest != {}
        invariant rest <= members.Keys == old(members).Keys
        invariant forall m | m in members ::
          members[m] == if m in rest then old(members)[m] else Moved(old(View()), source, target)[m]
      {
        var m :| m in rest;
        if members[m].role == source { members := members[m := members[m].(role := target)]; }
        rest := rest - {m};
      }
    }

    method Reassign(c: Catalogue, op: Op) returns (done: bool)
      requires op.Reassign?
      modifies this`members
      ensures Perform(c, old(View()), op) == if done then Some(View()) else None
      ensures !done ==> View() == old(View())
      ensures done <==>
        && op.source in roles && op.target in roles && op.source != op.target && op.caller in old(members)
        && (forall m | m in old(members) && old(members)[m].role == op.source ::
              old(members)[m].user != old(members)[op.caller].user)
        && MayPut(c, old(View()), op.caller, roles[op.target]) && roles[op.source].slug != PROPRIETOR
      ensures done ==>
        && members.Keys == old(members).Keys
        && forall m | m in members ::
             members[m] == Membership(old(members)[m].user,
                                      if old(members)[m].role == op.source then op.target else old(members)[m].role,
                                      old(members)[m].status)
    {
      ReassignExactly(c, View(), op);
      if op.source !in roles || op.target !in roles || op.source == op.target || op.caller !in members { return false; }
      if SelfAmong(State(roles, members), op.source, members[op.caller].user) { return false; }
      var held := if members[op.caller].role in roles then roles[members[op.caller].role].permissions else {};
      if !MayAssign(c, held, roles[op.target]) || roles[op.source].slug == PROPRIETOR { return false; }
      MoveMembers(op.source, op.target);
      done := true;
    }

    method Update(c: Catalogue, op: Op) returns (done: bool)
      requires op.Update?
      modifies this`members
      ensures Perform(c, old(View()), op) == if done then Some(View()) else None
      ensures !done ==> View() == old(View())
      ensures done ==>
        && op.member in old(members) && MembersKept(old(members), members, op.member) && op.member in members
        && members[op.member].user == old(members)[op.member].user
        && members[op.member].role == (if op.newRole.Some? then op.newRole.value else old(members)[op.member].role)
        && members[op.member].status == (if op.suspend.None? then old(members)[op.member].status
                                         else if op.suspend.value then SUSPENDED else ACTIVE)
    {
      UpdateExactly(c, View(), op);
      if op.member !in members || op.caller !in members { return false; }
      var current := members[op.member];
      var notLast := IsNotLast(op.member);
      var held := if members[op.caller].role in roles then roles[members[op.caller].role].permissions else {};
      if op.newRole.Some? && op.newRole.value != current.role {
        if op.newRole.value !in roles { return false; }
        if current.user == members[op.caller].user || !MayAssign(c, held, roles[op.newRole.value]) || !notLast {
          return false;
        }
      }
      if op.suspend == Some(true) && !notLast { return false; }
      var updated := current;
      if op.newRole.Some? { updated := updated.(role := op.newRole.value); }
      if op.suspend.Some? { updated := updated.(status := if op.suspend.value then SUSPENDED else ACTIVE); }
      members := members[op.member := updated];
      done := true;
    }

    method Revoke(op: Op) returns (done: bool)
      requires op.Revoke?
      modifies this`members
      ensures DoRevoke(old(View()), op) == if done then Some(View()) else None
      ensures !done ==> View() == old(View())
      ensures done <==>
        op.member in old(members) && (IsProprietor(old(View()), op.member) ==> TwoProprietors(old(View())))
      ensures done ==> Became(old(View()), View(), op.member, REVOKED)
    {
      if op.member in members { NotLastExactly(View(), op.member); }
      if op.member !in members { return false; }
      var notLast := IsNotLast(op.member);
      if !notLast { return false; }
      members := members[op.member := members[op.member].(status := REVOKED)];
      done := true;
    }
  }
}
